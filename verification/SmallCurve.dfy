/**
 A curve of five points on which the hypotheses of the signature theorems hold, with signatures that
 are usable: one whose s is low to begin with, and one whose s is flipped.
 */
module SmallCurve {
  import opened Wrappers
  import opened Congruences
  import opened Euclid
  import opened Primes
  import opened Curves
  import opened ScalarMultiples
  import opened PointEncoding
  import opened Ecdsa
  import opened SignatureLaws

  /** y^2 = x^3 + x + 1 modulo seven. */
  predicate IsSmall(c: Curve) { c == Curve(7, 1, 1) }

  /** The multiples of the base point. */
  function Nth(i: nat): Point
    requires i < 5
  {
    if i == 0 then Ideal else if i == 1 then Affine(0, 1) else if i == 2 then Affine(2, 5)
    else if i == 3 then Affine(2, 2) else Affine(0, 6)
  }

  lemma SmallDivisor(d: int, n: int)
    requires Divides(d, n) && d > 0 && n > 0
    ensures d <= n && n % d == 0
  {
    var k :| n == d * k;
    if k <= 0 { MulNonNegative(d, -k); }
    MulAtLeast(d, k);
    DivModUnique(n, d, k, 0);
  }

  lemma SevenAndFive()
    ensures Prime(7) && Prime(5)
  {
    forall d | Divides(d, 7) && d > 0 ensures d == 1 || d == 7 { SmallDivisor(d, 7); }
    forall d | Divides(d, 5) && d > 0 ensures d == 1 || d == 5 { SmallDivisor(d, 5); }
  }

  // ---------------------------------------------------------------- the points

  /** The residues of the equation at every coordinate. */
  predicate Solves(x: nat, y: nat) { (y * y) % 7 == (x * x * x + x + 1) % 7 }

  lemma OnCurveIs(c: Curve, x: nat, y: nat)
    requires IsSmall(c) && x < 7 && y < 7
    ensures OnCurve(c, Affine(x, y)) <==> Solves(x, y)
  {
  }

  lemma Solutions(x: nat, y: nat)
    requires x < 7 && y < 7
    ensures Solves(x, y) <==> (x == 0 && (y == 1 || y == 6)) || (x == 2 && (y == 2 || y == 5))
  {
    assert x == 0 || x == 1 || x == 2 || x == 3 || x == 4 || x == 5 || x == 6;
    assert y == 0 || y == 1 || y == 2 || y == 3 || y == 4 || y == 5 || y == 6;
  }

  lemma Bounded(c: Curve, s: Point)
    requires c.p > 0 && s.Affine? && OnCurve(c, s)
    ensures s.x < c.p && s.y < c.p
  {
    hide TestPoint;
  }

  lemma FivePoints(c: Curve, s: Point) returns (i: nat)
    requires IsSmall(c) && OnCurve(c, s)
    ensures i < 5 && s == Nth(i)
  {
    hide OnCurve;
    if s.Affine? {
      Bounded(c, s);
      OnCurveIs(c, s.x, s.y);
      Solutions(s.x, s.y);
      hide Solves;
      i := if s.x == 0 then (if s.y == 1 then 1 else 4) else if s.y == 5 then 2 else 3;
    } else {
      i := 0;
    }
  }

  lemma NthOnCurve(c: Curve, i: nat)
    requires IsSmall(c) && i < 5
    ensures OnCurve(c, Nth(i))
  {
    if i == 0 {
      IdealOnCurve(c);
    } else {
      hide OnCurve;
      OnCurveIs(c, Nth(i).x, Nth(i).y);
      Solutions(Nth(i).x, Nth(i).y);
      hide Solves;
    }
  }

  lemma IdealOnCurve(c: Curve)
    requires c.p > 0
    ensures OnCurve(c, Ideal)
  {
  }

  // ---------------------------------------------------------------- single sums, on any curve

  /** A quotient is the one residue that multiplies back. */
  lemma QuotientIs(p: nat, x: int, y: int, m: nat)
    requires Prime(p) && m < p && !Cong(p, y, 0) && Cong(p, m * y, x)
    ensures Quotient(p, x, y) == Ok(m)
  {
    hide Prime, Quotient, Cong;
    PrimeIsBig(p);
    QuotientWorks(p, x, y);
    var k := Quotient(p, x, y).value;
    CongThrough(p, x, x, x, x) by { SelfCong(p, x); }
    SameQuotient(p, k, m, y, x);
    CongReduced(p, k, m);
  }

  lemma SelfCong(p: nat, x: int)
    requires p > 0
    ensures Cong(p, x, x)
  {
  }

  lemma PrimeIsBig(p: nat)
    requires Prime(p)
    ensures p > 1
  {
  }

  lemma SameQuotient(p: nat, k: int, m: int, y: int, x: int)
    requires Prime(p) && p > 1 && !Cong(p, y, 0) && Cong(p, k * y, x) && Cong(p, m * y, x)
    ensures Cong(p, k, m)
  {
    hide Prime;
    assert Cong(p, k * y, m * y);
    hide Cong;
    CancelFactor(p, k, m, y);
  }

  /** The third point on a line of slope `m`, reduced. */
  lemma IntersectIs(c: Curve, x1: int, y1: int, x2: int, m: int, s: Point)
    requires c.p > 0 && s.Affine? && OnCurve(c, s)
    requires s.x == ThirdX(c.p, x1, x2, m) && s.y == (-ThirdY(c.p, x1, y1, m, s.x)) % c.p
    ensures Intersect(c, x1, y1, x2, m) == Ok(s)
  {
    Bounded(c, s);
    Reduced(c.p, s.x);
    hide ThirdX, ThirdY, Rhs;
  }

  lemma TangentIs(c: Curve, s: Point, m: nat, r: Point)
    requires c.p > 0 && s.Affine? && s.y != 0 && Quotient(c.p, 3 * s.x * s.x + c.a, 2 * s.y) == Ok(m)
    requires Intersect(c, s.x, s.y, s.x, m) == Ok(r)
    ensures Sum(c, s, s) == r
  {
    hide Quotient, Intersect;
  }

  lemma SecantIs(c: Curve, s: Point, t: Point, m: nat, r: Point)
    requires c.p > 0 && s.Affine? && t.Affine? && s.x != t.x && Quotient(c.p, t.y - s.y, t.x - s.x) == Ok(m)
    requires Intersect(c, s.x, s.y, t.x, m) == Ok(r)
    ensures Sum(c, s, t) == r
  {
    hide Quotient, Intersect;
  }

  lemma NegateIs(c: Curve, s: Point, t: Point)
    requires c.p > 0 && s.Affine? && t.Affine? && OnCurve(c, t) && s.x == t.x && s.y + t.y == c.p
    ensures Negate(c, s) == Ok(t)
  {
    Bounded(c, t);
    Reduced(c.p, t.x);
    DivModUnique(0 - s.y, c.p, -1, t.y);
    hide Rhs;
  }

  /** The opposites of two points add up to the opposite of their sum. */
  lemma MirroredSum(c: Curve, s: Point, t: Point, s': Point, t': Point, r': Point)
    requires OddField(c) && OnCurve(c, s) && OnCurve(c, t) && Negate(c, s) == Ok(s') && Negate(c, t) == Ok(t')
    requires Negate(c, Sum(c, s, t)) == Ok(r')
    ensures Sum(c, s', t') == r'
  {
    hide Add, OnCurve, Negate;
    SumClosed(c, s, t);
    NegateAdd(c, s, t);
  }

  lemma OppositeSum(c: Curve, s: Point, t: Point)
    requires OddField(c) && OnCurve(c, s) && Negate(c, s) == Ok(t)
    ensures Sum(c, s, t) == Ideal
  {
    hide Add, OnCurve, Negate;
    InverseCancels(c, s);
  }

  // ---------------------------------------------------------------- the group is cyclic of order five

  function Wrap(i: nat): nat { if i < 5 then i else i - 5 }

  lemma WrapIs(i: nat)
    ensures Wrap(i) == if i < 5 then i else i - 5
  {
  }

  ghost predicate SumAt(c: Curve, i: nat, j: nat)
    requires c.p > 0 && i < 5 && j < 5
  {
    Sum(c, Nth(i), Nth(j)) == Nth(Wrap(i + j))
  }

  /** What is needed of the curve from here on. */
  ghost predicate Opposites(c: Curve) {
    && OddField(c)
    && (forall i: nat :: i < 5 ==> OnCurve(c, Nth(i)))
    && (forall i: nat :: 0 < i < 5 ==> Negate(c, Nth(i)) == Ok(Nth(5 - i)))
  }

  lemma OppositesHold(c: Curve)
    requires IsSmall(c)
    ensures Opposites(c)
  {
    SevenAndFive();
    hide Prime, OnCurve, Negate, Nth;
    forall i: nat | i < 5 ensures OnCurve(c, Nth(i)) { NthOnCurve(c, i); }
    forall i: nat | 0 < i < 5 ensures Negate(c, Nth(i)) == Ok(Nth(5 - i)) { NthNegate(c, i); }
  }

  lemma NthNegate(c: Curve, i: nat)
    requires IsSmall(c) && 0 < i < 5
    ensures Negate(c, Nth(i)) == Ok(Nth(5 - i))
  {
    hide OnCurve, Negate;
    NthOnCurve(c, 5 - i);
    NegateIs(c, Nth(i), Nth(5 - i));
  }

  lemma SlopesAre(c: Curve)
    requires IsSmall(c)
    ensures Quotient(c.p, 3 * Nth(1).x * Nth(1).x + c.a, 2 * Nth(1).y) == Ok(4)
    ensures Quotient(c.p, Nth(2).y - Nth(1).y, Nth(2).x - Nth(1).x) == Ok(2)
    ensures Quotient(c.p, Nth(3).y - Nth(1).y, Nth(3).x - Nth(1).x) == Ok(4)
    ensures Quotient(c.p, 3 * Nth(2).x * Nth(2).x + c.a, 2 * Nth(2).y) == Ok(2)
  {
    hide Prime, Quotient;
    SevenAndFive();
    QuotientIs(c.p, 1, 2, 4);
    QuotientIs(c.p, 4, 2, 2);
    QuotientIs(c.p, 13, 10, 2);
  }

  lemma LineMeets(c: Curve, x1: nat, y1: nat, x2: nat, m: nat, i: nat)
    requires IsSmall(c) && 0 < i < 5
    requires Nth(i).x == (m * m - x2 - x1) % 7 && Nth(i).y == (-((m * (Nth(i).x - x1) + y1) % 7)) % 7
    ensures Intersect(c, x1, y1, x2, m) == Ok(Nth(i))
  {
    hide OnCurve, Intersect;
    NthOnCurve(c, i);
    IntersectIs(c, x1, y1, x2, m, Nth(i));
  }

  lemma LinesMeet(c: Curve)
    requires IsSmall(c)
    ensures Intersect(c, Nth(1).x, Nth(1).y, Nth(1).x, 4) == Ok(Nth(2))
    ensures Intersect(c, Nth(1).x, Nth(1).y, Nth(2).x, 2) == Ok(Nth(3))
    ensures Intersect(c, Nth(1).x, Nth(1).y, Nth(3).x, 4) == Ok(Nth(4))
    ensures Intersect(c, Nth(2).x, Nth(2).y, Nth(2).x, 2) == Ok(Nth(4))
  {
    hide Intersect;
    LineMeets(c, 0, 1, 0, 4, 2);
    LineMeets(c, 0, 1, 2, 2, 3);
    LineMeets(c, 0, 1, 2, 4, 4);
    LineMeets(c, 2, 5, 2, 2, 4);
  }

  lemma BaseSums(c: Curve)
    requires IsSmall(c)
    ensures SumAt(c, 1, 1) && SumAt(c, 1, 2) && SumAt(c, 1, 3) && SumAt(c, 2, 2)
  {
    hide Quotient, Intersect, Sum;
    SlopesAre(c);
    LinesMeet(c);
    TangentIs(c, Nth(1), 4, Nth(2));
    SecantIs(c, Nth(1), Nth(2), 2, Nth(3));
    SecantIs(c, Nth(1), Nth(3), 4, Nth(4));
    TangentIs(c, Nth(2), 2, Nth(4));
  }

  ghost predicate BaseSumsAt(c: Curve) {
    c.p > 0 && SumAt(c, 1, 1) && SumAt(c, 1, 2) && SumAt(c, 1, 3) && SumAt(c, 2, 2)
  }

  lemma SumSwaps(c: Curve, i: nat, j: nat)
    requires Opposites(c) && i < 5 && j < 5 && SumAt(c, i, j)
    ensures SumAt(c, j, i)
  {
    hide Add, OnCurve, Nth, Negate, Prime;
    SumClosed(c, Nth(i), Nth(j));
    hide Sum;
  }

  lemma SumMirrored(c: Curve, i: nat, j: nat)
    requires Opposites(c) && 0 < i < 5 && 0 < j < 5 && i + j < 5 && SumAt(c, i, j)
    ensures SumAt(c, 5 - i, 5 - j)
  {
    hide Sum, OnCurve, Nth, Negate, Prime;
    MirroredSum(c, Nth(i), Nth(j), Nth(5 - i), Nth(5 - j), Nth(5 - (i + j)));
  }

  lemma SumOpposite(c: Curve, i: nat)
    requires Opposites(c) && 0 < i < 5
    ensures SumAt(c, i, 5 - i)
  {
    NthIdeal();
    hide Sum, OnCurve, Nth, Negate, Prime;
    OppositeSum(c, Nth(i), Nth(5 - i));
  }

  lemma SumIdeal(c: Curve, j: nat)
    requires c.p > 0 && j < 5
    ensures SumAt(c, 0, j)
  {
    NthIdeal();
    IdealSum(c, Nth(j));
    hide Sum, Nth;
  }

  lemma NthIdeal()
    ensures Nth(0) == Ideal
  {
  }

  lemma SumTable(c: Curve, i: nat, j: nat)
    requires Opposites(c) && BaseSumsAt(c) && i <= j < 5
    ensures SumAt(c, i, j)
  {
    hide SumAt, Opposites;
    if i == 0 {
      SumIdeal(c, j);
    } else if i + j == 5 {
      SumOpposite(c, i);
    } else if i + j > 5 {
      SumMirrored(c, 5 - j, 5 - i);
      SumSwaps(c, j, i);
    }
  }

  /** The sums of the points are those of their indices. */
  ghost predicate Cyclic(c: Curve) { c.p > 0 && forall i: nat, j: nat :: i < 5 && j < 5 ==> SumAt(c, i, j) }

  lemma SmallIsCyclic(c: Curve)
    requires IsSmall(c)
    ensures Cyclic(c)
  {
    hide SumAt, Opposites;
    OppositesHold(c);
    BaseSums(c);
    forall i: nat, j: nat | i < 5 && j < 5 ensures SumAt(c, i, j) {
      SumTable(c, if i <= j then i else j, if i <= j then j else i);
      if i > j { SumSwaps(c, j, i); }
    }
  }

  lemma IndicesAssociate(c: Curve, i: nat, j: nat, k: nat)
    requires Cyclic(c) && i < 5 && j < 5 && k < 5
    ensures Sum(c, Sum(c, Nth(i), Nth(j)), Nth(k)) == Sum(c, Nth(i), Sum(c, Nth(j), Nth(k)))
  {
    hide Sum, Nth;
    assert SumAt(c, i, j) && SumAt(c, j, k);
    assert SumAt(c, Wrap(i + j), k) && SumAt(c, i, Wrap(j + k));
  }

  lemma SmallAssociates(c: Curve)
    requires IsSmall(c)
    ensures Associative(c)
  {
    SmallIsCyclic(c);
    hide Sum, OnCurve, Cyclic, Nth, IsSmall;
    forall s, t, u | OnCurve(c, s) && OnCurve(c, t) && OnCurve(c, u)
      ensures Sum(c, Sum(c, s, t), u) == Sum(c, s, Sum(c, t, u))
    {
      var i := FivePoints(c, s);
      var j := FivePoints(c, t);
      var k := FivePoints(c, u);
      IndicesAssociate(c, i, j, k);
    }
  }

  lemma {:induction false} Multiples(c: Curve, n: nat, one: nat)
    requires Cyclic(c) && n <= 5 && one == 1
    ensures Times(c, n, Nth(one)) == Nth(Wrap(n))
    decreases n
  {
    if n > 0 {
      Multiples(c, n - 1, one);
      TimesStep(c, n, Nth(one));
      hide Sum, Nth, Times;
      assert SumAt(c, one, n - 1);
    } else {
      NthIdeal();
      TimesOne(c, Nth(one));
    }
  }

  // ---------------------------------------------------------------- signatures

  predicate IsSmallSetup(e: Setup) { IsSmall(e.c) && e.g == Nth(1) && e.n == 5 }

  lemma SetupSound(e: Setup)
    requires IsSmallSetup(e)
    ensures Sound(e)
  {
    hide Associative, Times, Pow, Prime, OnCurve, Cyclic;
    SevenAndFive();
    SmallAssociates(e.c);
    SmallIsCyclic(e.c);
    NthIdeal();
    NthOnCurve(e.c, 1);
    Multiples(e.c, 5, 1);
    FieldFits(e.c.p);
  }

  /** Three is the inverse of two modulo five. */
  lemma HalfIs(a: nat, n: nat)
    requires a == 2 && n == 5
    ensures Inv(a, n) == 3
  {
    hide Prime, Inv;
    SevenAndFive();
    InvWorks(n, a);
    var i := Inv(a, n);
    if i == 1 { } else if i == 2 { } else if i == 4 { }
  }

  /** A signature that the theorems are about. */
  ghost predicate Usable(e: Setup, z: nat, d: nat, k: nat, drawn: nat)
    requires e.c.p > 0 && e.n > 0
  {
    && Sound(e) && Times(e.c, d, e.g).Affine?
    && var g := Sign(e, z, d, k, drawn);
      g.r % e.n != 0 && g.s != 0
  }

  /** What the five points make of a signature with the nonce two and the key one. */
  lemma SignatureIs(e: Setup, z: nat, k: nat, d: nat)
    requires IsSmallSetup(e) && k == 2 && d == 1
    ensures Times(e.c, k, e.g) == Affine(2, 5) && Times(e.c, d, e.g).Affine?
    ensures RawS(e.n, k, z, 2, d) == 3 * (z + 2) % 5
  {
    hide Times, Inv, Cyclic;
    SmallIsCyclic(e.c);
    Multiples(e.c, k, 1);
    Multiples(e.c, d, 1);
    HalfIs(k, e.n);
  }

  /**
   All hypotheses of the signature theorems hold together: for a signature whose s is low at once, and
   for one whose s is flipped.
   */
  lemma HypothesesCanHold(e: Setup, k: nat, d: nat)
    requires e == Setup(Curve(7, 1, 1), Affine(0, 1), 5) && k == 2 && d == 1
    ensures Usable(e, 0, d, k, 0) && RawS(e.n, k, 0, 2, d) == 1 && Sign(e, 0, d, k, 0) == Signature(1, 2, 1)
    ensures Usable(e, 1, d, k, 0) && RawS(e.n, k, 1, 2, d) == 4 && Sign(e, 1, d, k, 0) == Signature(0, 2, 1)
  {
    hide Sound, Times, Inv, RawS;
    SetupSound(e);
    SignatureIs(e, 0, k, d);
    SignatureIs(e, 1, k, d);
  }

  /** The order of the base point annihilates all its multiples. */
  lemma MultipleAnnihilated(e: Setup, i: nat)
    requires Sound(e)
    ensures Times(e.c, e.n, Times(e.c, i, e.g)) == Ideal
  {
    hide *;
    Basics(e);
    MulNat(e, i);
    MulScale(e, e.n, i);
    MulNat(e, 0);
    AddMultiple(e.n, 0, i);
    MulCong(e, e.n * i, 0);
    TimesOne(e.c, e.g);
  }

  lemma NthIsMultiple(e: Setup, i: nat)
    requires IsSmallSetup(e) && i < 5
    ensures Nth(i) == Times(e.c, i, e.g)
  {
    SmallIsCyclic(e.c);
    Multiples(e.c, i, 1);
    WrapIs(i);
    hide Nth, Cyclic, Times;
  }

  /** The five points are all there are, and the order annihilates them. */
  lemma SetupWhole(e: Setup)
    requires IsSmallSetup(e)
    ensures Whole(e)
  {
    SetupSound(e);
    hide Sound, Times, OnCurve, Nth;
    forall q | OnCurve(e.c, q) ensures Times(e.c, e.n, q) == Ideal {
      var i := FivePoints(e.c, q);
      NthIsMultiple(e, i);
      MultipleAnnihilated(e, i);
    }
  }

  /** A coordinate above the modulus: recovery reduces it and finds a key, and verification refuses it. */
  lemma LargeCoordinate(e: Setup, r: nat)
    requires IsSmallSetup(e) && r == 9
    ensures Recover(e, 0, 0, r, 1).Ok? && !Verify(e, 0, r, 1, Recover(e, 0, 0, r, 1).value)
  {
    SetupSound(e);
    SetupWhole(e);
    LargeBalanced(e, r);
    hide Sound, Whole, IsSmall, Recover, Verify, Balanced;
    PointsAre(e);
    RecoverExactly(e, 0, 0, r, 1, EncodePublicKey(2, 5));
    assert Recovers(e, 0, 0, r, 1, Affine(2, 2), Affine(2, 5));
    RecoverThenVerify(e, 0, 0, r, 1);
  }

  lemma PointsAre(e: Setup)
    requires IsSmallSetup(e)
    ensures e.c.p == 7 && e.n == 5 && OnCurve(e.c, Affine(2, 2)) && OnCurve(e.c, Affine(2, 5))
  {
    NthOnCurve(e.c, 2);
    NthOnCurve(e.c, 3);
    hide OnCurve;
  }

  lemma LargeBalanced(e: Setup, r: nat)
    requires IsSmallSetup(e) && r == 9
    ensures Balanced(e, 0, r, 1, Affine(2, 2), Affine(2, 5))
  {
    SetupSound(e);
    NthIsMultiple(e, 2);
    NthIsMultiple(e, 3);
    hide Sound, Times, Sum;
    MulNat(e, 2);
    MulNat(e, 3);
    MulScale(e, r, 2);
    assert r * 2 == 18 && Cong(5, 18, 3);
    MulCong(e, r * 2, 3);
    TimesOne(e.c, e.g);
    TimesOne(e.c, Affine(2, 2));
    IdealSum(e.c, Mul(e, 3));
  }

  lemma FieldFits(p: nat)
    requires p == 7
    ensures p <= Pow(256, 32)
  {
    assert Pow(256, 1) == 256 * Pow(256, 0);
    PowGrows(1, 32);
  }

  lemma {:induction false} PowGrows(i: nat, j: nat)
    requires 1 <= i <= j
    ensures Pow(256, j) >= Pow(256, i) >= 1
    decreases j
  {
    if i < j { PowGrows(i, j - 1); } else if i > 1 { PowGrows(i - 1, i - 1); }
  }

  /** Modulo seven a string with the odd sign for the root zero is decoded, and does not encode back to itself. */
  lemma OddSignOfZero()
    ensures Deser(7, OddString(0)) == Ok(Affine(0, 0)) && Ser(7, Affine(0, 0)) != Ok(OddString(0))
  {
    SevenAndFive();
    WrongSignModuloSeven();
    hide Deser, Ser, OddString;
  }
}
