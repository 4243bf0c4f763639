/** The field of polynomials over Z/p modulo a fixed one, and powers modulo a polynomial. */
module ExtensionFields {
  import opened Wrappers
  import opened Congruences
  import opened Euclid
  import opened Primes
  import opened Bits
  import opened Polynomials
  import opened PolynomialFields
  import opened FiniteFields

  // ---------------------------------------------------------------- the remainder as a function

  /** Long division by recursion on the length of the dividend. */
  ghost function Divide(p: int, a: Poly, d: Poly): (o: (Poly, Poly))
    requires Prime(p) && Normal(p, a) && Normal(p, d) && d != []
    ensures IsDivision(p, a, d, o.0, o.1)
    decreases |a|
  {
    if |a| < |d| then
      AlreadyReduced(p, a, d);
      ([], a)
    else
      var c := a[|a| - 1] * Inverse(p, d[|d| - 1]) % p;
      var mono := Norm(p, Monomial(c, |a| - |d|));
      var rest := Difference(p, a, Product(p, mono, d));
      MonomialStep(p, a, d, c, |a| - |d|, mono, Product(p, mono, d));
      var (q, r) := Divide(p, rest, d);
      UndoStep(p, a, d, q, r, mono, rest);
      (Sum(p, q, mono), r)
  }

  lemma AlreadyReduced(p: int, a: Poly, d: Poly)
    requires p > 0 && Normal(p, a) && |a| < |d|
    ensures IsDivision(p, a, d, [], a)
  {
    assert PCong(p, a, Plus(Times([], d), a));
  }

  lemma UndoStep(p: int, a: Poly, d: Poly, q: Poly, r: Poly, m: Poly, rest: Poly)
    requires p > 0 && PCong(p, rest, Minus(a, Times(m, d))) && PCong(p, rest, Plus(Times(q, d), r))
    ensures PCong(p, a, Plus(Times(Sum(p, q, m), d), r))
  {
    forall k: int ensures Cong(p, Coef(a, k), Coef(Plus(Times(Sum(p, q, m), d), r), k)) {
      UndoStepAt(p, a, d, q, r, m, rest, k);
      PlusSumAt(p, a, Times(Sum(p, q, m), d), r, k);
    }
    hide Cong, CongSum, Coef, Plus, Times;
  }

  lemma MinusCongAt(p: int, a: Poly, b: Poly, c: Poly, k: int)
    requires p > 0 && PCong(p, a, Minus(b, c))
    ensures CongDifference(p, Coef(a, k), Coef(b, k), Coef(c, k))
  {
    assert Cong(p, Coef(a, k), Coef(Minus(b, c), k));
    assert Coef(Minus(b, c), k) == Coef(b, k) - Coef(c, k);
    hide Minus, Coef;
  }

  lemma SumTimesAt(p: int, q: Poly, m: Poly, d: Poly, k: int)
    requires p > 0
    ensures CongSum(p, Coef(Times(Sum(p, q, m), d), k), Coef(Times(q, d), k), Coef(Times(m, d), k))
  {
    hide Times, Plus, Coef, Cong, PCong;
    TimesCommutes(Sum(p, q, m), d, k);
    TimesPlusCongAt(p, d, Sum(p, q, m), q, m, k);
    TimesCommutes(q, d, k);
    TimesCommutes(m, d, k);
  }

  lemma UndoStepAt(p: int, a: Poly, d: Poly, q: Poly, r: Poly, m: Poly, rest: Poly, k: int)
    requires p > 0 && PCong(p, rest, Minus(a, Times(m, d))) && PCong(p, rest, Plus(Times(q, d), r))
    ensures CongSum(p, Coef(a, k), Coef(Times(Sum(p, q, m), d), k), Coef(r, k))
  {
    hide *;
    SumTimesAt(p, q, m, d, k);
    MinusCongAt(p, rest, a, Times(m, d), k);
    PlusCongAt(p, rest, Times(q, d), r, k);
    Undo(p, Coef(a, k), Coef(rest, k), Coef(Times(m, d), k), Coef(Times(q, d), k),
         Coef(r, k), Coef(Times(Sum(p, q, m), d), k));
  }

  lemma Undo(p: int, a: int, rest: int, md: int, qd: int, r: int, sd: int)
    requires p > 0 && CongDifference(p, rest, a, md) && CongSum(p, rest, qd, r) && CongSum(p, sd, qd, md)
    ensures CongSum(p, a, sd, r)
  {
    CongAdd(p, a - md, qd + r, md, md);
    CongAdd(p, sd, qd + md, r, r);
  }

  ghost function Rem(p: int, a: Poly, d: Poly): (r: Poly)
    requires Prime(p) && Normal(p, a) && Normal(p, d) && d != []
    ensures Normal(p, r) && |r| < |d|
  {
    Divide(p, a, d).1
  }

  /** The loop computes the same remainder. */
  method Modulo(p: int, a: Poly, d: Poly) returns (r: Poly)
    requires Prime(p) && Normal(p, a) && Normal(p, d) && d != []
    ensures r == Rem(p, a, d)
  {
    var division := DivMod(p, a, d);
    DivisionUnique(p, a, d, division.value.0, division.value.1, Divide(p, a, d).0, Divide(p, a, d).1);
    return division.value.1;
  }

  // ---------------------------------------------------------------- congruence modulo a polynomial

  /** `a` and `b` differ by a multiple of `m`. */
  ghost predicate MCong(p: int, m: Poly, a: Poly, b: Poly)
    requires p > 0
  {
    exists k: Poly :: PCong(p, a, Plus(Times(k, m), b))
  }

  lemma MCongBy(p: int, m: Poly, a: Poly, b: Poly, k: Poly)
    requires p > 0 && PCong(p, a, Plus(Times(k, m), b))
    ensures MCong(p, m, a, b)
  {
  }

  lemma RemCong(p: int, a: Poly, m: Poly)
    requires Prime(p) && Normal(p, a) && Normal(p, m) && m != []
    ensures MCong(p, m, a, Rem(p, a, m))
  {
    MCongBy(p, m, a, Rem(p, a, m), Divide(p, a, m).0);
  }

  lemma PCongIsMCong(p: int, m: Poly, a: Poly, b: Poly)
    requires p > 0 && PCong(p, a, b)
    ensures MCong(p, m, a, b)
  {
    assert Same(Plus(Times([], m), b), b);
    MCongBy(p, m, a, b, []);
  }

  lemma MCongSym(p: int, m: Poly, a: Poly, b: Poly)
    requires p > 0 && MCong(p, m, a, b)
    ensures MCong(p, m, b, a)
  {
    var k: Poly :| PCong(p, a, Plus(Times(k, m), b));
    var n := ScaleBy(-1, k);
    forall i: int ensures Cong(p, Coef(b, i), Coef(Plus(Times(n, m), a), i)) {
      TimesScaleLeft(-1, k, m, i);
      PlusCongAt(p, a, Times(k, m), b, i);
      var t := Coef(Times(k, m), i);
      CongAdd(p, t + Coef(b, i), Coef(a, i), t, t);
    }
    MCongBy(p, m, b, a, n);
  }

  lemma MCongTrans(p: int, m: Poly, a: Poly, b: Poly, c: Poly)
    requires p > 0 && MCong(p, m, a, b) && MCong(p, m, b, c)
    ensures MCong(p, m, a, c)
  {
    var k: Poly :| PCong(p, a, Plus(Times(k, m), b));
    var l: Poly :| PCong(p, b, Plus(Times(l, m), c));
    forall i: int ensures Cong(p, Coef(a, i), Coef(Plus(Times(Plus(k, l), m), c), i)) {
      TransAt(p, m, a, b, c, k, l, i);
      PlusSumAt(p, a, Times(Plus(k, l), m), c, i);
    }
    hide Times, Plus, Coef, Cong, CongSum;
    MCongBy(p, m, a, c, Plus(k, l));
  }

  lemma TransAt(p: int, m: Poly, a: Poly, b: Poly, c: Poly, k: Poly, l: Poly, i: int)
    requires p > 0 && PCong(p, a, Plus(Times(k, m), b)) && PCong(p, b, Plus(Times(l, m), c))
    ensures CongSum(p, Coef(a, i), Coef(Times(Plus(k, l), m), i), Coef(c, i))
  {
    hide Times, Plus, Coef, PCong, Cong;
    TimesPlusLeft(k, l, m, i);
    PlusCongAt(p, a, Times(k, m), b, i);
    PlusCongAt(p, b, Times(l, m), c, i);
    AddTwice(p, Coef(a, i), Coef(Times(k, m), i), Coef(b, i), Coef(Times(l, m), i), Coef(c, i));
  }

  lemma AddTwice(p: int, a: int, km: int, b: int, lm: int, c: int)
    requires p > 0 && CongSum(p, a, km, b) && CongSum(p, b, lm, c)
    ensures CongSum(p, a, km + lm, c)
  {
    CongAdd(p, b, lm + c, km, km);
  }

  /** A factor on the left may be replaced by a congruent one. */
  lemma MCongTimesLeft(p: int, m: Poly, a: Poly, b: Poly, c: Poly)
    requires p > 0 && MCong(p, m, a, b)
    ensures MCong(p, m, Times(a, c), Times(b, c))
  {
    var k: Poly :| PCong(p, a, Plus(Times(k, m), b));
    forall i: int ensures Cong(p, Coef(Times(a, c), i), Coef(Plus(Times(Times(c, k), m), Times(b, c)), i)) {
      FactorAt(p, m, a, b, c, k, i);
      PlusSumAt(p, Times(a, c), Times(Times(c, k), m), Times(b, c), i);
    }
    hide Times, Plus, Coef, Cong, CongSum;
    MCongBy(p, m, Times(a, c), Times(b, c), Times(c, k));
  }

  lemma FactorAt(p: int, m: Poly, a: Poly, b: Poly, c: Poly, k: Poly, i: int)
    requires p > 0 && PCong(p, a, Plus(Times(k, m), b))
    ensures CongSum(p, Coef(Times(a, c), i), Coef(Times(Times(c, k), m), i), Coef(Times(b, c), i))
  {
    hide *;
    TimesCommutes(a, c, i);
    TimesCommutes(b, c, i);
    TimesPlusCongAt(p, c, a, Times(k, m), b, i);
    TimesAssociates(c, k, m, i);
  }

  lemma MCongTimes(p: int, m: Poly, a: Poly, b: Poly, c: Poly, d: Poly)
    requires p > 0 && MCong(p, m, a, b) && MCong(p, m, c, d)
    ensures MCong(p, m, Times(a, c), Times(b, d))
  {
    hide *;
    MCongTimesLeft(p, m, a, b, c);
    MCongTimesLeft(p, m, c, d, b);
    TimesSym(p, m, b, c);
    TimesSym(p, m, d, b);
    MCongTrans(p, m, Times(a, c), Times(b, c), Times(c, b));
    MCongTrans(p, m, Times(a, c), Times(c, b), Times(d, b));
    MCongTrans(p, m, Times(a, c), Times(d, b), Times(b, d));
  }

  lemma TimesSym(p: int, m: Poly, a: Poly, b: Poly)
    requires p > 0
    ensures MCong(p, m, Times(a, b), Times(b, a))
  {
    forall k: int ensures Coef(Times(a, b), k) == Coef(Times(b, a), k) { TimesCommutes(a, b, k); }
    SameIsCong(p, Times(a, b), Times(b, a));
    PCongIsMCong(p, m, Times(a, b), Times(b, a));
  }

  /** Congruent polynomials that are both shorter than the modulus are equal. */
  lemma RemUnique(p: int, m: Poly, a: Poly, b: Poly)
    requires Prime(p) && Normal(p, m) && Normal(p, a) && Normal(p, b) && |a| < |m| && |b| < |m| && MCong(p, m, a, b)
    ensures a == b
  {
    var k: Poly :| PCong(p, a, Plus(Times(k, m), b));
    var q := Norm(p, k);
    PCongRefl(p, m);
    PCongRefl(p, b);
    PCongTimes(p, k, q, m, m) by { PCongTrans(p, q, k, k) by { PCongRefl(p, k); } }
    PCongPlus(p, Times(k, m), Times(q, m), b, b);
    PCongTrans(p, a, Plus(Times(k, m), b), Plus(Times(q, m), b));
    AlreadyReduced(p, a, m);
    DivisionUnique(p, a, m, [], a, q, b);
  }

  // ---------------------------------------------------------------- the field of residues modulo a polynomial

  ghost predicate Element(p: int, m: Poly, a: Poly) { Normal(p, a) && |a| < |m| }

  /** Multiplication of two elements. */
  ghost function Multiplied(p: int, m: Poly, a: Poly, b: Poly): (r: Poly)
    requires Prime(p) && Normal(p, m) && m != []
    ensures Element(p, m, r)
  {
    Rem(p, Product(p, a, b), m)
  }

  /** No divisor of `m` but constants and polynomials of its own degree. */
  ghost predicate Irreducible(p: int, m: Poly)
    requires p > 0
  {
    forall c :: Normal(p, c) && PDivides(p, c, m) ==> |c| == 1 || |c| == |m|
  }

  lemma MultipliedCong(p: int, m: Poly, a: Poly, b: Poly)
    requires Prime(p) && Normal(p, m) && m != []
    ensures MCong(p, m, Times(a, b), Multiplied(p, m, a, b))
  {
    RemCong(p, Product(p, a, b), m);
    PCongIsMCong(p, m, Product(p, a, b), Times(a, b));
    MCongSym(p, m, Product(p, a, b), Times(a, b));
    MCongTrans(p, m, Times(a, b), Product(p, a, b), Multiplied(p, m, a, b));
  }

  /** An element times a Bezout coefficient times the inverse of their constant is one. */
  lemma BezoutIsOne(p: int, m: Poly, a: Poly, x: Poly, y: Poly, d: Poly, c: int)
    requires p > 0 && PCong(p, d, Plus(Times(a, x), Times(m, y))) && |d| == 1 && Cong(p, d[0] * c, 1)
    ensures MCong(p, m, Times(a, Times(x, [c])), [1])
  {
    BezoutModulo(p, m, a, x, y, d);
    OneConstant(p, m, d, c);
    PCongRefl(p, [c]);
    forall k: int ensures Coef(Times(a, Times(x, [c])), k) == Coef(Times(Times(a, x), [c]), k) {
      TimesAssociates(a, x, [c], k);
    }
    SameIsCong(p, Times(a, Times(x, [c])), Times(Times(a, x), [c]));
    hide *;
    PCongIsMCong(p, m, [c], [c]);
    PCongIsMCong(p, m, Times(a, Times(x, [c])), Times(Times(a, x), [c]));
    MCongTimes(p, m, Times(a, x), d, [c], [c]);
    MCongTrans(p, m, Times(Times(a, x), [c]), Times(d, [c]), [1]);
    MCongTrans(p, m, Times(a, Times(x, [c])), Times(Times(a, x), [c]), [1]);
  }

  /** The same after the reductions the program makes on the way. */
  lemma InverseChain(p: int, m: Poly, a: Poly, x: Poly, y: Poly, d: Poly, c: int, fx: Poly, r: Poly)
    requires Prime(p) && Normal(p, m) && |m| >= 2 && Element(p, m, a) && Element(p, m, r)
    requires PCong(p, d, Plus(Times(a, x), Times(m, y))) && |d| == 1 && Cong(p, d[0] * c, 1)
    requires MCong(p, m, x, fx) && MCong(p, m, Times(fx, [c]), r)
    ensures Multiplied(p, m, a, r) == [1]
  {
    MultipliedCong(p, m, a, r);
    OneIsNormal(p);
    PCongRefl(p, [c]);
    PCongRefl(p, a);
    BezoutIsOne(p, m, a, x, y, d, c);
    assert Normal(p, Multiplied(p, m, a, r)) && |Multiplied(p, m, a, r)| < |m|;
    hide *;
    PCongIsMCong(p, m, [c], [c]);
    PCongIsMCong(p, m, a, a);
    MCongTimes(p, m, x, fx, [c], [c]);
    MCongTrans(p, m, Times(x, [c]), Times(fx, [c]), r);
    MCongTimes(p, m, a, a, Times(x, [c]), r);
    MCongTrans(p, m, Times(a, Times(x, [c])), Times(a, r), Multiplied(p, m, a, r));
    MCongSym(p, m, Times(a, Times(x, [c])), [1]);
    MCongTrans(p, m, [1], Times(a, Times(x, [c])), Multiplied(p, m, a, r));
    MCongSym(p, m, [1], Multiplied(p, m, a, r));
    RemUnique(p, m, Multiplied(p, m, a, r), [1]);
  }

  lemma OneIsNormal(p: int)
    requires Prime(p)
    ensures Normal(p, [1])
  {
  }

  lemma OneConstant(p: int, m: Poly, d: Poly, c: int)
    requires p > 0 && |d| == 1 && Cong(p, d[0] * c, 1)
    ensures MCong(p, m, Times(d, [c]), [1])
  {
    forall k: int ensures Cong(p, Coef(Times(d, [c]), k), Coef([1], k)) {
      TimesCoef(d, [c], k);
      assert Tail(d) == [];
    }
    PCongIsMCong(p, m, Times(d, [c]), [1]);
  }

  lemma BezoutModulo(p: int, m: Poly, a: Poly, x: Poly, y: Poly, d: Poly)
    requires p > 0 && PCong(p, d, Plus(Times(a, x), Times(m, y)))
    ensures MCong(p, m, Times(a, x), d)
  {
    forall k: int ensures Cong(p, Coef(d, k), Coef(Plus(Times(y, m), Times(a, x)), k)) {
      BezoutAt(p, m, a, x, y, d, k);
      PlusSumAt(p, d, Times(y, m), Times(a, x), k);
    }
    hide Times, Plus, Coef, Cong, CongSum;
    MCongBy(p, m, d, Times(a, x), y);
    MCongSym(p, m, d, Times(a, x));
  }

  lemma BezoutAt(p: int, m: Poly, a: Poly, x: Poly, y: Poly, d: Poly, k: int)
    requires p > 0 && PCong(p, d, Plus(Times(a, x), Times(m, y)))
    ensures CongSum(p, Coef(d, k), Coef(Times(y, m), k), Coef(Times(a, x), k))
  {
    hide Times, Plus, Coef, Cong, PCong;
    PlusCongAt(p, d, Times(a, x), Times(m, y), k);
    TimesCommutes(m, y, k);
  }

  /** If `a` has an inverse then every common divisor of `a` and the modulus is a constant. */
  lemma InvertibleMeansCoprime(p: int, m: Poly, a: Poly, b: Poly, d: Poly)
    requires Prime(p) && Normal(p, m) && |m| >= 2 && Normal(p, d) && PCommon(p, d, a, m)
    requires Multiplied(p, m, a, b) == [1]
    ensures |d| == 1
  {
    PrimeIsPositive(p);
    hide Multiplied, Times, Coef, Plus, Normal, Prime, PDivides, Cong, PCong;
    MultipliedCong(p, m, a, b);
    MCongSym(p, m, Times(a, b), [1]);
    var k: Poly :| PCong(p, [1], Plus(Times(k, m), Times(a, b)));
    hide *;
    SwapTerms(p, [1], k, m, a, b);
    CommonFactors(p, d, a, m);
    PDividesCombination(p, d, a, b, m, k, [1]);
    DivisorOfOne(p, d);
  }

  lemma SwapTerms(p: int, r: Poly, k: Poly, m: Poly, a: Poly, b: Poly)
    requires p > 0 && PCong(p, r, Plus(Times(k, m), Times(a, b)))
    ensures PCong(p, r, Plus(Times(b, a), Times(k, m)))
  {
    hide Times, Plus;
    forall i: int ensures Cong(p, Coef(r, i), Coef(Plus(Times(b, a), Times(k, m)), i)) {
      TimesCommutes(a, b, i);
      assert Cong(p, Coef(r, i), Coef(Plus(Times(k, m), Times(a, b)), i));
    }
  }

  lemma CommonFactors(p: int, d: Poly, a: Poly, m: Poly)
    requires p > 0 && PCommon(p, d, a, m)
    ensures PDivides(p, d, a) && PDivides(p, d, m)
  {
    hide PDivides;
  }

  lemma PrimeIsPositive(p: int)
    requires Prime(p)
    ensures p > 1
  {
  }

  lemma DivisorOfOne(p: int, d: Poly)
    requires Prime(p) && Normal(p, d) && PDivides(p, d, [1])
    ensures |d| == 1
  {
    var k: Poly :| PCong(p, [1], Times(d, k));
    OneIsNotZero(p, Times(d, k));
    assert d == [] ==> Times(d, k) == [];
    var q := Norm(p, k);
    MultipleNorm(p, [1], d, k);
    OneIsNotZero(p, Times(q, d));
    assert q == [] ==> Times(q, d) == [];
    MultipleIsLong(p, q, d, [1]);
  }

  lemma OneIsNotZero(p: int, b: Poly)
    requires p >= 2 && PCong(p, [1], b)
    ensures b != []
  {
    Reduced(p, 1);
    Reduced(p, 0);
    assert Cong(p, Coef([1], 0), Coef(b, 0));
  }

  lemma MultipleNorm(p: int, a: Poly, d: Poly, k: Poly)
    requires p > 0 && PCong(p, a, Times(d, k))
    ensures PCong(p, a, Times(Norm(p, k), d))
  {
    PCongRefl(p, d);
    PCongRefl(p, k);
    PCongTrans(p, Norm(p, k), k, k);
    PCongTimes(p, k, Norm(p, k), d, d);
    forall i: int ensures Coef(Times(d, k), i) == Coef(Times(k, d), i) { TimesCommutes(d, k, i); }
    SameIsCong(p, Times(d, k), Times(k, d));
    PCongTrans(p, a, Times(d, k), Times(k, d));
    PCongTrans(p, a, Times(k, d), Times(Norm(p, k), d));
  }

  /** With an irreducible modulus the common divisors of a nonzero element and the modulus are constants. */
  lemma IrreducibleCoprime(p: int, m: Poly, a: Poly, d: Poly)
    requires Prime(p) && Irreducible(p, m) && Element(p, m, a) && a != [] && Normal(p, m) && Normal(p, d)
    requires PCommon(p, d, a, m)
    ensures |d| == 1
  {
    var k: Poly :| PCong(p, a, Times(d, k));
    var q := Norm(p, k);
    if |d| == |m| {
      MultipleNorm(p, a, d, k);
      if q == [] {
        assert Times(q, d) == [];
        assert PCong(p, a, []);
        NormalUnique(p, a, []);
      }
      MultipleIsLong(p, q, d, a);
    }
  }

  /**
   The inverse of an element. It is found exactly when there is one, and with an irreducible modulus
   every element but zero has one.
   */
  method ElementInverse(p: nat, m: Poly, a: Poly) returns (r: Result<Poly, FieldError>)
    requires Prime(p) && Normal(p, m) && |m| >= 2 && Element(p, m, a)
    ensures a == [] ==> r == Err(ZeroDivision)
    ensures a != [] ==> (r.Ok? <==> exists b :: Element(p, m, b) && Multiplied(p, m, a, b) == [1])
    ensures r.Ok? ==> Element(p, m, r.value) && Multiplied(p, m, a, r.value) == [1]
    ensures a != [] && Irreducible(p, m) ==> r.Ok?
  {
    if a == [] { return Err(ZeroDivision); }
    var x, y, d := PolyExtendedEuclid(p, a, m);
    if Irreducible(p, m) { IrreducibleCoprime(p, m, a, d); }
    if |d| != 1 {
      forall b | Element(p, m, b) ensures Multiplied(p, m, a, b) != [1] {
        if Multiplied(p, m, a, b) == [1] { InvertibleMeansCoprime(p, m, a, b, d); }
      }
      return Err(NoInverse);
    }
    PrimeFieldInverse(p, d[0]);
    var c := ModInverse(p, d[0]);
    var fx := Modulo(p, x, m);
    var product := Multiply(p, fx, [c.value]);
    var inverse := Modulo(p, product, m);
    RemCong(p, x, m);
    MultipliedCong(p, m, fx, [c.value]);
    assert Element(p, m, inverse);
    hide *;
    InverseChain(p, m, a, x, y, d, c.value, fx, inverse);
    return Ok(inverse);
  }

  // ---------------------------------------------------------------- powers modulo a polynomial

  function PolyPow(a: Poly, n: nat): Poly {
    if n == 0 then [1] else Times(a, PolyPow(a, n - 1))
  }

  lemma {:induction false} PolyPowAdd(a: Poly, i: nat, j: nat, k: int)
    ensures Coef(Times(PolyPow(a, i), PolyPow(a, j)), k) == Coef(PolyPow(a, i + j), k)
    decreases i
  {
    hide *;
    if i == 0 {
      NoPower(a);
      OneTimes(PolyPow(a, j), k);
    } else {
      var b, c := Times(PolyPow(a, i - 1), PolyPow(a, j)), PolyPow(a, i - 1 + j);
      forall l: int ensures Coef(b, l) == Coef(c, l) { PolyPowAdd(a, i - 1, j, l); }
      SameBy(b, c);
      PowSplit(a, i, j, k);
    }
  }

  lemma NoPower(a: Poly)
    ensures PolyPow(a, 0) == [1]
  {
  }

  lemma OneTimes(b: Poly, k: int)
    ensures Coef(Times([1], b), k) == Coef(b, k)
  {
    assert Tail([1]) == [];
    TimesCoef([1], b, k);
  }

  lemma PowSplit(a: Poly, i: nat, j: nat, k: int)
    requires i > 0 && Same(Times(PolyPow(a, i - 1), PolyPow(a, j)), PolyPow(a, i - 1 + j))
    ensures Coef(Times(PolyPow(a, i), PolyPow(a, j)), k) == Coef(PolyPow(a, i + j), k)
  {
    TimesAssociates(a, PolyPow(a, i - 1), PolyPow(a, j), k);
    TimesSameRight(a, Times(PolyPow(a, i - 1), PolyPow(a, j)), PolyPow(a, i - 1 + j));
    assert PolyPow(a, i) == Times(a, PolyPow(a, i - 1)) && PolyPow(a, i + j) == Times(a, PolyPow(a, i - 1 + j));
    hide Times, Coef, PolyPow;
  }

  /** Multiplying two reduced powers gives, reduced, the power of the sum. */
  lemma PowerStep(p: int, m: Poly, a: Poly, q: Poly, i: nat, r: Poly, j: nat)
    requires Prime(p) && Normal(p, m) && m != [] && MCong(p, m, q, PolyPow(a, i)) && MCong(p, m, r, PolyPow(a, j))
    ensures MCong(p, m, Rem(p, Product(p, q, r), m), PolyPow(a, i + j))
  {
    forall k: int ensures Coef(Times(PolyPow(a, i), PolyPow(a, j)), k) == Coef(PolyPow(a, i + j), k) {
      PolyPowAdd(a, i, j, k);
    }
    SameIsCong(p, Times(PolyPow(a, i), PolyPow(a, j)), PolyPow(a, i + j));
    MultipliedCong(p, m, q, r);
    hide Prime, Normal, MCong, PCong, Times, Product, Rem, PolyPow, Coef;
    MCongTimes(p, m, q, PolyPow(a, i), r, PolyPow(a, j));
    PCongIsMCong(p, m, Times(PolyPow(a, i), PolyPow(a, j)), PolyPow(a, i + j));
    MCongTrans(p, m, Times(q, r), Times(PolyPow(a, i), PolyPow(a, j)), PolyPow(a, i + j));
    MCongSym(p, m, Times(q, r), Rem(p, Product(p, q, r), m));
    MCongTrans(p, m, Rem(p, Product(p, q, r), m), Times(q, r), PolyPow(a, i + j));
  }

  lemma FirstPowers(p: int, m: Poly, a: Poly)
    requires p > 0
    ensures MCong(p, m, a, PolyPow(a, 1)) && MCong(p, m, [1], PolyPow(a, 0))
  {
    UnitCombination(p, a, a);
    assert PolyPow(a, 1) == Times(a, [1]);
    forall k: int ensures Coef(Times(a, [1]), k) == Coef(a, k) { TimesOne(a, k); }
    SameIsCong(p, a, PolyPow(a, 1));
    PCongIsMCong(p, m, a, PolyPow(a, 1));
    PCongRefl(p, [1]);
    PCongIsMCong(p, m, [1], PolyPow(a, 0));
  }

  /** One round: square, and multiply in if the bit is set. */
  method PowRound(p: nat, a: Poly, n: nat, m: Poly, q0: Poly, r0: Poly, i: nat, ghost half: nat)
    returns (q: Poly, r: Poly)
    requires Prime(p) && Normal(p, m) && m != [] && half > 0 && i == half + half
    requires Normal(p, q0) && MCong(p, m, q0, PolyPow(a, half))
    requires Normal(p, r0) && MCong(p, m, r0, PolyPow(a, LowBits(n, i)))
    ensures Normal(p, q) && MCong(p, m, q, PolyPow(a, i))
    ensures Normal(p, r) && MCong(p, m, r, PolyPow(a, LowBits(n, 2 * i)))
  {
    hide *;
    q := MultiplyReduced(p, m, q0, q0, a, half, half);
    r := r0;
    NextBit(n, i);
    if BitSet(n, i) { r := MultiplyReduced(p, m, q, r, a, i, LowBits(n, i)); }
  }

  method MultiplyReduced(p: nat, m: Poly, q: Poly, r: Poly, ghost a: Poly, ghost i: nat, ghost j: nat) returns (s: Poly)
    requires Prime(p) && Normal(p, m) && m != [] && Normal(p, q) && Normal(p, r)
    requires MCong(p, m, q, PolyPow(a, i)) && MCong(p, m, r, PolyPow(a, j))
    ensures Normal(p, s) && MCong(p, m, s, PolyPow(a, i + j))
  {
    assert p > 0;
    hide *;
    PowerStep(p, m, a, q, i, r, j);
    var product := Multiply(p, q, r);
    s := Modulo(p, product, m);
  }

  /**
   Square and multiply with a reduction after every product. The result is congruent to the plain
   power; reduction modulo zero fails, but for exponents below two nothing is reduced at all. For
   negative exponents the loop does not run.
   */
  method PowMod(p: nat, a: Poly, n: int, m: Poly) returns (o: Option<Poly>)
    requires Prime(p) && Normal(p, a) && Normal(p, m)
    ensures o.None? <==> m == [] && n >= 2
    ensures o.Some? ==> Normal(p, o.value)
    ensures n >= 0 && o.Some? ==> MCong(p, m, o.value, PolyPow(a, n))
    ensures n < 0 ==> o == Some(if n % 2 == 1 then a else [1])
  {
    OneIsNormal(p);
    if n < 0 { return Some(if n % 2 == 1 then a else [1]); }
    o := PowModNat(p, a, n, m);
  }

  method PowModNat(p: nat, a: Poly, n: nat, m: Poly) returns (o: Option<Poly>)
    requires Prime(p) && Normal(p, a) && Normal(p, m)
    ensures o.None? <==> m == [] && n >= 2
    ensures o.Some? ==> Normal(p, o.value) && MCong(p, m, o.value, PolyPow(a, n))
  {
    var q := a;
    var r := if n % 2 == 1 then a else [1];
    FirstPowers(p, m, a);
    OneIsNormal(p);
    assert LowBits(n, 2) == n % 2;
    assert p > 0;
    hide *;
    var i := 2;
    ghost var half := 1;
    while i <= n
      invariant half > 0 && i == half + half && (i > 2 ==> m != [])
      invariant Normal(p, q) && MCong(p, m, q, PolyPow(a, half))
      invariant Normal(p, r) && MCong(p, m, r, PolyPow(a, LowBits(n, i)))
      decreases n - half
    {
      if m == [] { return None; }
      q, r := PowRound(p, a, n, m, q, r, i, half);
      half := i;
      i := 2 * i;
    }
    AllBits(n, i);
    return Some(r);
  }
}
