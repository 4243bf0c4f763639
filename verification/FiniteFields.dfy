/**
 Inverses and powers in the fields built from Z/p: extended Euclid over polynomials, the field of
 residues modulo a polynomial, and square-and-multiply.
 */
module FiniteFields {
  import opened Wrappers
  import opened Congruences
  import opened Euclid
  import opened Primes
  import opened Bits
  import opened Polynomials
  import opened PolynomialFields

  datatype FieldError = ZeroDivision | NoInverse

  // ---------------------------------------------------------------- integers modulo n

  /** The inverse of a residue: it exists exactly when the residue is coprime to the modulus. */
  method ModInverse(n: nat, a: nat) returns (r: Result<nat, FieldError>)
    requires a < n
    ensures r.Ok? <==> Coprime(a, n)
    ensures r.Ok? ==> r.value == Inverse(n, a) && Cong(n, a * r.value, 1)
  {
    var x, y, d := ExtendedEuclid(a, n);
    if d != 1 {
      if Coprime(a, n) { GcdUnique(a, n, d, 1); }
      return Err(NoInverse);
    }
    InverseWorks(n, a);
    CongWitness(n, a * x, 1, -y);
    InverseUnique(n, a, x);
    CongMod(n, x);
    CongReduced(n, x % n, Inverse(n, a));
    return Ok(x % n);
  }

  /** In a prime field everything but zero has an inverse. */
  lemma PrimeFieldInverse(p: nat, a: nat)
    requires Prime(p) && a < p
    ensures Coprime(a, p) <==> a != 0
  {
    if a != 0 {
      PrimeCoprime(p, a);
    } else {
      DividesBy(p, p, 1);
      DividesBy(p, 0, 0);
      OneIsNoMultiple(p);
      assert CommonDivisor(p, 0, p);
    }
  }

  lemma OneIsNoMultiple(p: int)
    requires p >= 2
    ensures !Divides(p, 1)
  {
    forall k: int ensures p * k != 1 { if k >= 1 { MulAtLeast(p, k); } else { MulNonNegative(p, -k); } }
  }

  // ---------------------------------------------------------------- square and multiply

  /** Exponentiation modulo `p`. For a negative exponent the loop does not run at all. */
  method PowerMod(p: nat, a: nat, n: int) returns (r: nat)
    requires a < p
    ensures n >= 0 ==> r == Pow(a, n) % p
    ensures n < 0 ==> r == if n % 2 == 1 then a else 1 % p
  {
    var q := a;
    r := if n % 2 == 1 then a else 1 % p;
    CongMod(p, 1);
    Reduced(p, a);
    if n < 0 { return; }
    var i := 2;
    assert Pow(a, 1) == a * Pow(a, 0) == a;
    while i <= n
      invariant i >= 2 && i % 2 == 0
      invariant 0 <= q < p && Cong(p, q, Pow(a, i / 2))
      invariant r < p && Cong(p, r, Pow(a, LowBits(n, i)))
      decreases 2 * n - i
    {
      ghost var half := i / 2;
      PowAdd(a, half, half);
      CongMul(p, q, Pow(a, half), q, Pow(a, half));
      CongMod(p, q * q);
      q := q * q % p;
      NextBit(n, i);
      if BitSet(n, i) {
        PowAdd(a, i, LowBits(n, i));
        CongMul(p, q, Pow(a, i), r, Pow(a, LowBits(n, i)));
        CongMod(p, q * r);
        r := q * r % p;
      }
      i := 2 * i;
    }
    AllBits(n, i);
    Reduced(p, r);
  }

  // ---------------------------------------------------------------- polynomials: divisors and combinations

  ghost predicate PDivides(p: int, c: Poly, a: Poly)
    requires p > 0
  {
    exists k: Poly :: PCong(p, a, Times(c, k))
  }

  lemma PDividesBy(p: int, c: Poly, a: Poly, k: Poly)
    requires p > 0 && PCong(p, a, Times(c, k))
    ensures PDivides(p, c, a)
  {
  }

  /** Multiplying first by `q` or last makes no difference. */
  lemma TimesSwap(q: Poly, a: Poly, x: Poly, k: int)
    ensures Coef(Times(q, Times(a, x)), k) == Coef(Times(a, Times(q, x)), k)
  {
    TimesAssociates(q, a, x, k);
    TimesAssociates(a, q, x, k);
    forall j: int ensures Coef(Times(q, a), j) == Coef(Times(a, q), j) { TimesCommutes(q, a, j); }
    TimesSameRight(x, Times(q, a), Times(a, q));
    TimesCommutes(Times(q, a), x, k);
    TimesCommutes(Times(a, q), x, k);
  }

  lemma PDividesCombination(p: int, c: Poly, a: Poly, x: Poly, b: Poly, y: Poly, s: Poly)
    requires p > 0 && PDivides(p, c, a) && PDivides(p, c, b) && PCong(p, s, Plus(Times(x, a), Times(y, b)))
    ensures PDivides(p, c, s)
  {
    var k: Poly :| PCong(p, a, Times(c, k));
    var l: Poly :| PCong(p, b, Times(c, l));
    var z := Plus(Times(x, k), Times(y, l));
    forall j: int ensures Coef(Plus(Times(x, Times(c, k)), Times(y, Times(c, l))), j) == Coef(Times(c, z), j) {
      TimesSwap(x, c, k, j);
      TimesSwap(y, c, l, j);
      TimesPlusRight(c, Times(x, k), Times(y, l), j);
    }
    SameIsCong(p, Plus(Times(x, Times(c, k)), Times(y, Times(c, l))), Times(c, z));
    PCongRefl(p, x);
    PCongRefl(p, y);
    hide *;
    PCongTimes(p, x, x, a, Times(c, k));
    PCongTimes(p, y, y, b, Times(c, l));
    PCongPlus(p, Times(x, a), Times(x, Times(c, k)), Times(y, b), Times(y, Times(c, l)));
    PCongTrans(p, s, Plus(Times(x, a), Times(y, b)), Plus(Times(x, Times(c, k)), Times(y, Times(c, l))));
    PCongTrans(p, s, Plus(Times(x, Times(c, k)), Times(y, Times(c, l))), Times(c, z));
    PDividesBy(p, c, s, z);
  }

  /** `r` is a combination of the two inputs whenever it is the remainder of two such combinations. */
  lemma CombineRemainder(p: int, a0: Poly, b0: Poly, a: Poly, b: Poly, q: Poly, r: Poly,
                         x1: Poly, x2: Poly, y1: Poly, y2: Poly, x: Poly, y: Poly)
    requires p > 0 && PCong(p, a, Plus(Times(q, b), r))
    requires PCong(p, a, Plus(Times(a0, x2), Times(b0, y2))) && PCong(p, b, Plus(Times(a0, x1), Times(b0, y1)))
    requires PCong(p, x, Minus(x2, Times(q, x1))) && PCong(p, y, Minus(y2, Times(q, y1)))
    ensures PCong(p, r, Plus(Times(a0, x), Times(b0, y)))
  {
    forall k: int ensures Cong(p, Coef(r, k), Coef(Plus(Times(a0, x), Times(b0, y)), k)) {
      CombineRemainderAt(p, a0, b0, a, b, q, r, x1, x2, y1, y2, x, y, k);
      PlusSumAt(p, r, Times(a0, x), Times(b0, y), k);
    }
    hide Cong, CongSum, Coef, Plus, Times;
  }

  lemma CombineRemainderAt(p: int, a0: Poly, b0: Poly, a: Poly, b: Poly, q: Poly, r: Poly,
                           x1: Poly, x2: Poly, y1: Poly, y2: Poly, x: Poly, y: Poly, k: int)
    requires p > 0 && PCong(p, a, Plus(Times(q, b), r))
    requires PCong(p, a, Plus(Times(a0, x2), Times(b0, y2))) && PCong(p, b, Plus(Times(a0, x1), Times(b0, y1)))
    requires PCong(p, x, Minus(x2, Times(q, x1))) && PCong(p, y, Minus(y2, Times(q, y1)))
    ensures CongSum(p, Coef(r, k), Coef(Times(a0, x), k), Coef(Times(b0, y), k))
  {
    hide *;
    CombineAt(p, a0, x, x1, x2, q, k);
    CombineAt(p, b0, y, y1, y2, q, k);
    PlusCongAt(p, a, Times(q, b), r, k);
    PlusCongAt(p, a, Times(a0, x2), Times(b0, y2), k);
    TimesPlusCongAt(p, q, b, Times(a0, x1), Times(b0, y1), k);
    var ca, qb, cr, a2, b2 :=
      Coef(a, k), Coef(Times(q, b), k), Coef(r, k), Coef(Times(a0, x2), k), Coef(Times(b0, y2), k);
    var qa1, qb1, ax, bt :=
      Coef(Times(q, Times(a0, x1)), k), Coef(Times(q, Times(b0, y1)), k), Coef(Times(a0, x), k), Coef(Times(b0, y), k);
    BalanceFour(p, ca, qb, cr, a2, b2, qa1, qb1, ax, bt);
  }

  predicate CongSum(p: int, a: int, b: int, c: int)
    requires p > 0
  {
    Cong(p, a, b + c)
  }

  predicate CongDifference(p: int, a: int, b: int, c: int)
    requires p > 0
  {
    Cong(p, a, b - c)
  }

  lemma PlusAt(a: Poly, b: Poly, k: int)
    ensures Coef(Plus(a, b), k) == Coef(a, k) + Coef(b, k)
  {
  }

  lemma PlusCongAt(p: int, a: Poly, b: Poly, c: Poly, k: int)
    requires p > 0 && PCong(p, a, Plus(b, c))
    ensures CongSum(p, Coef(a, k), Coef(b, k), Coef(c, k))
  {
    assert Cong(p, Coef(a, k), Coef(Plus(b, c), k));
    hide Plus, Coef;
    PlusAt(b, c, k);
  }

  lemma PlusSumAt(p: int, a: Poly, b: Poly, c: Poly, k: int)
    requires p > 0 && CongSum(p, Coef(a, k), Coef(b, k), Coef(c, k))
    ensures Cong(p, Coef(a, k), Coef(Plus(b, c), k))
  {
    hide Plus, Coef, Cong;
    PlusAt(b, c, k);
  }

  lemma TimesPlusCongAt(p: int, q: Poly, b: Poly, c: Poly, d: Poly, k: int)
    requires p > 0 && PCong(p, b, Plus(c, d))
    ensures CongSum(p, Coef(Times(q, b), k), Coef(Times(q, c), k), Coef(Times(q, d), k))
  {
    hide Times, Plus, Coef, Cong, PCong;
    TimesCongRight(p, q, b, Plus(c, d), k);
    TimesPlusRight(q, c, d, k);
  }

  lemma CombineAt(p: int, a0: Poly, x: Poly, x1: Poly, x2: Poly, q: Poly, k: int)
    requires p > 0 && PCong(p, x, Minus(x2, Times(q, x1)))
    ensures CongDifference(p, Coef(Times(a0, x), k), Coef(Times(a0, x2), k), Coef(Times(q, Times(a0, x1)), k))
  {
    hide Times, Minus, Coef, Cong, PCong;
    TimesCongRight(p, a0, x, Minus(x2, Times(q, x1)), k);
    TimesCommutes(a0, Minus(x2, Times(q, x1)), k);
    TimesMinusLeft(x2, Times(q, x1), a0, k);
    TimesCommutes(x2, a0, k);
    TimesCommutes(Times(q, x1), a0, k);
    TimesSwap(q, a0, x1, k);
  }

  lemma BalanceFour(p: int, a: int, qb: int, r: int, a2: int, b2: int, qa1: int, qb1: int, ax: int, bt: int)
    requires p > 0 && CongSum(p, a, qb, r) && CongSum(p, a, a2, b2) && CongSum(p, qb, qa1, qb1)
    requires CongDifference(p, ax, a2, qa1) && CongDifference(p, bt, b2, qb1)
    ensures CongSum(p, r, ax, bt)
  {
    CongAdd(p, ax, a2 - qa1, bt, b2 - qb1);
    CongAdd(p, a2 + b2, qb + r, qb, qa1 + qb1);
    CongAdd(p, a2 + b2, a, qa1 + qb1, qb);
    CongAdd(p, a, qb + r, qb, qb);
  }

  lemma UnitCombination(p: int, a: Poly, b: Poly)
    requires p > 0
    ensures PCong(p, a, Plus(Times(a, [1]), Times(b, []))) && PCong(p, b, Plus(Times(a, []), Times(b, [1])))
  {
    hide *;
    forall k: int ensures Coef(Plus(Times(a, [1]), Times(b, [])), k) == Coef(a, k) { UnitAt(a, b, k); }
    forall k: int ensures Coef(Plus(Times(a, []), Times(b, [1])), k) == Coef(b, k) { UnitAt(b, a, k); }
    SameBy(a, Plus(Times(a, [1]), Times(b, [])));
    SameBy(b, Plus(Times(a, []), Times(b, [1])));
    SameIsCong(p, a, Plus(Times(a, [1]), Times(b, [])));
    SameIsCong(p, b, Plus(Times(a, []), Times(b, [1])));
  }

  lemma UnitAt(a: Poly, b: Poly, k: int)
    ensures Coef(Plus(Times(a, [1]), Times(b, [])), k) == Coef(a, k)
    ensures Coef(Plus(Times(b, []), Times(a, [1])), k) == Coef(a, k)
  {
    hide *;
    TimesOne(a, k);
    TimesNil(b, k);
  }

  lemma DividesSelfAndZero(p: int, d: Poly)
    requires p > 0
    ensures PDivides(p, d, d) && PDivides(p, d, [])
  {
    UnitCombination(p, d, d);
    forall k: int ensures Coef(Times(d, [1]), k) == Coef(d, k) && Coef(Times(d, []), k) == 0 {
      TimesNil(d, k);
      assert Coef(Plus(Times(d, [1]), Times(d, [])), k) == Coef(Times(d, [1]), k) + Coef(Times(d, []), k);
      TimesOne(d, k);
    }
    PDividesBy(p, d, d, [1]);
    PDividesBy(p, d, [], []);
  }

  ghost predicate PCommon(p: int, c: Poly, a: Poly, b: Poly)
    requires p > 0
  {
    PDivides(p, c, a) && PDivides(p, c, b)
  }

  lemma StepBack(p: int, c: Poly, a: Poly, b: Poly, q: Poly, r: Poly)
    requires p > 0 && PCong(p, a, Plus(Times(q, b), r)) && PCommon(p, c, b, r)
    ensures PCommon(p, c, a, b)
  {
    forall k: int ensures Coef(Times([1], r), k) == Coef(r, k) {
      assert Tail([1]) == [];
      TimesCoef([1], r, k);
    }
    assert PCong(p, a, Plus(Times(q, b), Times([1], r))) by {
      forall k: int ensures Coef(Plus(Times(q, b), Times([1], r)), k) == Coef(Plus(Times(q, b), r), k) { }
    }
    PDividesCombination(p, c, b, q, r, [1], a);
  }

  /** Bezout coefficients over Z/p, for polynomials in any order. */
  method PolyExtendedEuclid(p: int, a0: Poly, b0: Poly) returns (x: Poly, y: Poly, d: Poly)
    requires Prime(p) && Normal(p, a0) && Normal(p, b0)
    ensures Normal(p, x) && Normal(p, y) && Normal(p, d)
    ensures PCong(p, d, Plus(Times(a0, x), Times(b0, y))) && PCommon(p, d, a0, b0)
    decreases if |b0| > |a0| then 1 else 0
  {
    if |b0| > |a0| {
      y, x, d := PolyExtendedEuclid(p, b0, a0);
      forall k: int ensures Coef(Plus(Times(b0, y), Times(a0, x)), k) == Coef(Plus(Times(a0, x), Times(b0, y)), k) { }
      return;
    }
    UnitCombination(p, a0, b0);
    if b0 == [] {
      DividesSelfAndZero(p, a0);
      return [1], [], a0;
    }
    var a, b := a0, b0;
    var x1, x2, y1, y2 := [], [1], [1], [];
    while b != []
      invariant Normal(p, a) && Normal(p, b) && Normal(p, x1) && Normal(p, x2) && Normal(p, y1) && Normal(p, y2)
      invariant PCong(p, a, Plus(Times(a0, x2), Times(b0, y2))) && PCong(p, b, Plus(Times(a0, x1), Times(b0, y1)))
      invariant forall c :: PCommon(p, c, a, b) ==> PCommon(p, c, a0, b0)
      decreases |b|
    {
      hide *;
      var division := DivMod(p, a, b);
      x1, x2, y1, y2, a, b := EuclidStep(p, a0, b0, a, b, division.value.0, division.value.1, x1, x2, y1, y2);
    }
    DividesSelfAndZero(p, a);
    return x2, y2, a;
  }

  method EuclidStep(p: int, ghost a0: Poly, ghost b0: Poly, a: Poly, b: Poly, q: Poly, r: Poly,
                    x1: Poly, x2: Poly, y1: Poly, y2: Poly)
    returns (nx1: Poly, nx2: Poly, ny1: Poly, ny2: Poly, na: Poly, nb: Poly)
    requires Prime(p) && IsDivision(p, a, b, q, r)
    requires Normal(p, a) && Normal(p, b) && Normal(p, x1) && Normal(p, x2) && Normal(p, y1) && Normal(p, y2)
    requires PCong(p, a, Plus(Times(a0, x2), Times(b0, y2))) && PCong(p, b, Plus(Times(a0, x1), Times(b0, y1)))
    ensures Normal(p, nx1) && nx2 == x1 && Normal(p, ny1) && ny2 == y1
    ensures na == b && nb == r && Normal(p, r) && |r| < |b|
    ensures PCong(p, r, Plus(Times(a0, nx1), Times(b0, ny1)))
    ensures forall c :: PCommon(p, c, b, r) ==> PCommon(p, c, a, b)
  {
    assert p > 0;
    hide Prime, Times, Cong, PCong, Coef, Minus, Plus, Normal, PDivides, PCommon;
    var qx := Multiply(p, q, x1);
    var qy := Multiply(p, q, y1);
    nx1, nx2, ny1, ny2, na, nb := Difference(p, x2, qx), x1, Difference(p, y2, qy), y1, b, r;
    SubtractProduct(p, x2, q, x1);
    SubtractProduct(p, y2, q, y1);
    CombineRemainder(p, a0, b0, a, b, q, r, x1, x2, y1, y2, nx1, ny1);
    forall c | PCommon(p, c, b, r) ensures PCommon(p, c, a, b) { StepBack(p, c, a, b, q, r); }
  }

  lemma SubtractProduct(p: int, x: Poly, q: Poly, y: Poly)
    requires p > 0
    ensures PCong(p, Difference(p, x, Product(p, q, y)), Minus(x, Times(q, y)))
  {
    PCongRefl(p, x);
    PCongPlus(p, x, x, Product(p, q, y), Times(q, y));
    PCongTrans(p, Difference(p, x, Product(p, q, y)), Minus(x, Product(p, q, y)), Minus(x, Times(q, y)));
  }
}
