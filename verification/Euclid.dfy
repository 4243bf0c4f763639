/** The Euclidean algorithm over the integers, with divisions that round towards minus infinity. */
module Euclid {
  import opened Congruences

  function Abs(a: int): nat { if a < 0 then -a else a }

  /** Division and remainder that floor, whatever the signs. */
  function FloorDiv(a: int, b: int): int
    requires b != 0
  {
    if b > 0 then a / b else (-a) / (-b)
  }

  function FloorMod(a: int, b: int): (r: int)
    requires b != 0
    ensures a == b * FloorDiv(a, b) + r && Abs(r) < Abs(b) && (b > 0 ==> r >= 0)
  {
    var r := a - b * FloorDiv(a, b);
    assert b < 0 ==> r == -((-a) % (-b));
    r
  }

  ghost predicate Divides(d: int, a: int) { exists k :: a == d * k }

  lemma DividesBy(d: int, a: int, k: int)
    requires a == d * k
    ensures Divides(d, a)
  {
  }

  lemma DividesCombination(d: int, a: int, b: int, x: int, y: int)
    requires Divides(d, a) && Divides(d, b)
    ensures Divides(d, a * x + b * y)
  {
    var k :| a == d * k;
    var l :| b == d * l;
    MulIsAssociative(d, k, x);
    MulIsAssociative(d, l, y);
    MulDistributes(d, k * x, l * y);
    DividesBy(d, a * x + b * y, k * x + l * y);
  }

  ghost predicate CommonDivisor(d: int, a: int, b: int) { Divides(d, a) && Divides(d, b) }

  /** A common divisor that every other one divides. */
  ghost predicate IsGcd(d: int, a: int, b: int) {
    CommonDivisor(d, a, b) && forall c :: CommonDivisor(c, a, b) ==> Divides(c, d)
  }

  /** A division step does not change the common divisors. */
  lemma StepKeepsDivisors(c: int, a: int, b: int, q: int, r: int)
    requires a == b * q + r
    ensures CommonDivisor(c, a, b) <==> CommonDivisor(c, b, r)
  {
    if CommonDivisor(c, a, b) { DividesCombination(c, a, b, 1, -q); }
    if CommonDivisor(c, b, r) { DividesCombination(c, b, r, q, 1); }
  }

  lemma GcdWithZero(a: int)
    ensures IsGcd(a, a, 0)
  {
    DividesBy(a, a, 1);
    DividesBy(a, 0, 0);
  }

  method Gcd(a0: int, b0: int) returns (d: int)
    ensures IsGcd(d, a0, b0)
    decreases if Abs(a0) < Abs(b0) then 1 else 0
  {
    if Abs(a0) < Abs(b0) {
      d := Gcd(b0, a0);
      return;
    }
    var a, b := a0, b0;
    while Abs(b) > 0
      invariant forall c :: CommonDivisor(c, a, b) <==> CommonDivisor(c, a0, b0)
      decreases Abs(b)
    {
      var r := FloorMod(a, b);
      forall c ensures CommonDivisor(c, a, b) <==> CommonDivisor(c, b, r) {
        StepKeepsDivisors(c, a, b, FloorDiv(a, b), r);
      }
      a, b := b, r;
    }
    GcdWithZero(a);
    assert CommonDivisor(a, a, b);
    return a;
  }

  lemma CombinationStep(a0: int, b0: int, a: int, b: int, q: int, r: int, x1: int, x2: int, y1: int, y2: int)
    requires a == b * q + r
    requires a == a0 * x2 + b0 * y2 && b == a0 * x1 + b0 * y1
    ensures r == a0 * (x2 - q * x1) + b0 * (y2 - q * y1)
  {
    MulDistributes(a0, x2, q * x1);
    MulDistributes(b0, y2, q * y1);
    assert b * q == (a0 * x1) * q + (b0 * y1) * q by { MulDistributes(q, a0 * x1, b0 * y1); }
    MulIsAssociative(a0, x1, q);
    MulIsAssociative(b0, y1, q);
  }

  /** Coefficients of the greatest common divisor, for integers of any sign. */
  method ExtendedEuclid(a0: int, b0: int) returns (x: int, y: int, d: int)
    ensures a0 * x + b0 * y == d && IsGcd(d, a0, b0)
    ensures a0 >= 0 && b0 >= 0 ==> d >= 0
    decreases if Abs(b0) > Abs(a0) then 1 else 0
  {
    if Abs(b0) > Abs(a0) {
      y, x, d := ExtendedEuclid(b0, a0);
      return;
    }
    if Abs(b0) == 0 {
      GcdWithZero(a0);
      return 1, 0, a0;
    }
    var a, b := a0, b0;
    var x1, x2, y1, y2 := 0, 1, 1, 0;
    while Abs(b) > 0
      invariant a == a0 * x2 + b0 * y2 && b == a0 * x1 + b0 * y1
      invariant forall c :: CommonDivisor(c, a, b) <==> CommonDivisor(c, a0, b0)
      invariant a0 >= 0 && b0 >= 0 ==> a >= 0 && b >= 0
      decreases Abs(b)
    {
      var q, r := FloorDiv(a, b), FloorMod(a, b);
      hide FloorDiv, FloorMod, Divides;
      forall c ensures CommonDivisor(c, a, b) <==> CommonDivisor(c, b, r) {
        StepKeepsDivisors(c, a, b, q, r);
      }
      CombinationStep(a0, b0, a, b, q, r, x1, x2, y1, y2);
      a, b, x2, x1, y2, y1 := b, r, x1, x2 - q * x1, y1, y2 - q * y1;
    }
    GcdWithZero(a);
    assert CommonDivisor(a, a, b);
    return x2, y2, a;
  }

  /** The greatest common divisor is unique up to its sign. */
  lemma GcdUnique(a: int, b: int, d: int, e: int)
    requires IsGcd(d, a, b) && IsGcd(e, a, b)
    ensures Abs(d) == Abs(e)
  {
    var k :| e == d * k;
    var l :| d == e * l;
    MulIsAssociative(d, k, l);
    if d != 0 {
      MulDistributes(d, k * l, 1);
      if k * l != 1 {
        assert d * (k * l - 1) == 0;
        assert false by { NonZeroProduct(d, k * l - 1); }
      }
      UnitFactors(k, l);
    }
  }

  lemma NonZeroProduct(a: int, b: int)
    requires a != 0 && b != 0
    ensures a * b != 0
  {
  }

  lemma UnitFactors(k: int, l: int)
    requires k * l == 1
    ensures (k == 1 && l == 1) || (k == -1 && l == -1)
  {
    if k > 1 && l >= 1 { MulAtLeast(k, l); }
    if k < -1 && l <= -1 { MulAtLeast(-k, -l); }
  }

  // ---------------------------------------------------------------- the same by recursion, for specifications

  /** Bezout coefficients by recursion on the remainder. */
  function Bezout(a: nat, b: nat): (r: (int, int))
    decreases b
  {
    if b == 0 then (1, 0)
    else
      var (x, y) := Bezout(b, a % b);
      (y, x - (a / b) * y)
  }

  lemma {:induction false} BezoutIsGcd(a: nat, b: nat)
    ensures var (x, y) := Bezout(a, b);
      IsGcd(a * x + b * y, a, b) && a * x + b * y >= 0
    decreases b
  {
    if b == 0 {
      GcdWithZero(a);
    } else {
      var q, r := a / b, a % b;
      var (x, y) := Bezout(b, r);
      BezoutIsGcd(b, r);
      var d := b * x + r * y;
      forall c ensures CommonDivisor(c, a, b) <==> CommonDivisor(c, b, r) { StepKeepsDivisors(c, a, b, q, r); }
      BezoutStep(a, b, q, r, x, y);
      assert IsGcd(d, a, b);
    }
  }

  lemma BezoutStep(a: int, b: int, q: int, r: int, x: int, y: int)
    requires a == b * q + r
    ensures a * y + b * (x - q * y) == b * x + r * y
  {
    MulDistributes(b, x, q * y);
    MulIsAssociative(b, q, y);
    MulDistributes(y, b * q, r);
  }

  /** `a` has a multiplicative inverse modulo `n`. */
  ghost predicate Coprime(a: int, n: int) { IsGcd(1, a, n) }

  /** The inverse modulo `n`, for residues coprime to it. */
  function Inverse(n: nat, a: nat): (r: nat)
    requires n > 0
    ensures r < n
  {
    CongMod(n, Bezout(a, n).0);
    Bezout(a, n).0 % n
  }

  lemma InverseWorks(n: nat, a: nat)
    requires n > 0 && Coprime(a, n)
    ensures Cong(n, a * Inverse(n, a), 1)
  {
    BezoutIsGcd(a, n);
    var (x, y) := Bezout(a, n);
    GcdUnique(a, n, a * x + n * y, 1);
    CongWitness(n, a * x, 1, -y);
    CongMod(n, x);
    CongScale(n, x % n, x, a);
  }

  lemma InverseUnique(n: nat, a: nat, x: int)
    requires n > 0 && Coprime(a, n) && Cong(n, a * x, 1)
    ensures Cong(n, x, Inverse(n, a))
  {
    var i := Inverse(n, a);
    InverseWorks(n, a);
    CongScale(n, a * x, 1, i);
    CongScale(n, a * i, 1, x);
    assert i * (a * x) == x * (a * i) by {
      MulIsAssociative(i, a, x);
      MulIsAssociative(x, a, i);
      MulIsAssociative(i, x, a);
    }
  }
}
