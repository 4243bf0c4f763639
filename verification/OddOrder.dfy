/**
 Curves of odd order, as the concrete one is: no point lies on the axis, so that every string that is
 decoded is the encoding of its point.
 */
module OddOrder {
  import opened Wrappers
  import opened Congruences
  import opened Primes
  import opened ByteStrings
  import opened SquareRoots
  import opened Curves
  import opened ScalarMultiples
  import opened PointEncoding

  /** An odd number that takes every point of the curve to the ideal one, as the number of points does. */
  ghost predicate OddOrder(c: Curve, n: nat)
    requires c.p > 0
  {
    n % 2 == 1 && forall s :: OnCurve(c, s) ==> Times(c, n, s) == Ideal
  }

  /** A point on the axis is its own opposite. */
  lemma {:induction false} AxisTimes(c: Curve, x: nat, n: nat)
    requires c.p > 0
    ensures Times(c, n, Affine(x, 0)) == if n % 2 == 1 then Affine(x, 0) else Ideal
    decreases n
  {
    if n > 0 { AxisTimes(c, x, n - 1); }
  }

  /** The curve does not meet the axis. */
  lemma NothingOnAxis(c: Curve, n: nat, x: nat)
    requires c.p > 0 && OddOrder(c, n) && x < c.p
    ensures !Cong(c.p, Rhs(c, x), 0)
  {
    AxisTimes(c, x, n);
    if Cong(c.p, Rhs(c, x), 0) { AxisPoint(c, x); }
    hide Times, OnCurve, Rhs;
  }

  lemma AxisPoint(c: Curve, x: nat)
    requires c.p > 0 && x < c.p && Cong(c.p, Rhs(c, x), 0)
    ensures OnCurve(c, Affine(x, 0))
  {
    hide Rhs;
  }

  /** For the modulus of the concrete curve every decoded string encodes back to itself. */
  lemma ConcreteCanonical(h: string, n: nat)
    requires Prime(SECP256K1_Q) && OddOrder(Koblitz(SECP256K1_Q), n) && Deser(SECP256K1_Q, h).Ok?
    ensures FromHex(h).Some? && Ser(SECP256K1_Q, Deser(SECP256K1_Q, h).value) == Ok(ToHex(FromHex(h).value))
  {
    hide *;
    ConcreteField();
    DeserCanonical(SECP256K1_Q, h);
    CoordinateOnAxis(SECP256K1_Q, h, n);
  }

  lemma CoordinateOnAxis(q: nat, h: string, n: nat)
    requires RootField(q) && OddOrder(Koblitz(q), n) && Deser(q, h).Ok?
    ensures FromHex(h).Some? && FromHex(h).value != [] && !WrongSign(q, FromHex(h).value)
  {
    hide Rhs, Solve, LittleValue, Times, Prime, OddOrder;
    DeserFinds(q, h);
    NothingOnAxis(Koblitz(q), n, XOf(FromHex(h).value));
  }
}
