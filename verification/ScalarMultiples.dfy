/**
 Multiples of a curve point. That the addition is associative is a hypothesis here; everything else
 about it is proved.
 */
module ScalarMultiples {
  import opened Wrappers
  import opened Congruences
  import opened Bits
  import opened Curves

  /** The sum of two points, for points whose sum cannot fail. */
  function Sum(c: Curve, s: Point, t: Point): Point
    requires c.p > 0
  {
    match Add(c, s, t)
    case Ok(r) => r
    case Err(_) => Ideal
  }

  function Mirror(c: Curve, s: Point): Point
    requires c.p > 0
  {
    match Negate(c, s)
    case Ok(r) => r
    case Err(_) => Ideal
  }

  ghost predicate Associative(c: Curve)
    requires c.p > 0
  {
    forall s, t, u ::
      OnCurve(c, s) && OnCurve(c, t) && OnCurve(c, u) ==> Sum(c, Sum(c, s, t), u) == Sum(c, s, Sum(c, t, u))
  }

  /** A curve over an odd prime field with an associative addition. */
  ghost predicate IsGroup(c: Curve) { OddField(c) && Associative(c) }

  lemma GroupField(c: Curve)
    requires IsGroup(c)
    ensures OddField(c) && c.p > 0
  {
  }

  lemma SumClosed(c: Curve, s: Point, t: Point)
    requires OddField(c) && OnCurve(c, s) && OnCurve(c, t)
    ensures OnCurve(c, Sum(c, s, t)) && Add(c, s, t) == Ok(Sum(c, s, t)) && Sum(c, s, t) == Sum(c, t, s)
  {
    Closed(c, s, t);
    AddCommutes(c, s, t);
    hide Add, OnCurve;
  }

  lemma MirrorClosed(c: Curve, s: Point)
    requires OddField(c) && OnCurve(c, s)
    ensures OnCurve(c, Mirror(c, s)) && Negate(c, s) == Ok(Mirror(c, s))
    ensures Sum(c, s, Mirror(c, s)) == Ideal && Sum(c, Mirror(c, s), s) == Ideal
  {
    NegateClosed(c, s);
    InverseCancels(c, s);
    hide Add, OnCurve, Negate;
  }

  lemma MirrorSum(c: Curve, s: Point, t: Point)
    requires OddField(c) && OnCurve(c, s) && OnCurve(c, t)
    ensures Mirror(c, Sum(c, s, t)) == Sum(c, Mirror(c, s), Mirror(c, t))
  {
    NegateAdd(c, s, t);
    hide Add, OnCurve, Negate;
  }

  /** The `n`-fold sum. */
  function Times(c: Curve, n: nat, s: Point): Point
    requires c.p > 0
  {
    if n == 0 then Ideal else Sum(c, s, Times(c, n - 1, s))
  }

  lemma {:induction false} TimesClosed(c: Curve, n: nat, s: Point)
    requires OddField(c) && OnCurve(c, s)
    ensures OnCurve(c, Times(c, n, s))
    decreases n
  {
    if n > 0 {
      TimesClosed(c, n - 1, s);
      SumClosed(c, s, Times(c, n - 1, s));
    }
  }

  lemma {:induction false} TimesAdd(c: Curve, m: nat, n: nat, s: Point)
    requires IsGroup(c) && OnCurve(c, s)
    ensures Times(c, m + n, s) == Sum(c, Times(c, m, s), Times(c, n, s))
    decreases m
  {
    hide *;
    GroupField(c);
    TimesOne(c, s);
    if m > 0 {
      TimesAdd(c, m - 1, n, s);
      TimesClosed(c, m - 1, s);
      TimesClosed(c, n, s);
      TimesStep(c, m, s);
      TimesStep(c, m + n, s);
      Reassociate(c, s, Times(c, m - 1, s), Times(c, n, s));
    } else {
      IdealSum(c, Times(c, n, s));
    }
  }

  lemma IdealSum(c: Curve, s: Point)
    requires c.p > 0
    ensures Sum(c, Ideal, s) == s && Sum(c, s, Ideal) == s
  {
  }

  lemma Reassociate(c: Curve, s: Point, t: Point, u: Point)
    requires IsGroup(c) && OnCurve(c, s) && OnCurve(c, t) && OnCurve(c, u)
    ensures Sum(c, Sum(c, s, t), u) == Sum(c, s, Sum(c, t, u))
  {
  }

  ghost predicate IsProduct(k: nat, m: nat, n: nat) { k == m * n }

  lemma ProductStep(k: nat, m: nat, n: nat)
    requires IsProduct(k, m, n)
    ensures m == 0 ==> k == 0
    ensures m > 0 ==> k >= n && IsProduct(k - n, m - 1, n)
  {
    if m > 0 {
      MulDistributes(n, m - 1, 1);
      MulNonNegative(m - 1, n);
    }
  }

  lemma {:induction false} TimesMul(c: Curve, m: nat, n: nat, k: nat, s: Point)
    requires IsGroup(c) && OnCurve(c, s) && IsProduct(k, m, n)
    ensures Times(c, k, s) == Times(c, m, Times(c, n, s))
    decreases m
  {
    hide *;
    GroupField(c);
    var t := Times(c, n, s);
    TimesOne(c, t);
    TimesOne(c, s);
    ProductStep(k, m, n);
    if m > 0 {
      TimesMul(c, m - 1, n, k - n, s);
      TimesAdd(c, n, k - n, s);
      TimesStep(c, m, t);
    }
  }

  lemma TimesStep(c: Curve, n: nat, s: Point)
    requires c.p > 0 && n > 0
    ensures Times(c, n, s) == Sum(c, s, Times(c, n - 1, s))
  {
  }

  lemma {:induction false} MirrorTimes(c: Curve, n: nat, s: Point)
    requires OddField(c) && OnCurve(c, s)
    ensures Mirror(c, Times(c, n, s)) == Times(c, n, Mirror(c, s))
    decreases n
  {
    if n > 0 {
      MirrorTimes(c, n - 1, s);
      TimesClosed(c, n - 1, s);
      MirrorSum(c, s, Times(c, n - 1, s));
    }
  }

  /** What a scalar multiple means for any integer: the mirror image for negative ones. */
  function Multiple(c: Curve, n: int, s: Point): Point
    requires c.p > 0
  {
    if n >= 0 then Times(c, n, s) else Mirror(c, Times(c, -n, s))
  }

  lemma TimesOne(c: Curve, s: Point)
    requires c.p > 0
    ensures Times(c, 1, s) == s && Times(c, 0, s) == Ideal
  {
    assert Times(c, 1, s) == Sum(c, s, Times(c, 0, s));
  }

  lemma {:induction false} TimesIdeal(c: Curve, n: nat)
    requires c.p > 0
    ensures Times(c, n, Ideal) == Ideal
    decreases n
  {
    if n > 0 { TimesIdeal(c, n - 1); }
  }

  /** The bits of the scalar from the lowest up, doubling as we go. */
  method DoubleAndAdd(c: Curve, s: Point, n: nat) returns (r: Result<Point, PointError>)
    requires IsGroup(c) && OnCurve(c, s) && n > 0
    ensures r == Ok(Times(c, n, s))
  {
    hide *;
    GroupField(c);
    var q, t := s, if n % 2 == 1 then s else Ideal;
    TimesOne(c, s);
    LowestBit(n);
    var i := 2;
    ghost var half := 1;
    while i <= n
      invariant half > 0 && i == half + half
      invariant q == Times(c, half, s) && t == Times(c, LowBits(n, i), s)
      decreases n - half
    {
      q := AddMultiples(c, q, q, s, half, half);
      NextBit(n, i);
      if BitSet(n, i) { t := AddMultiples(c, q, t, s, i, LowBits(n, i)); }
      half := i;
      i := 2 * i;
    }
    AllBits(n, i);
    return Ok(t);
  }

  /** Scalar multiplication for any integer. */
  method Scale(c: Curve, s: Point, n: int) returns (r: Result<Point, PointError>)
    requires IsGroup(c) && OnCurve(c, s)
    ensures r == Ok(Multiple(c, n, s))
  {
    hide *;
    GroupField(c);
    MultipleIs(c, n, s);
    if s.Ideal? {
      TimesIdeal(c, if n >= 0 then n else -n);
      MirrorIdeal(c);
      return Ok(s);
    }
    if n < 0 {
      MirrorClosed(c, s);
      MirrorTimes(c, -n, s);
      var mirrored := Negate(c, s);
      r := DoubleAndAdd(c, mirrored.value, -n);
      return;
    }
    TimesOne(c, s);
    if n == 0 { return Ok(Ideal); }
    r := DoubleAndAdd(c, s, n);
  }

  lemma MirrorIdeal(c: Curve)
    requires c.p > 0
    ensures Mirror(c, Ideal) == Ideal
  {
  }

  method AddMultiples(c: Curve, q: Point, t: Point, ghost s: Point, ghost m: nat, ghost n: nat) returns (r: Point)
    requires IsGroup(c) && OnCurve(c, s) && q == Times(c, m, s) && t == Times(c, n, s)
    ensures r == Times(c, m + n, s)
  {
    hide *;
    GroupField(c);
    TimesClosed(c, m, s);
    TimesClosed(c, n, s);
    SumClosed(c, q, t);
    TimesAdd(c, m, n, s);
    var added := Add(c, q, t);
    return added.value;
  }

  /** The same by repeated halving of the scalar, with a table of doublings; no result unless positive. */
  method Mult(c: Curve, m0: int, s: Point) returns (r: Result<Option<Point>, PointError>)
    requires IsGroup(c) && OnCurve(c, s) && s.Affine?
    ensures r == Ok(if m0 > 0 then Some(Multiple(c, m0, s)) else None)
  {
    hide *;
    GroupField(c);
    var table: map<nat, Point> := map[0 := s];
    var y := Ideal;
    var i: nat := 0;
    var m := m0;
    ghost var unit: nat, low: nat := 1, 0;
    TimesOne(c, s);
    if m0 > 0 { NothingAdded(m0); }
    PositiveMultiple(c, m0, s);
    while m > 0
      invariant i in table && table[i] == Times(c, unit, s) && y == Times(c, low, s)
      invariant m0 > 0 ==> m > 0 && Decomposed(m0, m, unit, low)
      invariant m0 <= 0 ==> m == m0
      decreases m
    {
      HalveStep(m, unit, low, m0);
      if m % 2 == 1 {
        y := AddMultiples(c, y, table[i], s, low, unit);
        low := low + unit;
      }
      var doubled := AddMultiples(c, table[i], table[i], s, unit, unit);
      table := table[i + 1 := doubled];
      i := i + 1;
      m := m / 2;
      unit := unit + unit;
      if m == 0 {
        AllAdded(m0, unit, low);
        return Ok(Some(y));
      }
    }
    return Ok(None);
  }

  /** What has been added so far and what is left, in units of the current doubling. */
  ghost predicate Decomposed(total: int, m: nat, unit: nat, low: nat) { total == m * unit + low }

  lemma PositiveMultiple(c: Curve, n: int, s: Point)
    requires c.p > 0
    ensures n >= 0 ==> Multiple(c, n, s) == Times(c, n, s)
  {
  }

  lemma NothingAdded(total: nat)
    ensures Decomposed(total, total, 1, 0)
  {
  }

  lemma AllAdded(total: int, unit: nat, low: nat)
    requires Decomposed(total, 0, unit, low)
    ensures total == low
  {
  }

  lemma HalveStep(m: nat, unit: nat, low: nat, total: int)
    requires Decomposed(total, m, unit, low)
    ensures Decomposed(total, m / 2, unit + unit, low + if m % 2 == 1 then unit else 0)
  {
    var h, b := m / 2, m % 2;
    MulDistributes(unit, 2 * h, b);
    assert m * unit == (2 * h + b) * unit;
    assert (2 * h) * unit == h * (unit + unit);
  }

  // ---------------------------------------------------------------- homomorphisms

  lemma InterchangeSums(c: Curve, s: Point, t: Point, u: Point, v: Point)
    requires IsGroup(c) && OnCurve(c, s) && OnCurve(c, t) && OnCurve(c, u) && OnCurve(c, v)
    ensures Sum(c, Sum(c, s, t), Sum(c, u, v)) == Sum(c, Sum(c, s, u), Sum(c, t, v))
  {
    hide *;
    GroupField(c);
    SumClosed(c, u, v);
    SumClosed(c, t, v);
    SumClosed(c, t, u);
    Reassociate(c, s, t, Sum(c, u, v));
    Reassociate(c, t, u, v);
    Reassociate(c, u, t, v);
    Reassociate(c, s, u, Sum(c, t, v));
  }

  /** Multiples distribute over sums. */
  lemma {:induction false} TimesSum(c: Curve, n: nat, s: Point, t: Point)
    requires IsGroup(c) && OnCurve(c, s) && OnCurve(c, t)
    ensures Times(c, n, Sum(c, s, t)) == Sum(c, Times(c, n, s), Times(c, n, t))
    decreases n
  {
    hide *;
    GroupField(c);
    TimesOne(c, s);
    TimesOne(c, t);
    TimesOne(c, Sum(c, s, t));
    if n == 0 {
      IdealSum(c, Ideal);
    } else {
      TimesSum(c, n - 1, s, t);
      TimesStep(c, n, s);
      TimesStep(c, n, t);
      TimesStep(c, n, Sum(c, s, t));
      TimesClosed(c, n - 1, s);
      TimesClosed(c, n - 1, t);
      InterchangeSums(c, s, t, Times(c, n - 1, s), Times(c, n - 1, t));
    }
  }

  /** A difference of scalars, whichever is larger. */
  lemma DifferenceIs(c: Curve, a: nat, b: nat, s: Point)
    requires IsGroup(c) && OnCurve(c, s)
    ensures Multiple(c, a - b, s) == Sum(c, Times(c, a, s), Mirror(c, Times(c, b, s)))
  {
    hide *;
    GroupField(c);
    var ta, tb := Times(c, a, s), Times(c, b, s);
    TimesClosed(c, a, s);
    TimesClosed(c, b, s);
    MirrorClosed(c, ta);
    MirrorClosed(c, tb);
    MultipleIs(c, a - b, s);
    if a >= b {
      TimesAdd(c, a - b, b, s);
      TimesClosed(c, a - b, s);
      Reassociate(c, Times(c, a - b, s), tb, Mirror(c, tb));
      IdealSum(c, Times(c, a - b, s));
    } else {
      var rest := Times(c, b - a, s);
      TimesAdd(c, a, b - a, s);
      TimesClosed(c, b - a, s);
      MirrorClosed(c, rest);
      MirrorSum(c, ta, rest);
      Reassociate(c, ta, Mirror(c, ta), Mirror(c, rest));
      IdealSum(c, Mirror(c, rest));
    }
  }

  lemma MultipleIs(c: Curve, n: int, s: Point)
    requires c.p > 0
    ensures n >= 0 ==> Multiple(c, n, s) == Times(c, n, s)
    ensures n < 0 ==> Multiple(c, n, s) == Mirror(c, Times(c, -n, s))
  {
  }

  /** Multiples by any two integers add up to the multiple by their sum. */
  lemma MultiplesAdd(c: Curve, m: int, n: int, s: Point)
    requires IsGroup(c) && OnCurve(c, s)
    ensures Multiple(c, m + n, s) == Sum(c, Multiple(c, m, s), Multiple(c, n, s)) && Multiple(c, 1, s) == s
  {
    hide *;
    GroupField(c);
    var a: nat, b: nat := if m >= 0 then m else 0, if m >= 0 then 0 else -m;
    var d: nat, e: nat := if n >= 0 then n else 0, if n >= 0 then 0 else -n;
    DifferenceIs(c, a, b, s);
    DifferenceIs(c, d, e, s);
    DifferenceIs(c, a + d, b + e, s);
    TimesAdd(c, a, d, s);
    TimesAdd(c, b, e, s);
    var ta, tb, td, te := Times(c, a, s), Times(c, b, s), Times(c, d, s), Times(c, e, s);
    TimesClosed(c, a, s);
    TimesClosed(c, b, s);
    TimesClosed(c, d, s);
    TimesClosed(c, e, s);
    MirrorClosed(c, tb);
    MirrorClosed(c, te);
    MirrorSum(c, tb, te);
    InterchangeSums(c, ta, Mirror(c, tb), td, Mirror(c, te));
    assert m == a - b && n == d - e && m + n == (a + d) - (b + e);
    MultipleIs(c, 1, s);
    TimesOne(c, s);
  }
}
