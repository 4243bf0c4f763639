/** Addition of points is the chord and tangent construction: said by how a line meets the curve. */
module CurveLaws {
  import opened Wrappers
  import opened Congruences
  import opened Primes
  import opened Curves

  /** The line of slope `m` through a point, at `x`. */
  function Line(x1: int, y1: int, m: int, x: int): int { m * (x - x1) + y1 }

  ghost predicate RootsAt(c: Curve, x1: int, y1: int, m: int, x2: int, x3: int, x: int)
    requires c.p > 0
  {
    Cong(c.p, x * x * x + c.a * x + c.b - Line(x1, y1, m, x) * Line(x1, y1, m, x), (x - x1) * (x - x2) * (x - x3))
  }

  /** The line meets the curve at `x1`, `x2` and `x3`, as often as each of them is named, and nowhere else. */
  ghost predicate MeetsAt(c: Curve, x1: int, y1: int, m: int, x2: int, x3: int)
    requires c.p > 0
  {
    forall x :: RootsAt(c, x1, y1, m, x2, x3, x)
  }

  // ---------------------------------------------------------------- factors

  lemma Factored(c: Curve, x1: int, y1: int, m: int, x2: int, x: int)
    ensures Rhs(c, x) - Line(x1, y1, m, x) * Line(x1, y1, m, x)
      == (Rhs(c, x1) - y1 * y1) + (x - x1) * Cofactor(c, x1, y1, m, x2) + (x - x1) * (x - x2) * (x - (m * m - x2 - x1))
  {
    LineAndCubic(c, x1, y1, m, x);
    CofactorDifference(c, x1, y1, m, x, x2);
    hide Cofactor, Rhs;
    MulDistributes(x - x1, Cofactor(c, x1, y1, m, x2), (x - x2) * (x + x2 + x1 - m * m));
    MulIsAssociative(x - x1, x - x2, x + x2 + x1 - m * m);
  }

  /** The third root is the one that the slope gives. */
  lemma MeetsThere(c: Curve, x1: int, y1: int, m: int, x2: int, x3: int)
    requires c.p > 0 && TestPoint(c, x1, y1) && Cong(c.p, Cofactor(c, x1, y1, m, x2), 0)
    requires Cong(c.p, x3, m * m - x2 - x1)
    ensures MeetsAt(c, x1, y1, m, x2, x3)
  {
    hide MeetsAt;
    forall x ensures RootsAt(c, x1, y1, m, x2, x3, x) { RootThere(c, x1, y1, m, x2, x3, x); }
    MeetsIs(c, x1, y1, m, x2, x3);
  }

  lemma MeetsIs(c: Curve, x1: int, y1: int, m: int, x2: int, x3: int)
    requires c.p > 0 && forall x :: RootsAt(c, x1, y1, m, x2, x3, x)
    ensures MeetsAt(c, x1, y1, m, x2, x3)
  {
  }

  lemma RootThere(c: Curve, x1: int, y1: int, m: int, x2: int, x3: int, x: int)
    requires c.p > 0 && TestPoint(c, x1, y1) && Cong(c.p, Cofactor(c, x1, y1, m, x2), 0)
    requires Cong(c.p, x3, m * m - x2 - x1)
    ensures RootsAt(c, x1, y1, m, x2, x3, x)
  {
    var p, k, t := c.p, Cofactor(c, x1, y1, m, x2), m * m - x2 - x1;
    Factored(c, x1, y1, m, x2, x);
    hide Cofactor, Line;
    CongAdd(p, Rhs(c, x1), y1 * y1, y1 * y1, y1 * y1);
    CongScale(p, k, 0, x - x1);
    CongAdd(p, x, x, x3, t);
    CongScale(p, x - x3, x - t, (x - x1) * (x - x2));
    CongAdd(p, Rhs(c, x1) - y1 * y1, 0, (x - x1) * k, 0);
    CongAdd(p, Rhs(c, x1) - y1 * y1 + (x - x1) * k, 0, (x - x1) * (x - x2) * (x - t), (x - x1) * (x - x2) * (x - x3));
  }

  lemma HalfCancels(p: nat, a: int)
    requires Prime(p) && p > 2 && Cong(p, 2 * a, 0)
    ensures Cong(p, a, 0)
  {
    NoZeroDivisors(p, 2, a);
    Reduced(p, 2);
    Reduced(p, 0);
  }

  /** The roots of a line determine its slope equation and the third of them. */
  lemma MeetsDetermines(c: Curve, x1: int, y1: int, m: int, x2: int, x3: int)
    requires OddField(c) && TestPoint(c, x1, y1) && MeetsAt(c, x1, y1, m, x2, x3)
    ensures Cong(c.p, Cofactor(c, x1, y1, m, x2), 0) && Cong(c.p, x3, m * m - x2 - x1)
  {
    var p, k, t, e := c.p, Cofactor(c, x1, y1, m, x2), m * m - x2 - x1, x1 - x2;
    RootBeside(c, x1, y1, m, x2, x3, 1);
    RootBeside(c, x1, y1, m, x2, x3, -1);
    hide Cofactor, MeetsAt, OddField;
    assert 1 * k == k && (-1) * k == -k;
    assert 1 * (1 + e) * (t - x3) == (1 + e) * (t - x3);
    assert (-1) * (-1 + e) * (t - x3) == (1 - e) * (t - x3);
    CongScale(p, -k, (1 - e) * (t - x3), -1);
    BothSides(p, k, e, t - x3);
    assert Prime(p) && p > 2 by { OddIs(c); }
    HalfCancels(p, t - x3);
    CongScale(p, t - x3, 0, 1 + e);
    CongAdd(p, t - x3, 0, x3, x3);
  }

  lemma OddIs(c: Curve)
    requires OddField(c)
    ensures Prime(c.p) && c.p > 2
  {
  }

  lemma BothSides(p: nat, k: int, e: int, d: int)
    requires p > 0 && Cong(p, k, (1 + e) * d) && Cong(p, -1 * -k, -1 * ((1 - e) * d))
    ensures Cong(p, 2 * d, 0)
  {
    assert -1 * -k == k && -1 * ((1 - e) * d) == e * d - d;
    assert (1 + e) * d == e * d + d;
    CongAdd(p, k, e * d + d, k, e * d - d);
  }

  /** Next to the first root, the factors are small. */
  lemma RootBeside(c: Curve, x1: int, y1: int, m: int, x2: int, x3: int, u: int)
    requires c.p > 0 && TestPoint(c, x1, y1) && MeetsAt(c, x1, y1, m, x2, x3)
    ensures var k, t, e := Cofactor(c, x1, y1, m, x2), m * m - x2 - x1, x1 - x2;
      Cong(c.p, u * k, u * (u + e) * (t - x3))
  {
    var p, k, t, e, x := c.p, Cofactor(c, x1, y1, m, x2), m * m - x2 - x1, x1 - x2, x1 + u;
    assert RootsAt(c, x1, y1, m, x2, x3, x);
    Factored(c, x1, y1, m, x2, x);
    hide Cofactor, Line, MeetsAt;
    assert x - x1 == u && x - x2 == u + e;
    var f := u * (u + e);
    CongAdd(p, Rhs(c, x1), y1 * y1, y1 * y1, y1 * y1);
    var rest := u * k + f * (x - t);
    CongAdd(p, Rhs(c, x1) - y1 * y1 + rest, f * (x - x3), Rhs(c, x1) - y1 * y1, 0);
    CongAdd(p, rest, f * (x - x3), f * (x - t), f * (x - t));
    MulDistributes(f, x - x3, x - t);
    assert x - x3 - (x - t) == t - x3;
  }

  // ---------------------------------------------------------------- sums

  /** `q` is the mirror image of the third point where a line through `s` and `t` meets the curve. */
  ghost predicate OnChord(c: Curve, s: Point, t: Point, q: Point, m: int)
    requires c.p > 0 && s.Affine? && t.Affine? && q.Affine?
  {
    && q.x < c.p && q.y < c.p
    && Cong(c.p, Line(s.x, s.y, m, t.x), t.y)
    && MeetsAt(c, s.x, s.y, m, t.x, q.x)
    && Cong(c.p, q.y, -Line(s.x, s.y, m, q.x))
  }

  predicate Opposite(c: Curve, s: Point, t: Point)
    requires c.p > 0
  {
    s.Affine? && t.Affine? && s.x == t.x && (s.y + t.y) % c.p == 0
  }

  /** The slope that the program divides out for. */
  ghost predicate IsSlope(c: Curve, s: Point, t: Point, m: int)
    requires c.p > 0 && s.Affine? && t.Affine?
  {
    if s == t then Cong(c.p, m * (2 * s.y), 3 * s.x * s.x + c.a) else Cong(c.p, m * (t.x - s.x), t.y - s.y)
  }

  lemma OppositeIs(c: Curve, s: Point, t: Point)
    requires OddField(c) && OnCurve(c, s) && OnCurve(c, t) && s.Affine? && t.Affine?
    ensures Opposite(c, s, t) <==> if s == t then s.y == 0 else s.x == t.x
  {
    var p := c.p;
    Reduced(p, 0);
    if s == t {
      if s.y != 0 { DoubleNonZero(p, s.y); }
    } else if s.x == t.x {
      MirrorOrSame(p, s.y, t.y);
    }
  }

  lemma MirrorOrSame(p: nat, y: nat, z: nat)
    requires Prime(p) && y < p && z < p && y != z && Cong(p, y * y, z * z)
    ensures (y + z) % p == 0
  {
    CongIff(p, y * y, z * z);
    assert (y - z) * (y + z) == y * y - z * z;
    Reduced(p, 0);
    NonZero(p, y, z);
    NoZeroDivisors(p, y - z, y + z);
  }

  lemma SlopeCofactor(c: Curve, s: Point, t: Point, m: int)
    requires OddField(c) && OnCurve(c, s) && OnCurve(c, t) && s.Affine? && t.Affine? && !Opposite(c, s, t)
    requires IsSlope(c, s, t, m)
    ensures Cong(c.p, Cofactor(c, s.x, s.y, m, t.x), 0) && Cong(c.p, Line(s.x, s.y, m, t.x), t.y)
  {
    OppositeIs(c, s, t);
    if s == t {
      TangentCofactor(c, s.x, s.y, m);
      assert m * (s.x - s.x) == 0;
    } else {
      NonZero(c.p, t.x, s.x);
      SecantCofactor(c, s.x, s.y, t.x, t.y, m);
      CongAdd(c.p, m * (t.x - s.x), t.y - s.y, s.y, s.y);
    }
    hide Cofactor, TestPoint;
  }

  /** Conversely a line that meets the curve like that has the slope. */
  lemma ChordSlope(c: Curve, s: Point, t: Point, m: int)
    requires OddField(c) && OnCurve(c, s) && s.Affine? && t.Affine?
    requires Cong(c.p, Cofactor(c, s.x, s.y, m, t.x), 0) && Cong(c.p, Line(s.x, s.y, m, t.x), t.y)
    ensures IsSlope(c, s, t, m)
  {
    if s == t {
      TangentSlope(c, s.x, s.y, m);
    } else {
      CongAdd(c.p, Line(s.x, s.y, m, t.x), t.y, s.y, s.y);
    }
    hide Cofactor, Cong, OnCurve, OddField;
  }

  lemma TangentSlope(c: Curve, x1: int, y1: int, m: int)
    requires c.p > 0 && Cong(c.p, Cofactor(c, x1, y1, m, x1), 0)
    ensures Cong(c.p, m * (2 * y1), 3 * x1 * x1 + c.a)
  {
    assert m * (2 * y1) == 2 * m * y1;
    assert Cofactor(c, x1, y1, m, x1) == 3 * x1 * x1 + c.a - 2 * m * y1;
    CongAdd(c.p, 3 * x1 * x1 + c.a - 2 * m * y1, 0, 2 * m * y1, 2 * m * y1);
  }

  lemma SlopesAgree(c: Curve, s: Point, t: Point, m: int, n: int)
    requires OddField(c) && OnCurve(c, s) && OnCurve(c, t) && s.Affine? && t.Affine? && !Opposite(c, s, t)
    requires IsSlope(c, s, t, m) && IsSlope(c, s, t, n)
    ensures Cong(c.p, m, n)
  {
    OppositeIs(c, s, t);
    if s == t {
      DoubleNonZero(c.p, s.y);
      CancelFactor(c.p, m, n, 2 * s.y);
    } else {
      NonZero(c.p, t.x, s.x);
      CancelFactor(c.p, m, n, t.x - s.x);
    }
  }

  /** What the program computes, from its slope. */
  lemma AddComputes(c: Curve, s: Point, t: Point) returns (m: nat)
    requires OddField(c) && OnCurve(c, s) && OnCurve(c, t) && s.Affine? && t.Affine? && !Opposite(c, s, t)
    ensures IsSlope(c, s, t, m) && Add(c, s, t) == Intersect(c, s.x, s.y, t.x, m) && Intersect(c, s.x, s.y, t.x, m).Ok?
  {
    OppositeIs(c, s, t);
    Closed(c, s, t);
    if s == t {
      DoubleNonZero(c.p, s.y);
      QuotientWorks(c.p, 3 * s.x * s.x + c.a, 2 * s.y);
      m := Quotient(c.p, 3 * s.x * s.x + c.a, 2 * s.y).value;
    } else {
      NonZero(c.p, t.x, s.x);
      QuotientWorks(c.p, t.y - s.y, t.x - s.x);
      m := Quotient(c.p, t.y - s.y, t.x - s.x).value;
    }
    hide Quotient, Intersect, TestPoint;
  }

  /** The computed point in terms of the slope. */
  lemma IntersectsAt(c: Curve, x1: int, y1: int, x2: int, m: int)
    requires c.p > 0 && Intersect(c, x1, y1, x2, m).Ok?
    ensures var q := Intersect(c, x1, y1, x2, m).value;
      && q.Affine? && q.x < c.p && q.y < c.p
      && Cong(c.p, q.x, m * m - x2 - x1) && Cong(c.p, q.y, -Line(x1, y1, m, q.x))
  {
    var p := c.p;
    var x3 := ThirdX(p, x1, x2, m);
    CongMod(p, m * m - x2 - x1);
    Reduced(p, x3);
    var line := m * (x3 - x1) + y1;
    CongMod(p, line);
    CongMod(p, -(line % p));
    CongScale(p, line % p, line, -1);
    hide TestPoint;
  }

  lemma ChordFound(c: Curve, s: Point, t: Point) returns (m: nat)
    requires OddField(c) && OnCurve(c, s) && OnCurve(c, t) && s.Affine? && t.Affine? && !Opposite(c, s, t)
    ensures IsSlope(c, s, t, m)
    ensures Add(c, s, t).Ok? && Add(c, s, t).value.Affine? && OnChord(c, s, t, Add(c, s, t).value, m)
    ensures Cong(c.p, Add(c, s, t).value.x, m * m - t.x - s.x)
  {
    m := AddComputes(c, s, t);
    IntersectsAt(c, s.x, s.y, t.x, m);
    SlopeCofactor(c, s, t, m);
    hide Intersect, MeetsAt, Cofactor, Line, IsSlope, Opposite, Add;
    MeetsThere(c, s.x, s.y, m, t.x, Intersect(c, s.x, s.y, t.x, m).value.x);
  }

  lemma ChordEnds(c: Curve, s: Point, t: Point, q: Point, m: int)
    requires OddField(c) && OnCurve(c, s) && s.Affine? && t.Affine? && q.Affine? && OnChord(c, s, t, q, m)
    ensures IsSlope(c, s, t, m) && Cong(c.p, q.x, m * m - t.x - s.x)
  {
    MeetsDetermines(c, s.x, s.y, m, t.x, q.x);
    hide MeetsAt, Line, IsSlope;
    ChordSlope(c, s, t, m);
  }

  lemma SameEnd(p: nat, x1: int, y1: int, x2: int, m: int, n: int, q: Point, r: Point)
    requires p > 0 && Cong(p, m, n) && q.Affine? && r.Affine? && q.x < p && q.y < p && r.x < p && r.y < p
    requires Cong(p, q.x, m * m - x2 - x1) && Cong(p, r.x, n * n - x2 - x1)
    requires Cong(p, q.y, -Line(x1, y1, m, q.x)) && Cong(p, r.y, -Line(x1, y1, n, r.x))
    ensures q == r
  {
    CongMul(p, m, n, m, n);
    CongAdd(p, m * m, n * n, -x2 - x1, -x2 - x1);
    CongReduced(p, q.x, r.x);
    CongScale(p, m, n, q.x - x1);
    CongAdd(p, m * (q.x - x1), n * (q.x - x1), y1, y1);
    CongScale(p, Line(x1, y1, m, q.x), Line(x1, y1, n, q.x), -1);
    CongReduced(p, q.y, r.y);
  }

  lemma ChordUnique(c: Curve, s: Point, t: Point, m: int, q: Point, n: int, r: Point)
    requires OddField(c) && OnCurve(c, s) && OnCurve(c, t) && s.Affine? && t.Affine? && !Opposite(c, s, t)
    requires q.Affine? && r.Affine? && OnChord(c, s, t, r, n) && OnChord(c, s, t, q, m)
    ensures q == r
  {
    ChordEnds(c, s, t, q, m);
    ChordEnds(c, s, t, r, n);
    SlopesAgree(c, s, t, m, n);
    hide MeetsAt, OnCurve, IsSlope, OddField, Opposite, Line, Cong;
    SameEnd(c.p, s.x, s.y, t.x, m, n, q, r);
  }

  /**
   The sum of two points, exactly: the ideal point for opposite ones, and otherwise the one point that is
   the mirror image of the third meeting of the curve with a line through both, or touching it in the one.
   */
  lemma AddExactly(c: Curve, s: Point, t: Point, q: Point)
    requires OddField(c) && OnCurve(c, s) && OnCurve(c, t) && s.Affine? && t.Affine?
    ensures Add(c, s, t) == Ok(q) <==>
      if q.Ideal? then Opposite(c, s, t) else !Opposite(c, s, t) && exists m :: OnChord(c, s, t, q, m)
  {
    if Opposite(c, s, t) {
      OppositeIs(c, s, t);
      hide OnChord;
    } else {
      var m := ChordFound(c, s, t);
      hide OnChord, Add, Opposite, OnCurve;
      if q.Affine? {
        if n :| OnChord(c, s, t, q, n) { ChordUnique(c, s, t, n, q, m, Add(c, s, t).value); }
      }
    }
  }
}
