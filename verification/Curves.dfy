/** Points of y^2 = x^3 + a x + b over an odd prime field, with the chord-and-tangent addition. */
module Curves {
  import opened Wrappers
  import opened Congruences
  import opened Euclid
  import opened Primes

  datatype Curve = Curve(p: nat, a: int, b: int)

  datatype Point = Ideal | Affine(x: nat, y: nat)

  /** What the point constructor and the field division can raise. */
  datatype PointError = NotOnCurve | NoInverse

  function Rhs(c: Curve, x: int): int { x * x * x + c.a * x + c.b }

  /** The constructor's test. */
  predicate TestPoint(c: Curve, x: int, y: int)
    requires c.p > 0
  {
    Cong(c.p, y * y, Rhs(c, x))
  }

  ghost predicate OddField(c: Curve) { Prime(c.p) && c.p > 2 }

  predicate OnCurve(c: Curve, q: Point)
    requires c.p > 0
  {
    q.Ideal? || (q.x < c.p && q.y < c.p && TestPoint(c, q.x, q.y))
  }

  function MakePoint(c: Curve, x: int, y: int): (r: Result<Point, PointError>)
    requires c.p > 0
    ensures r.Ok? ==> OnCurve(c, r.value)
  {
    CongMod(c.p, x);
    CongMod(c.p, y);
    if TestPoint(c, x % c.p, y % c.p) then Ok(Affine(x % c.p, y % c.p)) else Err(NotOnCurve)
  }

  /** Field division, which fails when the divisor has no inverse. */
  function Quotient(p: nat, x: int, y: int): Result<nat, PointError>
    requires p > 0
  {
    CongMod(p, y);
    var i := Inverse(p, y % p);
    CongMod(p, x * i);
    if y * i % p == 1 % p then Ok(x * i % p) else Err(NoInverse)
  }

  function ThirdX(p: nat, x1: int, x2: int, m: int): int
    requires p > 0
  {
    (m * m - x2 - x1) % p
  }

  function ThirdY(p: nat, x1: int, y1: int, m: int, x3: int): int
    requires p > 0
  {
    (m * (x3 - x1) + y1) % p
  }

  /** The third intersection of the line of slope `m` through two points, mirrored. */
  function Intersect(c: Curve, x1: int, y1: int, x2: int, m: int): Result<Point, PointError>
    requires c.p > 0
  {
    var x3 := ThirdX(c.p, x1, x2, m);
    MakePoint(c, x3, -ThirdY(c.p, x1, y1, m, x3))
  }

  function Add(c: Curve, s: Point, t: Point): Result<Point, PointError>
    requires c.p > 0
  {
    if s.Ideal? then Ok(t)
    else if t.Ideal? then Ok(s)
    else if s == t then
      if s.y == 0 then Ok(Ideal)
      else
        match Quotient(c.p, 3 * s.x * s.x + c.a, 2 * s.y)
        case Err(e) => Err(e)
        case Ok(m) => Intersect(c, s.x, s.y, t.x, m)
    else if s.x == t.x then Ok(Ideal)
    else
      match Quotient(c.p, t.y - s.y, t.x - s.x)
      case Err(e) => Err(e)
      case Ok(m) => Intersect(c, s.x, s.y, t.x, m)
  }

  function Negate(c: Curve, s: Point): Result<Point, PointError>
    requires c.p > 0
  {
    if s.Ideal? then Ok(s) else MakePoint(c, s.x, 0 - s.y)
  }

  // ---------------------------------------------------------------- division

  lemma QuotientWorks(p: nat, x: int, y: int)
    requires Prime(p) && !Cong(p, y, 0)
    ensures Quotient(p, x, y).Ok?
    ensures var m := Quotient(p, x, y).value; m < p && Cong(p, m * y, x)
  {
    CongMod(p, y);
    Reduced(p, 0);
    var d := y % p;
    var i := Inverse(p, d);
    InverseModPrime(p, d);
    CongScale(p, d, y, i);
    CongMod(p, x * i);
    CongScale(p, x * i % p, x * i, y);
    CongScale(p, y * i, 1, x);
    assert (x * i) * y == x * (y * i) by { MulIsAssociative(x, i, y); }
  }

  lemma NonZero(p: nat, x: nat, y: nat)
    requires x < p && y < p && x != y
    ensures !Cong(p, x - y, 0)
  {
    if Cong(p, x - y, 0) {
      CongAdd(p, x - y, 0, y, y);
      CongReduced(p, x, y);
    }
  }

  lemma DoubleNonZero(p: nat, y: nat)
    requires Prime(p) && p > 2 && 0 < y < p
    ensures !Cong(p, 2 * y, 0)
  {
    Reduced(p, 2);
    Reduced(p, y);
    Reduced(p, 0);
    if Cong(p, 2 * y, 0) { NoZeroDivisors(p, 2, y); }
  }

  // ---------------------------------------------------------------- the line meets the cubic

  /** What is left of the cubic minus the squared line after the root `x1` is divided out. */
  function Cofactor(c: Curve, x1: int, y1: int, m: int, x: int): int {
    x * x + x * x1 + x1 * x1 + c.a - m * m * (x - x1) - 2 * m * y1
  }

  lemma CubeDifference(x: int, y: int)
    ensures x * x * x - y * y * y == (x - y) * (x * x + x * y + y * y)
  {
  }

  lemma SquareOfLine(k: int, u: int, y: int, m: int)
    requires k == m * u
    ensures (k + y) * (k + y) == u * (m * m * u + 2 * m * y) + y * y
  {
    assert (k + y) * (k + y) == k * k + 2 * (k * y) + y * y;
    assert k * k == u * (m * m * u) by { MulIsAssociative(u, m * m, u); MulIsAssociative(m, m, u); }
    assert 2 * (k * y) == u * (2 * m * y);
    MulDistributes(u, m * m * u, 2 * m * y);
  }

  lemma LineAndCubic(c: Curve, x1: int, y1: int, m: int, x: int)
    ensures var line := m * (x - x1) + y1;
      Rhs(c, x) - line * line == (Rhs(c, x1) - y1 * y1) + (x - x1) * Cofactor(c, x1, y1, m, x)
  {
    var u := x - x1;
    CubeDifference(x, x1);
    SquareOfLine(m * u, u, y1, m);
    MulDistributes(c.a, x, x1);
    MulDistributes(u, x * x + x * x1 + x1 * x1, c.a);
    MulDistributes(u, x * x + x * x1 + x1 * x1 + c.a, m * m * u + 2 * m * y1);
  }

  lemma CofactorDifference(c: Curve, x1: int, y1: int, m: int, x: int, x2: int)
    ensures Cofactor(c, x1, y1, m, x) - Cofactor(c, x1, y1, m, x2) == (x - x2) * (x + x2 + x1 - m * m)
  {
    var k := m * m;
    MulDistributes(k, x - x1, x2 - x1);
    MulDistributes(x - x2, x + x2 + x1, k);
    assert (x - x2) * (x + x2 + x1) == x * x - x2 * x2 + x * x1 - x2 * x1;
  }

  /** The other root of the cofactor is a root of the cubic minus the squared line. */
  lemma ThirdRoot(c: Curve, x1: int, y1: int, x2: int, m: int, x3: int)
    requires c.p > 0 && TestPoint(c, x1, y1) && Cong(c.p, Cofactor(c, x1, y1, m, x2), 0)
    requires Cong(c.p, x3, m * m - x2 - x1)
    ensures TestPoint(c, x3, m * (x3 - x1) + y1)
  {
    var p := c.p;
    var g2, g3 := Cofactor(c, x1, y1, m, x2), Cofactor(c, x1, y1, m, x3);
    var line := m * (x3 - x1) + y1;
    CofactorDifference(c, x1, y1, m, x3, x2);
    LineAndCubic(c, x1, y1, m, x3);
    hide Cofactor, Rhs;
    CongAdd(p, x3, m * m - x2 - x1, x2 + x1 - m * m, x2 + x1 - m * m);
    CongScale(p, x3 + x2 + x1 - m * m, 0, x3 - x2);
    CongAdd(p, g3 - g2, 0, g2, 0);
    CongScale(p, g3, 0, x3 - x1);
    CongIff(p, y1 * y1, Rhs(c, x1));
    CongAdd(p, Rhs(c, x1), y1 * y1, y1 * y1, y1 * y1);
    CongAdd(p, Rhs(c, x1) - y1 * y1, 0, (x3 - x1) * g3, 0);
    CongAdd(p, Rhs(c, x3) - line * line, 0, line * line, line * line);
  }

  lemma SecantCofactor(c: Curve, x1: int, y1: int, x2: int, y2: int, m: int)
    requires Prime(c.p) && TestPoint(c, x1, y1) && TestPoint(c, x2, y2) && !Cong(c.p, x2 - x1, 0)
    requires Cong(c.p, m * (x2 - x1), y2 - y1)
    ensures Cong(c.p, Cofactor(c, x1, y1, m, x2), 0)
  {
    var p := c.p;
    var line := m * (x2 - x1) + y1;
    var g := Cofactor(c, x1, y1, m, x2);
    LineAndCubic(c, x1, y1, m, x2);
    hide Cofactor, Rhs;
    CongAdd(p, m * (x2 - x1), y2 - y1, y1, y1);
    CongMul(p, line, y2, line, y2);
    CongAdd(p, Rhs(c, x2), line * line, line * line, line * line);
    CongAdd(p, Rhs(c, x1), y1 * y1, y1 * y1, y1 * y1);
    CongAdd(p, Rhs(c, x2) - line * line, 0, Rhs(c, x1) - y1 * y1, 0);
    NoZeroDivisors(p, x2 - x1, g);
  }

  lemma TangentCofactor(c: Curve, x1: int, y1: int, m: int)
    requires c.p > 0 && Cong(c.p, m * (2 * y1), 3 * x1 * x1 + c.a)
    ensures Cong(c.p, Cofactor(c, x1, y1, m, x1), 0)
  {
    assert m * (2 * y1) == 2 * m * y1;
    assert Cofactor(c, x1, y1, m, x1) == 3 * x1 * x1 + c.a - 2 * m * y1;
    CongAdd(c.p, 3 * x1 * x1 + c.a, m * (2 * y1), 2 * m * y1, 2 * m * y1);
  }

  /** Testing a reduced and mirrored point is testing the point. */
  lemma TestReduced(c: Curve, x: int, y: int, y': int)
    requires c.p > 0 && TestPoint(c, x, y) && (Cong(c.p, y', -y) || Cong(c.p, y', y))
    ensures TestPoint(c, x % c.p, y' % c.p) && TestPoint(c, x, y')
  {
    var p := c.p;
    CongMod(p, x);
    CongMod(p, y');
    assert (-y) * (-y) == y * y;
    if Cong(p, y', -y) { CongMul(p, y', -y, y', -y); } else { CongMul(p, y', y, y', y); }
    CongMul(p, y' % p, y', y' % p, y');
    RhsCong(c, x % p, x);
  }

  lemma RhsCong(c: Curve, x: int, z: int)
    requires c.p > 0 && Cong(c.p, x, z)
    ensures Cong(c.p, Rhs(c, x), Rhs(c, z))
  {
    CongMul(c.p, x, z, x, z);
    CongMul(c.p, x * x, z * z, x, z);
    CongScale(c.p, x, z, c.a);
    CongAdd(c.p, x * x * x, z * z * z, c.a * x, c.a * z);
    CongAdd(c.p, x * x * x + c.a * x, z * z * z + c.a * z, c.b, c.b);
  }

  lemma IntersectOnCurve(c: Curve, x1: nat, y1: nat, x2: nat, m: int)
    requires Prime(c.p) && TestPoint(c, x1, y1) && Cong(c.p, Cofactor(c, x1, y1, m, x2), 0)
    ensures Intersect(c, x1, y1, x2, m).Ok?
  {
    var p := c.p;
    var x3 := ThirdX(p, x1, x2, m);
    CongMod(p, m * m - x2 - x1);
    ThirdRoot(c, x1, y1, x2, m, x3);
    var line := m * (x3 - x1) + y1;
    CongMod(p, line);
    CongScale(p, line % p, line, -1);
    TestReduced(c, x3, line, -(line % p));
    hide *;
  }

  /** Addition and negation of curve points never fail, and stay on the curve. */
  lemma Closed(c: Curve, s: Point, t: Point)
    requires OddField(c) && OnCurve(c, s) && OnCurve(c, t)
    ensures Add(c, s, t).Ok? && OnCurve(c, Add(c, s, t).value)
  {
    if s.Affine? && t.Affine? {
      if s == t {
        if s.y != 0 {
          DoubleNonZero(c.p, s.y);
          QuotientWorks(c.p, 3 * s.x * s.x + c.a, 2 * s.y);
          var m := Quotient(c.p, 3 * s.x * s.x + c.a, 2 * s.y).value;
          TangentCofactor(c, s.x, s.y, m);
          IntersectOnCurve(c, s.x, s.y, s.x, m);
        }
      } else if s.x != t.x {
        NonZero(c.p, t.x, s.x);
        QuotientWorks(c.p, t.y - s.y, t.x - s.x);
        var m := Quotient(c.p, t.y - s.y, t.x - s.x).value;
        SecantCofactor(c, s.x, s.y, t.x, t.y, m);
        IntersectOnCurve(c, s.x, s.y, t.x, m);
      }
      hide Intersect, Quotient, TestPoint;
    }
  }

  lemma NegateClosed(c: Curve, s: Point)
    requires c.p > 0 && OnCurve(c, s)
    ensures Negate(c, s).Ok? && OnCurve(c, Negate(c, s).value)
    ensures s.Affine? ==> Negate(c, s).value == Affine(s.x, (0 - s.y) % c.p)
  {
    if s.Affine? {
      TestReduced(c, s.x, s.y, 0 - s.y);
      Reduced(c.p, s.x);
    }
  }

  /** A point and its mirror image cancel. */
  lemma InverseCancels(c: Curve, s: Point)
    requires OddField(c) && OnCurve(c, s)
    ensures Negate(c, s).Ok? && Add(c, s, Negate(c, s).value) == Ok(Ideal)
    ensures Add(c, Negate(c, s).value, s) == Ok(Ideal)
  {
    NegateClosed(c, s);
    if s.Affine? {
      MirrorDiffers(c.p, s.y);
    }
  }

  lemma MirrorDiffers(p: nat, y: nat)
    requires Prime(p) && p > 2 && y < p
    ensures (0 - y) % p == if y == 0 then 0 else p - y
    ensures (0 - y) % p == y <==> y == 0
  {
    if y == 0 { Reduced(p, 0); } else {
      DivModUnique(0 - y, p, -1, p - y);
      if p - y == y {
        DividesBy(2, p, y);
      }
    }
  }

  // ---------------------------------------------------------------- symmetries

  /** Slopes that solve the same equation are equal. */
  lemma SlopeUnique(p: nat, m1: nat, m2: nat, d: int, e: int)
    requires Prime(p) && m1 < p && m2 < p && !Cong(p, d, 0) && Cong(p, m1 * d, e) && Cong(p, m2 * d, e)
    ensures m1 == m2
  {
    CancelFactor(p, m1, m2, d);
    CongReduced(p, m1, m2);
  }

  /** Addition commutes. */
  lemma AddCommutes(c: Curve, s: Point, t: Point)
    requires OddField(c) && OnCurve(c, s) && OnCurve(c, t)
    ensures Add(c, s, t) == Add(c, t, s)
  {
    if s.Affine? && t.Affine? && s.x != t.x {
      var p := c.p;
      NonZero(p, t.x, s.x);
      NonZero(p, s.x, t.x);
      QuotientWorks(p, t.y - s.y, t.x - s.x);
      QuotientWorks(p, s.y - t.y, s.x - t.x);
      var m := Quotient(p, t.y - s.y, t.x - s.x).value;
      var n := Quotient(p, s.y - t.y, s.x - t.x).value;
      CongScale(p, n * (s.x - t.x), s.y - t.y, -1);
      MulDistributes(n, s.x, t.x);
      MulDistributes(n, t.x, s.x);
      SlopeUnique(p, m, n, t.x - s.x, t.y - s.y);
      OtherEnd(p, m, ThirdX(p, s.x, t.x, m), s.x, s.y, t.x, t.y);
      hide Quotient, Cong, MakePoint, ThirdX, ThirdY;
    }
  }

  /** A line can be anchored at either of its points. */
  lemma OtherEnd(p: nat, m: int, x3: int, x1: int, y1: int, x2: int, y2: int)
    requires p > 0 && Cong(p, m * (x2 - x1), y2 - y1)
    ensures ThirdY(p, x1, y1, m, x3) == ThirdY(p, x2, y2, m, x3) && ThirdX(p, x1, x2, m) == ThirdX(p, x2, x1, m)
  {
    MulDistributes(m, x3 - x1, x3 - x2);
    assert m * (x3 - x1) == m * (x3 - x2) + m * (x2 - x1);
    CongAdd(p, m * (x2 - x1), y2 - y1, m * (x3 - x2) + y1, m * (x3 - x2) + y1);
  }

  lemma MirrorThird(p: nat, x1: int, y1: int, x2: int, m: int, z1: int, n: int, x3: int)
    requires p > 0 && Cong(p, n, -m) && Cong(p, z1, 0 - y1)
    ensures ThirdX(p, x1, x2, n) == ThirdX(p, x1, x2, m)
    ensures Cong(p, ThirdY(p, x1, z1, n, x3), -ThirdY(p, x1, y1, m, x3))
  {
    var line, mirror := m * (x3 - x1) + y1, n * (x3 - x1) + z1;
    assert (-m) * (-m) == m * m;
    CongMul(p, n, -m, n, -m);
    CongAdd(p, n * n, m * m, -x2 - x1, -x2 - x1);
    CongScale(p, n, -m, x3 - x1);
    assert (-m) * (x3 - x1) == -(m * (x3 - x1));
    CongAdd(p, n * (x3 - x1), -(m * (x3 - x1)), z1, 0 - y1);
    CongMod(p, line);
    CongMod(p, mirror);
    CongScale(p, line % p, line, -1);
  }

  lemma MirrorIntersect(c: Curve, x1: nat, y1: nat, x2: nat, m: int, z1: nat, n: int)
    requires c.p > 0 && Cong(c.p, n, -m) && Cong(c.p, z1, 0 - y1)
    requires Intersect(c, x1, y1, x2, m).Ok?
    ensures Intersect(c, x1, z1, x2, n) == Negate(c, Intersect(c, x1, y1, x2, m).value)
  {
    var p := c.p;
    var x3 := ThirdX(p, x1, x2, m);
    MirrorThird(p, x1, y1, x2, m, z1, n, x3);
    CongMod(p, m * m - x2 - x1);
    MirrorMade(c, x3, ThirdY(p, x1, y1, m, x3), ThirdY(p, x1, z1, n, x3));
    hide MakePoint, ThirdX, ThirdY, Cong;
  }

  lemma MirrorMade(c: Curve, x: nat, y: int, z: int)
    requires c.p > 0 && x < c.p && Cong(c.p, z, -y) && MakePoint(c, x, -y).Ok?
    ensures MakePoint(c, x, -z) == Negate(c, MakePoint(c, x, -y).value)
  {
    var p := c.p;
    var w := (-y) % p;
    Reduced(p, x);
    CongMod(p, -y);
    CongScale(p, z, -y, -1);
    CongScale(p, w, -y, -1);
    hide MakePoint;
    MakePointDepends(c, x, -z, 0 - w);
    MadeOf(c, x, -y);
  }

  lemma MadeOf(c: Curve, x: int, y: int)
    requires c.p > 0 && MakePoint(c, x, y).Ok?
    ensures MakePoint(c, x, y).value == Affine(x % c.p, y % c.p)
  {
  }

  lemma MakePointDepends(c: Curve, x: int, y: int, z: int)
    requires c.p > 0 && Cong(c.p, y, z)
    ensures MakePoint(c, x, y) == MakePoint(c, x, z)
  {
    CongMul(c.p, y, z, y, z);
  }

  /** The mirror image of a sum is the sum of the mirror images. */
  lemma NegateAdd(c: Curve, s: Point, t: Point)
    requires OddField(c) && OnCurve(c, s) && OnCurve(c, t)
    ensures Add(c, s, t).Ok? && Negate(c, s).Ok? && Negate(c, t).Ok?
    ensures Negate(c, Add(c, s, t).value) == Add(c, Negate(c, s).value, Negate(c, t).value)
  {
    Closed(c, s, t);
    NegateClosed(c, s);
    NegateClosed(c, t);
    if s.Affine? && t.Affine? {
      MirrorDiffers(c.p, s.y);
      MirrorDiffers(c.p, t.y);
      if s == t && s.y != 0 {
        MirrorTangent(c, s);
      } else if s.x != t.x {
        MirrorSecant(c, s, t);
      }
      hide Intersect, Quotient, TestPoint, MakePoint;
    }
  }

  lemma MirrorSecant(c: Curve, s: Point, t: Point)
    requires OddField(c) && OnCurve(c, s) && OnCurve(c, t) && s.Affine? && t.Affine? && s.x != t.x
    ensures Add(c, s, t).Ok?
    ensures Negate(c, Add(c, s, t).value) == Add(c, Affine(s.x, (0 - s.y) % c.p), Affine(t.x, (0 - t.y) % c.p))
  {
    var p := c.p;
    var z1, z2 := (0 - s.y) % p, (0 - t.y) % p;
    Closed(c, s, t);
    NonZero(p, t.x, s.x);
    QuotientWorks(p, t.y - s.y, t.x - s.x);
    QuotientWorks(p, z2 - z1, t.x - s.x);
    var m := Quotient(p, t.y - s.y, t.x - s.x).value;
    var n := Quotient(p, z2 - z1, t.x - s.x).value;
    MirrorSlope(p, s.y, t.y, t.x - s.x, m, n);
    CongMod(p, 0 - s.y);
    hide Quotient, Intersect, Cong;
    MirrorIntersect(c, s.x, s.y, t.x, m, z1, n);
  }

  lemma MirrorSlope(p: nat, y1: nat, y2: nat, d: int, m: int, n: int)
    requires Prime(p) && !Cong(p, d, 0) && Cong(p, m * d, y2 - y1) && Cong(p, n * d, (0 - y2) % p - (0 - y1) % p)
    ensures Cong(p, n, -m)
  {
    CongMod(p, 0 - y1);
    CongMod(p, 0 - y2);
    CongAdd(p, (0 - y2) % p, 0 - y2, (0 - y1) % p, 0 - y1);
    CongScale(p, m * d, y2 - y1, -1);
    assert (-m) * d == -(m * d);
    CancelFactor(p, n, -m, d);
  }

  lemma MirrorTangent(c: Curve, s: Point)
    requires OddField(c) && OnCurve(c, s) && s.Affine? && s.y != 0
    ensures Add(c, s, s).Ok?
    ensures var z := Affine(s.x, (0 - s.y) % c.p); Negate(c, Add(c, s, s).value) == Add(c, z, z)
  {
    var p := c.p;
    var z := (0 - s.y) % p;
    var e := 3 * s.x * s.x + c.a;
    Closed(c, s, s);
    MirrorDiffers(p, s.y);
    DoubleNonZero(p, s.y);
    DoubleNonZero(p, z);
    QuotientWorks(p, e, 2 * s.y);
    QuotientWorks(p, e, 2 * z);
    var m := Quotient(p, e, 2 * s.y).value;
    var n := Quotient(p, e, 2 * z).value;
    CongMod(p, 0 - s.y);
    MirrorDoubleSlope(p, s.y, z, e, m, n);
    hide Quotient, Intersect, TestPoint, Cong, Prime;
    MirrorIntersect(c, s.x, s.y, s.x, m, z, n);
  }

  /** The slopes at a point and at its mirror image are negatives of each other. */
  lemma MirrorDoubleSlope(p: nat, y: int, z: int, e: int, m: int, n: int)
    requires p > 0 && Prime(p) && Cong(p, z, 0 - y) && !Cong(p, 2 * y, 0)
    requires Cong(p, m * (2 * y), e) && Cong(p, n * (2 * z), e)
    ensures Cong(p, n, -m)
  {
    hide Cong, Prime;
    CongScale(p, z, 0 - y, 2 * n);
    assert (2 * n) * z == n * (2 * z) && (2 * n) * (0 - y) == (-n) * (2 * y);
    CongThrough(p, n * (2 * z), (-n) * (2 * y), e, m * (2 * y));
    CancelFactor(p, -n, m, 2 * y);
    CongScale(p, -n, m, -1);
  }
}
