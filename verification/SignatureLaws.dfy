/**
 What verification accepts and what recovery returns, exactly: as equations between scalars, and between
 multiples of points.
 */
module SignatureLaws {
  import opened Wrappers
  import opened Congruences
  import opened Primes
  import opened SquareRoots
  import opened Curves
  import opened ScalarMultiples
  import opened ByteStrings
  import opened PointEncoding
  import opened Ecdsa

  // ---------------------------------------------------------------- verification

  /** The multiple of the base point by `k` has the coordinate `r`, and `k` solves the signing equation. */
  ghost predicate SignedBy(e: Setup, z: nat, r: nat, s: nat, d: nat, k: nat)
    requires e.c.p > 0 && e.n > 0
  {
    && k < e.n && Times(e.c, k, e.g).Affine? && Times(e.c, k, e.g).x == r
    && Cong(e.n, s * k, z + r * d)
  }

  /** What the verifier meets decides, whatever it is. */
  lemma VerifyMeets(e: Setup, z: nat, r: nat, s: nat, key: Point, met: Point)
    requires e.c.p > 0 && e.n > 0 && key.Affine? && DecodePublicKey(EncodePublicKey(key.x, key.y)) == (key.x, key.y)
    requires var w := Inv(s, e.n);
      z * w % e.n >= 0 && r * w % e.n >= 0
      && Sum(e.c, Times(e.c, z * w % e.n, e.g), Times(e.c, r * w % e.n, key)) == met
    ensures Verify(e, z, r, s, EncodePublicKey(key.x, key.y)) <==>
      met.Affine? && met.x == r && r % e.n != 0 && s % e.n != 0
  {
    Reduced(e.n, 0);
    hide Times, Sum, Inv, EncodePublicKey, DecodePublicKey;
  }

  /** The scalar that verification arrives at, below the order. */
  lemma MetScalar(n: nat, z: nat, r: nat, d: nat, s: nat) returns (k: nat)
    requires Prime(n) && !Cong(n, s, 0)
    ensures var w := Inv(s, n); k < n && Cong(n, s * k, z + r * d) && Cong(n, k, z * w % n + (r * w % n) * d)
  {
    var w, t := Inv(s, n), z + r * d;
    InvWorks(n, s);
    MulNonNegative(r, d);
    CongScale(n, w * s, 1, t);
    assert s * (w * t) == (w * s) * t by { MulIsAssociative(s, w, t); }
    VerifiedScalar(n, z, r, d, s, w * t);
    CongMod(n, w * t);
    CongScale(n, w * t % n, w * t, s);
    k := w * t % n;
  }

  lemma KeyMet(e: Setup, z: nat, r: nat, s: nat, d: nat, k: nat)
    requires Sound(e) && !Cong(e.n, s, 0)
    requires var w := Inv(s, e.n); Cong(e.n, k, z * w % e.n + (r * w % e.n) * d)
    ensures var w := Inv(s, e.n);
      z * w % e.n >= 0 && r * w % e.n >= 0
      && Sum(e.c, Times(e.c, z * w % e.n, e.g), Times(e.c, r * w % e.n, Times(e.c, d, e.g))) == Times(e.c, k, e.g)
  {
    hide *;
    Basics(e);
    var w := Inv(s, e.n);
    CongMod(e.n, z * w);
    CongMod(e.n, r * w);
    var u1, u2 := z * w % e.n, r * w % e.n;
    MulNat(e, u1);
    MulNat(e, d);
    MulNat(e, k);
    MulScale(e, u2, d);
    MulAdd(e, u1, u2 * d);
    MulCong(e, k, u1 + u2 * d);
  }

  /**
   Verification under the key of `d` accepts exactly the signatures that a holder of `d` can make: both
   parts are nonzero, and some nonce has a point with the coordinate `r` and solves the signing equation.
   */
  lemma VerifyExactly(e: Setup, z: nat, r: nat, s: nat, d: nat)
    requires Sound(e) && Times(e.c, d, e.g).Affine?
    ensures |PublicKey(e, d)| == 64
    ensures Verify(e, z, r, s, PublicKey(e, d)) <==>
      r % e.n != 0 && s % e.n != 0 && exists k :: SignedBy(e, z, r, s, d, k)
  {
    hide *;
    Basics(e);
    PublicKeyIs(e, d);
    TimesClosed(e.c, d, e.g);
    KeyDecodes(e.c, Times(e.c, d, e.g));
    NotZeroMod(e.n, s);
    CongMod(e.n, z * Inv(s, e.n));
    CongMod(e.n, r * Inv(s, e.n));
    if s % e.n != 0 {
      var k := MetScalar(e.n, z, r, d, s);
      KeyMet(e, z, r, s, d, k);
      VerifyMeets(e, z, r, s, Times(e.c, d, e.g), Times(e.c, k, e.g));
      SignedByIs(e, z, r, s, d, k);
      forall j | SignedBy(e, z, r, s, d, j) ensures j == k { OneNonce(e, z, r, s, d, j, k); }
    } else {
      var w := Inv(s, e.n);
      var met := Sum(e.c, Times(e.c, z * w % e.n, e.g), Times(e.c, r * w % e.n, Times(e.c, d, e.g)));
      VerifyMeets(e, z, r, s, Times(e.c, d, e.g), met);
    }
  }

  lemma SignedByIs(e: Setup, z: nat, r: nat, s: nat, d: nat, k: nat)
    requires e.c.p > 0 && e.n > 0 && k < e.n && Cong(e.n, s * k, z + r * d)
    ensures SignedBy(e, z, r, s, d, k) <==> Times(e.c, k, e.g).Affine? && Times(e.c, k, e.g).x == r
  {
    hide Times;
  }

  /** The nonce of a signature is determined by it. */
  lemma OneNonce(e: Setup, z: nat, r: nat, s: nat, d: nat, j: nat, k: nat)
    requires e.c.p > 0 && Prime(e.n) && !Cong(e.n, s, 0) && SignedBy(e, z, r, s, d, j)
    requires k < e.n && Cong(e.n, s * k, z + r * d)
    ensures j == k
  {
    hide Times, Prime;
    assert Cong(e.n, j * s, k * s);
    CancelFactor(e.n, j, k, s);
    CongReduced(e.n, j, k);
  }

  // ---------------------------------------------------------------- signing

  /** Over the nonce itself with the ordinate's parity, or over its opposite with the other parity. */
  ghost predicate SolvesFor(n: nat, s: nat, v: nat, k: nat, y: nat, t: int)
    requires n > 0
  {
    (Cong(n, s * k, t) && v == y % 2) || (Cong(n, -(s * k), t) && v == 1 - y % 2)
  }

  /**
   What is signed: the abscissa of the nonce's point and the lower of the two solutions of the signing
   equation, with a bit that tells the parity of the point it belongs to.
   */
  lemma SignExactly(e: Setup, z: nat, d: nat, k: nat, drawn: nat)
    requires Sound(e) && Times(e.c, if k == 0 then drawn else k, e.g).Affine?
    ensures var nonce := if k == 0 then drawn else k;
      var g, point := Sign(e, z, d, k, drawn), Times(e.c, nonce, e.g);
      && g.r == point.x && 2 * g.s <= e.n && SolvesFor(e.n, g.s, g.v, nonce, point.y, z + point.x * d)
  {
    hide *;
    Basics(e);
    SignIs(e, z, d, k, drawn);
    var nonce := if k == 0 then drawn else k;
    var q := Times(e.c, nonce, e.g);
    MulNat(e, nonce);
    NonceFacts(e, nonce);
    SigningEquation(e.n, nonce, z, q.x, d);
    var raw := RawS(e.n, nonce, z, q.x, d);
    CoordinatesAre(q);
    LowS(e.n, nonce, z + q.x * d, raw);
    HalfSolves(e.n, raw, nonce, q.y, z + q.x * d);
  }

  lemma CoordinatesAre(q: Point)
    requires q.Affine?
    ensures Coordinates(q) == (q.x, q.y)
  {
  }

  lemma HalfSolves(n: nat, raw: nat, k: nat, y: nat, t: int)
    requires n > 2 && raw < n && Cong(n, LowHalf(n, raw) * Signed(raw * 2 < n, k), t)
    ensures 2 * LowHalf(n, raw) <= n
    ensures SolvesFor(n, LowHalf(n, raw), ParityBit(y, raw * 2 < n), k, y, t)
  {
    var s := LowHalf(n, raw);
    assert s * (0 - k) == -(s * k);
  }

  // ---------------------------------------------------------------- the point over a coordinate

  lemma EvenOrOdd(p: nat, beta: nat, v: nat)
    requires p % 2 == 1 && beta < p
    ensures var y := LiftedY(p, beta, v);
      && 0 <= y <= p && (y == beta || y == p - beta)
      && 0 <= y % p < p && (y % p == if beta == 0 then 0 else y) && (beta == 0 || y % 2 == v % 2)
  {
    var y := LiftedY(p, beta, v);
    if beta == 0 {
      if y == p { DivModUnique(p, p, 1, 0); } else { Reduced(p, 0); }
    } else {
      Reduced(p, y);
    }
  }

  /** The point that the coordinate and the bit stand for. */
  function LiftedAt(c: Curve, r: nat, v: nat): Point
    requires c.p > 0 && c.p % 2 == 1
  {
    CongMod(c.p, r);
    CongMod(c.p, Rhs(c, r));
    var y := LiftedY(c.p, Root(c.p, Rhs(c, r) % c.p), v);
    CongMod(c.p, y);
    Affine(r % c.p, y % c.p)
  }

  lemma LiftTest(c: Curve, r: nat, v: nat)
    requires OddField(c) && c.p % 2 == 1
    ensures Rhs(c, r) % c.p >= 0
    ensures var y := LiftedY(c.p, Root(c.p, Rhs(c, r) % c.p), v);
      (Rhs(c, r) % c.p - y * y) % c.p == 0 <==> OnCurve(c, LiftedAt(c, r, v))
  {
    var p := c.p;
    CongMod(p, r);
    CongMod(p, Rhs(c, r));
    var a := Rhs(c, r) % p;
    var y := LiftedY(p, Root(p, a), v);
    RhsCong(c, r % p, r);
    CongMod(p, y);
    CongMul(p, y % p, y, y % p, y);
    CongIff(p, a, y * y);
    hide Rhs, LiftedY, Root, OddField;
  }

  lemma LiftedParity(c: Curve, r: nat, v: nat)
    requires c.p > 0 && c.p % 2 == 1
    ensures var s := LiftedAt(c, r, v);
      s.Affine? && s.x == r % c.p && s.y < c.p && (s.y % 2 == v % 2 || s.y == 0)
  {
    CongMod(c.p, r);
    CongMod(c.p, Rhs(c, r));
    EvenOrOdd(c.p, Root(c.p, Rhs(c, r) % c.p), v);
    hide Rhs, Root, LiftedY;
  }

  /** A point with the coordinate and the parity is the lifted one. */
  lemma LiftedOnly(c: Curve, r: nat, v: nat, s: Point)
    requires RootField(c.p) && OddField(c) && OnCurve(c, s) && s.Affine? && s.x == r % c.p
    requires s.y % 2 == v % 2 || s.y == 0
    requires c.p % 2 == 1
    ensures s == LiftedAt(c, r, v)
  {
    var p := c.p;
    CongMod(p, r);
    RhsCong(c, r % p, r);
    assert Rhs(c, s.x) % p == Rhs(c, r) % p;
    CongMod(p, Rhs(c, r));
    RootOnCurve(c, s.x, s.y);
    var beta := Root(p, Rhs(c, r) % p);
    EvenOrOdd(p, beta, v);
    MirrorParity(p, beta);
    hide Rhs, Root, LiftedY, RootField, OddField;
  }

  // ---------------------------------------------------------------- multiples of any point

  /** The curve has no other points than those that the order annihilates. */
  ghost predicate Whole(e: Setup)
    requires e.c.p > 0
  {
    forall q :: OnCurve(e.c, q) ==> Times(e.c, e.n, q) == Ideal
  }

  /** Every point of the curve can take the place of the base point. */
  lemma Rebased(e: Setup, q: Point)
    requires Sound(e) && Whole(e) && OnCurve(e.c, q) && q.Affine?
    ensures Sound(e.(g := q))
  {
    hide Associative, OnCurve, Times, Prime, Pow;
  }

  /** A scalar and its inverse cancel, at every point. */
  lemma InverseTimes(e: Setup, m: nat, i: nat, q: Point)
    requires Sound(e) && Whole(e) && OnCurve(e.c, q) && Cong(e.n, m * i, 1)
    ensures Times(e.c, m, Times(e.c, i, q)) == q
  {
    hide *;
    Basics(e);
    if q == Ideal {
      TimesIdeal(e.c, i);
      TimesIdeal(e.c, m);
    } else {
      Rebased(e, q);
      var f := e.(g := q);
      MulNat(f, i);
      MulScale(f, m, i);
      MulCong(f, m * i, 1);
      MulNat(f, 1);
      TimesOne(e.c, q);
    }
  }

  // ---------------------------------------------------------------- recovery

  /** The equation of signing, for points: r times the key and z times the base make s times the point. */
  ghost predicate Balanced(e: Setup, z: nat, r: nat, s: nat, point: Point, key: Point)
    requires e.c.p > 0
  {
    Sum(e.c, Times(e.c, r, key), Times(e.c, z, e.g)) == Times(e.c, s, point)
  }

  /** The multiple by the hash and the one by its opposite cancel. */
  lemma OppositeHash(e: Setup, z: nat)
    requires Sound(e)
    ensures (e.n - z) % e.n >= 0
    ensures var gz := Times(e.c, (e.n - z) % e.n, e.g);
      && OnCurve(e.c, gz) && OnCurve(e.c, Times(e.c, z, e.g))
      && Sum(e.c, gz, Times(e.c, z, e.g)) == Ideal
  {
    hide *;
    Basics(e);
    CongMod(e.n, e.n - z);
    var m := (e.n - z) % e.n;
    TimesClosed(e.c, m, e.g);
    TimesClosed(e.c, z, e.g);
    MulNat(e, m);
    MulNat(e, z);
    MulAdd(e, m, z);
    OrderCong(e.n, m, z);
    MulCong(e, m + z, 0);
    MulZero(e);
  }

  lemma OrderCong(n: nat, m: nat, z: nat)
    requires n > 0 && Cong(n, m, n - z)
    ensures Cong(n, m + z, 0)
  {
    CongAdd(n, m, n - z, z, z);
    AddMultiple(n, 0, 1);
  }

  lemma Unshift(c: Curve, a: Point, b: Point, t: Point)
    requires IsGroup(c) && OnCurve(c, a) && OnCurve(c, b) && OnCurve(c, t) && Sum(c, a, b) == Ideal
    ensures Sum(c, Sum(c, a, t), b) == t && Sum(c, a, Sum(c, t, b)) == t
  {
    hide *;
    GroupField(c);
    SumClosed(c, a, t);
    SumClosed(c, t, b);
    Reassociate(c, t, a, b);
    Reassociate(c, a, b, t);
    IdealSum(c, t);
  }

  /** The key that recovery computes is the one that balances. */
  lemma ComputedKey(e: Setup, z: nat, r: nat, s: nat, point: Point, key: Point)
    requires Sound(e) && Whole(e) && !Cong(e.n, r, 0) && OnCurve(e.c, point) && OnCurve(e.c, key)
    ensures (e.n - z) % e.n >= 0
    ensures Times(e.c, Inv(r, e.n), Sum(e.c, Times(e.c, (e.n - z) % e.n, e.g), Times(e.c, s, point))) == key
      <==> Balanced(e, z, r, s, point, key)
  {
    hide *;
    Basics(e);
    OppositeHash(e, z);
    InvWorks(e.n, r);
    var i := Inv(r, e.n);
    assert r * i == i * r;
    var gz, zg := Times(e.c, (e.n - z) % e.n, e.g), Times(e.c, z, e.g);
    var sr, rq := Times(e.c, s, point), Times(e.c, r, key);
    TimesClosed(e.c, s, point);
    TimesClosed(e.c, r, key);
    var t := Sum(e.c, gz, sr);
    SumClosed(e.c, gz, sr);
    InverseTimes(e, r, i, t);
    InverseTimes(e, i, r, key);
    Unshift(e.c, gz, zg, sr);
    Unshift(e.c, gz, zg, rq);
    BalancedIs(e, z, r, s, point, key);
  }

  lemma BalancedIs(e: Setup, z: nat, r: nat, s: nat, point: Point, key: Point)
    requires e.c.p > 0
    ensures Balanced(e, z, r, s, point, key) <==>
      Sum(e.c, Times(e.c, r, key), Times(e.c, z, e.g)) == Times(e.c, s, point)
  {
  }

  /** A point over the coordinate, with the parity that the recovery bit asks for, and a key that balances. */
  ghost predicate Recovers(e: Setup, z: nat, v: nat, r: nat, s: nat, point: Point, key: Point)
    requires e.c.p > 0
  {
    && OnCurve(e.c, point) && point.Affine? && point.x == r % e.c.p && (point.y % 2 == v % 2 || point.y == 0)
    && OnCurve(e.c, key) && key.Affine?
    && Balanced(e, z, r, s, point, key)
  }

  function KeyOver(e: Setup, z: nat, r: nat, s: nat, point: Point): Point
    requires e.c.p > 0 && e.n > 0
  {
    CongMod(e.n, e.n - z);
    Times(e.c, Inv(r, e.n), Sum(e.c, Times(e.c, (e.n - z) % e.n, e.g), Times(e.c, s, point)))
  }

  lemma KeyOverClosed(e: Setup, z: nat, r: nat, s: nat, point: Point)
    requires Sound(e) && OnCurve(e.c, point)
    ensures OnCurve(e.c, KeyOver(e, z, r, s, point))
  {
    OppositeHash(e, z);
    hide *;
    Basics(e);
    OppositeHash(e, z);
    TimesClosed(e.c, s, point);
    SumClosed(e.c, Times(e.c, (e.n - z) % e.n, e.g), Times(e.c, s, point));
    TimesClosed(e.c, Inv(r, e.n), Sum(e.c, Times(e.c, (e.n - z) % e.n, e.g), Times(e.c, s, point)));
    KeyOverIs(e, z, r, s, point);
  }

  lemma KeyOverIs(e: Setup, z: nat, r: nat, s: nat, point: Point)
    requires e.c.p > 0 && e.n > 0
    ensures (e.n - z) % e.n >= 0
    ensures KeyOver(e, z, r, s, point)
      == Times(e.c, Inv(r, e.n), Sum(e.c, Times(e.c, (e.n - z) % e.n, e.g), Times(e.c, s, point)))
  {
    CongMod(e.n, e.n - z);
  }

  /** Recovery in terms of the lifted point. */
  lemma RecoverBy(e: Setup, z: nat, v: nat, r: nat, s: nat)
    requires OddField(e.c) && e.c.p % 2 == 1 && e.n > 0
    ensures var point := LiftedAt(e.c, r, v);
      var key := KeyOver(e, z, r, s, point);
      Recover(e, z, v, r, s) ==
        if v > 7 || r % e.n == 0 || s % e.n == 0 || !OnCurve(e.c, point) || key.Ideal? then Err(BadSignature)
        else Ok(EncodePublicKey(key.x, key.y))
  {
    LiftTest(e.c, r, v);
    hide Times, Sum, Inv, Root, Rhs, EncodePublicKey, LiftedY, OnCurve, OddField;
  }

  lemma RecoversOnly(e: Setup, z: nat, v: nat, r: nat, s: nat, point: Point, key: Point)
    requires Sound(e) && Whole(e) && !Cong(e.n, r, 0) && e.c.p % 2 == 1
    ensures var lifted := LiftedAt(e.c, r, v);
      Recovers(e, z, v, r, s, point, key) <==>
        point == lifted && OnCurve(e.c, lifted) && key == KeyOver(e, z, r, s, lifted) && key.Affine?
  {
    hide *;
    Basics(e);
    var lifted := LiftedAt(e.c, r, v);
    LiftedParity(e.c, r, v);
    RecoversIs(e, z, v, r, s, point, key);
    if Recovers(e, z, v, r, s, point, key) { LiftedOnly(e.c, r, v, point); }
    if OnCurve(e.c, lifted) {
      KeyOverClosed(e, z, r, s, lifted);
      KeyOverIs(e, z, r, s, lifted);
      if OnCurve(e.c, key) { ComputedKey(e, z, r, s, lifted, key); }
    }
  }

  lemma RecoversIs(e: Setup, z: nat, v: nat, r: nat, s: nat, point: Point, key: Point)
    requires e.c.p > 0
    ensures Recovers(e, z, v, r, s, point, key) <==>
      && OnCurve(e.c, point) && point.Affine? && point.x == r % e.c.p && (point.y % 2 == v % 2 || point.y == 0)
      && OnCurve(e.c, key) && key.Affine?
      && Balanced(e, z, r, s, point, key)
  {
    hide OnCurve, Balanced;
  }

  /**
   What recovery returns, exactly: the key that balances the point over the coordinate whose parity is the
   bit's; and it refuses when the bit is out of range, a part is zero modulo the order, there is no such
   point, or the key would be the ideal point.
   */
  lemma RecoverExactly(e: Setup, z: nat, v: nat, r: nat, s: nat, pk: seq<Byte>)
    requires Sound(e) && Whole(e)
    ensures Recover(e, z, v, r, s) == Ok(pk) <==>
      && v <= 7 && r % e.n != 0 && s % e.n != 0
      && exists point, key ::
        Recovers(e, z, v, r, s, point, key) && pk == EncodePublicKey(key.x, key.y)
  {
    hide *;
    Basics(e);
    RecoverBy(e, z, v, r, s);
    NotZeroMod(e.n, r);
    var lifted := LiftedAt(e.c, r, v);
    var found := KeyOver(e, z, r, s, lifted);
    if v <= 7 && r % e.n != 0 && s % e.n != 0 {
      RecoversOnly(e, z, v, r, s, lifted, found);
      forall point, key | Recovers(e, z, v, r, s, point, key) ensures point == lifted && key == found {
        RecoversOnly(e, z, v, r, s, point, key);
      }
    }
  }

  // ---------------------------------------------------------------- recovery, then verification

  /** What the verifier meets under a key that balances a point is that point. */
  lemma BalancedMet(e: Setup, z: nat, r: nat, s: nat, point: Point, key: Point)
    requires Sound(e) && Whole(e) && !Cong(e.n, s, 0) && OnCurve(e.c, point) && OnCurve(e.c, key)
    requires Balanced(e, z, r, s, point, key)
    ensures var w := Inv(s, e.n);
      z * w % e.n >= 0 && r * w % e.n >= 0
      && Sum(e.c, Times(e.c, z * w % e.n, e.g), Times(e.c, r * w % e.n, key)) == point
  {
    hide *;
    Basics(e);
    InvWorks(e.n, s);
    var w := Inv(s, e.n);
    BalancedIs(e, z, r, s, point, key);
    ReducedTimes(e, w, z, e.g);
    ReducedTimes(e, w, r, key);
    var rq, zg := Times(e.c, r, key), Times(e.c, z, e.g);
    TimesClosed(e.c, r, key);
    TimesClosed(e.c, z, e.g);
    TimesSum(e.c, w, rq, zg);
    InverseTimes(e, w, s, point);
    TimesClosed(e.c, w, rq);
    TimesClosed(e.c, w, zg);
    SumClosed(e.c, Times(e.c, w, rq), Times(e.c, w, zg));
  }

  lemma ReducedTimes(e: Setup, w: nat, m: nat, q: Point)
    requires Sound(e) && Whole(e) && OnCurve(e.c, q)
    ensures m * w % e.n >= 0 && Times(e.c, m * w % e.n, q) == Times(e.c, w, Times(e.c, m, q))
  {
    hide *;
    Basics(e);
    CongMod(e.n, m * w);
    if q == Ideal {
      TimesIdeal(e.c, m);
      TimesIdeal(e.c, w);
      TimesIdeal(e.c, m * w % e.n);
    } else {
      Rebased(e, q);
      var f := e.(g := q);
      MulNat(f, m);
      MulScale(f, w, m);
      assert w * m == m * w;
      MulIs(f, m * w);
    }
  }

  lemma RecoveredFrom(e: Setup, z: nat, v: nat, r: nat, s: nat) returns (point: Point, key: Point)
    requires Sound(e) && Whole(e) && Recover(e, z, v, r, s).Ok?
    ensures Recovers(e, z, v, r, s, point, key) && Recover(e, z, v, r, s) == Ok(EncodePublicKey(key.x, key.y))
    ensures s % e.n != 0 && r % e.n != 0
  {
    RecoverExactly(e, z, v, r, s, Recover(e, z, v, r, s).value);
    hide Sound, Whole, Recover, Balanced, OnCurve, EncodePublicKey;
    point, key :|
      Recovers(e, z, v, r, s, point, key) && Recover(e, z, v, r, s).value == EncodePublicKey(key.x, key.y);
  }

  /**
   A recovered key is one under which the signature verifies, exactly if `r` is below the field's modulus:
   recovery reduces a larger one, and verification compares it as it is.
   */
  lemma RecoverThenVerify(e: Setup, z: nat, v: nat, r: nat, s: nat)
    requires Sound(e) && Whole(e) && Recover(e, z, v, r, s).Ok?
    ensures |Recover(e, z, v, r, s).value| == 64
    ensures Verify(e, z, r, s, Recover(e, z, v, r, s).value) <==> r < e.c.p
  {
    hide *;
    Basics(e);
    var point, key := RecoveredFrom(e, z, v, r, s);
    RecoversIs(e, z, v, r, s, point, key);
    NotZeroMod(e.n, s);
    BalancedMet(e, z, r, s, point, key);
    KeyDecodes(e.c, key);
    VerifyMeets(e, z, r, s, key, point);
    CongMod(e.c.p, r);
    if r < e.c.p { Reduced(e.c.p, r); }
  }
}
