/**
 Signing, verification and key recovery over a curve whose base point has prime order. The group
 operations on coordinates stand for the Jacobian routines, which are not part of this model.
 */
module Ecdsa {
  import opened Wrappers
  import opened Congruences
  import opened Euclid
  import opened Primes
  import opened SquareRoots
  import opened Curves
  import opened ScalarMultiples
  import opened ByteStrings
  import opened PointEncoding

  datatype Setup = Setup(c: Curve, g: Point, n: nat)

  /** The hypotheses: an associative addition, and a base point of odd prime order. */
  ghost predicate Sound(e: Setup) {
    && IsGroup(e.c) && RootField(e.c.p) && e.c.p <= Pow(256, 32)
    && e.g.Affine? && OnCurve(e.c, e.g)
    && Prime(e.n) && e.n > 2 && Times(e.c, e.n, e.g) == Ideal
  }

  /** The modular inverse, zero for zero. */
  function Inv(a: nat, n: nat): (r: nat)
    requires n > 0
    ensures r < n
  {
    CongMod(n, a);
    if a % n == 0 then 0 else Inverse(n, a % n)
  }

  function Coordinates(s: Point): (nat, nat) {
    match s
    case Ideal => (0, 0)
    case Affine(x, y) => (x, y)
  }

  function PublicKey(e: Setup, d: nat): seq<Byte>
    requires e.c.p > 0
  {
    var (x, y) := Coordinates(Times(e.c, d, e.g));
    EncodePublicKey(x, y)
  }

  datatype Signature = Signature(v: nat, r: nat, s: nat)

  /** `drawn` is the nonce that is generated when none is given. */
  function Sign(e: Setup, z: nat, d: nat, k: nat, drawn: nat): Signature
    requires e.c.p > 0 && e.n > 0
  {
    var nonce := if k == 0 then drawn else k;
    var (r, y) := Coordinates(Times(e.c, nonce, e.g));
    var raw := RawS(e.n, nonce, z, r, d);
    Signature(if (y % 2 == 1) != (raw * 2 >= e.n) then 1 else 0, r, if raw * 2 < e.n then raw else e.n - raw)
  }

  function RawS(n: nat, k: nat, z: nat, r: nat, d: nat): (s: nat)
    requires n > 0
    ensures s < n
  {
    CongMod(n, Inv(k, n) * (z + r * d));
    Inv(k, n) * (z + r * d) % n
  }

  function Verify(e: Setup, z: nat, r: nat, s: nat, pk: seq<Byte>): bool
    requires e.c.p > 0 && e.n > 0 && |pk| == 64
  {
    var (a, b) := DecodePublicKey(pk);
    var w := Inv(s, e.n);
    CongMod(e.n, z * w);
    CongMod(e.n, r * w);
    var u1, u2 := z * w % e.n, r * w % e.n;
    var (x, y) := Coordinates(Sum(e.c, Times(e.c, u1, e.g), Times(e.c, u2, Affine(a, b))));
    r == x && r % e.n != 0 && s % e.n != 0
  }

  datatype RecoverError = BadSignature

  /** The root over `x` whose parity the recovery bit asks for. */
  function LiftedY(p: nat, beta: nat, v: nat): int {
    if (v + 27) % 2 != beta % 2 then beta else p - beta
  }

  function Recover(e: Setup, z: nat, v: nat, r: nat, s: nat): Result<seq<Byte>, RecoverError>
    requires e.c.p > 0 && e.n > 0
  {
    var p, n := e.c.p, e.n;
    if v + 27 > 34 then Err(BadSignature)
    else
      CongMod(p, Rhs(e.c, r));
      var a := Rhs(e.c, r) % p;
      var y := LiftedY(p, Root(p, a), v);
      if (a - y * y) % p != 0 || r % n == 0 || s % n == 0 then Err(BadSignature)
      else
        CongMod(p, r);
        CongMod(p, y);
        CongMod(n, n - z);
        var gz := Times(e.c, (n - z) % n, e.g);
        var xy := Times(e.c, s, Affine(r % p, y % p));
        var q := Times(e.c, Inv(r, n), Sum(e.c, gz, xy));
        if q.Ideal? then Err(BadSignature) else Ok(EncodePublicKey(q.x, q.y))
  }

  // ---------------------------------------------------------------- multiples of the base point

  /** The multiple of the base point by an integer, which counts modulo the order. */
  function Mul(e: Setup, m: int): Point
    requires e.c.p > 0 && e.n > 0
  {
    CongMod(e.n, m);
    Times(e.c, m % e.n, e.g)
  }

  lemma Basics(e: Setup)
    requires Sound(e)
    ensures e.c.p > 2 && e.c.p % 2 == 1 && e.n > 2 && OddField(e.c) && IsGroup(e.c) && OnCurve(e.c, e.g) && Prime(e.n)
    ensures Times(e.c, e.n, e.g) == Ideal && RootField(e.c.p) && e.g.Affine? && e.c.p <= Pow(256, 32)
  {
    hide Associative, OnCurve, Times, Pow;
    assert e.c.p % 4 == 3 && Prime(e.c.p);
    hide Prime;
  }

  lemma MulCong(e: Setup, a: int, b: int)
    requires e.c.p > 0 && e.n > 0 && Cong(e.n, a, b)
    ensures Mul(e, a) == Mul(e, b)
  {
  }

  lemma MulOnCurve(e: Setup, a: int)
    requires Sound(e)
    ensures OnCurve(e.c, Mul(e, a))
  {
    CongMod(e.n, a);
    TimesClosed(e.c, a % e.n, e.g);
  }

  lemma MulNat(e: Setup, m: nat)
    requires Sound(e)
    ensures Times(e.c, m, e.g) == Mul(e, m)
  {
    hide *;
    Basics(e);
    var q, r := m / e.n, m % e.n;
    CongMod(e.n, m);
    assert m / e.n >= 0 by { QuotientNat(m, e.n); }
    var k := ProductOf(q, e.n);
    TimesMul(e.c, q, e.n, k, e.g);
    TimesIdeal(e.c, q);
    TimesAdd(e.c, k, r, e.g);
    IdealSum(e.c, Times(e.c, r, e.g));
    MulIs(e, m);
    SplitNumber(m, e.n);
  }

  lemma MulIs(e: Setup, m: int)
    requires e.c.p > 0 && e.n > 0
    ensures m % e.n >= 0 && Mul(e, m) == Times(e.c, m % e.n, e.g)
  {
    CongMod(e.n, m);
  }

  lemma QuotientNat(m: nat, n: nat)
    requires n > 0
    ensures m / n >= 0
  {
  }

  function ProductOf(m: nat, n: nat): (k: nat)
    ensures IsProduct(k, m, n)
  {
    MulNonNegative(m, n);
    m * n
  }

  lemma SplitNumber(m: nat, n: nat)
    requires n > 0
    ensures m / n >= 0 && m % n >= 0 && ProductOf(m / n, n) + m % n == m
  {
  }

  lemma MulAdd(e: Setup, a: int, b: int)
    requires Sound(e)
    ensures Sum(e.c, Mul(e, a), Mul(e, b)) == Mul(e, a + b)
  {
    hide *;
    Basics(e);
    CongMod(e.n, a);
    CongMod(e.n, b);
    MulIs(e, a);
    MulIs(e, b);
    TimesAdd(e.c, a % e.n, b % e.n, e.g);
    MulNat(e, a % e.n + b % e.n);
    CongAdd(e.n, a % e.n, a, b % e.n, b);
    MulCong(e, a % e.n + b % e.n, a + b);
  }

  lemma MulScale(e: Setup, m: nat, a: int)
    requires Sound(e)
    ensures Times(e.c, m, Mul(e, a)) == Mul(e, m * a)
  {
    hide *;
    Basics(e);
    CongMod(e.n, a);
    MulIs(e, a);
    var r := a % e.n;
    var k := ProductOf(m, r);
    TimesMul(e.c, m, r, k, e.g);
    MulNat(e, k);
    ScaledCong(e.n, m, a, k);
    MulCong(e, k, m * a);
  }

  lemma ScaledCong(n: nat, m: nat, a: int, k: nat)
    requires n > 0 && a % n >= 0 && IsProduct(k, m, a % n)
    ensures Cong(n, k, m * a)
  {
    CongMod(n, a);
    CongScale(n, a % n, a, m);
  }

  lemma MulZero(e: Setup)
    requires Sound(e)
    ensures Mul(e, 0) == Ideal
  {
    Reduced(e.n, 0);
  }

  /** Mirroring a multiple negates the scalar. */
  lemma MulMirror(e: Setup, a: int)
    requires Sound(e)
    ensures Mirror(e.c, Mul(e, a)) == Mul(e, -a)
  {
    hide *;
    Basics(e);
    var s, t := Mul(e, a), Mul(e, -a);
    MulOnCurve(e, a);
    MulOnCurve(e, -a);
    MirrorClosed(e.c, s);
    MulAdd(e, a, -a);
    assert a + -a == 0;
    MulZero(e);
    Reassociate(e.c, Mirror(e.c, s), s, t);
    IdealSum(e.c, t);
    IdealSum(e.c, Mirror(e.c, s));
  }

  /** Only multiples of the order annihilate the base point. */
  lemma MulIdeal(e: Setup, a: int)
    requires Sound(e) && Mul(e, a) == Ideal
    ensures Cong(e.n, a, 0)
  {
    if !Cong(e.n, a, 0) {
      CongMod(e.n, a);
      Reduced(e.n, 0);
      var i := Inverse(e.n, a % e.n);
      InverseModPrime(e.n, a % e.n);
      CongScale(e.n, a % e.n, a, i);
      hide *;
      Annihilated(e, a, i);
    }
  }

  lemma Annihilated(e: Setup, a: int, i: nat)
    requires Sound(e) && Mul(e, a) == Ideal
    ensures !Cong(e.n, i * a, 1)
  {
    MulScale(e, i, a);
    TimesIdeal(e.c, i);
    if Cong(e.n, i * a, 1) {
      MulCong(e, i * a, 1);
      MulNat(e, 1);
      TimesOne(e.c, e.g);
    }
  }

  // ---------------------------------------------------------------- the signing equation

  /** A nonce whose point has a nonzero coordinate is invertible, and so is the point's second coordinate. */
  lemma NonceFacts(e: Setup, k: nat)
    requires Sound(e) && Mul(e, k).Affine?
    ensures !Cong(e.n, k, 0) && Mul(e, k).y != 0 && OnCurve(e.c, Mul(e, k))
  {
    hide *;
    Basics(e);
    MulOnCurve(e, k);
    if Cong(e.n, k, 0) {
      MulCong(e, k, 0);
      MulZero(e);
    }
    if Mul(e, k).y == 0 {
      TwiceFlat(e.c, Mul(e, k));
      MulAdd(e, k, k);
      MulIdeal(e, k + k);
      HalfZero(e.n, k);
    }
  }

  lemma TwiceFlat(c: Curve, s: Point)
    requires c.p > 0 && s.Affine? && s.y == 0
    ensures Sum(c, s, s) == Ideal
  {
  }

  lemma HalfZero(n: nat, k: nat)
    requires Prime(n) && n > 2 && Cong(n, k + k, 0)
    ensures Cong(n, k, 0)
  {
    assert k + k == 2 * k;
    NoZeroDivisors(n, 2, k);
    Reduced(n, 2);
    Reduced(n, 0);
  }

  lemma InvWorks(n: nat, a: nat)
    requires Prime(n) && !Cong(n, a, 0)
    ensures Cong(n, Inv(a, n) * a, 1) && Inv(a, n) != 0
  {
    CongMod(n, a);
    Reduced(n, 0);
    InverseModPrime(n, a % n);
    CongScale(n, a % n, a, Inverse(n, a % n));
    assert (a % n) * Inverse(n, a % n) == Inverse(n, a % n) * (a % n);
  }

  /** The raw signature times the nonce is the hash plus the coordinate times the key. */
  lemma SigningEquation(n: nat, k: nat, z: nat, r: nat, d: nat)
    requires Prime(n) && !Cong(n, k, 0)
    ensures r * d >= 0 && Cong(n, RawS(n, k, z, r, d) * k, z + r * d)
  {
    var i, t := Inv(k, n), z + r * d;
    MulNonNegative(r, d);
    InvWorks(n, k);
    CongMod(n, i * t);
    CongScale(n, i * t % n, i * t, k);
    CongScale(n, i * k, 1, t);
    assert (i * t) * k == t * (i * k) by { MulIsAssociative(t, i, k); }
  }

  /** The scalar, up to its sign, that low-s normalisation attaches to the signature. */
  function Signed(low: bool, k: nat): int { if low then k else 0 - k }

  function LowHalf(n: nat, raw: nat): nat
    requires raw < n
  {
    if raw * 2 < n then raw else n - raw
  }

  function ParityBit(y: nat, low: bool): nat { if (y % 2 == 1) != !low then 1 else 0 }

  /** The signature with the low half taken, and the scalar whose point the verifier meets again. */
  lemma LowS(n: nat, k: nat, t: int, raw: nat)
    requires n > 2 && raw < n && Cong(n, raw * k, t)
    ensures Cong(n, LowHalf(n, raw) * Signed(raw * 2 < n, k), t)
  {
    if raw * 2 >= n {
      MulDistributes(0 - k, n, raw);
      assert (n - raw) * (0 - k) == raw * k + n * (0 - k);
      AddMultiple(n, raw * k, 0 - k);
    }
  }

  lemma SignIs(e: Setup, z: nat, d: nat, k: nat, drawn: nat)
    requires e.c.p > 0 && e.n > 0
    ensures var nonce := if k == 0 then drawn else k;
      var (r, y) := Coordinates(Times(e.c, nonce, e.g));
      var raw := RawS(e.n, nonce, z, r, d);
      Sign(e, z, d, k, drawn) == Signature(ParityBit(y, raw * 2 < e.n), r, LowHalf(e.n, raw))
  {
    hide Times, RawS;
  }

  lemma UsablePoint(n: nat, q: Point)
    requires n > 0 && Coordinates(q).0 % n != 0
    ensures q.Affine? && Coordinates(q) == (q.x, q.y)
  {
    Reduced(n, 0);
  }

  lemma LowHalfRange(n: nat, raw: nat, y: nat, low: bool)
    requires raw < n
    ensures LowHalf(n, raw) != 0 ==> 0 < LowHalf(n, raw) < n || raw == 0
    ensures raw == 0 ==> LowHalf(n, raw) == 0
    ensures ParityBit(y, low) <= 1
  {
  }

  /** What a signature with a usable coordinate consists of. */
  lemma Signatures(e: Setup, z: nat, d: nat, k: nat, drawn: nat)
    requires Sound(e)
    requires var g := Sign(e, z, d, k, drawn); g.r % e.n != 0 && g.s != 0
    ensures var g := Sign(e, z, d, k, drawn);
      var nonce := if k == 0 then drawn else k;
      var low := RawS(e.n, nonce, z, g.r, d) * 2 < e.n;
      && Mul(e, nonce).Affine? && Mul(e, nonce).x == g.r
      && 0 < g.s < e.n && g.v <= 1 && g.v == ParityBit(Mul(e, nonce).y, low)
      && g.r * d >= 0 && Cong(e.n, g.s * Signed(low, nonce), z + g.r * d)
  {
    hide *;
    Basics(e);
    SignIs(e, z, d, k, drawn);
    var nonce := if k == 0 then drawn else k;
    var q := Times(e.c, nonce, e.g);
    MulNat(e, nonce);
    UsablePoint(e.n, q);
    NonceFacts(e, nonce);
    SigningEquation(e.n, nonce, z, q.x, d);
    var raw := RawS(e.n, nonce, z, q.x, d);
    LowHalfRange(e.n, raw, q.y, raw * 2 < e.n);
    LowS(e.n, nonce, z + q.x * d, raw);
  }

  lemma LiftChoice(p: nat, beta: nat, y: nat, low: bool)
    requires p % 2 == 1 && 0 < y < p && (beta == y || beta == (0 - y) % p || y == (0 - beta) % p) && beta < p
    ensures LiftedY(p, beta, ParityBit(y, low)) == if low then y else p - y
  {
    MirrorParity(p, y);
    MirrorParity(p, beta);
  }

  /** The point the bit and the coordinate stand for: the nonce's, or its mirror image. */
  lemma Lifted(c: Curve, s: Point, low: bool)
    requires RootField(c.p) && OddField(c) && OnCurve(c, s) && s.Affine? && s.y != 0
    ensures var y := LiftedY(c.p, Root(c.p, Rhs(c, s.x) % c.p), ParityBit(s.y, low));
      && (Rhs(c, s.x) % c.p - y * y) % c.p == 0
      && 0 <= y && Affine(s.x % c.p, y % c.p) == if low then s else Mirror(c, s)
  {
    var p := c.p;
    var a := Rhs(c, s.x) % p;
    RootOnCurve(c, s.x, s.y);
    LiftChoice(p, Root(p, a), s.y, low);
    CongMod(p, Rhs(c, s.x));
    LiftedSquare(c, s, if low then s.y else p - s.y);
    LiftedPoint(c, s, low);
    hide Root, Rhs, LiftedY, ParityBit, OnCurve, Mirror, OddField, RootField;
  }

  lemma LiftedSquare(c: Curve, s: Point, y: nat)
    requires c.p > 0 && OnCurve(c, s) && s.Affine? && (y == s.y || y == c.p - s.y)
    ensures (Rhs(c, s.x) % c.p - y * y) % c.p == 0
  {
    CongMod(c.p, Rhs(c, s.x));
    var a := Rhs(c, s.x) % c.p;
    assert Cong(c.p, s.y * s.y, a);
    hide Rhs;
    SquareAgain(c.p, s.y, y, a);
  }

  lemma LiftedPoint(c: Curve, s: Point, low: bool)
    requires RootField(c.p) && OddField(c) && OnCurve(c, s) && s.Affine? && s.y != 0
    ensures var y := if low then s.y else c.p - s.y;
      0 <= y && Affine(s.x % c.p, y % c.p) == if low then s else Mirror(c, s)
  {
    NegateClosed(c, s);
    MirrorParity(c.p, s.y);
    Reduced(c.p, s.x);
    Reduced(c.p, s.y);
    Reduced(c.p, c.p - s.y);
    hide Negate;
  }

  lemma SquareAgain(p: nat, s: nat, y: nat, a: nat)
    requires p > 0 && s < p && (y == s || y == p - s) && Cong(p, s * s, a)
    ensures (a - y * y) % p == 0
  {
    if y == p - s {
      assert (p - s) * (p - s) == s * s + p * (p - 2 * s) by {
        MulDistributes(p, p, 2 * s);
        MulDistributes(p - s, p, s);
      }
      AddMultiple(p, s * s, p - 2 * s);
    }
    CongIff(p, a, y * y);
  }

  // ---------------------------------------------------------------- sign, then recover or verify

  /** The scalar that recovery arrives at. */
  lemma RecoveredScalar(n: nat, z: nat, r: nat, d: nat, t: int)
    requires Prime(n) && !Cong(n, r, 0) && r * d >= 0 && Cong(n, t, z + r * d)
    ensures Cong(n, Inv(r, n) * ((n - z) % n + t), d)
  {
    var i := Inv(r, n);
    InvWorks(n, r);
    CongMod(n, n - z);
    CongAdd(n, (n - z) % n, n - z, t, z + r * d);
    assert n - z + (z + r * d) == r * d + n * 1;
    AddMultiple(n, r * d, 1);
    CongScale(n, (n - z) % n + t, r * d, i);
    CongScale(n, i * r, 1, d);
    MulIsAssociative(i, r, d);
  }

  /** Recovery combines the lifted point and the base point into the public key. */
  lemma Combine(e: Setup, z: nat, r: nat, d: nat, s: nat, signed: int)
    requires Sound(e) && !Cong(e.n, r, 0) && r * d >= 0 && Cong(e.n, s * signed, z + r * d)
    ensures (e.n - z) % e.n >= 0
    ensures Times(e.c, Inv(r, e.n), Sum(e.c, Times(e.c, (e.n - z) % e.n, e.g), Times(e.c, s, Mul(e, signed))))
      == Times(e.c, d, e.g)
  {
    hide *;
    Basics(e);
    var n := e.n;
    CongMod(n, n - z);
    var m := (n - z) % n;
    MulNat(e, m);
    MulNat(e, d);
    MulScale(e, s, signed);
    MulAdd(e, m, s * signed);
    MulScale(e, Inv(r, n), m + s * signed);
    RecoveredScalar(n, z, r, d, s * signed);
    MulCong(e, Inv(r, n) * (m + s * signed), d);
  }

  lemma SignedPoint(e: Setup, low: bool, k: nat)
    requires Sound(e)
    ensures Mul(e, Signed(low, k)) == if low then Mul(e, k) else Mirror(e.c, Mul(e, k))
  {
    MulMirror(e, k);
    hide Mul, Mirror;
  }

  lemma NotZeroMod(n: nat, a: nat)
    requires n > 0
    ensures a % n != 0 <==> !Cong(n, a, 0)
    ensures 0 < a < n ==> a % n != 0
  {
    Reduced(n, 0);
    if a < n { Reduced(n, a); }
  }

  /** Whatever was signed, recovery returns exactly the signer's public key. */
  lemma SignThenRecover(e: Setup, z: nat, d: nat, k: nat, drawn: nat)
    requires Sound(e) && Times(e.c, d, e.g).Affine?
    requires var g := Sign(e, z, d, k, drawn); g.r % e.n != 0 && g.s != 0
    ensures var g := Sign(e, z, d, k, drawn); Recover(e, z, g.v, g.r, g.s) == Ok(PublicKey(e, d))
  {
    hide *;
    Basics(e);
    Signatures(e, z, d, k, drawn);
    var g := Sign(e, z, d, k, drawn);
    var nonce := if k == 0 then drawn else k;
    var low := RawS(e.n, nonce, z, g.r, d) * 2 < e.n;
    NonceFacts(e, nonce);
    NotZeroMod(e.n, g.r);
    NotZeroMod(e.n, g.s);
    Lifted(e.c, Mul(e, nonce), low);
    SignedPoint(e, low, nonce);
    Combine(e, z, g.r, d, g.s, Signed(low, nonce));
    RecoverIs(e, z, g.v, g.r, g.s, Mul(e, Signed(low, nonce)), Times(e.c, d, e.g));
    PublicKeyIs(e, d);
  }

  lemma RecoverIs(e: Setup, z: nat, v: nat, r: nat, s: nat, lifted: Point, key: Point)
    requires e.c.p > 0 && e.n > 0 && v <= 1 && r % e.n != 0 && s % e.n != 0 && (e.n - z) % e.n >= 0
    requires var y := LiftedY(e.c.p, Root(e.c.p, Rhs(e.c, r) % e.c.p), v);
      y >= 0 && (Rhs(e.c, r) % e.c.p - y * y) % e.c.p == 0 && Affine(r % e.c.p, y % e.c.p) == lifted
    requires key.Affine?
    requires Times(e.c, Inv(r, e.n), Sum(e.c, Times(e.c, (e.n - z) % e.n, e.g), Times(e.c, s, lifted))) == key
    ensures Recover(e, z, v, r, s) == Ok(EncodePublicKey(key.x, key.y))
  {
    hide Times, Sum, Inv, Root, Rhs, EncodePublicKey, LiftedY;
  }

  lemma PublicKeyIs(e: Setup, d: nat)
    requires e.c.p > 0 && Times(e.c, d, e.g).Affine?
    ensures PublicKey(e, d) == EncodePublicKey(Times(e.c, d, e.g).x, Times(e.c, d, e.g).y)
  {
    hide Times, EncodePublicKey;
  }

  /** The scalar that verification arrives at is the signed nonce. */
  lemma VerifiedScalar(n: nat, z: nat, r: nat, d: nat, s: nat, t: int)
    requires Prime(n) && !Cong(n, s, 0) && r * d >= 0 && Cong(n, s * t, z + r * d)
    ensures var w := Inv(s, n); Cong(n, z * w % n + (r * w % n) * d, t)
  {
    var w := Inv(s, n);
    InvWorks(n, s);
    CongMod(n, z * w);
    CongMod(n, r * w);
    CongScale(n, r * w % n, r * w, d);
    CongAdd(n, z * w % n, z * w, (r * w % n) * d, (r * w) * d);
    assert z * w + (r * w) * d == (z + r * d) * w by {
      MulDistributes(w, z, r * d);
      MulIsAssociative(w, r, d);
      MulIsAssociative(r, w, d);
    }
    CongScale(n, s * t, z + r * d, w);
    CongScale(n, w * s, 1, t);
    MulIsAssociative(w, s, t);
  }

  lemma VerifiedPoint(e: Setup, z: nat, r: nat, d: nat, s: nat, signed: int)
    requires Sound(e) && !Cong(e.n, s, 0) && r * d >= 0 && Cong(e.n, s * signed, z + r * d)
    ensures var w := Inv(s, e.n);
      z * w % e.n >= 0 && r * w % e.n >= 0
      && Sum(e.c, Times(e.c, z * w % e.n, e.g), Times(e.c, r * w % e.n, Times(e.c, d, e.g))) == Mul(e, signed)
  {
    hide *;
    Basics(e);
    var n, w := e.n, Inv(s, e.n);
    CongMod(n, z * w);
    CongMod(n, r * w);
    var u1, u2 := z * w % n, r * w % n;
    MulNat(e, u1);
    MulNat(e, d);
    MulScale(e, u2, d);
    MulAdd(e, u1, u2 * d);
    VerifiedScalar(n, z, r, d, s, signed);
    MulCong(e, u1 + u2 * d, signed);
  }

  lemma MirrorKeepsX(c: Curve, s: Point)
    requires OddField(c) && OnCurve(c, s) && s.Affine?
    ensures Mirror(c, s).Affine? && Mirror(c, s).x == s.x
  {
    NegateClosed(c, s);
    hide Negate, OnCurve;
  }

  /** Whatever was signed, verification under the signer's public key accepts. */
  lemma SignThenVerify(e: Setup, z: nat, d: nat, k: nat, drawn: nat)
    requires Sound(e) && Times(e.c, d, e.g).Affine?
    requires var g := Sign(e, z, d, k, drawn); g.r % e.n != 0 && g.s != 0
    ensures |PublicKey(e, d)| == 64
    ensures var g := Sign(e, z, d, k, drawn); Verify(e, z, g.r, g.s, PublicKey(e, d))
  {
    hide *;
    Basics(e);
    Signatures(e, z, d, k, drawn);
    var g := Sign(e, z, d, k, drawn);
    var nonce := if k == 0 then drawn else k;
    var low := RawS(e.n, nonce, z, g.r, d) * 2 < e.n;
    NonceFacts(e, nonce);
    NotZeroMod(e.n, g.r);
    NotZeroMod(e.n, g.s);
    SignedPoint(e, low, nonce);
    MirrorKeepsX(e.c, Mul(e, nonce));
    VerifiedPoint(e, z, g.r, d, g.s, Signed(low, nonce));
    PublicKeyIs(e, d);
    TimesClosed(e.c, d, e.g);
    KeyDecodes(e.c, Times(e.c, d, e.g));
    VerifyIs(e, z, g.r, g.s, Times(e.c, d, e.g), Mul(e, Signed(low, nonce)));
  }

  lemma KeyDecodes(c: Curve, q: Point)
    requires c.p > 0 && c.p <= Pow(256, 32) && q.Affine? && OnCurve(c, q)
    ensures DecodePublicKey(EncodePublicKey(q.x, q.y)) == (q.x, q.y)
  {
    hide Pow, DecodePublicKey, EncodePublicKey, TestPoint;
    DecodeEncode(q.x, q.y);
  }

  lemma VerifyIs(e: Setup, z: nat, r: nat, s: nat, key: Point, met: Point)
    requires e.c.p > 0 && e.n > 0 && key.Affine? && DecodePublicKey(EncodePublicKey(key.x, key.y)) == (key.x, key.y)
    requires var w := Inv(s, e.n);
      z * w % e.n >= 0 && r * w % e.n >= 0
      && Sum(e.c, Times(e.c, z * w % e.n, e.g), Times(e.c, r * w % e.n, key)) == met
    requires met.Affine? && met.x == r && r % e.n != 0 && s % e.n != 0
    ensures Verify(e, z, r, s, EncodePublicKey(key.x, key.y))
  {
    hide Times, Sum, Inv, EncodePublicKey, DecodePublicKey;
  }
}
