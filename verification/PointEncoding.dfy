/** The two compact encodings of curve points: with the odd root and a sign digit, and with a parity prefix. */
module PointEncoding {
  import opened Wrappers
  import opened Congruences
  import opened Primes
  import opened ByteStrings
  import opened SquareRoots
  import opened Curves

  datatype CodecError = AssertionFailed | ValueError

  /** y^2 = x^3 + 7 modulo `q`. */
  function Koblitz(q: nat): Curve { Curve(q, 0, 7) }

  const SECP256K1_Q: nat :=
    0xFFFF_FFFF_FFFF_FFFF_FFFF_FFFF_FFFF_FFFF_FFFF_FFFF_FFFF_FFFF_FFFF_FFFE_FFFF_FC2F

  /** The modulus of the concrete curve has the shape the square root needs; that it is prime is a hypothesis. */
  lemma ConcreteField()
    ensures SECP256K1_Q % 4 == 3
    ensures Prime(SECP256K1_Q) ==> RootField(SECP256K1_Q)
  {
  }

  // ---------------------------------------------------------------- ser and deser

  /** The point over `x` with the odd root. */
  function Solve(q: nat, x: nat): Result<Point, CodecError>
    requires q > 0 && x < q
  {
    var c := Koblitz(q);
    var a := Rhs(c, x) % q;
    CongMod(q, Rhs(c, x));
    match Sqrt(q, a)
    case None => Err(ValueError)
    case Some(y) =>
      if y * y % q != a then Err(AssertionFailed)
      else
        var z := if y % 2 == 0 then (0 - y) % q else y;
        if !TestPoint(c, x, z) then Err(ValueError) else Ok(Affine(x, z))
  }

  function Ser(q: nat, s: Point): Result<string, CodecError>
    requires q > 0
  {
    if s.Ideal? || !TestPoint(Koblitz(q), s.x, s.y) then Err(AssertionFailed)
    else Ok("0" + (if s.y % 2 == 0 then "1" else "0") + ToHex(LittleEndian(s.x, 32)))
  }

  function Deser(q: nat, h: string): Result<Point, CodecError>
    requires q > 0
  {
    match FromHex(h)
    case None => Err(ValueError)
    case Some(b) =>
      if |b| != 33 || b[0] > 1 || LittleValue(b[1..]) >= q then Err(AssertionFailed)
      else
        match Solve(q, LittleValue(b[1..]))
        case Err(e) => Err(e)
        case Ok(p) => Ok(if b[0] == 1 && p.Affine? then Affine(p.x, (0 - p.y) % q) else p)
  }

  /** The encoding is the hexadecimal form of one sign byte and the little-endian coordinate. */
  lemma SerBytes(q: nat, s: Point)
    requires q > 0 && s.Affine? && OnCurve(Koblitz(q), s)
    ensures Ser(q, s) == Ok(ToHex([SignByte(s.y)] + LittleEndian(s.x, 32)))
  {
    SignHex(SignByte(s.y), LittleEndian(s.x, 32));
    hide ToHex, LittleEndian, TestPoint;
  }

  function SignByte(y: nat): Byte { if y % 2 == 0 then 1 else 0 }

  lemma SignHex(sign: Byte, rest: seq<Byte>)
    requires sign <= 1
    ensures ToHex([sign] + rest) == "0" + (if sign == 1 then "1" else "0") + ToHex(rest)
  {
    var b := [sign] + rest;
    assert b[1..] == rest;
    assert ToHex(b) == [HexDigit(sign / 16), HexDigit(sign % 16)] + ToHex(rest);
  }

  /** Solving finds a point exactly when the right-hand side is a square: the one with the odd root. */
  lemma SolveExact(q: nat, x: nat)
    requires RootField(q) && x < q
    ensures var a := Rhs(Koblitz(q), x);
      match Solve(q, x)
      case Err(e) => e == ValueError && !IsSquare(q, a)
      case Ok(s) => s.Affine? && s.x == x && OnCurve(Koblitz(q), s) && (s.y % 2 == 1 || s.y == 0)
  {
    var c := Koblitz(q);
    var rhs := Rhs(c, x);
    var a := rhs % q;
    CongMod(q, rhs);
    SqrtExact(q, a);
    if IsSquare(q, rhs) {
      var r: nat :| Cong(q, r * r, rhs);
      assert Cong(q, r * r, a);
    }
    if Sqrt(q, a).Some? {
      var y := Sqrt(q, a).value;
      MirrorParity(q, y);
      CongMod(q, y * y);
      CongReduced(q, y * y % q, a);
      CongMod(q, 0 - y);
      TestReduced(c, x, y, 0 - y);
      Reduced(q, x);
    }
  }

  /** The odd one of a point and its mirror image is what solving for its coordinate finds. */
  lemma SolveFindsOdd(q: nat, s: Point)
    requires RootField(q) && s.Affine? && OnCurve(Koblitz(q), s)
    ensures Solve(q, s.x) == Ok(Affine(s.x, if s.y % 2 == 1 then s.y else (0 - s.y) % q))
  {
    SquareOfPoint(q, s);
    SolveExact(q, s.x);
    hide Solve, Rhs;
    OddOf(q, s.y, Solve(q, s.x).value.y);
  }

  lemma SquareOfPoint(q: nat, s: Point)
    requires q > 0 && s.Affine? && OnCurve(Koblitz(q), s)
    ensures IsSquare(q, Rhs(Koblitz(q), s.x))
  {
    assert Cong(q, s.y * s.y, Rhs(Koblitz(q), s.x));
  }

  lemma OddOf(q: nat, y: nat, z: nat)
    requires RootField(q) && y < q && z < q && (z % 2 == 1 || z == 0) && Cong(q, y * y, z * z)
    ensures z == if y % 2 == 1 then y else (0 - y) % q
  {
    RootsAreMirrors(q, y, z);
    hide *;
    OddPrime(q);
    MirrorParity(q, z);
    if z == 0 { ZeroMirror(q); }
  }

  lemma OddPrime(q: nat)
    requires RootField(q)
    ensures q % 2 == 1
  {
    hide Prime;
  }

  lemma ZeroMirror(q: nat)
    requires q > 0
    ensures (0 - 0) % q == 0
  {
  }

  lemma DeserBytes(q: nat, h: string, b: seq<Byte>, y: nat)
    requires q > 0 && FromHex(h) == Some(b) && |b| == 33 && b[0] <= 1 && LittleValue(b[1..]) < q
    requires Solve(q, LittleValue(b[1..])) == Ok(Affine(LittleValue(b[1..]), y))
    ensures Deser(q, h) == Ok(Affine(LittleValue(b[1..]), if b[0] == 1 then (0 - y) % q else y))
  {
    CongMod(q, 0 - y);
    hide FromHex, LittleValue, Solve;
  }

  lemma SignRestores(q: nat, y: nat)
    requires q % 4 == 3 && y < q
    ensures var z := if y % 2 == 1 then y else (0 - y) % q;
      y == if SignByte(y) == 1 then (0 - z) % q else z
  {
    MirrorParity(q, y);
  }

  lemma SignIsBit(y: nat)
    ensures SignByte(y) <= 1
  {
  }

  lemma PointBounds(q: nat, s: Point)
    requires RootField(q) && q <= Pow(256, 32) && s.Affine? && OnCurve(Koblitz(q), s)
    ensures q % 4 == 3 && s.x < q && s.y < q && s.x < Pow(256, 32)
  {
    hide Pow, TestPoint;
  }

  /** Every affine point of the curve is recovered from its encoding. */
  lemma SerRoundTrip(q: nat, s: Point)
    requires RootField(q) && q <= Pow(256, 32) && s.Affine? && OnCurve(Koblitz(q), s)
    ensures Ser(q, s).Ok? && Deser(q, Ser(q, s).value) == Ok(s)
  {
    hide *;
    PointBounds(q, s);
    SignRestores(q, s.y);
    assert SignByte(s.y) <= 1 by { SignIsBit(s.y); }
    var sign, y := SignByte(s.y), if s.y % 2 == 1 then s.y else (0 - s.y) % q;
    SerBytes(q, s);
    LittleRoundTrip(s.x, 32);
    SolveFindsOdd(q, s);
    var b := [sign] + LittleEndian(s.x, 32);
    assert b[1..] == LittleEndian(s.x, 32);
    HexRoundTrip(b);
    DeserBytes(q, ToHex(b), b, y);
  }

  lemma SerInjective(q: nat, s: Point, t: Point)
    requires RootField(q) && q <= Pow(256, 32)
    requires s.Affine? && OnCurve(Koblitz(q), s) && t.Affine? && OnCurve(Koblitz(q), t) && Ser(q, s) == Ser(q, t)
    ensures s == t
  {
    SerRoundTrip(q, s);
    SerRoundTrip(q, t);
  }

  /** The coordinate that an encoded string names. */
  function XOf(b: seq<Byte>): nat
    requires b != []
  {
    LittleValue(b[1..])
  }

  /** The one string form that decodes but is not what its point is encoded as: an odd sign for the root zero. */
  predicate WrongSign(q: nat, b: seq<Byte>)
    requires q > 0 && b != []
  {
    b[0] == 0 && Cong(q, Rhs(Koblitz(q), XOf(b)), 0)
  }

  /** What a string decodes to: a curve point over its coordinate, odd or even as its sign digit says. */
  lemma DeserFinds(q: nat, h: string)
    requires RootField(q) && Deser(q, h).Ok?
    ensures FromHex(h).Some? && |FromHex(h).value| == 33
    ensures var s := Deser(q, h).value;
      var b := FromHex(h).value;
      && s.Affine? && OnCurve(Koblitz(q), s) && s.x == XOf(b) && b[0] <= 1
      && (SignByte(s.y) == b[0] <==> !(s.y == 0 && b[0] == 0))
  {
    var b := FromHex(h).value;
    var x := XOf(b);
    SolveExact(q, x);
    var p := Solve(q, x).value;
    hide Solve, FromHex, LittleValue;
    CongMod(q, 0 - p.y);
    MirrorParity(q, p.y);
    TestReduced(Koblitz(q), x, p.y, 0 - p.y);
    Reduced(q, x);
    hide TestPoint, Rhs;
  }

  /** The root is zero exactly if the right-hand side is. */
  lemma ZeroRoot(q: nat, s: Point)
    requires RootField(q) && s.Affine? && OnCurve(Koblitz(q), s)
    ensures s.y == 0 <==> Cong(q, Rhs(Koblitz(q), s.x), 0)
  {
    hide Rhs;
    Reduced(q, 0);
    Reduced(q, s.y);
    if Cong(q, Rhs(Koblitz(q), s.x), 0) { NoZeroDivisors(q, s.y, s.y); }
  }

  /** A decoded string encodes back to itself, in lower case, unless it has the wrong sign. */
  lemma DeserCanonical(q: nat, h: string)
    requires RootField(q) && Deser(q, h).Ok?
    ensures FromHex(h).Some? && FromHex(h).value != []
    ensures var b := FromHex(h).value; Ser(q, Deser(q, h).value) == Ok(ToHex(b)) <==> !WrongSign(q, b)
  {
    DeserFinds(q, h);
    var s, b := Deser(q, h).value, FromHex(h).value;
    ZeroRoot(q, s);
    hide Deser, FromHex, OnCurve, Rhs, Ser, ToHex;
    LittleCanonical(b[1..]);
    SerBytes(q, s);
    SignDigit(b, SignByte(s.y));
    hide LittleValue, LittleEndian, SignByte;
    assert b == [b[0]] + b[1..];
  }

  /** The string of a coordinate with the odd sign. */
  function OddString(x: nat): string { ToHex([0] + LittleEndian(x, 32)) }

  /** Over a coordinate where the curve meets the axis the string with the odd sign is decoded. */
  lemma WrongSignDecodes(q: nat, x: nat)
    requires RootField(q) && q <= Pow(256, 32) && x < q && Cong(q, Rhs(Koblitz(q), x), 0)
    ensures Deser(q, OddString(x)).Ok?
    ensures FromHex(OddString(x)).Some? && FromHex(OddString(x)).value != []
    ensures WrongSign(q, FromHex(OddString(x)).value)
  {
    hide Pow, Rhs, ToHex, FromHex, LittleEndian, LittleValue, Solve, RootField;
    var b := [0] + LittleEndian(x, 32);
    assert b[1..] == LittleEndian(x, 32);
    LittleRoundTrip(x, 32);
    HexRoundTrip(b);
    assert IsSquare(q, Rhs(Koblitz(q), x)) by { assert Cong(q, 0 * 0, Rhs(Koblitz(q), x)); }
    SolveExact(q, x);
  }

  /** The exception occurs for the moduli in which minus seven is a cube. */
  lemma WrongSignOccurs(q: nat)
    requires RootField(q) && q <= Pow(256, 32)
    ensures
      (exists h ::
        Deser(q, h).Ok? && FromHex(h).Some? && FromHex(h).value != [] && WrongSign(q, FromHex(h).value))
      <==> exists x: nat :: x < q && Cong(q, Rhs(Koblitz(q), x), 0)
  {
    hide Pow, Rhs, Solve, Prime, LittleValue;
    if x: nat :| x < q && Cong(q, Rhs(Koblitz(q), x), 0) {
      WrongSignDecodes(q, x);
    }
    if h :| Deser(q, h).Ok? && FromHex(h).Some? && FromHex(h).value != [] && WrongSign(q, FromHex(h).value) {
      assert XOf(FromHex(h).value) < q;
    }
  }

  /** Modulo seven it does, at coordinate zero. */
  lemma WrongSignModuloSeven()
    requires RootField(7)
    ensures Deser(7, OddString(0)) == Ok(Affine(0, 0)) && Ser(7, Affine(0, 0)) != Ok(OddString(0))
  {
    SevenFits();
    assert Cong(7, Rhs(Koblitz(7), 0), 0);
    hide Deser, OnCurve, Rhs, RootField, OddString, Pow, ToHex, FromHex;
    WrongSignDecodes(7, 0);
    DeserFinds(7, OddString(0));
    ZeroRoot(7, Deser(7, OddString(0)).value);
    HexOfOdd(0);
    DeserCanonical(7, OddString(0));
  }

  lemma SevenFits()
    ensures 7 <= Pow(256, 32)
  {
    PowPositive(256, 31);
    assert Pow(256, 32) == 256 * Pow(256, 31);
  }

  lemma HexOfOdd(x: nat)
    requires x < Pow(256, 32)
    ensures FromHex(OddString(x)) == Some([0] + LittleEndian(x, 32)) && XOf([0] + LittleEndian(x, 32)) == x
  {
    HexRoundTrip([0] + LittleEndian(x, 32));
    LittleRoundTrip(x, 32);
    assert ([0] + LittleEndian(x, 32))[1..] == LittleEndian(x, 32);
    hide FromHex, ToHex, LittleEndian, LittleValue, Pow;
  }

  lemma SignDigit(b: seq<Byte>, sign: Byte)
    requires b != []
    ensures ToHex([sign] + b[1..]) == ToHex(b) <==> sign == b[0]
  {
    if ToHex([sign] + b[1..]) == ToHex(b) {
      HexRoundTrip([sign] + b[1..]);
      HexRoundTrip(b);
    }
    assert b == [b[0]] + b[1..];
  }

  // ---------------------------------------------------------------- parity prefixes

  function DecodePublicKey(pk: seq<Byte>): (nat, nat)
    requires |pk| == 64
  {
    (BigValue(pk[..32]), BigValue(pk[32..]))
  }

  function EncodePublicKey(x: nat, y: nat): (r: seq<Byte>)
    ensures |r| == 64
  {
    BigEndian(x, 32) + BigEndian(y, 32)
  }

  function Compress(pk: seq<Byte>): (r: seq<Byte>)
    requires |pk| == 64
    ensures |r| == 33
  {
    var (x, y) := DecodePublicKey(pk);
    [if y % 2 == 0 then 2 else 3] + BigEndian(x, 32)
  }

  function Decompress(c: Curve, k: seq<Byte>): Result<seq<Byte>, CodecError>
    requires c.p > 0
  {
    if |k| != 33 || (k[0] != 2 && k[0] != 3) then Err(ValueError)
    else
      var x := BigValue(k[1..]);
      CongMod(c.p, Rhs(c, x));
      Ok(EncodePublicKey(x, OfParity(c.p, Root(c.p, Rhs(c, x) % c.p), k[0])))
  }

  /** The one of `r` and its mirror image whose parity the prefix asks for. */
  function OfParity(p: nat, r: nat, prefix: Byte): (y: nat)
    requires r < p
    ensures y < p && (y == r || y == (0 - r) % p)
  {
    CongMod(p, 0 - r);
    if (prefix == 2 && r % 2 == 1) || (prefix == 3 && r % 2 == 0) then (0 - r) % p else r
  }

  lemma OfParityUnique(p: nat, r: nat, y: nat)
    requires p % 2 == 1 && r < p && y < p && (y == r || y == (0 - r) % p)
    ensures OfParity(p, r, if y % 2 == 0 then 2 else 3) == y
  {
    MirrorParity(p, r);
  }

  lemma EncodeDecode(pk: seq<Byte>)
    requires |pk| == 64
    ensures var (x, y) := DecodePublicKey(pk); EncodePublicKey(x, y) == pk && x < Pow(256, 32)
  {
    BigCanonical(pk[..32]);
    BigCanonical(pk[32..]);
    assert pk == pk[..32] + pk[32..];
    hide *;
  }

  lemma DecodeEncode(x: nat, y: nat)
    requires x < Pow(256, 32) && y < Pow(256, 32)
    ensures DecodePublicKey(EncodePublicKey(x, y)) == (x, y)
  {
    hide Pow, BigEndian, BigValue;
    BigRoundTrip(x, 32);
    BigRoundTrip(y, 32);
    var e := EncodePublicKey(x, y);
    assert e[..32] == BigEndian(x, 32) && e[32..] == BigEndian(y, 32);
  }

  /** The root the power gives for the right-hand side, up to its sign. */
  lemma RootOnCurve(c: Curve, x: nat, y: nat)
    requires RootField(c.p) && y < c.p && TestPoint(c, x, y)
    ensures var r := Root(c.p, Rhs(c, x) % c.p); y == r || y == (0 - r) % c.p
    ensures c.p % 2 == 1
  {
    var p := c.p;
    CongMod(p, Rhs(c, x));
    var a := Rhs(c, x) % p;
    assert IsSquare(p, a) by { assert Cong(p, y * y, a); }
    SqrtExact(p, a);
    hide Root, Rhs;
    RootsAreMirrors(p, y, Root(p, a));
  }

  lemma CompressedParts(pk: seq<Byte>)
    requires |pk| == 64
    ensures var (x, y) := DecodePublicKey(pk);
      var k := Compress(pk);
      k[0] == (if y % 2 == 0 then 2 else 3) && BigValue(k[1..]) == x
  {
    var (x, y) := DecodePublicKey(pk);
    var k := Compress(pk);
    EncodeDecode(pk);
    hide BigEndian, BigValue, Pow;
    BigRoundTrip(x, 32);
    assert k[1..] == BigEndian(x, 32);
  }

  /** A key on the curve survives compression. */
  lemma CompressRoundTrip(c: Curve, pk: seq<Byte>)
    requires RootField(c.p) && |pk| == 64
    requires var (x, y) := DecodePublicKey(pk); y < c.p && TestPoint(c, x, y)
    ensures Decompress(c, Compress(pk)) == Ok(pk)
  {
    hide Compress, DecodePublicKey, EncodePublicKey, BigValue, Root, Rhs, OfParity, TestPoint, Pow, Prime;
    var (x, y) := DecodePublicKey(pk);
    CompressedParts(pk);
    EncodeDecode(pk);
    RootOnCurve(c, x, y);
    OfParityUnique(c.p, Root(c.p, Rhs(c, x) % c.p), y);
  }

  /** Decompressing gives a point of the curve exactly when its coordinate has one. */
  lemma DecompressExact(c: Curve, k: seq<Byte>)
    requires RootField(c.p) && c.p <= Pow(256, 32) && |k| == 33 && (k[0] == 2 || k[0] == 3)
    ensures Decompress(c, k).Ok? && |Decompress(c, k).value| == 64
    ensures var x := BigValue(k[1..]);
      var (u, y) := DecodePublicKey(Decompress(c, k).value);
      u == x && y < c.p && (TestPoint(c, x, y) <==> IsSquare(c.p, Rhs(c, x)))
  {
    var p := c.p;
    var x := BigValue(k[1..]);
    var a := Rhs(c, x) % p;
    CongMod(p, Rhs(c, x));
    BigCanonical(k[1..]);
    var r := Root(p, a);
    var y := OfParity(p, r, k[0]);
    ChosenRootExact(c, x, y);
    hide Root, Rhs, OfParity, RootField, TestPoint, IsSquare, BigValue,
      BigEndian, Pow, DecodePublicKey, EncodePublicKey;
    DecodeEncode(x, y);
  }

  lemma ChosenRootExact(c: Curve, x: nat, y: nat)
    requires RootField(c.p)
    requires var r := Root(c.p, Rhs(c, x) % c.p); y == r || y == (0 - r) % c.p
    ensures TestPoint(c, x, y) <==> IsSquare(c.p, Rhs(c, x))
  {
    var p := c.p;
    var rhs := Rhs(c, x);
    var a := rhs % p;
    CongMod(p, rhs);
    SqrtExact(p, a);
    var r := Root(p, a);
    hide Root, Rhs;
    SameSquare(p, r, y);
    if IsSquare(p, rhs) {
      var z: nat :| Cong(p, z * z, rhs);
      assert Cong(p, z * z, a);
    }
    if TestPoint(c, x, y) { assert Cong(p, y * y, rhs); }
  }

  lemma SameSquare(p: nat, r: nat, y: nat)
    requires p > 0 && (y == r || y == (0 - r) % p)
    ensures Cong(p, y * y, r * r)
  {
    CongMod(p, 0 - r);
    assert (0 - r) * (0 - r) == r * r;
    CongMul(p, (0 - r) % p, 0 - r, (0 - r) % p, 0 - r);
  }
}
