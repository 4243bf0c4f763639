/** What the string encoding of points accepts and yields, exactly, in both directions. */
module EncodingLaws {
  import opened Wrappers
  import opened Congruences
  import opened Primes
  import opened ByteStrings
  import opened SquareRoots
  import opened Curves
  import opened PointEncoding

  /** The bytes of a point: a digit that is one for an even ordinate, and the abscissa, lowest byte first. */
  predicate Spells(b: seq<Byte>, s: Point) {
    s.Affine? && |b| == 33 && b[0] == 1 - s.y % 2 && LittleValue(b[1..]) == s.x
  }

  /** A point is encoded exactly if it is an affine solution of the equation; and then as its bytes, in hex. */
  lemma SerExactly(q: nat, s: Point)
    requires q > 0
    ensures Ser(q, s).Ok? <==> s.Affine? && (s.y * s.y - (s.x * s.x * s.x + 7)) % q == 0
    ensures Ser(q, s).Ok? && s.x < Pow(256, 32) ==>
      FromHex(Ser(q, s).value).Some? && Spells(FromHex(Ser(q, s).value).value, s)
  {
    hide *;
    if s.Affine? {
      CongIff(q, s.y * s.y, s.x * s.x * s.x + 7);
      SerIs(q, s);
      HexRoundTrip([SignByte(s.y)] + LittleEndian(s.x, 32));
      if s.x < Pow(256, 32) { BytesSpell(s); }
    } else {
      NoSer(q, s);
    }
  }

  lemma NoSer(q: nat, s: Point)
    requires q > 0 && s.Ideal?
    ensures Ser(q, s).Err?
  {
  }

  lemma BytesSpell(s: Point)
    requires s.Affine? && s.x < Pow(256, 32)
    ensures Spells([SignByte(s.y)] + LittleEndian(s.x, 32), s)
  {
    assert ([SignByte(s.y)] + LittleEndian(s.x, 32))[1..] == LittleEndian(s.x, 32);
    hide LittleEndian, LittleValue, Pow;
    LittleRoundTrip(s.x, 32);
  }

  lemma SerIs(q: nat, s: Point)
    requires q > 0 && s.Affine?
    ensures Ser(q, s) ==
      if Cong(q, s.y * s.y, s.x * s.x * s.x + 7) then Ok(ToHex([SignByte(s.y)] + LittleEndian(s.x, 32)))
      else Err(AssertionFailed)
  {
    assert Rhs(Koblitz(q), s.x) == s.x * s.x * s.x + 7;
    SignHex(SignByte(s.y), LittleEndian(s.x, 32));
    hide ToHex, LittleEndian, Rhs;
  }

  /** The point has the abscissa and, unless its ordinate is zero, the parity that the bytes ask for. */
  predicate Fits(b: seq<Byte>, s: Point) {
    && s.Affine? && |b| == 33 && b[0] <= 1
    && LittleValue(b[1..]) == s.x && (s.y == 0 || s.y % 2 == 1 - b[0])
  }

  /** A string is decoded to a point exactly if it spells bytes that the point fits, and the point is on the curve. */
  lemma DeserExactly(q: nat, h: string, s: Point)
    requires RootField(q)
    ensures Deser(q, h) == Ok(s) <==> FromHex(h).Some? && Fits(FromHex(h).value, s) && OnCurve(Koblitz(q), s)
  {
    hide Deser, FromHex, LittleValue, OnCurve, Prime;
    if Deser(q, h) == Ok(s) { DeserFinds(q, h); }
    if FromHex(h).Some? && Fits(FromHex(h).value, s) && OnCurve(Koblitz(q), s) {
      FittingDecodes(q, h, FromHex(h).value, s);
    }
  }

  lemma FittingDecodes(q: nat, h: string, b: seq<Byte>, s: Point)
    requires RootField(q) && FromHex(h) == Some(b) && Fits(b, s) && OnCurve(Koblitz(q), s)
    ensures Deser(q, h) == Ok(s)
  {
    SolveFindsOdd(q, s);
    OddPrime(q);
    Bounds(q, s);
    hide Deser, FromHex, LittleValue, OnCurve, RootField, Solve;
    MirrorParity(q, s.y);
    var y := if s.y % 2 == 1 then s.y else (0 - s.y) % q;
    DeserBytes(q, h, b, y);
    MirrorParity(q, y);
  }

  lemma Bounds(q: nat, s: Point)
    requires q > 0 && s.Affine? && OnCurve(Koblitz(q), s)
    ensures s.x < q && s.y < q
  {
    hide TestPoint;
  }
}
