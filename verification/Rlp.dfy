/** Recursive length prefixes: the encoding of nested byte strings, its uniqueness, and a decoder. */
module Rlp {
  import opened Wrappers
  import opened Primes
  import opened ByteStrings

  type Bytes = seq<Byte>

  datatype Item = Str(s: Bytes) | List(xs: seq<Item>)

  const LIMIT: nat := 0x1_0000_0000_0000_0000

  /** The shortest big-endian form of a number; zero is the empty string. */
  function Shortest(v: nat): (r: Bytes)
    ensures BigValue(r) == v
    ensures r == [] <==> v == 0
    ensures r != [] ==> r[0] != 0
  {
    if v == 0 then [] else
      var r := Shortest(v / 256) + [v % 256];
      assert r[..|r| - 1] == Shortest(v / 256);
      r
  }

  lemma {:induction false} ShortestLength(v: nat, n: nat)
    requires v < Pow(256, n)
    ensures |Shortest(v)| <= n
    decreases n
  {
    if n > 0 && v > 0 { ShortestLength(v / 256, n - 1); }
  }

  lemma LimitIs()
    ensures LIMIT == Pow(256, 8)
  {
    assert Pow(256, 2) == 256 * Pow(256, 1) && Pow(256, 1) == 256 * Pow(256, 0);
    assert Pow(256, 4) == 256 * Pow(256, 3) && Pow(256, 3) == 256 * Pow(256, 2);
    assert Pow(256, 6) == 256 * Pow(256, 5) && Pow(256, 5) == 256 * Pow(256, 4);
    assert Pow(256, 8) == 256 * Pow(256, 7) && Pow(256, 7) == 256 * Pow(256, 6);
  }

  /** The prefix of a string (`base` 128) or list (`base` 192) with `n` bytes of payload. */
  function Header(base: nat, n: nat): (r: Bytes)
    requires (base == 0x80 || base == 0xc0) && n < LIMIT
    ensures |r| >= 1
  {
    if n <= 55 then [base + n]
    else
      LimitIs();
      ShortestLength(n, 8);
      [base + 55 + |Shortest(n)|] + Shortest(n)
  }

  /** Whether all lengths fit into eight bytes; longer items have no encoding. */
  predicate Small(x: Item)
    decreases x, 0
  {
    match x
    case Str(s) => |s| < LIMIT
    case List(xs) => SmallAll(xs) && |Payload(xs)| < LIMIT
  }

  predicate SmallAll(xs: seq<Item>)
    decreases xs, 0
  {
    xs == [] || (Small(xs[0]) && SmallAll(xs[1..]))
  }

  function Encode(x: Item): (r: Bytes)
    requires Small(x)
    ensures |r| >= 1
    decreases x, 1
  {
    match x
    case Str(s) => if |s| == 1 && s[0] < 0x80 then s else Header(0x80, |s|) + s
    case List(xs) => Header(0xc0, |Payload(xs)|) + Payload(xs)
  }

  function Payload(xs: seq<Item>): Bytes
    requires SmallAll(xs)
    decreases xs, 1
  {
    if xs == [] then [] else Encode(xs[0]) + Payload(xs[1..])
  }

  // ---------------------------------------------------------------- the encoding determines the item

  /** Byte strings with a common continuation agree up to the length they share. */
  lemma Cut(a: Bytes, r: Bytes, b: Bytes, s: Bytes)
    requires a + r == b + s && |a| == |b|
    ensures a == b && r == s
  {
    assert (a + r)[..|a|] == a && (b + s)[..|b|] == b;
    assert (a + r)[|a|..] == r && (b + s)[|b|..] == s;
  }

  /** A header says what kind of item follows and how long it is. */
  lemma HeaderUnique(base: nat, m: nat, r: Bytes, base': nat, n: nat, s: Bytes)
    requires (base == 0x80 || base == 0xc0) && (base' == 0x80 || base' == 0xc0) && m < LIMIT && n < LIMIT
    requires Header(base, m) + r == Header(base', n) + s
    ensures base == base' && m == n && r == s
  {
    var h, k := Header(base, m), Header(base', n);
    LimitIs();
    ShortestLength(m, 8);
    ShortestLength(n, 8);
    assert (h + r)[0] == h[0] && (k + s)[0] == k[0];
    assert h[0] == k[0];
    assert |h| == |k|;
    Cut(h, r, k, s);
    if m > 55 { assert h[1..] == Shortest(m) && k[1..] == Shortest(n); }
  }

  lemma FirstByte(x: Item)
    requires Small(x)
    ensures var b := Encode(x)[0];
      match x
      case Str(s) => if |s| == 1 && s[0] < 0x80 then b == s[0] else 0x80 <= b < 0xc0
      case List(xs) => b >= 0xc0
  {
    LimitIs();
    match x
    case Str(s) => ShortestLength(|s|, 8);
    case List(xs) => ShortestLength(|Payload(xs)|, 8);
  }

  /** An encoding is never a prefix of another one: what follows it does not matter. */
  lemma {:induction false} EncodeUnique(x: Item, r: Bytes, y: Item, s: Bytes)
    requires Small(x) && Small(y) && Encode(x) + r == Encode(y) + s
    ensures x == y && r == s
    decreases x, 0
  {
    FirstByte(x);
    FirstByte(y);
    assert (Encode(x) + r)[0] == Encode(x)[0] && (Encode(y) + s)[0] == Encode(y)[0];
    if x.Str? && |x.s| == 1 && x.s[0] < 0x80 {
      Cut(Encode(x), r, Encode(y), s);
    } else if x.Str? {
      PrefixedUnique(0x80, x.s, r, 0x80, y.s, s);
    } else {
      PrefixedUnique(0xc0, Payload(x.xs), r, 0xc0, Payload(y.xs), s);
      PayloadUnique(x.xs, y.xs);
    }
  }

  lemma ConcatAssociative(a: Bytes, b: Bytes, c: Bytes)
    ensures (a + b) + c == a + (b + c)
  {
  }

  lemma PrefixedUnique(base: nat, a: Bytes, r: Bytes, base': nat, b: Bytes, s: Bytes)
    requires (base == 0x80 || base == 0xc0) && (base' == 0x80 || base' == 0xc0) && |a| < LIMIT && |b| < LIMIT
    requires (Header(base, |a|) + a) + r == (Header(base', |b|) + b) + s
    ensures base == base' && a == b && r == s
  {
    hide Header;
    ConcatAssociative(Header(base, |a|), a, r);
    ConcatAssociative(Header(base', |b|), b, s);
    HeaderUnique(base, |a|, a + r, base', |b|, b + s);
    Cut(a, r, b, s);
  }

  lemma {:induction false} PayloadUnique(xs: seq<Item>, ys: seq<Item>)
    requires SmallAll(xs) && SmallAll(ys) && Payload(xs) == Payload(ys)
    ensures xs == ys
    decreases xs, 1
  {
    if xs == [] || ys == [] {
      assert xs == [] <==> Payload(xs) == [];
      assert ys == [] <==> Payload(ys) == [];
    } else {
      EncodeUnique(xs[0], Payload(xs[1..]), ys[0], Payload(ys[1..]));
      PayloadUnique(xs[1..], ys[1..]);
      assert xs == [xs[0]] + xs[1..] && ys == [ys[0]] + ys[1..];
    }
  }

  lemma EncodeInjective(x: Item, y: Item)
    requires Small(x) && Small(y) && Encode(x) == Encode(y)
    ensures x == y
  {
    assert Encode(x) + [] == Encode(y) + [];
    EncodeUnique(x, [], y, []);
  }

  // ---------------------------------------------------------------- decoding

  /** Where the payload of the item at the front starts and ends. */
  datatype Extent = Extent(start: nat, end: nat)

  function Measure(b: Bytes): (e: Option<Extent>)
    ensures e.Some? ==> e.value.start <= e.value.end <= |b| && e.value.end > 0
  {
    if b == [] then None
    else if b[0] < 0x80 then Some(Extent(0, 1))
    else
      var base := if b[0] < 0xc0 then 0x80 else 0xc0;
      if b[0] <= base + 55 then
        if 1 + b[0] - base <= |b| then Some(Extent(1, 1 + b[0] - base)) else None
      else
        var k := b[0] - base - 55;
        if 1 + k > |b| then None
        else
          var n := BigValue(b[1..1 + k]);
          if 1 + k + n <= |b| then Some(Extent(1 + k, 1 + k + n)) else None
  }

  function ParseItem(b: Bytes): (o: Option<(Item, Bytes)>)
    ensures o.Some? ==> |o.value.1| < |b|
    decreases |b|, 0
  {
    match Measure(b)
    case None => None
    case Some(e) =>
      var body, rest := b[e.start..e.end], b[e.end..];
      if b[0] < 0xc0 then Some((Str(body), rest))
      else if e.start == 0 then None
      else
        match ParseItems(body)
        case None => None
        case Some(xs) => Some((List(xs), rest))
  }

  function ParseItems(b: Bytes): Option<seq<Item>>
    decreases |b|, 1
  {
    if b == [] then Some([])
    else
      match ParseItem(b)
      case None => None
      case Some((x, rest)) =>
        match ParseItems(rest)
        case None => None
        case Some(xs) => Some([x] + xs)
  }

  /** The item whose encoding is exactly `b`; anything else is refused. */
  function Decode(b: Bytes): (o: Option<Item>)
    ensures o.Some? ==> Small(o.value) && Encode(o.value) == b
  {
    match ParseItem(b)
    case None => None
    case Some((x, rest)) => if rest == [] && Small(x) && Encode(x) == b then Some(x) else None
  }

  lemma MeasureString(s: Bytes, r: Bytes)
    requires |s| < LIMIT && !(|s| == 1 && s[0] < 0x80)
    ensures var b := Header(0x80, |s|) + s + r;
      var h := |Header(0x80, |s|)|;
      Measure(b) == Some(Extent(h, h + |s|)) && b[h..h + |s|] == s && b[h + |s|..] == r && 0x80 <= b[0] < 0xc0
  {
    MeasureHeader(0x80, s, r);
  }

  lemma MeasureHeader(base: nat, p: Bytes, r: Bytes)
    requires (base == 0x80 || base == 0xc0) && |p| < LIMIT
    ensures var b := Header(base, |p|) + p + r;
      var h := |Header(base, |p|)|;
      && Measure(b) == Some(Extent(h, h + |p|)) && b[h..h + |p|] == p && b[h + |p|..] == r
      && base <= b[0] < base + 64 && h > 0
  {
    var n := |p|;
    var hd := Header(base, n);
    HeaderShape(base, n);
    SlicesOf(hd, p, r);
    hide *;
    assert hd <= hd + p + r && |hd| + n <= |hd + p + r|;
    MeasurePrefix(base, n, hd, hd + p + r);
    HeaderStart(base, n, hd);
  }

  lemma SlicesOf(a: Bytes, p: Bytes, r: Bytes)
    ensures (a + p + r)[|a|..|a| + |p|] == p && (a + p + r)[|a| + |p|..] == r
    ensures |a| > 0 ==> (a + p + r)[0] == a[0]
    ensures |a| <= |a + p + r| && (a + p + r)[..|a|] == a && |a + p + r| == |a| + |p| + |r|
  {
  }

  /** A header in short form is one byte, in long form the length of the length and the length. */
  predicate HeaderIs(base: nat, n: nat, hd: Bytes) {
    && hd != []
    && (n <= 55 ==> hd == [base + n])
    && (n > 55 ==> 2 <= |hd| <= 9 && hd[0] == base + 54 + |hd| && BigValue(hd[1..]) == n)
  }

  lemma HeaderShape(base: nat, n: nat)
    requires (base == 0x80 || base == 0xc0) && n < LIMIT
    ensures HeaderIs(base, n, Header(base, n))
  {
    LimitIs();
    ShortestLength(n, 8);
    hide Shortest, BigValue;
    if n > 55 {
      var hd := [base + 55 + |Shortest(n)|] + Shortest(n);
      assert hd[1..] == Shortest(n);
      assert Header(base, n) == hd;
    }
  }

  lemma HeaderStart(base: nat, n: nat, hd: Bytes)
    requires (base == 0x80 || base == 0xc0) && HeaderIs(base, n, hd)
    ensures base <= hd[0] < base + 64
  {
    hide BigValue;
  }

  lemma MeasurePrefix(base: nat, n: nat, hd: Bytes, b: Bytes)
    requires (base == 0x80 || base == 0xc0) && HeaderIs(base, n, hd) && hd <= b && |hd| + n <= |b|
    ensures Measure(b) == Some(Extent(|hd|, |hd| + n))
  {
    hide BigValue;
    HeaderStart(base, n, hd);
    assert b[0] == hd[0];
    if n > 55 { assert b[1..|hd|] == hd[1..]; }
  }

  /** Decoding undoes encoding, whatever follows. */
  lemma {:induction false} ParseEncoded(x: Item, r: Bytes)
    requires Small(x)
    ensures ParseItem(Encode(x) + r) == Some((x, r))
    decreases x, 0
  {
    match x
    case Str(s) =>
      if |s| == 1 && s[0] < 0x80 {
        var b := s + r;
        assert b[0..1] == s && b[1..] == r;
      } else {
        MeasureString(s, r);
      }
    case List(xs) =>
      MeasureHeader(0xc0, Payload(xs), r);
      ParsePayload(xs);
  }

  lemma {:induction false} ParsePayload(xs: seq<Item>)
    requires SmallAll(xs)
    ensures ParseItems(Payload(xs)) == Some(xs)
    decreases xs, 1
  {
    if xs != [] {
      ParseEncoded(xs[0], Payload(xs[1..]));
      ParsePayload(xs[1..]);
      assert xs == [xs[0]] + xs[1..];
    }
  }

  lemma DecodeEncode(x: Item)
    requires Small(x)
    ensures Decode(Encode(x)) == Some(x)
  {
    ParseEncoded(x, []);
    assert Encode(x) + [] == Encode(x);
  }

  /** Exactly the encodings are decoded, each to its item. */
  lemma DecodeExact(b: Bytes, x: Item)
    ensures Decode(b) == Some(x) <==> Small(x) && Encode(x) == b
    ensures Decode(b).Some? <==> exists y :: Small(y) && Encode(y) == b
  {
    if Small(x) && Encode(x) == b { DecodeEncode(x); }
    if y :| Small(y) && Encode(y) == b { DecodeEncode(y); }
    hide Decode, Encode, Small;
  }
}
