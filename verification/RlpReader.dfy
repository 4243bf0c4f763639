/** The on-chain decoder, which walks pointers over the machine's byte memory. */
module RlpReader {
  import opened Wrappers
  import opened Congruences
  import opened Primes
  import opened ByteStrings
  import opened Rlp

  /** Memory is as long as anybody likes and zero where nothing was written. */
  type Memory = nat -> Byte

  function Slice(m: Memory, p: nat, n: nat): (s: Bytes)
    ensures |s| == n && forall i :: 0 <= i < n ==> s[i] == m(p + i)
  {
    seq(n, i requires 0 <= i < n => m(p + i))
  }

  lemma SliceOfSlice(m: Memory, p: nat, n: nat, i: nat, k: nat)
    requires i + k <= n
    ensures Slice(m, p, n)[i..i + k] == Slice(m, p + i, k)
  {
  }

  /** The 32-byte word at a pointer. */
  function Load(m: Memory, p: nat): nat { BigValue(Slice(m, p, 32)) }

  /** An encoded item: how many bytes it has, and where. */
  datatype RlpItem = RlpItem(len: nat, memPtr: nat)

  datatype Location = Location(memPtr: nat, len: nat)

  // ---------------------------------------------------------------- lengths

  /** The number in the first `k` bytes of the word behind a prefix byte. */
  function ShiftedWord(m: Memory, p: nat, k: nat): nat
    requires k <= 32
  {
    PowPositive(256, 32 - k);
    Load(m, p) / Pow(256, 32 - k)
  }

  function ItemLength(m: Memory, p: nat): (n: nat)
    ensures n >= 1
  {
    var byte0: nat := m(p);
    if byte0 < 0x80 then 1
    else if byte0 < 0xb8 then byte0 - 0x80 + 1
    else if byte0 < 0xc0 then ShiftedWord(m, p + 1, byte0 - 0xb7) + (byte0 - 0xb7 + 1)
    else if byte0 < 0xf8 then byte0 - 0xc0 + 1
    else ShiftedWord(m, p + 1, byte0 - 0xf7) + (byte0 - 0xf7 + 1)
  }

  function PayloadOffset(m: Memory, p: nat): nat {
    var byte0: nat := m(p);
    if byte0 < 0x80 then 0
    else if byte0 < 0xb8 || 0xc0 <= byte0 < 0xf8 then 1
    else if byte0 < 0xc0 then byte0 - (0xb8 - 1) + 1
    else byte0 - (0xf8 - 1) + 1
  }

  function IsList(m: Memory, item: RlpItem): bool { item.len != 0 && m(item.memPtr) >= 0xc0 }

  /** Where the payload is; a prefix that is longer than the item makes the subtraction fail. */
  function PayloadLocation(m: Memory, item: RlpItem): Option<Location> {
    var offset := PayloadOffset(m, item.memPtr);
    if offset > item.len then None else Some(Location(item.memPtr + offset, item.len - offset))
  }

  // ---------------------------------------------------------------- walking a list

  /** How many items it takes to get from `cur` to `end` or past it. */
  function Hops(m: Memory, cur: nat, end: nat): nat
    decreases if cur < end then end - cur else 0
  {
    if cur >= end then 0 else 1 + Hops(m, cur + ItemLength(m, cur), end)
  }

  /** The next `n` items from `cur` on. */
  function Items(m: Memory, cur: nat, n: nat): (r: seq<RlpItem>)
    ensures |r| == n
    decreases n
  {
    if n == 0 then [] else [RlpItem(ItemLength(m, cur), cur)] + Items(m, cur + ItemLength(m, cur), n - 1)
  }

  method NumItems(m: Memory, item: RlpItem) returns (count: nat)
    ensures count == if item.len == 0 then 0
      else Hops(m, item.memPtr + PayloadOffset(m, item.memPtr), item.memPtr + item.len)
  {
    if item.len == 0 { return 0; }
    count := 0;
    var currPtr := item.memPtr + PayloadOffset(m, item.memPtr);
    var endPtr := item.memPtr + item.len;
    while currPtr < endPtr
      invariant count + Hops(m, currPtr, endPtr) == Hops(m, item.memPtr + PayloadOffset(m, item.memPtr), endPtr)
      decreases endPtr - currPtr
    {
      currPtr := currPtr + ItemLength(m, currPtr);
      count := count + 1;
    }
  }

  /** The elements of a list; reverts on anything else. */
  method ToList(m: Memory, item: RlpItem) returns (r: Option<seq<RlpItem>>)
    ensures r.Some? <==> IsList(m, item)
    ensures r.Some? ==> r == Some(Elements(m, item))
  {
    hide Items, Hops, ItemLength, PayloadOffset;
    if !IsList(m, item) { return None; }
    var items := NumItems(m, item);
    var result: seq<RlpItem> := [];
    var memPtr: nat := item.memPtr + PayloadOffset(m, item.memPtr);
    var i := 0;
    while i < items
      invariant i <= items
      invariant result + Items(m, memPtr, items - i) == Items(m, item.memPtr + PayloadOffset(m, item.memPtr), items)
    {
      var dataLen := ItemLength(m, memPtr);
      WalkStep(m, memPtr, items - i, memPtr);
      result := result + [RlpItem(dataLen, memPtr)];
      memPtr := memPtr + dataLen;
      i := i + 1;
    }
    NoItems(m, memPtr);
    assert result + [] == result;
    return Some(result);
  }

  lemma NoItems(m: Memory, cur: nat)
    ensures Items(m, cur, 0) == []
  {
  }

  function Elements(m: Memory, item: RlpItem): seq<RlpItem> {
    var start := item.memPtr + PayloadOffset(m, item.memPtr);
    Items(m, start, if item.len == 0 then 0 else Hops(m, start, item.memPtr + item.len))
  }

  /** The number in an item of at most 33 bytes; reverts on longer and on empty ones. */
  function ToUint(m: Memory, item: RlpItem): Option<nat> {
    if item.len == 0 || item.len > 33 then None
    else
      match PayloadLocation(m, item)
      case None => None
      case Some(at) => Some(if at.len < 32 then ShiftedWord(m, at.memPtr, at.len) else Load(m, at.memPtr))
  }

  // ---------------------------------------------------------------- decoding undoes encoding

  /** The memory holds the encoding of `x` at the item's place. */
  predicate Holds(m: Memory, item: RlpItem, x: Item) {
    Small(x) && item.len == |Encode(x)| && Slice(m, item.memPtr, item.len) == Encode(x)
  }

  lemma {:induction false} HighBytes(s: Bytes, k: nat)
    requires k <= |s|
    ensures Pow(256, |s| - k) > 0 && BigValue(s) / Pow(256, |s| - k) == BigValue(s[..k])
    decreases |s| - k
  {
    PowPositive(256, |s| - k);
    if k == |s| {
      assert s[..k] == s;
    } else {
      HighBytes(s, k + 1);
      var t := s[..k + 1];
      assert t[..k] == s[..k] && t[k] == s[k];
      var e := |s| - k - 1;
      PowPositive(256, e);
      DivDiv(BigValue(s), Pow(256, e), 256);
      assert Pow(256, e + 1) == 256 * Pow(256, e);
      assert BigValue(t) / 256 == BigValue(s[..k]);
    }
  }

  lemma ShiftedIsPrefix(m: Memory, p: nat, k: nat)
    requires k <= 32
    ensures ShiftedWord(m, p, k) == BigValue(Slice(m, p, k))
  {
    HighBytes(Slice(m, p, 32), k);
    assert Slice(m, p, 32)[..k] == Slice(m, p, k);
  }

  /** The pointer arithmetic measures the same extent as the decoder on byte strings. */
  lemma SameExtent(m: Memory, p: nat, b: Bytes)
    requires Slice(m, p, |b|) == b && Measure(b).Some?
    ensures ItemLength(m, p) == Measure(b).value.end && PayloadOffset(m, p) == Measure(b).value.start
  {
    assert b != [] && b[0] == m(p);
    var base: nat := if b[0] < 0xc0 then 0x80 else 0xc0;
    if b[0] >= 0x80 && b[0] > base + 55 {
      var k: nat := b[0] - base - 55;
      ShiftedIsPrefix(m, p + 1, k);
      SliceOfSlice(m, p, |b|, 1, k);
    }
  }

  /** The extent and the payload of an encoded item. */
  lemma MeasureEncoded(x: Item)
    requires Small(x)
    ensures Measure(Encode(x)).Some?
    ensures var e := Measure(Encode(x)).value;
      && e.end == |Encode(x)|
      && Encode(x)[e.start..] == (match x case Str(s) => s case List(xs) => Payload(xs))
    ensures x.List? <==> Encode(x)[0] >= 0xc0
  {
    FirstByte(x);
    match x
    case Str(s) =>
      if !(|s| == 1 && s[0] < 0x80) {
        MeasureHeader(0x80, s, []);
        assert Header(0x80, |s|) + s + [] == Encode(x);
      }
    case List(xs) =>
      MeasureHeader(0xc0, Payload(xs), []);
      assert Header(0xc0, |Payload(xs)|) + Payload(xs) + [] == Encode(x);
  }

  function PayloadBytes(x: Item): Bytes
    requires Small(x)
  {
    match x
    case Str(s) => s
    case List(xs) => Payload(xs)
  }

  /** An encoded item is measured and located as it was laid out. */
  lemma Located(m: Memory, item: RlpItem, x: Item)
    requires Holds(m, item, x)
    ensures item.len > 0 && ItemLength(m, item.memPtr) == item.len && (IsList(m, item) <==> x.List?)
    ensures PayloadLocation(m, item).Some?
    ensures var at := PayloadLocation(m, item).value;
      && at.memPtr == item.memPtr + PayloadOffset(m, item.memPtr) && at.memPtr + at.len == item.memPtr + item.len
      && Slice(m, at.memPtr, at.len) == PayloadBytes(x)
  {
    hide Encode, Measure, ItemLength, PayloadOffset, Payload;
    var b := Encode(x);
    MeasureEncoded(x);
    SameExtent(m, item.memPtr, b);
    var e := Measure(b).value;
    assert b[0] == m(item.memPtr);
    SliceOfSlice(m, item.memPtr, item.len, e.start, item.len - e.start);
    assert b[e.start..] == b[e.start..e.start + (item.len - e.start)];
  }

  /** Items that lie one behind the other, from `cur` to `end`. */
  predicate Contiguous(r: seq<RlpItem>, cur: nat, end: nat)
    decreases |r|
  {
    if r == [] then cur == end else r[0].memPtr == cur && Contiguous(r[1..], cur + r[0].len, end)
  }

  predicate HoldsAll(m: Memory, r: seq<RlpItem>, xs: seq<Item>) {
    |r| == |xs| && forall i :: 0 <= i < |xs| ==> Holds(m, r[i], xs[i])
  }

  lemma PayloadHead(xs: seq<Item>)
    requires SmallAll(xs) && xs != []
    ensures Small(xs[0]) && SmallAll(xs[1..])
    ensures Payload(xs) == Encode(xs[0]) + Payload(xs[1..]) && |Encode(xs[0])| > 0
  {
    hide Encode, Small;
  }

  /** The first element of a payload and what is behind it. */
  lemma PayloadFront(m: Memory, cur: nat, xs: seq<Item>)
    requires SmallAll(xs) && xs != [] && Slice(m, cur, |Payload(xs)|) == Payload(xs)
    ensures var n := |Encode(xs[0])|;
      && Small(xs[0]) && SmallAll(xs[1..]) && Holds(m, RlpItem(n, cur), xs[0])
      && |Payload(xs)| == n + |Payload(xs[1..])| && n > 0
      && Slice(m, cur + n, |Payload(xs[1..])|) == Payload(xs[1..])
  {
    hide Encode, Payload, Small, SmallAll, Slice;
    PayloadHead(xs);
    var b, rest := Encode(xs[0]), Payload(xs[1..]);
    SliceOfSlice(m, cur, |b| + |rest|, 0, |b|);
    SliceOfSlice(m, cur, |b| + |rest|, |b|, |rest|);
    assert Payload(xs)[..|b|] == b && Payload(xs)[|b|..] == rest;
  }

  lemma HoldsAllFront(m: Memory, item: RlpItem, more: seq<RlpItem>, xs: seq<Item>)
    requires xs != [] && Holds(m, item, xs[0]) && HoldsAll(m, more, xs[1..])
    ensures HoldsAll(m, [item] + more, xs)
  {
    hide Holds;
    var r := [item] + more;
    forall i | 0 <= i < |xs| ensures Holds(m, r[i], xs[i]) {
      if i > 0 { assert r[i] == more[i - 1] && xs[i] == xs[1..][i - 1]; }
    }
  }

  lemma ContiguousFront(item: RlpItem, more: seq<RlpItem>, end: nat)
    requires Contiguous(more, item.memPtr + item.len, end)
    ensures Contiguous([item] + more, item.memPtr, end)
  {
    assert ([item] + more)[1..] == more;
  }

  lemma WalkStep(m: Memory, cur: nat, n: nat, end: nat)
    requires n > 0
    ensures Items(m, cur, n) == [RlpItem(ItemLength(m, cur), cur)] + Items(m, cur + ItemLength(m, cur), n - 1)
    ensures cur < end ==> Hops(m, cur, end) == 1 + Hops(m, cur + ItemLength(m, cur), end)
  {
  }

  lemma WalkNothing(m: Memory, cur: nat)
    ensures Payload([]) == [] && Hops(m, cur, cur) == 0
    ensures HoldsAll(m, Items(m, cur, 0), []) && Contiguous(Items(m, cur, 0), cur, cur)
  {
  }

  /** A walk over a payload meets each element where it starts, and ends exactly where the payload ends. */
  lemma {:induction false} WalkExact(m: Memory, cur: nat, xs: seq<Item>)
    requires SmallAll(xs) && Slice(m, cur, |Payload(xs)|) == Payload(xs)
    ensures var end := cur + |Payload(xs)|;
      var r := Items(m, cur, |xs|);
      Hops(m, cur, end) == |xs| && HoldsAll(m, r, xs) && Contiguous(r, cur, end)
    decreases |xs|
  {
    hide *;
    if xs == [] {
      WalkNothing(m, cur);
    } else {
      PayloadFront(m, cur, xs);
      var item := RlpItem(|Encode(xs[0])|, cur);
      var end := cur + |Payload(xs)|;
      Located(m, item, xs[0]);
      WalkStep(m, cur, |xs|, end);
      WalkExact(m, cur + item.len, xs[1..]);
      var more := Items(m, cur + item.len, |xs| - 1);
      HoldsAllFront(m, item, more, xs);
      ContiguousFront(item, more, end);
    }
  }

  /** `toList` on an encoded list yields exactly the places of its elements, one behind the other. */
  lemma ElementsExact(m: Memory, item: RlpItem, xs: seq<Item>)
    requires Holds(m, item, List(xs))
    ensures IsList(m, item) && HoldsAll(m, Elements(m, item), xs)
    ensures Contiguous(Elements(m, item), item.memPtr + PayloadOffset(m, item.memPtr), item.memPtr + item.len)
  {
    hide *;
    HoldsList(m, item, xs);
    Located(m, item, List(xs));
    WalkExact(m, item.memPtr + PayloadOffset(m, item.memPtr), xs);
    ElementsAre(m, item);
  }

  lemma HoldsList(m: Memory, item: RlpItem, xs: seq<Item>)
    requires Holds(m, item, List(xs))
    ensures Small(List(xs)) && SmallAll(xs) && PayloadBytes(List(xs)) == Payload(xs)
  {
    hide Encode, Slice;
  }

  lemma ElementsAre(m: Memory, item: RlpItem)
    requires item.len > 0
    ensures var start := item.memPtr + PayloadOffset(m, item.memPtr);
      Elements(m, item) == Items(m, start, Hops(m, start, item.memPtr + item.len))
  {
    hide PayloadOffset;
  }

  lemma StringLength(s: Bytes)
    requires |s| < LIMIT
    ensures |Encode(Str(s))| <= 33 <==> |s| <= 32
  {
    LimitIs();
    ShortestLength(|s|, 8);
  }

  /** `toUint` on an encoded string: its number, if it has at most 32 bytes. */
  lemma ToUintExact(m: Memory, item: RlpItem, s: Bytes)
    requires Holds(m, item, Str(s))
    ensures ToUint(m, item) == if |s| <= 32 then Some(BigValue(s)) else None
  {
    Located(m, item, Str(s));
    StringLength(s);
    var at := PayloadLocation(m, item).value;
    hide Encode, ItemLength, PayloadOffset, PayloadLocation;
    if at.len <= 32 { ShiftedIsPrefix(m, at.memPtr, at.len); }
    hide ShiftedWord;
  }

  /** Every 256-bit integer is recovered. */
  lemma UintRoundTrip(m: Memory, item: RlpItem, v: nat)
    requires v < Pow(256, 32) && Holds(m, item, Str(Shortest(v)))
    ensures ToUint(m, item) == Some(v)
  {
    ShortestLength(v, 32);
    hide Pow;
    ToUintExact(m, item, Shortest(v));
  }

  // ---------------------------------------------------------------- copying

  lemma {:induction false} BigConcat(s: Bytes, t: Bytes)
    ensures BigValue(s + t) == BigValue(s) * Pow(256, |t|) + BigValue(t)
    decreases |t|
  {
    if t == [] {
      assert s + t == s;
    } else {
      var k := |t| - 1;
      var most := t[..k];
      BigConcat(s, most);
      assert (s + t)[..|s + t| - 1] == s + most;
      var a, b := BigValue(s), Pow(256, k);
      assert 256 * (a * b) == a * (256 * b) by { MulIsAssociative(256, a, b); MulIsAssociative(a, 256, b); }
      MulDistributes(256, a * b, BigValue(most));
    }
  }

  /** The left-over word: the first `k` bytes from one word, the others from another. */
  lemma MaskedWord(a: Bytes, b: Bytes, k: nat)
    requires |a| == 32 && |b| == 32 && k <= 32
    ensures Pow(256, 32 - k) > 0
    ensures var unit := Pow(256, 32 - k);
      && 0 <= BigValue(a) - BigValue(a) % unit && 0 <= BigValue(b) % unit
      && BigValue(a) - BigValue(a) % unit + BigValue(b) % unit == BigValue(a[..k] + b[k..])
  {
    hide *;
    PowPositive(256, 32 - k);
    assert a == a[..k] + a[k..] && b == b[..k] + b[k..];
    assert |a[k..]| == 32 - k && |b[k..]| == 32 - k;
    BigConcat(a[..k], a[k..]);
    BigConcat(b[..k], b[k..]);
    BigConcat(a[..k], b[k..]);
    BigCanonical(a[k..]);
    BigCanonical(b[k..]);
    MixedDigits(BigValue(a), BigValue(b), Pow(256, 32 - k), BigValue(a[..k]),
                BigValue(a[k..]), BigValue(b[..k]), BigValue(b[k..]));
  }

  lemma MixedDigits(x: nat, y: nat, unit: nat, h1: nat, l1: nat, h2: nat, l2: nat)
    requires unit > 0 && x == h1 * unit + l1 && y == h2 * unit + l2 && l1 < unit && l2 < unit
    ensures 0 <= x - x % unit && 0 <= y % unit && x - x % unit + y % unit == h1 * unit + l2
  {
    DivModUnique(x, unit, h1, l1);
    DivModUnique(y, unit, h2, l2);
    MulNonNegative(unit, h1);
  }

  /** Where a copy forwards never overwrites what it still has to read. */
  predicate Apart(src: nat, dest: nat, len: nat) { src + len <= dest || dest <= src }

  /**
   The byte that a copy puts at position `j` behind `dest`. A byte of the source that an earlier word
   of the copy has overwritten is read as it is then.
   */
  function CopiedByte(m: Memory, src: nat, dest: nat, j: nat): Byte
    decreases j
  {
    if src < dest <= src + j && j - (dest - src) < 32 * (j / 32) then CopiedByte(m, src, dest, j - (dest - src))
    else m(src + j)
  }

  /** The memory after a copy of `len` bytes. */
  function Copied(m: Memory, src: nat, dest: nat, len: nat): Memory {
    (p: nat) => if dest <= p < dest + len then CopiedByte(m, src, dest, p - dest) else m(p)
  }

  /** The `n` bytes at `d` replaced by those at `s`, all of them read first. */
  function Moved(m: Memory, s: nat, d: nat, n: nat): Memory {
    (p: nat) => if d <= p < d + n then m(s + (p - d)) else m(p)
  }

  /** The next word of a copy, or what is left of one. */
  lemma CopyMore(m0: Memory, m1: Memory, m2: Memory, src: nat, dest: nat, done: nat, n: nat)
    requires done % 32 == 0 && n <= 32
    requires forall q: nat :: m1(q) == Copied(m0, src, dest, done)(q)
    requires forall q: nat :: m2(q) == Moved(m1, src + done, dest + done, n)(q)
    ensures forall q: nat :: m2(q) == Copied(m0, src, dest, done + n)(q)
  {
    forall q: nat ensures m2(q) == Copied(m0, src, dest, done + n)(q) {
      if dest + done <= q < dest + done + n { CopyNext(m0, m1, src, dest, done, q - dest); }
      assert m2(q) == Moved(m1, src + done, dest + done, n)(q) && m1(q) == Copied(m0, src, dest, done)(q);
    }
  }

  lemma CopyNext(m0: Memory, m1: Memory, src: nat, dest: nat, done: nat, j: nat)
    requires done % 32 == 0 && done <= j < done + 32
    requires forall q: nat :: m1(q) == Copied(m0, src, dest, done)(q)
    ensures m1(src + j) == CopiedByte(m0, src, dest, j)
  {
    assert 32 * (j / 32) == done;
    assert m1(src + j) == Copied(m0, src, dest, done)(src + j);
  }

  /** Every byte of the copy is the source's. */
  ghost predicate CopiesFaithfully(src: nat, dest: nat, len: nat) {
    forall m: Memory, j: nat :: j < len ==> CopiedByte(m, src, dest, j) == m(src + j)
  }

  /** The copy is right for every memory exactly if it does not run into its own source, or is one word. */
  lemma CopyExactly(src: nat, dest: nat, len: nat)
    ensures CopiesFaithfully(src, dest, len) <==> Apart(src, dest, len) || len <= 32
  {
    if Apart(src, dest, len) || len <= 32 {
      forall m: Memory, j: nat | j < len ensures CopiedByte(m, src, dest, j) == m(src + j) {
        if len <= 32 { assert j / 32 == 0; }
      }
    } else {
      var d := dest - src;
      var j := if d < 32 then 32 else d;
      var m: Memory := p => if p == src + j then 1 else 0;
      WrongByte(m, src, dest, j);
      assert CopiedByte(m, src, dest, j) != m(src + j);
    }
  }

  /** A copy that starts behind its source reads a byte of its first word again. */
  lemma WrongByte(m: Memory, src: nat, dest: nat, j: nat)
    requires src < dest && j == if dest - src < 32 then 32 else dest - src
    ensures CopiedByte(m, src, dest, j) == m(src + (j - (dest - src)))
  {
    var k := j - (dest - src);
    assert k < 32 && k / 32 == 0 && j / 32 >= 1;
    assert CopiedByte(m, src, dest, k) == m(src + k);
  }

  /** The memory with a length and that many zero bytes written at `p`. */
  function Allocated(m: Memory, p: nat, len: nat): Memory {
    (q: nat) =>
      if p <= q < p + 32 then BigEndian(len, 32)[q - p] else if p + 32 <= q < p + 32 + len then 0 else m(q)
  }

  lemma LocatedInside(m: Memory, item: RlpItem)
    ensures PayloadLocation(m, item).Some? ==>
      var at := PayloadLocation(m, item).value; at.memPtr + at.len == item.memPtr + item.len && at.len <= item.len
  {
  }

  /** `p` is a new byte array with a copy of the bytes at `at`, and nothing below it has changed. */
  ghost predicate FreshBytes(m0: Memory, m: Memory, at: Location, p: nat) {
    && Load(m, p) == at.len && (forall q: nat :: q < p ==> m(q) == m0(q))
    && Slice(m, p + 32, at.len) == CopiedBytes(m0, at, p)
  }

  /** The bytes of a copy into the array that is allocated at `p`. */
  function CopiedBytes(m: Memory, at: Location, p: nat): Bytes {
    seq(at.len, j requires 0 <= j < at.len => CopiedByte(Allocated(m, p, at.len), at.memPtr, p + 32, j))
  }

  /** What was allocated and then copied into is a byte array with those bytes. */
  lemma FreshCopy(m0: Memory, m1: Memory, m2: Memory, at: Location, p: nat)
    requires at.len < Pow(256, 32) && forall q: nat :: m1(q) == Allocated(m0, p, at.len)(q)
    requires forall q: nat :: m2(q) == Copied(m1, at.memPtr, p + 32, at.len)(q)
    ensures FreshBytes(m0, m2, at, p)
  {
    hide Pow, BigEndian, BigValue;
    BigRoundTrip(at.len, 32);
    assert Slice(m2, p, 32) == BigEndian(at.len, 32);
    var s, t := Slice(m2, p + 32, at.len), CopiedBytes(m0, at, p);
    forall j | 0 <= j < |s| ensures s[j] == t[j] {
      SameCopy(m1, Allocated(m0, p, at.len), at.memPtr, p + 32, j);
      assert s[j] == m2(p + 32 + j);
    }
  }

  lemma {:induction false} SameCopy(m: Memory, m': Memory, src: nat, dest: nat, j: nat)
    requires forall q: nat :: m(q) == m'(q)
    ensures CopiedByte(m, src, dest, j) == CopiedByte(m', src, dest, j)
    decreases j
  {
    if src < dest <= src + j { SameCopy(m, m', src, dest, j - (dest - src)); }
  }

  /** Of an item below the array the bytes are copied as they are. */
  lemma CopiedBelow(m: Memory, at: Location, p: nat)
    requires at.memPtr + at.len <= p
    ensures CopiedBytes(m, at, p) == Slice(m, at.memPtr, at.len)
  {
    hide BigEndian;
    var s, t := CopiedBytes(m, at, p), Slice(m, at.memPtr, at.len);
    forall j | 0 <= j < |s| ensures s[j] == t[j] { assert t[j] == m(at.memPtr + j); }
  }

  /** `toBytes` on an encoded string below the free memory gives an array with exactly its bytes. */
  lemma ToBytesExact(m0: Memory, m: Memory, item: RlpItem, s: Bytes, p: nat)
    requires Holds(m0, item, Str(s)) && item.memPtr + item.len <= p
    requires PayloadLocation(m0, item).Some? && FreshBytes(m0, m, PayloadLocation(m0, item).value, p)
    ensures Load(m, p) == |s| && Slice(m, p + 32, |s|) == s
  {
    hide Holds, PayloadLocation, CopiedBytes, Load, PayloadOffset;
    Located(m0, item, Str(s));
    PayloadOfString(m0, item, s);
    CopiedBelow(m0, PayloadLocation(m0, item).value, p);
  }

  lemma PayloadOfString(m: Memory, item: RlpItem, s: Bytes)
    requires Holds(m, item, Str(s))
    ensures PayloadBytes(Str(s)) == s
  {
    hide Encode, Slice;
  }

  class Machine {
    var mem: Memory
    /** Everything from here on is free. */
    var free: nat

    constructor (m: Memory, unused: nat)
      ensures mem == m && free == unused
    {
      mem, free := m, unused;
    }

    method Store(p: nat, word: nat)
      requires word < Pow(256, 32)
      modifies this`mem
      ensures forall q: nat :: mem(q) == if p <= q < p + 32 then BigEndian(word, 32)[q - p] else old(mem)(q)
    {
      var before, bytes := mem, BigEndian(word, 32);
      mem := (q: nat) => if p <= q < p + 32 then bytes[q - p] else before(q);
    }

    /** Whole words first, then the rest of the bytes under a mask; nothing else is written. */
    method Copy(src: nat, dest: nat, len: nat)
      modifies this`mem
      ensures forall q: nat :: mem(q) == Copied(old(mem), src, dest, len)(q)
    {
      var s, d, left := src, dest, len;
      ghost var done: nat := 0;
      while left >= 32
        invariant done + left == len && s == src + done && d == dest + done && done % 32 == 0
        invariant forall q: nat :: mem(q) == Copied(old(mem), src, dest, done)(q)
        decreases left
      {
        ghost var before := mem;
        CopyWord(s, d);
        CopyMore(old(mem), before, mem, src, dest, done, 32);
        s, d, left := s + 32, d + 32, left - 32;
        done := done + 32;
      }
      if left > 0 {
        ghost var before := mem;
        CopyRest(s, d, left);
        CopyMore(old(mem), before, mem, src, dest, done, left);
      }
    }

    method CopyWord(s: nat, d: nat)
      modifies this`mem
      ensures forall q: nat :: mem(q) == Moved(old(mem), s, d, 32)(q)
    {
      hide Pow, BigValue, BigEndian;
      BigCanonical(Slice(mem, s, 32));
      ghost var bytes := Slice(mem, s, 32);
      Store(d, Load(mem, s));
    }

    method CopyRest(s: nat, d: nat, len: nat)
      requires 0 < len < 32
      modifies this`mem
      ensures forall q: nat :: mem(q) == Moved(old(mem), s, d, len)(q)
    {
      hide Pow, BigValue, BigEndian;
      ghost var a, b := Slice(mem, s, 32), Slice(mem, d, 32);
      MaskedWord(a, b, len);
      BigCanonical(a[..len] + b[len..]);
      var unit := Pow(256, 32 - len);
      var word := Load(mem, s) - Load(mem, s) % unit + Load(mem, d) % unit;
      assert BigEndian(word, 32) == a[..len] + b[len..];
      Store(d, word);
    }

    /** A fresh byte array with a copy of the payload of an item; reverts on an empty item. */
    method ToBytes(item: RlpItem) returns (r: Option<nat>)
      requires item.len < Pow(256, 32)
      modifies this
      ensures r.None? <==> item.len == 0 || PayloadLocation(old(mem), item).None?
      ensures r.None? ==> mem == old(mem) && free == old(free)
      ensures r.Some? ==>
        var at := PayloadLocation(old(mem), item).value;
        r.value == old(free) && free >= r.value + 32 + at.len && FreshBytes(old(mem), mem, at, r.value)
    {
      if item.len == 0 { return None; }
      LocatedInside(mem, item);
      var location := PayloadLocation(mem, item);
      if location.None? { return None; }
      hide Pow, BigEndian, PayloadLocation, BigValue, Copied, FreshBytes, Allocated;
      var at := location.value;
      ghost var m0 := mem;
      var result := Allocate(at.len);
      ghost var m1 := mem;
      Copy(at.memPtr, result + 32, at.len);
      FreshCopy(m0, m1, mem, at, result);
      return Some(result);
    }

    /** A zeroed byte array with its length in front. */
    method Allocate(len: nat) returns (result: nat)
      requires len < Pow(256, 32)
      modifies this
      ensures result == old(free) && free == result + 32 + (len + 31) / 32 * 32
      ensures forall q: nat :: mem(q) == Allocated(old(mem), result, len)(q)
    {
      result := free;
      hide Pow, BigEndian;
      Store(result, len);
      var before := mem;
      mem := (q: nat) => if result + 32 <= q < result + 32 + len then 0 else before(q);
      free := result + 32 + (len + 31) / 32 * 32;
    }
  }
}
