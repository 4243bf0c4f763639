/**
 What the bounty is paid for, exactly: by the bytes of the memory, the message that was signed and the
 steps that went before.
 */
module BountyLaws {
  import opened Wrappers
  import opened ByteStrings
  import opened Rlp
  import opened RlpReader
  import opened Bounty

  // ---------------------------------------------------------------- the message

  predicate IsDecimal(s: Bytes, v: nat) {
    && s != [] && (forall d :: d in s ==> 48 <= d <= 57) && (s[0] == 48 ==> |s| == 1)
    && DecimalValue(s) == v
  }

  lemma {:induction false} DecimalUnique(s: Bytes)
    requires IsDecimal(s, DecimalValue(s))
    ensures s == Decimal(DecimalValue(s))
    decreases |s|
  {
    hide *;
    Parts(s);
    var t := s[..|s| - 1];
    var d: nat := s[|s| - 1];
    LastDigit(t, d);
    if t == [] {
      OneDigit(d - 48);
    } else {
      DecimalUnique(t);
      NotZero(t);
      MoreDigits(DecimalValue(t), d - 48);
    }
  }

  lemma Parts(s: Bytes)
    requires IsDecimal(s, DecimalValue(s))
    ensures s != [] && 48 <= s[|s| - 1] <= 57 && s == s[..|s| - 1] + [s[|s| - 1]]
    ensures var t := s[..|s| - 1]; t != [] ==> t[0] != 48 && IsDecimal(t, DecimalValue(t))
  {
    var t := s[..|s| - 1];
    assert s[|s| - 1] in s && (t != [] ==> t[0] == s[0]);
    assert forall x :: x in t ==> x in s;
    if t != [] { NoLeadingZero(t); }
    hide DecimalValue;
  }

  lemma NotZero(t: Bytes)
    requires t != [] && t[0] != 48 && t == Decimal(DecimalValue(t))
    ensures DecimalValue(t) > 0
  {
    DecimalExact(DecimalValue(t));
    hide Decimal, DecimalValue;
  }

  lemma LastDigit(t: Bytes, d: nat)
    requires 48 <= d <= 57
    ensures DecimalValue(t + [d]) == 10 * DecimalValue(t) + (d - 48)
    ensures t == [] ==> DecimalValue(t) == 0
  {
    assert (t + [d])[..|t|] == t;
  }

  lemma OneDigit(d: nat)
    requires d < 10
    ensures Decimal(d) == [48 + d]
  {
  }

  lemma MoreDigits(v: nat, d: nat)
    requires v > 0 && d < 10
    ensures Decimal(10 * v + d) == Decimal(v) + [48 + d]
  {
  }

  lemma NoLeadingZero(t: Bytes)
    requires t != [] && t[0] != 48 && forall d :: d in t ==> 48 <= d <= 57
    ensures IsDecimal(t, DecimalValue(t))
  {
  }

  lemma DecimalIs(s: Bytes, v: nat)
    ensures IsDecimal(s, v) <==> s == Decimal(v)
  {
    DecimalExact(v);
    if IsDecimal(s, v) { DecimalUnique(s); }
    if s == Decimal(v) && s[0] == 48 { assert v == 0; }
  }

  function Letter(i: nat): int
    requires i < 25
  {
    "Ethereum Signed Message:\n"[i] as int
  }

  /** The byte 0x19, the words `Ethereum Signed Message:` and a newline. */
  ghost predicate IsPrefix(s: Bytes) { |s| == 26 && s[0] == 0x19 && forall i: nat :: i < 25 ==> s[1 + i] == Letter(i) }

  lemma PrefixSpells()
    ensures IsPrefix(PREFIX)
  {
  }

  lemma PrefixIs(s: Bytes)
    ensures IsPrefix(s) <==> s == PREFIX
  {
    PrefixSpells();
    hide PREFIX, Letter;
    if IsPrefix(s) {
      forall i | 0 <= i < 26 ensures s[i] == PREFIX[i] {
        if i > 0 {
          var j: nat := i - 1;
          assert s[1 + j] == Letter(j) && PREFIX[1 + j] == Letter(j);
        }
      }
    }
  }

  /** The prefix, the length of the data in decimal, and the data. */
  ghost predicate Personal(msg: Bytes, data: Bytes) {
    exists prefix, digits :: IsPrefix(prefix) && IsDecimal(digits, |data|) && msg == prefix + digits + data
  }

  lemma PersonalIs(msg: Bytes, data: Bytes)
    ensures Personal(msg, data) <==> msg == PREFIX + Decimal(|data|) + data
  {
    forall s ensures IsPrefix(s) <==> s == PREFIX { PrefixIs(s); }
    forall s ensures IsDecimal(s, |data|) <==> s == Decimal(|data|) { DecimalIs(s, |data|); }
    hide PREFIX, IsPrefix, IsDecimal, Decimal;
    if msg == PREFIX + Decimal(|data|) + data { assert IsPrefix(PREFIX) && IsDecimal(Decimal(|data|), |data|); }
  }

  // ---------------------------------------------------------------- the signature

  /** Sixty-five bytes r, s and v, with s in the lower half, from which the machine recovers the signer. */
  predicate SignsAs(w: World, hash: Word32, sig: Bytes, signer: Address) {
    && |sig| == 65 && signer != 0
    && BigValue(sig[32..64]) <= 0x7FFFFFFFFFFFFFFFFFFFFFFFFFFFFFFF5D576E7357A4501DDFE92F46681B20A0
    && w.ecrecover(hash, sig[64], BigValue(sig[..32]), BigValue(sig[32..64])) == signer
  }

  lemma SignerIs(w: World, hash: Word32, sig: Bytes, signer: Address)
    ensures Signer(w, hash, sig) == Some(signer) <==> SignsAs(w, hash, sig, signer)
  {
    hide BigValue;
  }

  // ---------------------------------------------------------------- the blob in memory

  /** The header at `p`: how long it is, and how long the item is with it. */
  predicate HeaderAt(m: Memory, p: nat, offset: nat, length: nat) {
    var b: nat := m(p);
    if b < 0x80 then offset == 0 && length == 1
    else if b <= 0xb7 then offset == 1 && length == 1 + (b - 0x80)
    else if b <= 0xbf then offset == 1 + (b - 0xb7) && length == offset + BigValue(Slice(m, p + 1, b - 0xb7))
    else if b <= 0xf7 then offset == 1 && length == 1 + (b - 0xc0)
    else offset == 1 + (b - 0xf7) && length == offset + BigValue(Slice(m, p + 1, b - 0xf7))
  }

  lemma HeadersAre(m: Memory, p: nat, offset: nat, length: nat)
    ensures HeaderAt(m, p, offset, length) <==> offset == PayloadOffset(m, p) && length == ItemLength(m, p)
  {
    var b: nat := m(p);
    if 0xb8 <= b <= 0xbf { ShiftedIsPrefix(m, p + 1, b - 0xb7); }
    if 0xf8 <= b { ShiftedIsPrefix(m, p + 1, b - 0xf7); }
    hide ShiftedWord, BigValue, Slice;
  }

  /** An item at `p` before `end`, with a header of `offset` bytes. */
  predicate ItemAt(m: Memory, p: nat, end: nat, offset: nat, length: nat) {
    p < end && HeaderAt(m, p, offset, length) && offset <= length
  }

  /**
   The blob is a list. Its first item has at most 33 bytes and spells the number, its second has at least
   32 bytes behind its header and these start with the hash, as far as they lie below the free memory.
   */
  ghost predicate Evident(m: Memory, free: nat, blob: RlpItem, number: nat, hash: Word32) {
    && blob.len > 0 && m(blob.memPtr) >= 0xc0
    && exists p1: nat, o1: nat, l1: nat, o2: nat, l2: nat :: Spelled(m, free, blob, number, hash, p1, o1, l1, o2, l2)
  }

  ghost predicate Spelled(
    m: Memory, free: nat, blob: RlpItem, number: nat, hash: Word32, p1: nat, o1: nat, l1: nat, o2: nat, l2: nat)
  {
    NumberAt(m, blob, number, p1, o1, l1) && SecondAt(m, free, blob, hash, p1 + l1, o2, l2)
  }

  ghost predicate NumberAt(m: Memory, blob: RlpItem, number: nat, p: nat, offset: nat, length: nat) {
    && p > blob.memPtr && HeaderOffset(m, blob.memPtr, p - blob.memPtr)
    && ItemAt(m, p, blob.memPtr + blob.len, offset, length)
    && length <= 33 && number == BigValue(Slice(m, p + offset, length - offset))
  }

  ghost predicate SecondAt(m: Memory, free: nat, blob: RlpItem, hash: Word32, p: nat, offset: nat, length: nat) {
    && ItemAt(m, p, blob.memPtr + blob.len, offset, length) && length >= offset + 32
    && HashAt(m, free, p + offset, length - offset, hash)
  }

  /** The 32 bytes at `p`; from the free memory on, they are what the new array starts with. */
  ghost predicate HashAt(m: Memory, free: nat, p: nat, length: nat, hash: Word32) {
    if p + 32 <= free then hash == Slice(m, p, 32)
    else forall j :: 0 <= j < 32 ==> hash[j] == Allocated(m, free, length)(p + j)
  }

  predicate HeaderOffset(m: Memory, p: nat, offset: nat) {
    var b: nat := m(p);
    offset == if b < 0x80 then 0 else if b <= 0xb7 || 0xc0 <= b <= 0xf7 then 1
              else if b <= 0xbf then 1 + (b - 0xb7) else 1 + (b - 0xf7)
  }

  /** The first word of a copy is read before anything is written over it. */
  lemma FirstCopied(m: Memory, at: Location, free: nat)
    requires at.len >= 32
    ensures var h := CopiedBytes(m, at, free)[..32];
      && (forall j :: 0 <= j < 32 ==> h[j] == Allocated(m, free, at.len)(at.memPtr + j))
      && (at.memPtr + 32 <= free ==> h == Slice(m, at.memPtr, 32))
  {
    hide BigEndian;
    var h := CopiedBytes(m, at, free)[..32];
    forall j | 0 <= j < 32 ensures h[j] == Allocated(m, free, at.len)(at.memPtr + j) {
      assert CopiedByte(Allocated(m, free, at.len), at.memPtr, free + 32, j)
        == Allocated(m, free, at.len)(at.memPtr + j);
    }
    if at.memPtr + 32 <= free {
      forall j | 0 <= j < 32 ensures h[j] == Slice(m, at.memPtr, 32)[j] { }
    }
  }

  lemma OffsetIs(m: Memory, p: nat, offset: int)
    ensures offset >= 0 && HeaderOffset(m, p, offset) <==> offset == PayloadOffset(m, p)
  {
  }

  /** Where the first two elements of a list are. */
  lemma FirstTwo(m: Memory, blob: RlpItem)
    requires IsList(m, blob)
    ensures var items := Elements(m, blob);
      var p1, end := blob.memPtr + PayloadOffset(m, blob.memPtr), blob.memPtr + blob.len;
      var p2 := p1 + ItemLength(m, p1);
      && p1 > blob.memPtr
      && (|items| >= 1 <==> p1 < end) && (|items| >= 1 ==> items[0] == RlpItem(ItemLength(m, p1), p1))
      && (|items| >= 2 <==> p1 < end && p2 < end) && (|items| >= 2 ==> items[1] == RlpItem(ItemLength(m, p2), p2))
  {
    var p1, end := blob.memPtr + PayloadOffset(m, blob.memPtr), blob.memPtr + blob.len;
    var p2 := p1 + ItemLength(m, p1);
    assert p1 > blob.memPtr;
    var n := Hops(m, p1, end);
    HopsAre(m, p1, end);
    HopsAre(m, p2, end);
    if n >= 1 { WalkStep(m, p1, n, end); }
    if n >= 2 { WalkStep(m, p2, n - 1, end); }
    hide Hops, Items, ItemLength, PayloadOffset;
  }

  lemma HopsAre(m: Memory, cur: nat, end: nat)
    ensures Hops(m, cur, end) == if cur >= end then 0 else 1 + Hops(m, cur + ItemLength(m, cur), end)
  {
  }

  lemma NumberIs(m: Memory, item: RlpItem, number: nat)
    requires item.len == ItemLength(m, item.memPtr)
    ensures ToUint(m, item) == Some(number) <==>
      var o := PayloadOffset(m, item.memPtr);
      item.len <= 33 && o <= item.len && number == BigValue(Slice(m, item.memPtr + o, item.len - o))
  {
    var o := PayloadOffset(m, item.memPtr);
    if item.len <= 33 && o <= item.len && item.len - o <= 32 { ShiftedIsPrefix(m, item.memPtr + o, item.len - o); }
    hide BigValue, Slice, ShiftedWord;
  }

  /** Two items in a row, in the reader's terms. */
  predicate Read(m: Memory, free: nat, blob: RlpItem, number: nat, hash: Word32, first: RlpItem, second: RlpItem) {
    && ReadFirst(m, blob, number, first)
    && second.memPtr == first.memPtr + first.len && ReadSecond(m, free, blob, hash, second)
  }

  predicate ReadFirst(m: Memory, blob: RlpItem, number: nat, first: RlpItem) {
    && first.memPtr == blob.memPtr + PayloadOffset(m, blob.memPtr) && first.memPtr < blob.memPtr + blob.len
    && first.len == ItemLength(m, first.memPtr) && ToUint(m, first) == Some(number)
  }

  predicate ReadSecond(m: Memory, free: nat, blob: RlpItem, hash: Word32, second: RlpItem) {
    var o2 := PayloadOffset(m, second.memPtr);
    && second.memPtr < blob.memPtr + blob.len && second.len == ItemLength(m, second.memPtr) && second.len >= o2 + 32
    && hash == CopiedBytes(m, Location(second.memPtr + o2, second.len - o2), free)[..32]
  }

  lemma EvidenceRead(m: Memory, free: nat, blob: RlpItem, number: nat, hash: Word32)
    ensures Evidence(m, free, blob) == Some((number, hash)) <==>
      IsList(m, blob) && exists first, second :: Read(m, free, blob, number, hash, first, second)
  {
    if IsList(m, blob) {
      var p1 := blob.memPtr + PayloadOffset(m, blob.memPtr);
      var p2 := p1 + ItemLength(m, p1);
      var first, second := RlpItem(ItemLength(m, p1), p1), RlpItem(ItemLength(m, p2), p2);
      FirstTwo(m, blob);
      hide Elements, PayloadOffset, ItemLength, CopiedBytes, ToUint;
      assert Evidence(m, free, blob) == Some((number, hash)) <==> Read(m, free, blob, number, hash, first, second);
    }
  }

  lemma HashIs(m: Memory, free: nat, at: Location, hash: Word32)
    requires at.len >= 32
    ensures hash == CopiedBytes(m, at, free)[..32] <==> HashAt(m, free, at.memPtr, at.len, hash)
  {
    FirstCopied(m, at, free);
    var h := CopiedBytes(m, at, free)[..32];
    hide CopiedBytes, Allocated;
    if HashAt(m, free, at.memPtr, at.len, hash) { assert forall j :: 0 <= j < 32 ==> h[j] == hash[j]; }
  }

  lemma SpelledIsRead(
    m: Memory, free: nat, blob: RlpItem, number: nat, hash: Word32, p1: nat, o1: nat, l1: nat, o2: nat, l2: nat)
    requires IsList(m, blob)
    ensures Spelled(m, free, blob, number, hash, p1, o1, l1, o2, l2) <==>
      && Read(m, free, blob, number, hash, RlpItem(l1, p1), RlpItem(l2, p1 + l1))
      && o1 == PayloadOffset(m, p1) && o2 == PayloadOffset(m, p1 + l1)
  {
    FirstIsRead(m, blob, number, p1, o1, l1);
    SecondIsRead(m, free, blob, hash, p1 + l1, o2, l2);
    hide NumberAt, SecondAt, ReadFirst, ReadSecond, PayloadOffset;
  }

  lemma FirstIsRead(m: Memory, blob: RlpItem, number: nat, p: nat, offset: nat, length: nat)
    requires IsList(m, blob)
    ensures NumberAt(m, blob, number, p, offset, length) <==>
      ReadFirst(m, blob, number, RlpItem(length, p)) && offset == PayloadOffset(m, p)
  {
    HeadersAre(m, p, offset, length);
    OffsetIs(m, blob.memPtr, p - blob.memPtr);
    assert PayloadOffset(m, blob.memPtr) >= 1;
    if length == ItemLength(m, p) { NumberIs(m, RlpItem(length, p), number); }
    hide PayloadOffset, ItemLength, HeaderAt, HeaderOffset, ToUint, BigValue, Slice;
  }

  lemma SecondIsRead(m: Memory, free: nat, blob: RlpItem, hash: Word32, p: nat, offset: nat, length: nat)
    ensures SecondAt(m, free, blob, hash, p, offset, length) <==>
      ReadSecond(m, free, blob, hash, RlpItem(length, p)) && offset == PayloadOffset(m, p)
  {
    HeadersAre(m, p, offset, length);
    if length >= offset + 32 { HashIs(m, free, Location(p + offset, length - offset), hash); }
    hide HashAt, PayloadOffset, ItemLength, HeaderAt, CopiedBytes;
  }

  /** The evidence that the contract finds, byte by byte. */
  lemma EvidenceExactly(m: Memory, free: nat, blob: RlpItem, number: nat, hash: Word32)
    ensures Evidence(m, free, blob) == Some((number, hash)) <==> Evident(m, free, blob, number, hash)
  {
    EvidenceRead(m, free, blob, number, hash);
    if Evident(m, free, blob, number, hash) {
      var p1: nat, o1: nat, l1: nat, o2: nat, l2: nat :| Spelled(m, free, blob, number, hash, p1, o1, l1, o2, l2);
      SpelledIsRead(m, free, blob, number, hash, p1, o1, l1, o2, l2);
    } else if IsList(m, blob) {
      forall first, second | Read(m, free, blob, number, hash, first, second) ensures false {
        ReadIsEvident(m, free, blob, number, hash, first, second);
      }
    }
    hide Evidence, Spelled, Read;
  }

  lemma ReadIsEvident(
    m: Memory, free: nat, blob: RlpItem, number: nat, hash: Word32, first: RlpItem, second: RlpItem)
    requires IsList(m, blob) && Read(m, free, blob, number, hash, first, second)
    ensures Evident(m, free, blob, number, hash)
  {
    var o1, o2 := PayloadOffset(m, first.memPtr), PayloadOffset(m, second.memPtr);
    SpelledIsRead(m, free, blob, number, hash, first.memPtr, o1, first.len, o2, second.len);
    assert second.memPtr == first.memPtr + first.len;
    hide Spelled, Read;
    assert Spelled(m, free, blob, number, hash, first.memPtr, o1, first.len, o2, second.len);
  }

  // ---------------------------------------------------------------- the call

  /** The blob's bytes as a personal message, signed by the enclave, and spelling a recent block with its hash. */
  ghost predicate GoodEvidence(w: World, c: Call) {
    && (exists msg ::
          Personal(msg, Slice(c.mem, c.blob.memPtr, c.blob.len)) && SignsAs(w, w.keccak(msg), c.sig, c.enclave))
    && (exists number :: Evident(c.mem, c.free, c.blob, number, w.blockhash(number)))
  }

  lemma SignatureIs(w: World, c: Call)
    ensures var data := Slice(c.mem, c.blob.memPtr, c.blob.len);
      Signer(w, HashData(w, data), c.sig) == Some(c.enclave) <==>
        exists msg :: Personal(msg, data) && SignsAs(w, w.keccak(msg), c.sig, c.enclave)
  {
    var data := Slice(c.mem, c.blob.memPtr, c.blob.len);
    var own := PREFIX + Decimal(|data|) + data;
    assert HashData(w, data) == w.keccak(own);
    SignerIs(w, w.keccak(own), c.sig, c.enclave);
    hide *;
    forall msg ensures Personal(msg, data) <==> msg == own { PersonalIs(msg, data); }
  }

  lemma BlockIs(w: World, c: Call)
    ensures var e := Evidence(c.mem, c.free, c.blob);
      (e.Some? && w.blockhash(e.value.0) == e.value.1) <==>
        exists number :: Evident(c.mem, c.free, c.blob, number, w.blockhash(number))
  {
    hide Evidence, Evident;
    forall number: nat
      ensures Evidence(c.mem, c.free, c.blob) == Some((number, w.blockhash(number)))
        <==> Evident(c.mem, c.free, c.blob, number, w.blockhash(number))
    {
      EvidenceExactly(c.mem, c.free, c.blob, number, w.blockhash(number));
    }
  }

  /** When a call takes the bounty. */
  lemma CollectsExactly(s: Contract, w: World, c: Call)
    ensures Collect(s, w, c) != s <==>
      && !s.claimed && c.enclave in s.approved && GoodEvidence(w, c)
      && s.balance >= s.bounty && w.takes(c.sender, s.bounty)
    ensures Collect(s, w, c) != s ==> Collect(s, w, c) == s.(claimed := true, balance := s.balance - s.bounty)
  {
    SignatureIs(w, c);
    BlockIs(w, c);
    hide Evidence, Evident, Signer, HashData, Personal, SignsAs;
  }

  // ---------------------------------------------------------------- the steps before

  /** A submission of the enclave with a report and a signature. */
  predicate Submits(op: Op, a: Address) {
    op.SubmitOp? && op.enclave == a && op.report.sgxReport != [] && op.report.iasSig != []
  }

  /** What a step does to one enclave. */
  lemma StepOn(s: Contract, op: Op, a: Address)
    requires s.requested !! s.approved
    ensures var t := Apply(s, op);
      && t.owner == s.owner
      && (a in t.approved <==> a in s.approved || (op == ApproveOp(s.owner, a) && a in s.requested))
      && (a in t.requested || a in t.approved <==> a in s.requested || a in s.approved || Submits(op, a))
  {
    hide Collects;
  }

  ghost predicate SubmittedBefore(ops: seq<Op>, n: nat, a: Address) {
    exists i :: 0 <= i < n <= |ops| && Submits(ops[i], a)
  }

  /** A submission and after it an approval by the owner, among the first `n` steps. */
  ghost predicate ApprovedBefore(ops: seq<Op>, owner: Address, n: nat, a: Address) {
    exists j :: 0 <= j < n <= |ops| && ops[j] == ApproveOp(owner, a) && SubmittedBefore(ops, j, a)
  }

  /** An enclave is approved exactly if the owner approved it after a submission of it, and known since that. */
  lemma {:induction false} ApprovedExactly(states: seq<Contract>, ops: seq<Op>, n: nat, a: Address)
    requires IsRun(states, ops) && n <= |ops|
    ensures states[n].owner == states[0].owner
    ensures a in states[n].requested || a in states[n].approved <==> SubmittedBefore(ops, n, a)
    ensures a in states[n].approved <==> ApprovedBefore(ops, states[0].owner, n, a)
    decreases n
  {
    if n > 0 {
      ApprovedExactly(states, ops, n - 1, a);
      RunIsSound(states, ops, n - 1);
      StepOn(states[n - 1], ops[n - 1], a);
      OneMoreStep(ops, states[0].owner, n, a);
      hide Apply, SubmittedBefore, ApprovedBefore, Submits;
    }
  }

  lemma OneMoreStep(ops: seq<Op>, owner: Address, n: nat, a: Address)
    requires 0 < n <= |ops|
    ensures SubmittedBefore(ops, n, a) <==> SubmittedBefore(ops, n - 1, a) || Submits(ops[n - 1], a)
    ensures ApprovedBefore(ops, owner, n, a) <==>
      ApprovedBefore(ops, owner, n - 1, a) || (ops[n - 1] == ApproveOp(owner, a) && SubmittedBefore(ops, n - 1, a))
  {
    hide Submits;
  }

  /** The report of the first submission of the enclave among the first `n` steps. */
  ghost predicate FirstReport(ops: seq<Op>, n: nat, a: Address, r: Report) {
    exists i :: 0 <= i < n <= |ops| && Submits(ops[i], a) && ops[i].report == r && !SubmittedBefore(ops, i, a)
  }

  /** What is kept of an enclave is what was submitted first. */
  lemma {:induction false} ReportExactly(states: seq<Contract>, ops: seq<Op>, n: nat, a: Address)
    requires IsRun(states, ops) && n <= |ops|
    ensures a in states[n].data <==> SubmittedBefore(ops, n, a)
    ensures a in states[n].data ==> FirstReport(ops, n, a, states[n].data[a])
    decreases n
  {
    if n > 0 {
      ReportExactly(states, ops, n - 1, a);
      RunIsSound(states, ops, n - 1);
      ReportStep(states[n - 1], ops[n - 1], a);
      OneMoreStep(ops, states[0].owner, n, a);
      hide Apply, Submits, Sound;
      if a in states[n - 1].data { FirstStays(ops, n, a, states[n - 1].data[a]); }
    }
  }

  lemma FirstStays(ops: seq<Op>, n: nat, a: Address, r: Report)
    requires 0 < n <= |ops| && FirstReport(ops, n - 1, a, r)
    ensures FirstReport(ops, n, a, r)
  {
    hide Submits, SubmittedBefore;
  }

  lemma ReportStep(s: Contract, op: Op, a: Address)
    requires Sound(s)
    ensures var t := Apply(s, op);
      && (a in t.data <==> a in s.data || Submits(op, a))
      && (a in t.data ==> t.data[a] == if a in s.data then s.data[a] else op.report)
  {
    hide Collects;
  }

  /**
   Over every run, a step takes the bounty exactly if nobody has taken it, the owner approved the enclave
   after its submission, its signature is on the message, the message names a recent block by its hash, and
   the sender takes the payment.
   */
  lemma PaidExactly(states: seq<Contract>, ops: seq<Op>, i: nat)
    requires IsRun(states, ops) && i < |ops|
    ensures states[i + 1].claimed && !states[i].claimed <==>
      && !states[i].claimed && ops[i].CollectOp?
      && ApprovedBefore(ops, states[0].owner, i, ops[i].call.enclave)
      && GoodEvidence(ops[i].w, ops[i].call)
      && ops[i].w.takes(ops[i].call.sender, states[0].bounty)
    ensures states[i + 1].balance < states[i].balance ==> states[i + 1].claimed && !states[i].claimed
  {
    RunIsSound(states, ops, i);
    if ops[i].CollectOp? {
      CollectsExactly(states[i], ops[i].w, ops[i].call);
      ApprovedExactly(states, ops, i, ops[i].call.enclave);
    }
    hide Collects, GoodEvidence, ApprovedBefore;
  }
}
