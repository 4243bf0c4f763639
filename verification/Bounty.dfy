/** The bounty contract: enclaves are submitted and approved, and the first evidence takes the bounty. */
module Bounty {
  import opened Wrappers
  import opened Primes
  import opened ByteStrings
  import opened Rlp
  import opened RlpReader

  type Address = nat
  type Word32 = b: Bytes | |b| == 32 witness seq(32, _ => 0)

  /**
   What the contract asks of the machine: the hash, the signer of a hash, recent block hashes, and whether
   an address takes a payment, which a contract can refuse.
   */
  datatype World = World(
    keccak: Bytes -> Word32,
    ecrecover: (Word32, nat, nat, nat) -> Address,
    blockhash: nat -> Word32,
    takes: (Address, nat) -> bool)

  datatype Report = Report(sgxReport: Bytes, iasSig: Bytes)

  datatype Contract = Contract(
    owner: Address, bounty: nat, claimed: bool,
    requested: set<Address>, approved: set<Address>, data: map<Address, Report>, balance: nat)

  // ---------------------------------------------------------------- helpers

  /** The decimal digits of a number. */
  function Decimal(v: nat): (r: Bytes)
    ensures |r| >= 1
  {
    if v < 10 then [48 + v] else Decimal(v / 10) + [48 + v % 10]
  }

  function DecimalValue(s: Bytes): nat {
    if s == [] then 0 else 10 * DecimalValue(s[..|s| - 1]) + (if s[|s| - 1] >= 48 then s[|s| - 1] - 48 else 0)
  }

  /** The digits name the number, and there is no leading zero but for zero itself. */
  lemma {:induction false} DecimalExact(v: nat)
    ensures DecimalValue(Decimal(v)) == v
    ensures forall d :: d in Decimal(v) ==> 48 <= d <= 57
    ensures Decimal(v)[0] == 48 <==> v == 0
    decreases v
  {
    if v < 10 {
      assert DecimalValue([48 + v]) == 10 * DecimalValue([]) + v by { assert [48 + v][..0] == []; }
    } else {
      DecimalExact(v / 10);
      var r := Decimal(v);
      assert r[..|r| - 1] == Decimal(v / 10);
    }
  }

  /** The digits that are left when all of `j` has been written. */
  function Digits(j: nat): Bytes { if j == 0 then [] else Decimal(j) }

  lemma DigitsStep(j: nat)
    requires j > 0
    ensures Digits(j) == Digits(j / 10) + [48 + j % 10]
  {
  }

  /** Count the digits, then fill them in from the back. */
  method Uint2Str(i: nat) returns (str: Bytes)
    ensures str == Decimal(i)
  {
    if i == 0 { return [48]; }
    DigitsOf(i);
    var length := CountDigits(i);
    var bstr := new Byte[length];
    FillDigits(bstr, i);
    return bstr[..];
  }

  method CountDigits(i: nat) returns (length: nat)
    ensures length == |Digits(i)|
  {
    DigitsOf(i);
    hide Digits;
    var j := i;
    length := 0;
    while j != 0
      invariant length + |Digits(j)| == |Digits(i)|
    {
      DigitsStep(j);
      length := length + 1;
      j := j / 10;
    }
  }

  method FillDigits(bstr: array<Byte>, i: nat)
    requires bstr.Length == |Digits(i)|
    modifies bstr
    ensures bstr[..] == Digits(i)
  {
    DigitsOf(i);
    hide Digits;
    var k, j := bstr.Length, i;
    while j != 0
      invariant 0 <= k <= bstr.Length && k == |Digits(j)|
      invariant Digits(j) + bstr[k..] == Digits(i)
    {
      DigitsStep(j);
      k := k - 1;
      bstr[k] := 48 + j % 10;
      assert bstr[k..] == [48 + j % 10] + bstr[k + 1..];
      j := j / 10;
    }
    assert bstr[0..] == bstr[..];
  }

  lemma DigitsOf(i: nat)
    ensures Digits(0) == [] && (i > 0 ==> Digits(i) == Decimal(i))
  {
  }

  /** The first 32 bytes as a word; fewer are an index out of bounds. */
  method ToBytes32(b: Bytes) returns (r: Option<Word32>)
    ensures r == if |b| >= 32 then Some(b[..32]) else None
  {
    var bytes: Bytes := seq(32, _ => 0);
    for i := 0 to 32
      invariant i <= |b| && |bytes| == 32 && bytes[..i] == b[..i]
    {
      if i >= |b| { return None; }
      bytes := bytes[i := b[i]];
    }
    assert bytes[..32] == bytes;
    return Some(bytes);
  }

  const PREFIX: Bytes := [
    0x19, 0x45, 0x74, 0x68, 0x65, 0x72, 0x65, 0x75, 0x6d, 0x20, 0x53, 0x69, 0x67,
    0x6e, 0x65, 0x64, 0x20, 0x4d, 0x65, 0x73, 0x73, 0x61, 0x67, 0x65, 0x3a, 0x0a]

  /** What a signer of personal messages hashes: a prefix, the length in decimal, and the data. */
  function HashData(w: World, data: Bytes): Word32 { w.keccak(PREFIX + Decimal(|data|) + data) }

  method ComputeHash(w: World, data: Bytes) returns (r: Word32)
    ensures r == HashData(w, data)
  {
    var length := Uint2Str(|data|);
    return w.keccak(PREFIX + length + data);
  }

  const HALF_ORDER: nat := 0x7FFFFFFFFFFFFFFFFFFFFFFFFFFFFFFF5D576E7357A4501DDFE92F46681B20A0

  /** The signer of a hash; wrong lengths, high values and the zero address revert. */
  function Signer(w: World, hash: Word32, sig: Bytes): Option<Address> {
    if |sig| != 65 || BigValue(sig[32..64]) > HALF_ORDER then None
    else
      var signer := w.ecrecover(hash, sig[64], BigValue(sig[..32]), BigValue(sig[32..64]));
      if signer == 0 then None else Some(signer)
  }

  // ---------------------------------------------------------------- transitions

  /** A call with what is in its memory: the proof blob sits at `blob`, free memory starts at `free`. */
  datatype Call = Call(sender: Address, enclave: Address, mem: Memory, free: nat, blob: RlpItem, sig: Bytes)

  function Submit(s: Contract, enclave: Address, r: Report): Contract {
    if enclave in s.requested || enclave in s.approved || r.sgxReport == [] || r.iasSig == [] then s
    else s.(data := s.data[enclave := r], requested := s.requested + {enclave})
  }

  function Approve(s: Contract, sender: Address, enclave: Address): Contract {
    if sender != s.owner || enclave !in s.requested || enclave in s.approved then s
    else s.(requested := s.requested - {enclave}, approved := s.approved + {enclave})
  }

  /** The block number and the block hash in a blob, if it decodes to at least these two. */
  function Evidence(m: Memory, free: nat, blob: RlpItem): Option<(nat, Bytes)> {
    if !IsList(m, blob) then None
    else
      var items := Elements(m, blob);
      if |items| < 1 || ToUint(m, items[0]).None? || |items| < 2 || items[1].len == 0 then None
      else
        match PayloadLocation(m, items[1])
        case None => None
        case Some(at) =>
          if at.len < 32 then None
          else Some((ToUint(m, items[0]).value, CopiedBytes(m, at, free)[..32]))
  }

  /** Whether the call pays out. */
  predicate Collects(s: Contract, w: World, c: Call) {
    var e := Evidence(c.mem, c.free, c.blob);
    && !s.claimed && c.enclave in s.approved
    && Signer(w, HashData(w, Slice(c.mem, c.blob.memPtr, c.blob.len)), c.sig) == Some(c.enclave)
    && e.Some? && w.blockhash(e.value.0) == e.value.1
    && s.balance >= s.bounty && w.takes(c.sender, s.bounty)
  }

  function Collect(s: Contract, w: World, c: Call): Contract {
    if Collects(s, w, c) then s.(claimed := true, balance := s.balance - s.bounty) else s
  }

  /** The contract's storage as its methods update it. A method that reverts changes nothing. */
  class Honeypot {
    const owner: Address
    const bounty: nat
    var claimed: bool
    var enclaveRequested: set<Address>
    var enclaveApproved: set<Address>
    var enclaveData: map<Address, Report>
    var balance: nat

    function State(): Contract
      reads this
    {
      Contract(owner, bounty, claimed, enclaveRequested, enclaveApproved, enclaveData, balance)
    }

    constructor (sender: Address, value: nat)
      ensures State() == Contract(sender, value, false, {}, {}, map[], value)
    {
      owner, bounty, claimed, balance := sender, value, false, value;
      enclaveRequested, enclaveApproved, enclaveData := {}, {}, map[];
    }

    method SubmitEnclave(enclave: Address, sgxReport: Bytes, iasSig: Bytes) returns (ok: bool)
      modifies this
      ensures State() == Submit(old(State()), enclave, Report(sgxReport, iasSig))
      ensures ok <==> State() != old(State())
    {
      if enclave in enclaveRequested { return false; }
      if enclave in enclaveApproved { return false; }
      if |sgxReport| == 0 { return false; }
      if |iasSig| == 0 { return false; }
      enclaveData := enclaveData[enclave := Report(sgxReport, iasSig)];
      enclaveRequested := enclaveRequested + {enclave};
      assert enclave !in old(enclaveRequested);
      return true;
    }

    method ApproveEnclave(sender: Address, enclave: Address) returns (ok: bool)
      modifies this
      ensures State() == Approve(old(State()), sender, enclave)
      ensures ok <==> State() != old(State())
    {
      if sender != owner { return false; }
      if enclave !in enclaveRequested { return false; }
      if enclave in enclaveApproved { return false; }
      enclaveRequested := enclaveRequested - {enclave};
      enclaveApproved := enclaveApproved + {enclave};
      assert enclave in enclaveApproved && enclave !in old(enclaveApproved);
      return true;
    }

    /** The amount that goes to the sender, if the call does not revert. */
    method CollectBounty(w: World, c: Call) returns (paid: Option<nat>)
      modifies this
      ensures State() == Collect(old(State()), w, c)
      ensures paid == if Collects(old(State()), w, c) then Some(bounty) else None
    {
      if claimed { return None; }
      if c.enclave !in enclaveApproved { return None; }
      var hash := ComputeHash(w, Slice(c.mem, c.blob.memPtr, c.blob.len));
      var signer := Signer(w, hash, c.sig);
      if signer != Some(c.enclave) { return None; }
      var found := ReadEvidence(c.mem, c.free, c.blob);
      if found.None? { return None; }
      var (blockNum, blockHash) := found.value;
      if w.blockhash(blockNum) != blockHash { return None; }
      if balance < bounty || !w.takes(c.sender, bounty) { return None; }
      claimed := true;
      balance := balance - bounty;
      return Some(bounty);
    }
  }

  /** Decode the two items by walking the memory. */
  method ReadEvidence(m: Memory, free: nat, blob: RlpItem) returns (r: Option<(nat, Bytes)>)
    ensures r == Evidence(m, free, blob)
  {
    hide Elements, ToUint, CopiedBytes, PayloadLocation, Pow;
    var items := ToList(m, blob);
    if items.None? { return None; }
    if |items.value| < 1 { return None; }
    var blockNum := ToUint(m, items.value[0]);
    if blockNum.None? { return None; }
    if |items.value| < 2 { return None; }
    ElementSmall(m, blob, 1);
    var machine := new Machine(m, free);
    var bytes := machine.ToBytes(items.value[1]);
    if bytes.None? { return None; }
    var word := FirstBytes(m, free, machine, items.value[1], bytes.value);
    if word.None? { return None; }
    return Some((blockNum.value, word.value));
  }

  /** The array that was just copied, as a word. */
  method FirstBytes(m: Memory, free: nat, machine: Machine, item: RlpItem, p: nat) returns (word: Option<Word32>)
    requires PayloadLocation(m, item).Some?
    requires FreshBytes(m, machine.mem, PayloadLocation(m, item).value, free) && p == free
    ensures var at := PayloadLocation(m, item).value;
      word == if at.len >= 32 then Some(CopiedBytes(m, at, free)[..32]) else None
  {
    hide PayloadLocation, CopiedBytes, Load, Slice;
    word := ToBytes32(Slice(machine.mem, p + 32, Load(machine.mem, p)));
  }

  lemma ItemLengthSmall(m: Memory, p: nat)
    ensures ItemLength(m, p) < LIMIT + 10
  {
    var byte0: nat := m(p);
    LimitIs();
    var k: nat := if byte0 < 0xb8 then 0 else if byte0 < 0xc0 then byte0 - 0xb7
      else if byte0 < 0xf8 then 0 else byte0 - 0xf7;
    ShiftedIsPrefix(m, p + 1, k);
    BigCanonical(Slice(m, p + 1, k));
    PowMonotone(k, 8);
    hide Pow, BigValue, ShiftedWord, Slice;
  }

  lemma {:induction false} PowMonotone(i: nat, j: nat)
    requires i <= j
    ensures Pow(256, i) <= Pow(256, j)
    decreases j - i
  {
    if i < j {
      PowMonotone(i, j - 1);
      PowPositive(256, j - 1);
    }
  }

  lemma {:induction false} ItemsSmall(m: Memory, cur: nat, n: nat, i: nat)
    requires i < n
    ensures Items(m, cur, n)[i].len < LIMIT + 10
    decreases n
  {
    WalkStep(m, cur, n, cur);
    ItemLengthSmall(m, cur);
    if i > 0 { ItemsSmall(m, cur + ItemLength(m, cur), n - 1, i - 1); }
    hide ItemLength;
  }

  lemma ElementSmall(m: Memory, blob: RlpItem, i: nat)
    requires i < |Elements(m, blob)|
    ensures Elements(m, blob)[i].len < Pow(256, 32)
  {
    var start := blob.memPtr + PayloadOffset(m, blob.memPtr);
    hide ItemLength, PayloadOffset, Pow;
    ItemsSmall(m, start, |Elements(m, blob)|, i);
    LimitIs();
    PowMonotone(9, 32);
    NinthPower();
  }

  lemma NinthPower()
    ensures Pow(256, 9) >= LIMIT + 10
  {
    LimitIs();
    assert Pow(256, 9) == 256 * Pow(256, 8);
  }

  // ---------------------------------------------------------------- runs

  datatype Op =
    | SubmitOp(enclave: Address, report: Report)
    | ApproveOp(sender: Address, enclave: Address)
    | CollectOp(w: World, call: Call)
    | FundOp(amount: nat)   // ether that is forced upon the contract

  function Apply(s: Contract, op: Op): Contract {
    match op
    case SubmitOp(enclave, report) => Submit(s, enclave, report)
    case ApproveOp(sender, enclave) => Approve(s, sender, enclave)
    case CollectOp(w, call) => Collect(s, w, call)
    case FundOp(amount) => s.(balance := s.balance + amount)
  }

  /** What an operation pays out. */
  function Payout(s: Contract, op: Op): nat { if op.CollectOp? && Collects(s, op.w, op.call) then s.bounty else 0 }

  function Pays(s: Contract, op: Op): nat { if op.CollectOp? && Collects(s, op.w, op.call) then 1 else 0 }

  function Income(op: Op): nat { if op.FundOp? then op.amount else 0 }

  ghost predicate IsRun(states: seq<Contract>, ops: seq<Op>) {
    && |states| == |ops| + 1
    && (exists owner: Address, value: nat :: states[0] == Contract(owner, value, false, {}, {}, map[], value))
    && (forall i :: 0 <= i < |ops| ==> states[i + 1] == Apply(states[i], ops[i]))
  }

  function Total(states: seq<Contract>, ops: seq<Op>, f: (Contract, Op) -> nat, n: nat): nat
    requires |states| == |ops| + 1 && n <= |ops|
  {
    if n == 0 then 0 else Total(states, ops, f, n - 1) + f(states[n - 1], ops[n - 1])
  }

  ghost predicate Sound(s: Contract) {
    && s.requested !! s.approved && s.data.Keys == s.requested + s.approved
    && (forall a :: a in s.data ==> s.data[a].sgxReport != [] && s.data[a].iasSig != [])
    && (!s.claimed ==> s.balance >= s.bounty)
  }

  lemma ApplyKeepsSound(s: Contract, op: Op)
    requires Sound(s)
    ensures Sound(Apply(s, op)) && Apply(s, op).bounty == s.bounty && Apply(s, op).owner == s.owner
    ensures s.approved <= Apply(s, op).approved
    ensures forall a :: a in s.data ==> a in Apply(s, op).data && Apply(s, op).data[a] == s.data[a]
    ensures Apply(s, op).balance + Payout(s, op) == s.balance + Income(op)
    ensures s.claimed ==> Apply(s, op).claimed && Pays(s, op) == 0
    ensures Apply(s, op).claimed == (s.claimed || Pays(s, op) == 1)
  {
    if op.CollectOp? { CollectsUnclaimed(s, op.w, op.call); }
    hide Collects;
  }

  lemma CollectsUnclaimed(s: Contract, w: World, c: Call)
    ensures Collects(s, w, c) ==> !s.claimed && s.balance >= s.bounty
  {
    hide Evidence, Signer;
  }

  /**
   In every run: no enclave is both requested and approved, the bounty is paid once if it was claimed
   and not at all before, it is covered until then, and no ether appears or disappears.
   */
  lemma {:induction false} RunIsSound(states: seq<Contract>, ops: seq<Op>, n: nat)
    requires IsRun(states, ops) && n <= |ops|
    ensures Sound(states[n]) && states[n].bounty == states[0].bounty
    ensures Total(states, ops, (s, op) => Pays(s, op), n) == if states[n].claimed then 1 else 0
    ensures Total(states, ops, (s, op) => Payout(s, op), n) == if states[n].claimed then states[n].bounty else 0
    ensures states[n].balance + Total(states, ops, (s, op) => Payout(s, op), n)
      == states[0].balance + Total(states, ops, (s, op) => Income(op), n)
    decreases n
  {
    if n > 0 {
      RunIsSound(states, ops, n - 1);
      ApplyKeepsSound(states[n - 1], ops[n - 1]);
      hide Apply, Sound, Collects;
    }
  }

  /** Approvals and submitted reports never change. */
  lemma {:induction false} RunsOnlyGrow(states: seq<Contract>, ops: seq<Op>, i: nat, j: nat)
    requires IsRun(states, ops) && i <= j <= |ops|
    ensures states[i].approved <= states[j].approved
    ensures forall a :: a in states[i].data ==> a in states[j].data && states[j].data[a] == states[i].data[a]
    decreases j - i
  {
    if i < j {
      RunsOnlyGrow(states, ops, i, j - 1);
      RunIsSound(states, ops, j - 1);
      ApplyKeepsSound(states[j - 1], ops[j - 1]);
      hide Apply, Sound, Collects;
    }
  }

  // ---------------------------------------------------------------- the evidence the verifier writes

  /** The blob of a block number and a block hash. */
  function ProofBlob(blockNum: nat, blockHash: Word32): Item { List([Str(Shortest(blockNum)), Str(blockHash)]) }

  lemma BlobDecodes(m: Memory, free: nat, blob: RlpItem, blockNum: nat, blockHash: Word32)
    requires blockNum < Pow(256, 32) && Holds(m, blob, ProofBlob(blockNum, blockHash)) && blob.memPtr + blob.len <= free
    ensures Evidence(m, free, blob) == Some((blockNum, blockHash))
  {
    hide *;
    var xs := [Str(Shortest(blockNum)), Str(blockHash)];
    assert ProofBlob(blockNum, blockHash) == List(xs) by { BlobIs(blockNum, blockHash); }
    ElementsExact(m, blob, xs);
    var items := Elements(m, blob);
    BothHeld(m, items, xs);
    InsideBlob(items, blob.memPtr + PayloadOffset(m, blob.memPtr), blob.memPtr + blob.len);
    UintRoundTrip(m, items[0], blockNum);
    Located(m, items[1], Str(blockHash));
    PayloadIsHash(blockHash);
    EvidenceIs(m, free, blob, blockNum, blockHash);
  }

  lemma BlobIs(blockNum: nat, blockHash: Word32)
    ensures ProofBlob(blockNum, blockHash) == List([Str(Shortest(blockNum)), Str(blockHash)])
  {
  }

  lemma BothHeld(m: Memory, items: seq<RlpItem>, xs: seq<Item>)
    requires HoldsAll(m, items, xs) && |xs| == 2
    ensures |items| == 2 && Holds(m, items[0], xs[0]) && Holds(m, items[1], xs[1])
  {
    hide Holds;
  }

  lemma EvidenceIs(m: Memory, free: nat, blob: RlpItem, blockNum: nat, blockHash: Word32)
    requires IsList(m, blob) && |Elements(m, blob)| == 2 && ToUint(m, Elements(m, blob)[0]) == Some(blockNum)
    requires var item := Elements(m, blob)[1];
      && item.len > 0 && PayloadLocation(m, item).Some? && item.memPtr + item.len <= free
      && var at := PayloadLocation(m, item).value;
         at.memPtr + at.len == item.memPtr + item.len && Slice(m, at.memPtr, at.len) == blockHash
    ensures Evidence(m, free, blob) == Some((blockNum, blockHash))
  {
    hide Elements, ToUint, PayloadLocation, IsList, CopiedBytes, Slice;
    var at := PayloadLocation(m, Elements(m, blob)[1]).value;
    assert at.len == 32;
    CopiedBelow(m, at, free);
    assert blockHash[..32] == blockHash;
  }

  lemma PayloadIsHash(blockHash: Word32)
    ensures Small(Str(blockHash)) && PayloadBytes(Str(blockHash)) == blockHash && |blockHash| == 32
  {
  }

  lemma InsideBlob(items: seq<RlpItem>, cur: nat, end: nat)
    requires Contiguous(items, cur, end) && |items| == 2
    ensures items[1].memPtr + items[1].len == end
  {
    assert Contiguous(items[1..], cur + items[0].len, end);
    assert Contiguous(items[1..][1..], cur + items[0].len + items[1].len, end);
  }

  /**
   The blob of a block number with its hash, signed by an approved enclave, takes the bounty in every
   run where it is still there and the block hash is still available, exactly if the sender takes it.
   */
  lemma EvidenceIsPaid(states: seq<Contract>, ops: seq<Op>, n: nat, w: World, c: Call, blockNum: nat)
    requires IsRun(states, ops) && n <= |ops| && !states[n].claimed && c.enclave in states[n].approved
    requires blockNum < Pow(256, 32) && Holds(c.mem, c.blob, ProofBlob(blockNum, w.blockhash(blockNum)))
    requires c.blob.memPtr + c.blob.len <= c.free
    requires |c.sig| == 65 && BigValue(c.sig[32..64]) <= HALF_ORDER && c.enclave != 0
    requires var data := Encode(ProofBlob(blockNum, w.blockhash(blockNum)));
      var hash := w.keccak(PREFIX + Decimal(|data|) + data);
      w.ecrecover(hash, c.sig[64], BigValue(c.sig[..32]), BigValue(c.sig[32..64])) == c.enclave
    ensures Collects(states[n], w, c) <==> w.takes(c.sender, states[n].bounty)
    ensures Payout(states[n], CollectOp(w, c)) == if w.takes(c.sender, states[n].bounty) then states[n].bounty else 0
  {
    RunIsSound(states, ops, n);
    hide Evidence, BigValue, Pow, Encode, Decimal;
    BlobDecodes(c.mem, c.free, c.blob, blockNum, w.blockhash(blockNum));
  }
}
