/** Bundles bound to a block and a time window, which are pruned whenever somebody asks for them. */
module Bundles {
  import opened Wrappers
  import opened Transactions

  type Uuid = nat
  const EMPTY_UUID: Uuid := 0

  datatype Bundle = Bundle(
    hash: Hash, block: nat, uuid: Uuid, signer: Address, minTime: nat, maxTime: nat, txs: seq<Tx>)

  /** Replaceable bundles are told apart by their identifier and signer. */
  type Slot = (Uuid, Address)

  datatype Moment = Moment(block: nat, time: nat)

  predicate Outdated(b: Bundle, at: Moment) { (b.maxTime != 0 && at.time > b.maxTime) || at.block > b.block }

  predicate Early(b: Bundle, at: Moment) { (b.minTime != 0 && at.time < b.minTime) || at.block < b.block }

  predicate InTime(b: Bundle, at: Moment) { !Outdated(b, at) && !Early(b, at) }

  predicate Regular(b: Bundle, at: Moment) { InTime(b, at) && b.uuid == EMPTY_UUID }

  predicate Offered(b: Bundle, at: Moment) { InTime(b, at) && b.uuid != EMPTY_UUID }

  predicate InSlot(b: Bundle, at: Moment, slot: Slot) { Offered(b, at) && slot == (b.uuid, b.signer) }

  function Filter<T(!new)>(s: seq<T>, f: T -> bool): (r: seq<T>)
    ensures forall x :: x in r <==> x in s && f(x)
  {
    if s == [] then []
    else
      var r := Filter(s[..|s| - 1], f);
      var x := s[|s| - 1];
      assert s == s[..|s| - 1] + [x];
      if f(x) then r + [x] else r
  }

  lemma FilterSnoc<T(!new)>(s: seq<T>, x: T, f: T -> bool)
    ensures Filter(s + [x], f) == Filter(s, f) + if f(x) then [x] else []
  {
    assert (s + [x])[..|s|] == s;
  }

  /** Dropping what `f` rejects anyway does not change what `f` selects. */
  lemma {:induction false} FilterTwice<T(!new)>(s: seq<T>, keep: T -> bool, f: T -> bool)
    requires forall x :: x in s && f(x) ==> keep(x)
    ensures Filter(Filter(s, keep), f) == Filter(s, f)
    decreases |s|
  {
    if s != [] {
      var most, x := s[..|s| - 1], s[|s| - 1];
      assert s == most + [x];
      FilterTwice(most, keep, f);
      FilterSnoc(Filter(most, keep), x, f);
    }
  }

  /** The slots that replaceable bundles in time occupy. */
  function Slots(bundles: seq<Bundle>, at: Moment): set<Slot> {
    set b | b in bundles && Offered(b, at) :: (b.uuid, b.signer)
  }

  /** What is returned at once, and what is offered for the choice of the latest per slot. */
  datatype Answer = Answer(regular: seq<Bundle>, offered: map<Slot, seq<Bundle>>)

  function Group(bundles: seq<Bundle>, at: Moment, slot: Slot): seq<Bundle> {
    Filter(bundles, b => InSlot(b, at, slot))
  }

  function Groups(bundles: seq<Bundle>, at: Moment): map<Slot, seq<Bundle>> {
    map slot | slot in Slots(bundles, at) :: Group(bundles, at, slot)
  }

  function AnswerFor(bundles: seq<Bundle>, at: Moment): Answer {
    Answer(Filter(bundles, b => Regular(b, at)), Groups(bundles, at))
  }

  function Kept(bundles: seq<Bundle>, at: Moment): seq<Bundle> { Filter(bundles, b => !Outdated(b, at)) }

  lemma AnswerSnoc(bundles: seq<Bundle>, b: Bundle, at: Moment)
    ensures var a := AnswerFor(bundles, at);
      var s := (b.uuid, b.signer);
      AnswerFor(bundles + [b], at) ==
        if !InTime(b, at) then a
        else if b.uuid == EMPTY_UUID then a.(regular := a.regular + [b])
        else a.(offered := a.offered[s := (if s in a.offered then a.offered[s] else []) + [b]])
  {
    FilterSnoc(bundles, b, x => Regular(x, at));
    GroupsSnoc(bundles, b, at);
    hide Filter, Groups;
  }

  lemma GroupSnoc(bundles: seq<Bundle>, b: Bundle, at: Moment, slot: Slot)
    ensures Group(bundles + [b], at, slot)
      == Group(bundles, at, slot) + if Offered(b, at) && slot == (b.uuid, b.signer) then [b] else []
  {
    FilterSnoc(bundles, b, x => InSlot(x, at, slot));
  }

  lemma GroupsSnoc(bundles: seq<Bundle>, b: Bundle, at: Moment)
    ensures var g := Groups(bundles, at);
      var s := (b.uuid, b.signer);
      Groups(bundles + [b], at) == if Offered(b, at) then g[s := (if s in g then g[s] else []) + [b]] else g
  {
    hide *;
    if Offered(b, at) { GroupsWith(bundles, b, at); } else { GroupsWithout(bundles, b, at); }
  }

  lemma GroupsWith(bundles: seq<Bundle>, b: Bundle, at: Moment)
    requires Offered(b, at)
    ensures var g := Groups(bundles, at);
      var s := (b.uuid, b.signer);
      Groups(bundles + [b], at) == g[s := (if s in g then g[s] else []) + [b]]
  {
    hide *;
    var s := (b.uuid, b.signer);
    GroupsAre(bundles, at);
    GroupsAre(bundles + [b], at);
    SlotsSnoc(bundles, b, at);
    var g, more := Groups(bundles, at), Groups(bundles + [b], at);
    forall slot | slot in g && slot != s ensures more[slot] == g[slot] { GroupSnoc(bundles, b, at, slot); }
    GroupSnoc(bundles, b, at, s);
    NoGroup(bundles, at, s);
    OneMore(g, more, s, Group(bundles, at, s) + [b]);
  }

  lemma GroupsWithout(bundles: seq<Bundle>, b: Bundle, at: Moment)
    requires !Offered(b, at)
    ensures Groups(bundles + [b], at) == Groups(bundles, at)
  {
    hide *;
    GroupsAre(bundles, at);
    GroupsAre(bundles + [b], at);
    SlotsSnoc(bundles, b, at);
    forall slot | slot in Slots(bundles, at) ensures Group(bundles + [b], at, slot) == Group(bundles, at, slot) {
      GroupSnoc(bundles, b, at, slot);
    }
  }

  lemma OneMore(g: map<Slot, seq<Bundle>>, more: map<Slot, seq<Bundle>>, s: Slot, l: seq<Bundle>)
    requires more.Keys == g.Keys + {s} && more[s] == l
    requires forall slot :: slot in g && slot != s ==> more[slot] == g[slot]
    ensures more == g[s := l]
  {
  }

  lemma GroupsAre(bundles: seq<Bundle>, at: Moment)
    ensures Groups(bundles, at).Keys == Slots(bundles, at)
    ensures forall slot :: slot in Slots(bundles, at) ==> Groups(bundles, at)[slot] == Group(bundles, at, slot)
  {
    hide Group, Slots;
  }

  lemma SlotsSnoc(bundles: seq<Bundle>, b: Bundle, at: Moment)
    ensures Slots(bundles + [b], at) == Slots(bundles, at) + if Offered(b, at) then {(b.uuid, b.signer)} else {}
  {
  }

  lemma NoGroup(bundles: seq<Bundle>, at: Moment, slot: Slot)
    ensures slot !in Slots(bundles, at) ==> Group(bundles, at, slot) == []
  {
    var g := Group(bundles, at, slot);
    if g != [] { assert g[0] in g; }
  }

  class BundlePool {
    var mevBundles: seq<Bundle>

    constructor ()
      ensures mevBundles == []
    {
      mevBundles := [];
    }

    method AddMevBundles(bundles: seq<Bundle>)
      modifies this
      ensures mevBundles == old(mevBundles) + bundles
    {
      mevBundles := mevBundles + bundles;
    }

    /** Answer and prune in one pass. */
    method MevBundles(blockNumber: nat, blockTimestamp: nat)
      returns (ret: seq<Bundle>, uuidBundles: map<Slot, seq<Bundle>>)
      modifies this
      ensures Answer(ret, uuidBundles) == AnswerFor(old(mevBundles), Moment(blockNumber, blockTimestamp))
      ensures mevBundles == Kept(old(mevBundles), Moment(blockNumber, blockTimestamp))
    {
      ghost var at := Moment(blockNumber, blockTimestamp);
      ret, uuidBundles := [], map[];
      var bundles := [];
      for i := 0 to |mevBundles|
        invariant mevBundles == old(mevBundles)
        invariant Answer(ret, uuidBundles) == AnswerFor(mevBundles[..i], at)
        invariant bundles == Kept(mevBundles[..i], at)
      {
        var bundle := mevBundles[i];
        assert mevBundles[..i + 1] == mevBundles[..i] + [bundle];
        AnswerSnoc(mevBundles[..i], bundle, at);
        FilterSnoc(mevBundles[..i], bundle, b => !Outdated(b, at));
        if (bundle.maxTime != 0 && blockTimestamp > bundle.maxTime) || blockNumber > bundle.block { continue; }
        bundles := bundles + [bundle];
        if (bundle.minTime != 0 && blockTimestamp < bundle.minTime) || blockNumber < bundle.block { continue; }
        if bundle.uuid != EMPTY_UUID {
          var slot := (bundle.uuid, bundle.signer);
          uuidBundles := uuidBundles[slot := (if slot in uuidBundles then uuidBundles[slot] else []) + [bundle]];
          continue;
        }
        ret := ret + [bundle];
      }
      assert mevBundles[..|mevBundles|] == mevBundles;
      mevBundles := bundles;
    }
  }

  // ---------------------------------------------------------------- runs

  datatype Op = Submit(bundles: seq<Bundle>) | Query(at: Moment)

  function Apply(bundles: seq<Bundle>, op: Op): seq<Bundle> {
    match op
    case Submit(more) => bundles + more
    case Query(at) => Kept(bundles, at)
  }

  /** What the pool holds after the operations, starting empty. */
  function Held(ops: seq<Op>): seq<Bundle> {
    if ops == [] then [] else Apply(Held(ops[..|ops| - 1]), ops[|ops| - 1])
  }

  /** Everything that was ever submitted, in order. */
  function Ever(ops: seq<Op>): seq<Bundle> {
    if ops == [] then []
    else
      var op := ops[|ops| - 1];
      Ever(ops[..|ops| - 1]) + if op.Submit? then op.bundles else []
  }

  /** Pruning at `first` cannot hurt a question asked about `later`. */
  predicate Safe(first: Moment, later: Moment) {
    first.block <= later.block && (first.time <= later.time || first.time <= 1)
  }

  /** The condition is exact: a bundle is lost to a later question precisely when it is violated. */
  lemma SafeExactly(first: Moment, later: Moment)
    ensures Safe(first, later) <==>
      forall bundles :: AnswerFor(Kept(bundles, first), later) == AnswerFor(bundles, later)
  {
    if Safe(first, later) {
      forall bundles ensures AnswerFor(Kept(bundles, first), later) == AnswerFor(bundles, later) {
        PruneOnce(bundles, first, later);
      }
    } else {
      var end := if later.block < first.block then 0 else if later.time == 0 then 1 else later.time;
      var b := Bundle(0, later.block, EMPTY_UUID, 0, 0, end, []);
      assert Outdated(b, first) && Regular(b, later);
      FilterSnoc([], b, x => !Outdated(x, first));
      assert [] + [b] == [b];
      assert Kept([b], first) == [];
      assert b in AnswerFor([b], later).regular;
      assert AnswerFor(Kept([b], first), later).regular == [];
    }
  }

  /** If what is in time at `at` is kept, the answer at `at` stays the same. */
  lemma SameAnswer(bundles: seq<Bundle>, keep: Bundle -> bool, at: Moment)
    requires forall b :: InTime(b, at) ==> keep(b)
    ensures AnswerFor(Filter(bundles, keep), at) == AnswerFor(bundles, at)
  {
    FilterTwice(bundles, keep, b => Regular(b, at));
    assert Slots(Filter(bundles, keep), at) == Slots(bundles, at);
    forall slot: Slot ensures Group(Filter(bundles, keep), at, slot) == Group(bundles, at, slot) {
      FilterTwice(bundles, keep, b => InSlot(b, at, slot));
    }
  }

  lemma PruneOnce(bundles: seq<Bundle>, first: Moment, later: Moment)
    requires Safe(first, later)
    ensures AnswerFor(Kept(bundles, first), later) == AnswerFor(bundles, later)
  {
    SameAnswer(bundles, b => !Outdated(b, first), later);
  }

  lemma AnswerConcat(xs: seq<Bundle>, ys: seq<Bundle>, more: seq<Bundle>, at: Moment)
    requires AnswerFor(xs, at) == AnswerFor(ys, at)
    ensures AnswerFor(xs + more, at) == AnswerFor(ys + more, at)
    decreases |more|
  {
    if more == [] {
      assert xs + more == xs && ys + more == ys;
    } else {
      var most, b := more[..|more| - 1], more[|more| - 1];
      AnswerConcat(xs, ys, most, at);
      AnswerSnoc(xs + most, b, at);
      AnswerSnoc(ys + most, b, at);
      assert xs + more == (xs + most) + [b] && ys + more == (ys + most) + [b];
    }
  }

  /**
   Pruning never changes an answer: if every earlier question was safe for this one, in particular if
   blocks and timestamps never went back, the answer is what all bundles ever submitted would give.
   */
  lemma {:induction false} PruningIsInvisible(ops: seq<Op>, at: Moment)
    requires forall op :: op in ops && op.Query? ==> Safe(op.at, at)
    ensures AnswerFor(Held(ops), at) == AnswerFor(Ever(ops), at)
    decreases |ops|
  {
    if ops != [] {
      var most, op := ops[..|ops| - 1], ops[|ops| - 1];
      assert ops == most + [op];
      PruningIsInvisible(most, at);
      match op
      case Submit(more) => AnswerConcat(Held(most), Ever(most), more, at);
      case Query(first) =>
        PruneOnce(Held(most), first, at);
        assert Ever(ops) == Ever(most);
    }
  }

  /** The answer names exactly the bundles that are in time, once for every submission. */
  lemma AnswerIsExact(ops: seq<Op>, at: Moment)
    requires forall op :: op in ops && op.Query? ==> op.at.block <= at.block && op.at.time <= at.time
    ensures var a := AnswerFor(Held(ops), at);
      && a.regular == Filter(Ever(ops), b => Regular(b, at))
      && (forall b :: b in Ever(ops) && InTime(b, at) && b.uuid != EMPTY_UUID ==>
            (b.uuid, b.signer) in a.offered && b in a.offered[(b.uuid, b.signer)])
      && (forall slot, b :: slot in a.offered && b in a.offered[slot] ==>
            b in Ever(ops) && InTime(b, at) && slot == (b.uuid, b.signer) && b.uuid != EMPTY_UUID)
  {
    PruningIsInvisible(ops, at);
  }

  // ---------------------------------------------------------------- the latest bundle of each slot

  /** What the bundle database names as the latest submission for a slot. */
  datatype Latest = Latest(uuid: Uuid, signer: Address, bundleHash: Hash)

  /** The first of the bundles that has the hash. */
  function Pick(bundles: seq<Bundle>, hash: Hash): (r: Option<Bundle>)
    ensures r.None? <==> forall b :: b in bundles ==> b.hash != hash
    ensures r.Some? ==> r.value in bundles && r.value.hash == hash
  {
    if bundles == [] then None
    else if bundles[0].hash == hash then Some(bundles[0])
    else Pick(bundles[1..], hash)
  }

  /** What an entry of the database selects among the offered bundles. */
  function Selected(l: Latest, offered: map<Slot, seq<Bundle>>): Option<Bundle> {
    var slot := (l.uuid, l.signer);
    if slot in offered then Pick(offered[slot], l.bundleHash) else None
  }

  method FirstWithHash(bundles: seq<Bundle>, hash: Hash) returns (r: Option<Bundle>)
    ensures r == Pick(bundles, hash)
  {
    for i := 0 to |bundles|
      invariant Pick(bundles, hash) == Pick(bundles[i..], hash)
    {
      if bundles[i].hash == hash { return Some(bundles[i]); }
    }
    return None;
  }

  /**
   The database answer, if it arrives in time: for every entry, in order, the bundle it selects. The
   `origin` of a returned bundle is the entry that selected it.
   */
  method ResolveCancellableBundles(latest: Option<seq<Latest>>, offered: map<Slot, seq<Bundle>>)
    returns (current: seq<Bundle>, ghost origin: seq<nat>)
    ensures latest.None? ==> current == []
    ensures |origin| == |current| && forall i, j :: 0 <= i < j < |origin| ==> origin[i] < origin[j]
    ensures latest.Some? ==>
      && (forall k :: 0 <= k < |origin| ==>
            origin[k] < |latest.value| && Selected(latest.value[origin[k]], offered) == Some(current[k]))
      && (forall i: nat :: i < |latest.value| && Selected(latest.value[i], offered).Some? ==> i in origin)
  {
    current, origin := [], [];
    if latest.None? || offered == map[] { return; }
    var lubs := latest.value;
    for i := 0 to |lubs|
      invariant |origin| == |current| && forall j, k :: 0 <= j < k < |origin| ==> origin[j] < origin[k]
      invariant forall k :: 0 <= k < |origin| ==>
        origin[k] < i && Selected(lubs[origin[k]], offered) == Some(current[k])
      invariant forall j: nat :: j < i && Selected(lubs[j], offered).Some? ==> j in origin
    {
      var slot := (lubs[i].uuid, lubs[i].signer);
      if slot in offered {
        var found := FirstWithHash(offered[slot], lubs[i].bundleHash);
        if found.Some? { current, origin := current + [found.value], origin + [i]; }
      }
    }
  }
}
