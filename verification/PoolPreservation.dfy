/** Every pool operation keeps the invariant, whatever the price heaps answer. */
module PoolPreservation {
  import opened Transactions
  import opened TxLists
  import opened PoolState
  import opened PoolInvariant

  // ---------------------------------------------------------------- moving several transactions

  /**
   Splitting the listed transactions into the new lists, a sequence in transit and a sequence that
   is forgotten keeps the invariant.
   */
  lemma Repartition(p: Pool, q: Pool, tr: seq<Tx>, gone: seq<Tx>)
    requires Inv(p) && q.cfg == p.cfg && q.known == p.known.Minus(Hashes(gone))
    requires ListsOk(q.pending) && ListsOk(q.queue) && q.queue.Keys <= q.beats.Keys && Apart(q, tr)
    requires forall t :: Listed(p, [], t) <==> Listed(q, tr, t) || t in gone
    requires forall t :: t in gone ==> !Listed(q, tr, t)
    ensures InvT(q, tr)
  {
    BySomeHash(p, [], gone);
    Reshuffle(p, [], q, tr, Hashes(gone));
  }

  // ---------------------------------------------------------------- add

  /** Freeing the nonce of an incoming transaction in the pending list. */
  lemma EvictPending(p: Pool, tx: Tx, q: Pool)
    requires Inv(p)
    requires var l := At(p.pending, tx.sender);
      && HasNonce(l, tx.nonce)
      && q == p.(pending := SetList(p.pending, tx.sender, Without(l, tx.nonce)),
                 known := p.known.Minus({AtNonce(l, tx.nonce).hash}))
    ensures Inv(q)
    ensures forall t :: In(q.pending, t) <==> In(p.pending, t) && !(t.sender == tx.sender && t.nonce == tx.nonce)
  {
    var l := At(p.pending, tx.sender);
    var older := AtNonce(l, tx.nonce);
    AtFacts(p.pending, tx.sender);
    SetListIn(p.pending, tx.sender, Without(l, tx.nonce));
    assert In(p.pending, older) && Listed(p, [], older);
    ByHash(p, [], older);
    forall t | In(p.pending, t) && t.sender == tx.sender && t.nonce == tx.nonce ensures t == older {
      assert Listed(p, [], t);
    }
    Reshuffle(p, [], q, [], {older.hash});
  }

  lemma EvictQueued(p: Pool, tx: Tx, q: Pool)
    requires Inv(p)
    requires var l := At(p.queue, tx.sender);
      && HasNonce(l, tx.nonce)
      && q == p.(queue := SetList(p.queue, tx.sender, Without(l, tx.nonce)),
                 known := p.known.Minus({AtNonce(l, tx.nonce).hash}))
    ensures Inv(q)
    ensures forall t :: In(q.queue, t) <==> In(p.queue, t) && !(t.sender == tx.sender && t.nonce == tx.nonce)
  {
    var l := At(p.queue, tx.sender);
    var older := AtNonce(l, tx.nonce);
    AtFacts(p.queue, tx.sender);
    SetListIn(p.queue, tx.sender, Without(l, tx.nonce));
    assert In(p.queue, older) && Listed(p, [], older);
    ByHash(p, [], older);
    forall t | In(p.queue, t) && t.sender == tx.sender && t.nonce == tx.nonce ensures t == older {
      assert Listed(p, [], t);
    }
    Reshuffle(p, [], q, [], {older.hash});
  }

  lemma PutMembers(m: Lists, tx: Tx)
    requires ListsOk(m)
    ensures var m' := m[tx.sender := Put(At(m, tx.sender), tx)];
      ListsOk(m') && forall t :: In(m', t) <==> t == tx || (In(m, t) && !(t.sender == tx.sender && t.nonce == tx.nonce))
  {
    AtFacts(m, tx.sender);
    SetListIn(m, tx.sender, Put(At(m, tx.sender), tx));
  }

  lemma ReplacePendingKeepsInv(p: Pool, tx: Tx, isLocal: bool, now: Time)
    requires Inv(p) && !p.known.Has(tx.hash)
    requires HasNonce(At(p.pending, tx.sender), tx.nonce)
    ensures Inv(Overwrite(p, tx, isLocal, now))
  {
    var a := tx.sender;
    var l := At(p.pending, a);
    var p1 := p.(pending := SetList(p.pending, a, Without(l, tx.nonce)),
                 known := p.known.Minus({AtNonce(l, tx.nonce).hash}));
    EvictPending(p, tx, p1);
    PutMembers(p.pending, tx);
    NoSharedNonce(p, a, tx.nonce);
    FreeInQueue(p, tx);
    var q := Overwrite(p, tx, isLocal, now);
    forall t ensures Listed(q, [], t) <==> t == tx || Listed(p1, [], t) { }
    Admit(p1, q, tx, isLocal);
  }

  lemma FreeInQueue(p: Pool, tx: Tx)
    requires Inv(p) && !HasNonce(At(p.queue, tx.sender), tx.nonce)
    ensures forall t :: In(p.queue, t) && t.sender == tx.sender ==> t.nonce != tx.nonce
  {
    AtFacts(p.queue, tx.sender);
    HasNonceIff(At(p.queue, tx.sender), tx.nonce);
  }

  lemma FreeInPending(p: Pool, tx: Tx)
    requires Inv(p) && !HasNonce(At(p.pending, tx.sender), tx.nonce)
    ensures forall t :: In(p.pending, t) && t.sender == tx.sender ==> t.nonce != tx.nonce
  {
    AtFacts(p.pending, tx.sender);
    HasNonceIff(At(p.pending, tx.sender), tx.nonce);
  }

  lemma EnqueueNewKeepsInv(p: Pool, tx: Tx, isLocal: bool, now: Time)
    requires Inv(p) && !p.known.Has(tx.hash)
    requires !HasNonce(At(p.pending, tx.sender), tx.nonce)
    ensures Inv(Enqueue(p, tx, isLocal, true, now).pool)
  {
    var a := tx.sender;
    var l := At(p.queue, a);
    if Accepts(l, tx, p.cfg.priceBump) {
      var q := Enqueue(p, tx, isLocal, true, now).pool;
      FreeInPending(p, tx);
      PutMembers(p.queue, tx);
      if HasNonce(l, tx.nonce) {
        var p1 := p.(queue := SetList(p.queue, a, Without(l, tx.nonce)),
                     known := p.known.Minus({AtNonce(l, tx.nonce).hash}));
        EvictQueued(p, tx, p1);
        AdmitQueued(p1, q, tx, isLocal);
      } else {
        FreeInQueue(p, tx);
        AdmitQueued(p, q, tx, isLocal);
      }
    }
  }

  lemma AdmitQueued(p: Pool, q: Pool, tx: Tx, local: bool)
    requires Inv(p) && !p.known.Has(tx.hash)
    requires q.cfg == p.cfg && q.pending == p.pending && ListsOk(q.queue) && q.queue.Keys <= q.beats.Keys
    requires q.known == p.known.Add(tx, local)
    requires forall t :: (In(p.pending, t) || In(p.queue, t)) && t.sender == tx.sender ==> t.nonce != tx.nonce
    requires forall t :: In(q.queue, t) <==> t == tx || In(p.queue, t)
    ensures Inv(q)
  {
    forall t ensures Listed(q, [], t) <==> t == tx || Listed(p, [], t) { }
    Admit(p, q, tx, local);
  }

  /** Moving transactions to the local side changes no lookup. */
  lemma LocaliseKeepsInv(p: Pool, accounts: set<Address>)
    requires Inv(p)
    ensures Inv(p.(accounts := accounts, known := p.known.Localise(accounts)))
  {
    var q := p.(accounts := accounts, known := p.known.Localise(accounts));
    assert forall h :: q.known.Has(h) <==> p.known.Has(h);
    assert forall h :: p.known.Has(h) ==> q.known.Get(h) == p.known.Get(h);
    assert forall t :: Listed(q, [], t) <==> Listed(p, [], t);
  }

  lemma PlaceKeepsInv(p: Pool, tx: Tx, local: bool, isLocal: bool, now: Time)
    requires Inv(p) && !p.known.Has(tx.hash)
    ensures Inv(Place(p, tx, local, isLocal, now).pool)
  {
    if HasNonce(At(p.pending, tx.sender), tx.nonce) {
      ReplacePendingKeepsInv(p, tx, isLocal, now);
    } else {
      EnqueueNewKeepsInv(p, tx, isLocal, now);
      var e := Enqueue(p, tx, isLocal, true, now);
      if e.inserted && local && tx.sender !in p.accounts {
        LocaliseKeepsInv(e.pool, p.accounts + {tx.sender});
      }
    }
  }

  lemma RemoveTxInv(p: Pool, h: Hash, now: Time)
    requires Inv(p)
    ensures Inv(RemoveTx(p, h, now).pool)
    ensures RemoveTx(p, h, now).pool.known == p.known.Minus({h})
  {
    RemoveTxKeepsInv(p, h, now);
  }

  lemma DropKeepsInv(p: Pool, h: Hash, now: Time)
    requires Inv(p)
    ensures Inv(DropOne(p, h, now))
    ensures DropOne(p, h, now).known == p.known.Minus({h})
  {
    RemoveTxInv(p, h, now);
    InvIgnoresNonces(RemoveTx(p, h, now).pool, DropOne(p, h, now));
  }

  lemma {:induction false} DropAllKeepsInv(p: Pool, txs: seq<Tx>, now: Time)
    requires Inv(p)
    ensures Inv(DropAll(p, txs, now))
    ensures forall h :: DropAll(p, txs, now).known.Has(h) ==> p.known.Has(h)
    decreases |txs|
  {
    if txs != [] {
      DropKeepsInv(p, txs[0].hash, now);
      DropAllKeepsInv(DropOne(p, txs[0].hash, now), txs[1..], now);
    }
  }

  lemma {:induction false} RemoveAllKeepsInv(p: Pool, txs: seq<Tx>, now: Time)
    requires Inv(p)
    ensures Inv(RemoveAll(p, txs, now))
    decreases |txs|
  {
    if txs != [] {
      RemoveTxInv(p, txs[0].hash, now);
      RemoveAllKeepsInv(RemoveTx(p, txs[0].hash, now).pool, txs[1..], now);
    }
  }

  lemma AddKeepsInv(p: Pool, tx: Tx, local: bool, v: Victims, now: Time)
    requires Inv(p)
    ensures Inv(Add(p, tx, local, v, now).pool)
  {
    var isLocal := local || tx.sender in p.accounts;
    match Screen(p, tx, local, v)
    case Refuse(_) =>
    case Direct => PlaceKeepsInv(p, tx, local, isLocal, now);
    case MakeRoom =>
      DropAllKeepsInv(p, v.drop, now);
      PlaceKeepsInv(DropAll(p, v.drop, now), tx, local, isLocal, now);
  }

  lemma {:induction false} AddAllKeepsInv(p: Pool, txs: seq<Tx>, local: bool, vs: seq<Victims>, now: Time)
    requires Inv(p) && |vs| == |txs|
    ensures Inv(AddAll(p, txs, local, vs, now))
    decreases |txs|
  {
    if txs != [] {
      AddKeepsInv(p, txs[0], local, vs[0], now);
      AddAllKeepsInv(Add(p, txs[0], local, vs[0], now).pool, txs[1..], local, vs[1..], now);
    }
  }

  // ---------------------------------------------------------------- promoteExecutables

  /** The three parts a list is split into are disjoint and lose nothing. */
  ghost predicate Splits(l: seq<Tx>, s: Split) {
    && (forall t :: t in l <==> t in s.dropped || t in s.ready || t in s.kept)
    && (forall t :: t in s.dropped ==> t !in s.ready && t !in s.kept)
    && (forall t :: t in s.ready ==> t !in s.kept)
    && Sorted(s.ready) && Sorted(s.kept)
  }

  lemma TakeDrop(l: seq<Tx>, k: nat)
    requires Sorted(l) && k <= |l|
    ensures Sorted(l[..k]) && Sorted(l[k..])
    ensures forall t :: t in l <==> t in l[..k] || t in l[k..]
    ensures forall t, u :: t in l[..k] && u in l[k..] ==> t.nonce < u.nonce
  {
    assert l == l[..k] + l[k..];
  }

  /** `whole` consists of `left` and `right`, which share nothing. */
  ghost predicate Halves(whole: seq<Tx>, left: seq<Tx>, right: seq<Tx>) {
    && (forall t :: t in whole <==> t in left || t in right)
    && (forall t :: t in left ==> t !in right)
  }

  lemma AssembleSplit(
    l: seq<Tx>, stale: seq<Tx>, current: seq<Tx>, low: seq<Tx>, live: seq<Tx>, ready: seq<Tx>, rest: seq<Tx>,
    kept: seq<Tx>, over: seq<Tx>)
    requires Halves(l, stale, current) && Halves(current, low, live)
    requires Halves(live, ready, rest) && Halves(rest, kept, over)
    requires Sorted(ready) && Sorted(kept)
    ensures Splits(l, Split(stale + low + over, ready, kept))
  {
    var s := Split(stale + low + over, ready, kept);
    assert forall t :: t in s.dropped <==> t in stale || t in low || t in over;
    assert forall t :: t in stale ==> t !in current;
    assert forall t :: t in over || t in kept || t in ready ==> t in live;
  }

  lemma CutHalves(l: seq<Tx>, k: nat)
    requires Sorted(l) && k <= |l|
    ensures Halves(l, l[..k], l[k..]) && Sorted(l[..k]) && Sorted(l[k..])
  {
    TakeDrop(l, k);
  }

  lemma PayHalves(l: seq<Tx>, balance: nat, gasLimit: nat)
    requires Sorted(l)
    ensures Halves(l, Unaffordable(l, balance, gasLimit), Payable(l, balance, gasLimit))
    ensures Sorted(Payable(l, balance, gasLimit)) && Sorted(Unaffordable(l, balance, gasLimit))
  {
  }

  lemma PromotionSplits(p: Pool, a: Address)
    requires Inv(p)
    ensures Splits(At(p.queue, a), PromotionSplit(p, a))
  {
    var l := At(p.queue, a);
    var r := Rank(l, p.chain.Nonce(a));
    var current := l[r..];
    var low := Unaffordable(current, p.chain.Balance(a), p.chain.gasLimit);
    var live := Payable(current, p.chain.Balance(a), p.chain.gasLimit);
    var k := ReadyCount(live, p.Virtual(a));
    var rest := live[k..];
    var c := if a in p.accounts || |rest| <= p.cfg.accountQueue then |rest| else p.cfg.accountQueue;
    CutHalves(l, r);
    PayHalves(current, p.chain.Balance(a), p.chain.gasLimit);
    CutHalves(live, k);
    CutHalves(rest, c);
    AssembleSplit(l, l[..r], current, low, live, live[..k], rest, rest[..c], rest[c..]);
  }

  lemma SortedDistinct(l: seq<Tx>)
    requires Sorted(l)
    ensures Distinct(l)
  {
    forall i, j | 0 <= i < j < |l| ensures l[i] != l[j] { assert l[i].nonce < l[j].nonce; }
  }

  lemma PromotionToTransit(p: Pool, a: Address)
    requires Inv(p) && a in p.queue
    ensures var s := PromotionSplit(p, a);
      && InvT(p.(queue := SetList(p.queue, a, s.kept), known := p.known.Minus(Hashes(s.dropped))), s.ready)
      && (forall t :: t in s.ready ==> t.sender == a)
  {
    var s := PromotionSplit(p, a);
    PromotionSplits(p, a);
    AtFacts(p.queue, a);
    SetListIn(p.queue, a, s.kept);
    SortedDistinct(s.ready);
    var q := p.(queue := SetList(p.queue, a, s.kept), known := p.known.Minus(Hashes(s.dropped)));
    assert forall t :: In(p.queue, t) <==> In(q.queue, t) || t in s.ready || t in s.dropped;
    Repartition(p, q, s.ready, s.dropped);
  }

  lemma PromoteAccountKeepsInv(p: Pool, a: Address, now: Time)
    requires Inv(p)
    ensures Inv(PromoteAccount(p, a, now))
  {
    if a in p.queue {
      var s := PromotionSplit(p, a);
      PromotionToTransit(p, a);
      var p1 := p.(queue := SetList(p.queue, a, s.kept), known := p.known.Minus(Hashes(s.dropped)));
      PromoteAllTransit(p1, a, s.ready, now);
      if s.kept == [] { DropBeat(PromoteAll(p1, a, s.ready, now), a); }
    }
  }

  lemma DropBeat(p: Pool, a: Address)
    requires Inv(p) && a !in p.queue
    ensures Inv(p.(beats := p.beats - {a}))
  {
    var q := p.(beats := p.beats - {a});
    assert forall t :: Listed(q, [], t) <==> Listed(p, [], t);
  }

  lemma {:induction false} PromoteExecutablesKeepsInv(p: Pool, accounts: seq<Address>, now: Time)
    requires Inv(p)
    ensures Inv(PromoteExecutables(p, accounts, now))
    decreases |accounts|
  {
    if accounts != [] {
      PromoteAccountKeepsInv(p, accounts[0], now);
      PromoteExecutablesKeepsInv(PromoteAccount(p, accounts[0], now), accounts[1..], now);
    }
  }

  // ---------------------------------------------------------------- demoteUnexecutables

  lemma DemotionSplits(p: Pool, a: Address)
    requires Inv(p)
    ensures Splits(At(p.pending, a), DemotionSplit(p, a))
    ensures var s := DemotionSplit(p, a);
      forall t, u :: t in s.kept && u in s.ready ==> t.nonce < u.nonce
  {
    var l := At(p.pending, a);
    AtFacts(p.pending, a);
    var r := Rank(l, p.chain.Nonce(a));
    TakeDrop(l, r);
    var live := l[r..];
    var k := PayableRun(live, p.chain.Balance(a), p.chain.gasLimit);
    TakeDrop(live, k);
    var s := DemotionSplit(p, a);
    var low := Unaffordable(live[k..], p.chain.Balance(a), p.chain.gasLimit);
    assert forall t :: t in s.dropped <==> t in l[..r] || t in low;
  }

  /** What a demotion pass leaves pending and what it postpones, after the gap check. */
  function DemotionKept(p: Pool, a: Address): seq<Tx> {
    if HasGap(p, a) then [] else DemotionSplit(p, a).kept
  }

  function DemotionPostponed(p: Pool, a: Address): seq<Tx> {
    var s := DemotionSplit(p, a);
    s.ready + (if HasGap(p, a) then s.kept else [])
  }

  lemma DemotionToTransit(p: Pool, a: Address)
    requires Inv(p) && a in p.pending
    ensures InvT(p.(pending := SetList(p.pending, a, DemotionKept(p, a)),
                    known := p.known.Minus(Hashes(DemotionSplit(p, a).dropped))),
                 DemotionPostponed(p, a))
  {
    var s := DemotionSplit(p, a);
    var kept, out := DemotionKept(p, a), DemotionPostponed(p, a);
    DemotionSplits(p, a);
    AtFacts(p.pending, a);
    SetListIn(p.pending, a, kept);
    Postponement(p, a);
    var q := p.(pending := SetList(p.pending, a, kept), known := p.known.Minus(Hashes(s.dropped)));
    hide DemotionKept, DemotionPostponed, DemotionSplit, HasGap, SetList;
    assert forall t :: In(p.pending, t) <==> In(q.pending, t) || t in out || t in s.dropped;
    Repartition(p, q, out, s.dropped);
  }

  /** What is postponed, kept and dropped by a demotion has nothing in common and makes up the list. */
  lemma Postponement(p: Pool, a: Address)
    requires Inv(p) && a in p.pending
    ensures var l, out, s := At(p.pending, a), DemotionPostponed(p, a), DemotionSplit(p, a);
      && Distinct(out) && Sorted(DemotionKept(p, a))
      && (forall t :: t in l <==> t in s.dropped || t in out || t in DemotionKept(p, a))
      && (forall t :: t in s.dropped ==> t !in out && t !in DemotionKept(p, a))
      && (forall t :: t in out ==> t !in DemotionKept(p, a))
  {
    DemotionSplits(p, a);
    hide InvT, DemotionSplit, HasGap, Splits;
    SplitParts(At(p.pending, a), DemotionSplit(p, a), HasGap(p, a));
  }

  lemma SplitParts(l: seq<Tx>, s: Split, gap: bool)
    requires Splits(l, s)
    ensures var out, keep := s.ready + (if gap then s.kept else []), if gap then [] else s.kept;
      && Distinct(out) && Sorted(keep)
      && (forall t :: t in l <==> t in s.dropped || t in out || t in keep)
      && (forall t :: t in s.dropped ==> t !in out && t !in keep)
      && (forall t :: t in out ==> t !in keep)
  {
    SortedDistinct(s.ready);
    SortedDistinct(s.kept);
    hide Sorted;
    if gap {
      DistinctJoined(s.ready, s.kept);
    } else {
      assert s.ready + [] == s.ready;
    }
  }

  lemma DistinctJoined(a: seq<Tx>, b: seq<Tx>)
    requires Distinct(a) && Distinct(b) && forall t :: t in a ==> t !in b
    ensures Distinct(a + b)
  {
    forall i, j | 0 <= i < j < |a + b| ensures (a + b)[i] != (a + b)[j] {
      assert i < |a| ==> (a + b)[i] in a;
      assert j >= |a| ==> (a + b)[j] in b;
    }
  }

  lemma DemoteAccountKeepsInv(p: Pool, a: Address, now: Time)
    requires Inv(p)
    ensures Inv(DemoteAccount(p, a, now))
  {
    if a in p.pending {
      DemotionToTransit(p, a);
      var p1 := p.(pending := SetList(p.pending, a, DemotionKept(p, a)),
                   known := p.known.Minus(Hashes(DemotionSplit(p, a).dropped)));
      EnqueueAllTransit(p1, DemotionPostponed(p, a), now);
    }
  }

  lemma {:induction false} DemoteUnexecutablesKeepsInv(p: Pool, accounts: seq<Address>, now: Time)
    requires Inv(p)
    ensures Inv(DemoteUnexecutables(p, accounts, now))
    decreases |accounts|
  {
    if accounts != [] {
      DemoteAccountKeepsInv(p, accounts[0], now);
      DemoteUnexecutablesKeepsInv(DemoteAccount(p, accounts[0], now), accounts[1..], now);
    }
  }
}
