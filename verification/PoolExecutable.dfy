/**
 What is pending can be executed: in every run each pending transaction has the gas that its execution
 takes, fits the gas limit and is within its sender's balance at the current head.
 */
module PoolExecutable {
  import opened Transactions
  import opened TxLists
  import opened PoolState
  import opened PoolInvariant
  import opened PoolPreservation
  import opened PoolTruncation
  import opened PoolContiguity
  import opened PoolGaps
  import opened PoolRuns

  /** The gas limit and the balance at the head cover the transaction. */
  predicate Funded(c: Chain, t: Tx) { !Unpayable(t, c.Balance(t.sender), c.gasLimit) }

  predicate Fuelled(t: Tx) { t.gas >= t.IntrinsicGas() }

  ghost predicate Pooled(k: Known, t: Tx) { k.Has(t.hash) && k.Get(t.hash) == t }

  ghost predicate Executable(p: Pool) { forall t :: In(p.pending, t) ==> Funded(p.chain, t) }

  ghost predicate AllFuelled(p: Pool) { forall t :: Pooled(p.known, t) ==> Fuelled(t) }

  /**
   At an unchanged head, new in the pool are only transactions from `news` that have their gas, and new
   in the pending lists only funded ones.
   */
  ghost predicate Follows(p: Pool, q: Pool, news: seq<Tx>) {
    && q.chain == p.chain
    && (forall t :: Pooled(q.known, t) ==> Pooled(p.known, t) || (t in news && Fuelled(t)))
    && (forall t :: In(q.pending, t) ==> In(p.pending, t) || Funded(p.chain, t))
  }

  lemma Still(p: Pool, news: seq<Tx>)
    ensures Follows(p, p, news)
  {
  }

  lemma Onwards(p: Pool, q: Pool, r: Pool, news: seq<Tx>)
    requires Follows(p, q, news) && Follows(q, r, news)
    ensures Follows(p, r, news)
  {
    hide Funded, Fuelled, Pooled, In;
  }

  lemma Widened(p: Pool, q: Pool, news: seq<Tx>, more: seq<Tx>)
    requires Follows(p, q, news) && forall t :: t in news ==> t in more
    ensures Follows(p, q, more)
  {
    hide Funded, Fuelled, Pooled, In;
  }

  lemma Inherited(p: Pool, q: Pool, news: seq<Tx>)
    requires Follows(p, q, news)
    ensures Executable(p) ==> Executable(q)
    ensures AllFuelled(p) ==> AllFuelled(q)
  {
    hide Funded, Fuelled, Pooled, In;
  }

  /** Forgetting hashes, with pending lists that lose or keep. */
  lemma Fewer(p: Pool, q: Pool, hs: set<Hash>, news: seq<Tx>)
    requires q.chain == p.chain && q.known == p.known.Minus(hs)
    requires forall t :: In(q.pending, t) ==> In(p.pending, t) || Funded(p.chain, t)
    ensures Follows(p, q, news)
  {
    hide Funded, In;
  }

  // ---------------------------------------------------------------- removal and addition

  lemma RemoveFollows(p: Pool, h: Hash, now: Time, news: seq<Tx>)
    requires Inv(p)
    ensures Follows(p, RemoveTx(p, h, now).pool, news)
  {
    var q := RemoveTx(p, h, now).pool;
    RemoveTxKeepsInv(p, h, now);
    RemovedPending(p, h, now);
    Fewer(p, q, {h}, news);
  }

  lemma RemovedPending(p: Pool, h: Hash, now: Time)
    requires Inv(p)
    ensures forall t :: In(RemoveTx(p, h, now).pool.pending, t) ==> In(p.pending, t)
  {
    RemoveTxKeepsInv(p, h, now);
    var q := RemoveTx(p, h, now).pool;
    if p.known.Has(h) {
      KnownIsListed(p, h);
      var tx := p.known.Get(h);
      hide RemoveTx, InvT, Sorted, HasNonce, Pool.Lower, Without, Known.Minus;
      if In(p.pending, tx) {
        var l := p.pending[tx.sender];
        SetListFewer(p.pending, tx.sender, l[..Rank(l, tx.nonce)]);
      }
    }
  }

  lemma SetListFewer(m: Lists, a: Address, l: seq<Tx>)
    requires a in m && l <= m[a]
    ensures forall t :: In(SetList(m, a, l), t) ==> In(m, t)
  {
  }

  lemma {:induction false} RemoveAllFollows(p: Pool, txs: seq<Tx>, now: Time, news: seq<Tx>)
    requires Inv(p)
    ensures Follows(p, RemoveAll(p, txs, now), news)
    decreases |txs|
  {
    hide InvT, RemoveTx, Follows;
    if txs == [] {
      Still(p, news);
    } else {
      var q := RemoveTx(p, txs[0].hash, now).pool;
      RemoveTxInv(p, txs[0].hash, now);
      RemoveFollows(p, txs[0].hash, now, news);
      RemoveAllFollows(q, txs[1..], now, news);
      Onwards(p, q, RemoveAll(q, txs[1..], now), news);
    }
  }

  lemma {:induction false} DropAllFollows(p: Pool, txs: seq<Tx>, now: Time, news: seq<Tx>)
    requires Inv(p)
    ensures Follows(p, DropAll(p, txs, now), news)
    decreases |txs|
  {
    hide InvT, RemoveTx, Follows, DropOne;
    if txs == [] {
      Still(p, news);
    } else {
      var q := DropOne(p, txs[0].hash, now);
      DropKeepsInv(p, txs[0].hash, now);
      DropFollows(p, txs[0].hash, now, news);
      DropAllFollows(q, txs[1..], now, news);
      Onwards(p, q, DropAll(q, txs[1..], now), news);
    }
  }

  lemma DropFollows(p: Pool, h: Hash, now: Time, news: seq<Tx>)
    requires Inv(p)
    ensures Follows(p, DropOne(p, h, now), news)
  {
    RemoveFollows(p, h, now, news);
    hide InvT, RemoveTx;
  }

  /** A validated transaction has its gas and is funded. */
  lemma ValidatedIs(p: Pool, tx: Tx, isLocal: bool)
    requires Validate(p, tx, isLocal) == Valid
    ensures Fuelled(tx) && Funded(p.chain, tx)
  {
    hide TotalCost, HasNonce, AtNonce;
  }

  lemma PlaceFollows(p: Pool, tx: Tx, local: bool, isLocal: bool, now: Time)
    requires Inv(p) && !p.known.Has(tx.hash) && Fuelled(tx) && Funded(p.chain, tx)
    ensures Follows(p, Place(p, tx, local, isLocal, now).pool, [tx])
  {
    assert KnownOk(p.known);
    hide Fuelled, Funded, InvT;
    PlaceChain(p, tx, local, isLocal, now);
    PlacePooled(p, tx, local, isLocal, now);
    PlacePending(p, tx, local, isLocal, now);
    hide Place;
  }

  lemma PlaceChain(p: Pool, tx: Tx, local: bool, isLocal: bool, now: Time)
    ensures Place(p, tx, local, isLocal, now).pool.chain == p.chain
  {
  }

  lemma PlacePooled(p: Pool, tx: Tx, local: bool, isLocal: bool, now: Time)
    requires KnownOk(p.known) && !p.known.Has(tx.hash)
    ensures forall t :: Pooled(Place(p, tx, local, isLocal, now).pool.known, t) ==> Pooled(p.known, t) || t == tx
  {
    if HasNonce(At(p.pending, tx.sender), tx.nonce) {
      AddedPooled(p.known, {AtNonce(At(p.pending, tx.sender), tx.nonce).hash}, tx, isLocal);
    } else {
      EnqueuedPooled(p, tx, isLocal, now);
      var e := Enqueue(p, tx, isLocal, true, now);
      LocalisedPooled(e.pool.known, p.accounts + {tx.sender});
    }
    hide Put, Accepts, HasNonce, AtNonce, Pooled, Known.Minus, Known.Add, Known.Localise, Enqueue;
  }

  lemma AddedPooled(k: Known, hs: set<Hash>, tx: Tx, local: bool)
    requires KnownOk(k) && !k.Has(tx.hash)
    ensures KnownOk(k.Minus(hs).Add(tx, local))
    ensures forall t :: Pooled(k.Minus(hs).Add(tx, local), t) ==> Pooled(k, t) || t == tx
  {
  }

  lemma EnqueuedPooled(p: Pool, tx: Tx, isLocal: bool, now: Time)
    requires KnownOk(p.known) && !p.known.Has(tx.hash)
    ensures var k := Enqueue(p, tx, isLocal, true, now).pool.known;
      KnownOk(k) && forall t :: Pooled(k, t) ==> Pooled(p.known, t) || t == tx
  {
    var l := At(p.queue, tx.sender);
    var gone := if HasNonce(l, tx.nonce) then {AtNonce(l, tx.nonce).hash} else {};
    AddedPooled(p.known, gone, tx, isLocal);
    assert p.known.Minus({}) == p.known;
    hide Put, Accepts, HasNonce, AtNonce, Pooled, Known.Minus, Known.Add;
  }

  lemma LocalisedPooled(k: Known, accounts: set<Address>)
    requires KnownOk(k)
    ensures forall t :: Pooled(k.Localise(accounts), t) ==> Pooled(k, t)
  {
  }

  lemma PlacePending(p: Pool, tx: Tx, local: bool, isLocal: bool, now: Time)
    requires Inv(p)
    ensures forall t :: In(Place(p, tx, local, isLocal, now).pool.pending, t) ==> In(p.pending, t) || t == tx
  {
  }

  lemma AddFollows(p: Pool, tx: Tx, local: bool, v: Victims, now: Time)
    requires Inv(p)
    ensures Follows(p, Add(p, tx, local, v, now).pool, [tx])
  {
    var isLocal := local || tx.sender in p.accounts;
    var gate := Screen(p, tx, local, v);
    if !gate.Refuse? {
      ValidatedIs(p, tx, isLocal);
      assert !p.known.Has(tx.hash);
    }
    hide InvT, Screen, Place, DropAll, Follows, Fuelled, Funded;
    match gate
    case Refuse(_) => Still(p, [tx]);
    case Direct => PlaceFollows(p, tx, local, isLocal, now);
    case MakeRoom =>
      var q := DropAll(p, v.drop, now);
      DropAllKeepsInv(p, v.drop, now);
      DropAllFollows(p, v.drop, now, [tx]);
      FollowsChain(p, q, [tx]);
      PlaceFollows(q, tx, local, isLocal, now);
      Onwards(p, q, Place(q, tx, local, isLocal, now).pool, [tx]);
  }

  lemma FollowsChain(p: Pool, q: Pool, news: seq<Tx>)
    requires Follows(p, q, news)
    ensures q.chain == p.chain
  {
    hide Funded, Fuelled, Pooled, In;
  }

  lemma {:induction false} AddAllFollows(p: Pool, txs: seq<Tx>, local: bool, vs: seq<Victims>, now: Time)
    requires Inv(p) && |vs| == |txs|
    ensures Follows(p, AddAll(p, txs, local, vs, now), txs)
    decreases |txs|
  {
    hide InvT, Add, Follows;
    if txs == [] {
      Still(p, txs);
    } else {
      var q := Add(p, txs[0], local, vs[0], now).pool;
      AddKeepsInv(p, txs[0], local, vs[0], now);
      AddFollows(p, txs[0], local, vs[0], now);
      AddAllFollows(q, txs[1..], local, vs[1..], now);
      assert forall t :: t in txs[1..] ==> t in txs;
      Widened(p, q, [txs[0]], txs);
      Widened(q, AddAll(q, txs[1..], local, vs[1..], now), txs[1..], txs);
      Onwards(p, q, AddAll(p, txs, local, vs, now), txs);
    }
  }

  // ---------------------------------------------------------------- promotion and demotion

  lemma {:induction false} PromoteAllFollows(p: Pool, a: Address, txs: seq<Tx>, now: Time)
    requires ListsSent(p.pending) && forall t :: t in txs ==> t.sender == a && Funded(p.chain, t)
    ensures Follows(p, PromoteAll(p, a, txs, now), [])
    decreases |txs|
  {
    hide Funded, Fuelled, Pooled, Follows;
    if txs == [] {
      Still(p, []);
    } else {
      var q := Promote(p, a, txs[0], now);
      PromoteFollows(p, a, txs[0], now);
      FollowsChain(p, q, []);
      hide Promote;
      PromoteAllFollows(q, a, txs[1..], now);
      Onwards(p, q, PromoteAll(q, a, txs[1..], now), []);
    }
  }

  /** Every list holds transactions of its own account. */
  ghost predicate ListsSent(m: Lists) { forall a :: a in m ==> forall t :: t in m[a] ==> t.sender == a }

  lemma PutMember(l: seq<Tx>, x: Tx)
    ensures forall t :: t in Put(l, x) ==> t == x || t in l
  {
  }

  lemma PromoteFollows(p: Pool, a: Address, x: Tx, now: Time)
    requires ListsSent(p.pending) && x.sender == a && Funded(p.chain, x)
    ensures Follows(p, Promote(p, a, x, now), []) && ListsSent(Promote(p, a, x, now).pending)
  {
    var l, q := At(p.pending, a), Promote(p, a, x, now);
    PutMember(l, x);
    PromoteForgets(p, a, x, now);
    hide Funded, Fuelled, Accepts, Put, Pooled, HasNonce, AtNonce, Known.Minus;
  }

  lemma PromoteForgets(p: Pool, a: Address, x: Tx, now: Time)
    ensures forall t :: Pooled(Promote(p, a, x, now).known, t) ==> Pooled(p.known, t)
  {
    hide Put, Accepts, HasNonce, AtNonce;
  }

  lemma ReadyFunded(p: Pool, a: Address)
    requires Inv(p) && a in p.queue
    ensures ListsSent(p.pending)
    ensures forall t :: t in PromotionSplit(p, a).ready ==> t.sender == a && Funded(p.chain, t)
  {
    PromotionToTransit(p, a);
    var l := At(p.queue, a);
    var live := Payable(l[Rank(l, p.chain.Nonce(a))..], p.chain.Balance(a), p.chain.gasLimit);
    var ready := PromotionSplit(p, a).ready;
    forall t | t in ready ensures Funded(p.chain, t) { assert t in live; }
  }

  lemma PromoteAccountFollows(p: Pool, a: Address, now: Time)
    requires Inv(p)
    ensures Follows(p, PromoteAccount(p, a, now), [])
  {
    if a !in p.queue {
      Still(p, []);
    } else {
      ReadyFunded(p, a);
      var s := PromotionSplit(p, a);
      var q := p.(queue := SetList(p.queue, a, s.kept), known := p.known.Minus(Hashes(s.dropped)));
      hide InvT, PromotionSplit, Funded, PromoteAll, ListsSent, Hashes, Known.Minus;
      Fewer(p, q, Hashes(s.dropped), []);
      PromoteAllFollows(q, a, s.ready, now);
      var r := PromoteAll(q, a, s.ready, now);
      Onwards(p, q, r, []);
      Beatless(p, r, a);
    }
  }

  lemma Beatless(p: Pool, r: Pool, a: Address)
    requires Follows(p, r, [])
    ensures Follows(p, r.(beats := r.beats - {a}), [])
  {
    hide Funded, Fuelled, Pooled, In;
  }

  lemma {:induction false} PromoteExecutablesFollows(p: Pool, accounts: seq<Address>, now: Time)
    requires Inv(p)
    ensures Follows(p, PromoteExecutables(p, accounts, now), [])
    decreases |accounts|
  {
    hide InvT, PromoteAccount, Follows;
    if accounts == [] {
      Still(p, []);
    } else {
      var q := PromoteAccount(p, accounts[0], now);
      PromoteAccountKeepsInv(p, accounts[0], now);
      PromoteAccountFollows(p, accounts[0], now);
      PromoteExecutablesFollows(q, accounts[1..], now);
      Onwards(p, q, PromoteExecutables(q, accounts[1..], now), []);
    }
  }

  /** Nothing enters the lookup table. */
  ghost predicate Shrinks(k: Known, l: Known) { forall t :: Pooled(l, t) ==> Pooled(k, t) }

  lemma MinusShrinks(k: Known, hs: set<Hash>)
    ensures Shrinks(k, k.Minus(hs))
  {
  }

  lemma ShrinksOn(k: Known, l: Known, m: Known)
    requires Shrinks(k, l) && Shrinks(l, m)
    ensures Shrinks(k, m)
  {
    hide Pooled;
  }

  lemma ShrinksNot(k: Known)
    ensures Shrinks(k, k)
  {
  }

  lemma {:induction false} EnqueueAllShrinks(p: Pool, txs: seq<Tx>, now: Time)
    ensures Shrinks(p.known, EnqueueAll(p, txs, now).known)
    decreases |txs|
  {
    hide Shrinks, Known.Minus;
    if txs == [] {
      ShrinksNot(p.known);
    } else {
      var q := Enqueue(p, txs[0], false, false, now).pool;
      EnqueueShrinks(p, txs[0], now);
      EnqueueAllShrinks(q, txs[1..], now);
      ShrinksOn(p.known, q.known, EnqueueAll(q, txs[1..], now).known);
    }
  }

  lemma EnqueueShrinks(p: Pool, tx: Tx, now: Time)
    ensures Shrinks(p.known, Enqueue(p, tx, false, false, now).pool.known)
  {
    var l := At(p.queue, tx.sender);
    ShrinksNot(p.known);
    if HasNonce(l, tx.nonce) { MinusShrinks(p.known, {AtNonce(l, tx.nonce).hash}); }
    hide Shrinks, Known.Minus, Put, Accepts, HasNonce, AtNonce;
  }

  lemma DemoteAccountShrinks(p: Pool, a: Address, now: Time)
    ensures Shrinks(p.known, DemoteAccount(p, a, now).known)
  {
    hide Shrinks, Known.Minus, DemotionSplit, HasGap, EnqueueAll, Hashes;
    ShrinksNot(p.known);
    if a in p.pending {
      var s := DemotionSplit(p, a);
      var q := p.(pending := SetList(p.pending, a, if HasGap(p, a) then [] else s.kept),
                  known := p.known.Minus(Hashes(s.dropped)));
      var out := s.ready + (if HasGap(p, a) then s.kept else []);
      MinusShrinks(p.known, Hashes(s.dropped));
      EnqueueAllShrinks(q, out, now);
      ShrinksOn(p.known, q.known, EnqueueAll(q, out, now).known);
    }
  }

  lemma {:induction false} DemoteAllShrinks(p: Pool, accounts: seq<Address>, now: Time)
    ensures Shrinks(p.known, DemoteUnexecutables(p, accounts, now).known)
    decreases |accounts|
  {
    hide Shrinks, DemoteAccount;
    if accounts == [] {
      ShrinksNot(p.known);
    } else {
      var q := DemoteAccount(p, accounts[0], now);
      DemoteAccountShrinks(p, accounts[0], now);
      DemoteAllShrinks(q, accounts[1..], now);
      ShrinksOn(p.known, q.known, DemoteUnexecutables(q, accounts[1..], now).known);
    }
  }

  // ---------------------------------------------------------------- limits

  lemma TruncatePendingFollows(p: Pool)
    ensures Follows(p, PoolTruncation.TruncatePending(p), [])
  {
    if PendingSize(p) <= p.cfg.globalSlots {
      Still(p, []);
    } else {
      var lens := LevelLens(p, WaterLevel(p));
      hide LevelLens, WaterLevel, CutHashes;
      var q := CapTo(p, lens);
      assert forall t :: In(q.pending, t) ==> In(p.pending, t);
      Fewer(p, q, CutHashes(p, lens), []);
    }
  }

  lemma {:induction false} DropQueueShrinks(p: Pool, order: seq<Address>, drop: nat)
    ensures Shrinks(p.known, DropQueue(p, order, drop).known)
    decreases |order|
  {
    hide Shrinks, Hashes, Known.Minus;
    ShrinksNot(p.known);
    if order != [] && drop > 0 {
      var l := At(p.queue, order[0]);
      if |l| <= drop {
        var q := CapQueue(p, order[0], 0);
        MinusShrinks(p.known, Hashes(l[0..]));
        DropQueueShrinks(q, order[1..], drop - |l|);
        ShrinksOn(p.known, q.known, DropQueue(q, order[1..], drop - |l|).known);
      } else {
        MinusShrinks(p.known, Hashes(l[|l| - drop..]));
      }
    }
  }

  lemma TruncateQueueFollows(p: Pool, order: seq<Address>)
    ensures Follows(p, PoolTruncation.TruncateQueue(p, order).(changes := 0), [])
  {
    var drop := if QueueSize(p) <= p.cfg.globalQueue then 0 else QueueSize(p) - p.cfg.globalQueue;
    DropQueueFrame(p, order, drop);
    DropQueueShrinks(p, order, drop);
    ShrinksNot(p.known);
    hide DropQueue, Funded, Pooled;
  }

  // ---------------------------------------------------------------- reorgs

  /** What a reset offers to the pool. */
  function Offered(h: Head): seq<Tx> { if h.NewHead? then h.reinject else [] }

  lemma ResetPooled(p: Pool, h: Head, now: Time)
    requires Inv(p) && HeadOk(h)
    ensures forall t :: Pooled(AfterReset(p, h, now).known, t) ==> Pooled(p.known, t) || (t in Offered(h) && Fuelled(t))
  {
    if h.NewHead? {
      var q := p.(chain := h.chain, vnonces := map[]);
      InvIgnoresNonces(p, q);
      AddAllFollows(q, h.reinject, false, h.victims, now);
    }
    hide AddAll, InvT, Pooled, Fuelled, Funded;
  }

  /** The demotion leaves funded transactions only. */
  lemma DemotedFunded(p: Pool, plan: Plan, now: Time)
    requires Inv(p) && PlanOk(p, plan, now) && !plan.head.NoReset?
    ensures Executable(AfterDemote(p, plan, now))
  {
    hide *;
    PlanHead(p, plan, now);
    DemotionExactly(p, plan, now);
    KeptExecutable(AfterPromote(p, plan, now), AfterDemote(p, plan, now));
  }

  lemma KeptExecutable(r: Pool, d: Pool)
    requires d.chain == r.chain && forall a :: At(d.pending, a) == DemotionKept(r, a)
    ensures Executable(d)
  {
    hide DemotionKept, Unpayable, Chain.Balance;
    forall t | In(d.pending, t) ensures Funded(d.chain, t) {
      assert t in At(d.pending, t.sender);
      KeptFunded(r, t.sender);
    }
  }

  lemma KeptFunded(r: Pool, a: Address)
    ensures forall t :: t in DemotionKept(r, a) ==> !Unpayable(t, r.chain.Balance(a), r.chain.gasLimit)
  {
    var l := At(r.pending, a);
    var live := l[Rank(l, r.chain.Nonce(a))..];
    var k := PayableRun(live, r.chain.Balance(a), r.chain.gasLimit);
    forall t | t in live[..k] ensures !Unpayable(t, r.chain.Balance(a), r.chain.gasLimit) {
      var i: nat :| i < k && live[i] == t;
    }
  }

  /** What a reorg leaves in the pool was there or has been reinjected with its gas. */
  lemma ReorgPooled(p: Pool, plan: Plan, now: Time)
    requires Inv(p) && HeadOk(plan.head)
    ensures forall t :: Pooled(Reorg(p, plan, now).known, t) ==>
      Pooled(p.known, t) || (t in Offered(plan.head) && Fuelled(t))
  {
    hide InvT, Pooled, Fuelled, AfterReset, PromoteExecutables, DemoteUnexecutables, TruncatePending, TruncateQueue;
    ReorgKeepsInv(p, plan, now);
    ResetPooled(p, plan.head, now);
    var q, r, d := AfterReset(p, plan.head, now), AfterPromote(p, plan, now), AfterDemote(p, plan, now);
    PromoteExecutablesFollows(q, plan.promote, now);
    DemoteAllShrinks(r, plan.demote, now);
    TruncatePendingFollows(d);
    TruncateQueueFollows(TruncatePending(d), plan.age);
    hide Funded, In;
  }

  lemma ReorgExecutable(p: Pool, plan: Plan, now: Time)
    requires Inv(p) && PlanOk(p, plan, now) && Executable(p)
    ensures Executable(Reorg(p, plan, now))
  {
    hide InvT, Executable, AfterReset, PromoteExecutables, DemoteUnexecutables, TruncatePending, TruncateQueue, Follows;
    ReorgKeepsInv(p, plan, now);
    var q, d := AfterReset(p, plan.head, now), AfterDemote(p, plan, now);
    if plan.head.NoReset? {
      NoResetIs(p, plan, now);
      PromoteExecutablesFollows(p, plan.promote, now);
      Inherited(p, d, []);
    } else {
      DemotedFunded(p, plan, now);
    }
    TruncatePendingFollows(d);
    Inherited(d, TruncatePending(d), []);
    TruncateQueueFollows(TruncatePending(d), plan.age);
    Inherited(TruncatePending(d), Reorg(p, plan, now), []);
  }

  lemma NoResetIs(p: Pool, plan: Plan, now: Time)
    requires HeadOk(plan.head) && plan.head.NoReset?
    ensures AfterDemote(p, plan, now) == PromoteExecutables(p, plan.promote, now)
  {
    hide PromoteExecutables;
  }

  // ---------------------------------------------------------------- every run

  lemma {:induction false} EvictFollows(p: Pool, accounts: seq<Address>, now: Time)
    requires Inv(p)
    ensures Follows(p, Evict(p, accounts, now), [])
    decreases |accounts|
  {
    hide InvT, RemoveAll, Follows;
    if accounts == [] {
      Still(p, []);
    } else {
      var l := At(p.queue, accounts[0]);
      var q := RemoveAll(p, l, now);
      RemoveAllKeepsInv(p, l, now);
      RemoveAllFollows(p, l, now, []);
      EvictFollows(q, accounts[1..], now);
      Onwards(p, q, Evict(q, accounts[1..], now), []);
    }
  }

  lemma PricedFollows(p: Pool, price: nat)
    ensures Follows(p, p.(gasPrice := price), [])
  {
  }

  lemma ApplyExecutable(p: Pool, op: Op)
    requires Inv(p) && Enabled(p, op) && Executable(p) && AllFuelled(p)
    ensures Executable(Apply(p, op)) && AllFuelled(Apply(p, op))
  {
    hide InvT, Executable, AllFuelled, AddAll, RemoveAll, Evict, Reorg, Follows, PlanOk, BelowTip, Expired;
    match op
    case AddTxs(txs, local, vs, now) =>
      AddAllFollows(p, txs, local, vs, now);
      Inherited(p, Apply(p, op), txs);
    case Raise(price, drop, now) =>
      var q := p.(gasPrice := price);
      PricedFollows(p, price);
      InvIgnoresNonces(p, q);
      RemoveAllFollows(q, drop, now, []);
      Onwards(p, q, Apply(p, op), []);
      Inherited(p, Apply(p, op), []);
    case Tick(expired, now) =>
      EvictFollows(p, expired, now);
      Inherited(p, Apply(p, op), []);
    case RunReorg(plan, now) =>
      ReorgExecutable(p, plan, now);
      PlanHead(p, plan, now);
      ReorgPooled(p, plan, now);
      StillFuelled(p, Apply(p, op));
  }

  lemma StillFuelled(p: Pool, q: Pool)
    requires AllFuelled(p) && forall t :: Pooled(q.known, t) ==> Pooled(p.known, t) || Fuelled(t)
    ensures AllFuelled(q)
  {
    hide Pooled, Fuelled;
  }

  lemma InitialExecutable(cfg: Config, chain: Chain, accounts: set<Address>)
    ensures Executable(InitialPool(cfg, chain, accounts)) && AllFuelled(InitialPool(cfg, chain, accounts))
  {
  }

  /**
   In every state of every run each pending transaction has its intrinsic gas, fits the head's gas limit
   and is within its sender's balance; whatever heads there were.
   */
  lemma {:induction false} ExecutableInEveryRun(states: seq<Pool>, ops: seq<Op>, i: nat)
    requires IsRun(states, ops) && i < |states|
    ensures Executable(states[i]) && AllFuelled(states[i])
    decreases i
  {
    hide Executable, AllFuelled, InvT;
    if i == 0 {
      var cfg, chain, accounts :| states[0] == InitialPool(cfg, chain, accounts);
      InitialExecutable(cfg, chain, accounts);
    } else {
      ExecutableInEveryRun(states, ops, i - 1);
      InvInEveryRun(states, ops, i - 1);
      ApplyExecutable(states[i - 1], ops[i - 1]);
    }
  }

  // ---------------------------------------------------------------- heads without room

  /** Without pending transactions, additions leave it at that. */
  lemma {:induction false} AddAllNonePending(p: Pool, txs: seq<Tx>, local: bool, vs: seq<Victims>, now: Time)
    requires |vs| == |txs| && p.pending == map[]
    ensures AddAll(p, txs, local, vs, now).pending == map[]
    decreases |txs|
  {
    hide Add;
    if txs != [] {
      AddNonePending(p, txs[0], local, vs[0], now);
      AddAllNonePending(Add(p, txs[0], local, vs[0], now).pool, txs[1..], local, vs[1..], now);
    }
  }

  lemma AddNonePending(p: Pool, tx: Tx, local: bool, v: Victims, now: Time)
    requires p.pending == map[]
    ensures Add(p, tx, local, v, now).pool.pending == map[]
  {
    hide Screen, DropAll, Place;
    var isLocal := local || tx.sender in p.accounts;
    DropAllNonePending(p, v.drop, now);
    PlaceNonePending(p, tx, local, isLocal, now);
    PlaceNonePending(DropAll(p, v.drop, now), tx, local, isLocal, now);
  }

  lemma PlaceNonePending(p: Pool, tx: Tx, local: bool, isLocal: bool, now: Time)
    requires p.pending == map[]
    ensures Place(p, tx, local, isLocal, now).pool.pending == map[]
  {
    hide Accepts, Put;
  }

  lemma {:induction false} DropAllNonePending(p: Pool, txs: seq<Tx>, now: Time)
    requires p.pending == map[]
    ensures DropAll(p, txs, now).pending == map[]
    decreases |txs|
  {
    if txs != [] { DropAllNonePending(DropOne(p, txs[0].hash, now), txs[1..], now); }
  }

  /** What is pending at a head fits its gas limit: nothing, if that is less than a plain transaction takes. */
  lemma NothingFits(p: Pool)
    requires Inv(p) && Executable(p) && AllFuelled(p) && p.chain.gasLimit < TX_GAS
    ensures p.pending == map[]
  {
    if a :| a in p.pending {
      var t := p.pending[a][0];
      assert In(p.pending, t) && Listed(p, [], t);
      assert Pooled(p.known, t);
    }
  }

  /** After the reinjection no account is stranded at heads without room for a plain transaction. */
  lemma NobodyStranded(p: Pool, h: Head, now: Time, a: Address)
    requires Inv(p) && Contiguous(p) && Executable(p) && AllFuelled(p) && HeadOk(h) && h.NewHead?
    requires p.chain.gasLimit < TX_GAS || h.chain.gasLimit < TX_GAS
    ensures !Stranded(AfterReset(p, h, now), p.chain, a)
  {
    var q := AfterReset(p, h, now);
    ResetPooled(p, h, now);
    ResetChain(p, h, now);
    ResetKeepsInv(p, h, now);
    if p.chain.gasLimit < TX_GAS {
      NothingFits(p);
      AddAllNonePending(p.(chain := h.chain, vnonces := map[]), h.reinject, false, h.victims, now);
    } else if At(q.pending, a) != [] {
      StillFuelled(p, q);
      FirstFuelled(q, a);
    }
    hide AddAll, InvT, AllFuelled, Executable;
  }

  lemma FirstFuelled(q: Pool, a: Address)
    requires Inv(q) && AllFuelled(q) && At(q.pending, a) != []
    ensures Fuelled(At(q.pending, a)[0])
  {
    var t := At(q.pending, a)[0];
    AtFacts(q.pending, a);
    assert In(q.pending, t) && Listed(q, [], t);
    assert Pooled(q.known, t);
  }

  lemma ResetKeepsInv(p: Pool, h: Head, now: Time)
    requires Inv(p) && HeadOk(h)
    ensures Inv(AfterReset(p, h, now))
  {
    ReorgKeepsInv(p, Plan(h, [], [], []), now);
    hide InvT, AfterReset, AfterPromote, AfterDemote, Reorg;
  }
}
