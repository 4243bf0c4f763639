/**
 The price floor: in every run the remote side of the lookup table holds only transactions with at least
 the pool's gas price, of accounts that are not local.
 */
module PoolFloor {
  import opened Transactions
  import opened TxLists
  import opened PoolState
  import opened PoolInvariant
  import opened PoolPreservation
  import opened PoolTruncation
  import opened PoolRuns
  import opened PoolAdmission
  import opened PoolVictims

  ghost predicate Floor(p: Pool) {
    forall t :: RemoteTx(p, t) ==> t.tipCap >= p.gasPrice && t.sender !in p.accounts
  }

  /** With the same price and the same local accounts, nothing is new on the remote side. */
  ghost predicate Thins(p: Pool, q: Pool) {
    && q.gasPrice == p.gasPrice && q.accounts == p.accounts
    && forall t :: RemoteTx(q, t) ==> RemoteTx(p, t)
  }

  lemma ThinsOn(p: Pool, q: Pool, r: Pool)
    requires Thins(p, q) && Thins(q, r)
    ensures Thins(p, r)
  {
    hide RemoteTx;
  }

  lemma FloorKept(p: Pool, q: Pool)
    requires Floor(p) && Thins(p, q)
    ensures Floor(q)
  {
    hide RemoteTx;
  }

  lemma Forgetting(p: Pool, q: Pool, hs: set<Hash>)
    requires q.gasPrice == p.gasPrice && q.accounts == p.accounts && q.known == p.known.Minus(hs)
    ensures Thins(p, q)
  {
  }

  lemma Unchanged(p: Pool, q: Pool)
    requires q.gasPrice == p.gasPrice && q.accounts == p.accounts && q.known == p.known
    ensures Thins(p, q)
  {
  }

  // ---------------------------------------------------------------- additions

  lemma AddKeepsFloor(p: Pool, tx: Tx, local: bool, v: Victims, now: Time)
    requires Inv(p) && Floor(p)
    ensures Floor(Add(p, tx, local, v, now).pool)
  {
    var o, q := Add(p, tx, local, v, now), Base(p, tx, v, now);
    AddedExactly(p, tx, local, v, now);
    BaseThins(p, tx, v, now);
    BaseInv(p, tx, v, now);
    AddKeepsInv(p, tx, local, v, now);
    FloorKept(p, q);
    hide InvT, Add, Base, ListedAs, TouchesOnly, SidedAs, Floor;
    if o.verdict.Added? {
      AddedPrice(p, tx, local, v, now);
      PlacedFloor(q, o.pool, tx, local, now);
    }
  }

  lemma AddedPrice(p: Pool, tx: Tx, local: bool, v: Victims, now: Time)
    requires Inv(p) && Add(p, tx, local, v, now).verdict.Added?
    ensures var q := Base(p, tx, v, now);
      q.gasPrice == p.gasPrice && q.accounts == p.accounts && (Trusted(q, tx, local) || tx.tipCap >= q.gasPrice)
  {
    AdmittedExactly(p, tx, local, v, now);
    BaseThins(p, tx, v, now);
    hide InvT, Add, Base, Held, Crowded, Future, Churns, OnList;
  }

  lemma BaseThins(p: Pool, tx: Tx, v: Victims, now: Time)
    requires Inv(p)
    ensures Thins(p, Base(p, tx, v, now))
  {
    VictimsExactly(p, v.drop, now);
    hide InvT, DropAll, Crowded, OnList, LocalTx, RemoteTx;
    forall t | RemoteTx(Base(p, tx, v, now), t) ensures RemoteTx(p, t) {
      assert Crowded(p, tx) ==> SideWithout(p, DropAll(p, v.drop, now), Hashes(v.drop), t);
    }
  }

  lemma PlacedFloor(q: Pool, r: Pool, tx: Tx, local: bool, now: Time)
    requires Inv(q) && Inv(r) && Floor(q)
    requires ListedAs(q, r, tx) && TouchesOnly(q, r, tx, local, now) && SidedAs(q, r, tx, Trusted(q, tx, local))
    requires Trusted(q, tx, local) || tx.tipCap >= q.gasPrice
    ensures Floor(r)
  {
    forall t | RemoteTx(r, t) ensures t.tipCap >= r.gasPrice && t.sender !in r.accounts {
      OneSide(r, t);
      OneSide(q, t);
      OldOrNew(q, r, tx, t);
      hide InvT, ListedAs, OnList, LocalTx, RemoteTx, Taken;
    }
  }

  lemma OldOrNew(q: Pool, r: Pool, tx: Tx, t: Tx)
    requires ListedAs(q, r, tx)
    ensures OnList(r, t) ==> t == tx || OnList(q, t)
  {
    hide Taken;
  }

  lemma {:induction false} AddAllKeepsFloor(p: Pool, txs: seq<Tx>, local: bool, vs: seq<Victims>, now: Time)
    requires Inv(p) && Floor(p) && |vs| == |txs|
    ensures Floor(AddAll(p, txs, local, vs, now))
    decreases |txs|
  {
    hide InvT, Add, Floor;
    if txs != [] {
      AddKeepsFloor(p, txs[0], local, vs[0], now);
      AddKeepsInv(p, txs[0], local, vs[0], now);
      AddAllKeepsFloor(Add(p, txs[0], local, vs[0], now).pool, txs[1..], local, vs[1..], now);
    }
  }

  // ---------------------------------------------------------------- reorgs

  lemma PromoteThins(p: Pool, a: Address, now: Time)
    requires Inv(p)
    ensures Thins(p, PromoteAccount(p, a, now))
  {
    hide Thins;
    if a in p.queue {
      var s := PromotionSplit(p, a);
      PromotionToTransit(p, a);
      var q := p.(queue := SetList(p.queue, a, s.kept), known := p.known.Minus(Hashes(s.dropped)));
      PromoteAllTransit(q, a, s.ready, now);
      hide InvT, PromotionSplit, PromoteAll, Hashes, Known.Minus;
      Forgetting(p, PromoteAccount(p, a, now), Hashes(s.dropped));
    } else {
      Unchanged(p, p);
    }
  }

  lemma {:induction false} PromotionThins(p: Pool, accounts: seq<Address>, now: Time)
    requires Inv(p)
    ensures Thins(p, PromoteExecutables(p, accounts, now))
    decreases |accounts|
  {
    hide InvT, PromoteAccount, Thins;
    if accounts == [] {
      Unchanged(p, p);
    } else {
      var q := PromoteAccount(p, accounts[0], now);
      PromoteThins(p, accounts[0], now);
      PromoteAccountKeepsInv(p, accounts[0], now);
      PromotionThins(q, accounts[1..], now);
      ThinsOn(p, q, PromoteExecutables(q, accounts[1..], now));
    }
  }

  lemma DemoteThins(p: Pool, a: Address, now: Time)
    requires Inv(p)
    ensures Thins(p, DemoteAccount(p, a, now))
  {
    hide Thins;
    if a in p.pending {
      var gone := Hashes(DemotionSplit(p, a).dropped);
      DemotionToTransit(p, a);
      var q := p.(pending := SetList(p.pending, a, DemotionKept(p, a)), known := p.known.Minus(gone));
      EnqueueAllTransit(q, DemotionPostponed(p, a), now);
      hide InvT, DemotionSplit, HasGap, EnqueueAll, Hashes, Known.Minus;
      Forgetting(p, DemoteAccount(p, a, now), gone);
    } else {
      Unchanged(p, p);
    }
  }

  lemma {:induction false} DemotionThins(p: Pool, accounts: seq<Address>, now: Time)
    requires Inv(p)
    ensures Thins(p, DemoteUnexecutables(p, accounts, now))
    decreases |accounts|
  {
    hide InvT, DemoteAccount, Thins;
    if accounts == [] {
      Unchanged(p, p);
    } else {
      var q := DemoteAccount(p, accounts[0], now);
      DemoteThins(p, accounts[0], now);
      DemoteAccountKeepsInv(p, accounts[0], now);
      DemotionThins(q, accounts[1..], now);
      ThinsOn(p, q, DemoteUnexecutables(q, accounts[1..], now));
    }
  }

  lemma TruncationThins(p: Pool)
    ensures Thins(p, TruncatePending(p))
  {
    if PendingSize(p) <= p.cfg.globalSlots {
      Unchanged(p, p);
    } else {
      var lens := LevelLens(p, WaterLevel(p));
      hide LevelLens, WaterLevel, CutHashes, Known.Minus;
      Forgetting(p, CapTo(p, lens), CutHashes(p, lens));
    }
  }

  lemma {:induction false} DropQueueThins(p: Pool, order: seq<Address>, drop: nat)
    ensures Thins(p, DropQueue(p, order, drop))
    decreases |order|
  {
    hide Thins, Hashes, Known.Minus;
    Unchanged(p, p);
    if order != [] && drop > 0 {
      var l := At(p.queue, order[0]);
      var q := CapQueue(p, order[0], if |l| <= drop then 0 else |l| - drop);
      Forgetting(p, q, Hashes(l[if |l| <= drop then 0 else |l| - drop..]));
      if |l| <= drop {
        DropQueueThins(q, order[1..], drop - |l|);
        ThinsOn(p, q, DropQueue(q, order[1..], drop - |l|));
      }
    }
  }

  lemma QueueThins(p: Pool, order: seq<Address>)
    ensures Thins(p, TruncateQueue(p, order).(changes := 0))
  {
    var q := TruncateQueue(p, order);
    var drop := if QueueSize(p) <= p.cfg.globalQueue then 0 else QueueSize(p) - p.cfg.globalQueue;
    DropQueueThins(p, order, drop);
    Unchanged(p, p);
    Unchanged(q, q.(changes := 0));
    ThinsOn(p, q, q.(changes := 0));
  }

  lemma ResetKeepsFloor(p: Pool, h: Head, now: Time)
    requires Inv(p) && HeadOk(h) && Floor(p)
    ensures Floor(AfterReset(p, h, now))
  {
    hide Floor, AddAll, InvT;
    if h.NewHead? {
      var q := p.(chain := h.chain, vnonces := map[]);
      InvIgnoresNonces(p, q);
      Unchanged(p, q);
      FloorKept(p, q);
      AddAllKeepsFloor(q, h.reinject, false, h.victims, now);
    }
  }

  lemma ReorgKeepsFloor(p: Pool, plan: Plan, now: Time)
    requires Inv(p) && HeadOk(plan.head) && Floor(p)
    ensures Floor(Reorg(p, plan, now))
  {
    hide InvT, Floor, Thins, AfterReset, PromoteExecutables, DemoteUnexecutables, TruncatePending, TruncateQueue;
    ReorgKeepsInv(p, plan, now);
    var q, r, d := AfterReset(p, plan.head, now), AfterPromote(p, plan, now), AfterDemote(p, plan, now);
    ResetKeepsFloor(p, plan.head, now);
    PromotionThins(q, plan.promote, now);
    DemotionThins(r, plan.demote, now);
    var s := DemoteUnexecutables(r, plan.demote, now);
    Unchanged(s, SettleNonces(s));
    TruncationThins(d);
    QueueThins(TruncatePending(d), plan.age);
    FloorKept(q, r);
    FloorKept(r, s);
    FloorKept(s, SettleNonces(s));
    FloorKept(d, TruncatePending(d));
    FloorKept(TruncatePending(d), Reorg(p, plan, now));
  }

  // ---------------------------------------------------------------- every run

  lemma {:induction false} EvictThins(p: Pool, accounts: seq<Address>, now: Time)
    requires Inv(p)
    ensures Thins(p, Evict(p, accounts, now))
    decreases |accounts|
  {
    hide InvT, RemoveAll, Thins;
    if accounts == [] {
      Unchanged(p, p);
    } else {
      var l := At(p.queue, accounts[0]);
      var q := RemoveAll(p, l, now);
      RemoveAllThins(p, l, now);
      RemoveAllKeepsInv(p, l, now);
      EvictThins(q, accounts[1..], now);
      ThinsOn(p, q, Evict(q, accounts[1..], now));
    }
  }

  lemma RemoveAllThins(p: Pool, txs: seq<Tx>, now: Time)
    requires Inv(p)
    ensures Thins(p, RemoveAll(p, txs, now))
  {
    RemovesAll(p, txs, now);
    var q := RemoveAll(p, txs, now);
    hide InvT, RemoveAll, OnList, LocalTx, RemoteTx;
    forall t | RemoteTx(q, t) ensures RemoteTx(p, t) { assert SideWithout(p, q, Hashes(txs), t); }
  }

  lemma PriceKeepsFloor(p: Pool, price: nat, drop: seq<Tx>, now: Time)
    requires Inv(p) && BelowTip(p, price, drop) && Floor(p)
    ensures Floor(SetGasPrice(p, price, drop, now))
  {
    PricedExactly(p, price, drop, now);
    hide InvT, SetGasPrice, BelowTip, RemoteTx, LocalTx;
  }

  lemma ApplyKeepsFloor(p: Pool, op: Op)
    requires Inv(p) && Enabled(p, op) && Floor(p)
    ensures Floor(Apply(p, op))
  {
    hide InvT, Floor, AddAll, SetGasPrice, Evict, Reorg, Thins, PlanOk, BelowTip, Expired;
    match op
    case AddTxs(txs, local, vs, now) => AddAllKeepsFloor(p, txs, local, vs, now);
    case Raise(price, drop, now) => PriceKeepsFloor(p, price, drop, now);
    case Tick(expired, now) =>
      EvictThins(p, expired, now);
      FloorKept(p, Apply(p, op));
    case RunReorg(plan, now) =>
      PlanHead(p, plan, now);
      ReorgKeepsFloor(p, plan, now);
  }

  /**
   In every state of every run each transaction on the remote side of the table has at least the gas price
   of the moment, however that was raised and lowered, and belongs to no local account.
   */
  lemma {:induction false} FloorInEveryRun(states: seq<Pool>, ops: seq<Op>, i: nat, t: Tx)
    requires IsRun(states, ops) && i < |states|
    requires t.hash in states[i].known.remotes && states[i].known.remotes[t.hash] == t
    ensures t.tipCap >= states[i].gasPrice && t.sender !in states[i].accounts
  {
    hide IsRun, InvT;
    FloorInRun(states, ops, i);
  }

  lemma {:induction false} FloorInRun(states: seq<Pool>, ops: seq<Op>, i: nat)
    requires IsRun(states, ops) && i < |states|
    ensures Floor(states[i])
    decreases i
  {
    hide Floor, InvT;
    if i == 0 {
      var cfg, chain, accounts :| states[0] == InitialPool(cfg, chain, accounts);
      InitialFloor(cfg, chain, accounts);
    } else {
      FloorInRun(states, ops, i - 1);
      InvInEveryRun(states, ops, i - 1);
      ApplyKeepsFloor(states[i - 1], ops[i - 1]);
    }
  }

  lemma InitialFloor(cfg: Config, chain: Chain, accounts: set<Address>)
    ensures Floor(InitialPool(cfg, chain, accounts))
  {
  }
}
