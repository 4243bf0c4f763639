/** How a reorg leaves the pool: within its limits, with the changes counted from zero again. */
module PoolReorgs {
  import opened Sums
  import opened Transactions
  import opened TxLists
  import opened PoolState
  import opened PoolInvariant
  import opened PoolPreservation
  import opened PoolTruncation
  import opened PoolRuns
  import opened PoolAdmission
  import opened PoolVictims
  import opened PoolFloor

  // ---------------------------------------------------------------- counting

  ghost function Lengths(m: Lists): nat { Sum(m.Keys, a => |At(m, a)|) }

  /** The lengths of the lists add up to the number of transactions. */
  lemma {:induction false} CountIs(m: Lists)
    requires ListsOk(m)
    ensures Lengths(m) == |AllIn(m)|
    decreases |m|
  {
    if m == map[] {
      assert AllIn(m) == {};
    } else {
      var a :| a in m;
      var rest := m - {a};
      LengthsWithout(m, a);
      SortedDistinct(m[a]);
      assert m[a] == [] + m[a] && rest == SetList(m, a, []);
      ListCount(m, a, [], m[a]);
      SmallerMap(m, a);
      hide ListsOk, AllIn;
      CountIs(rest);
    }
  }

  lemma SmallerMap(m: Lists, a: Address)
    requires ListsOk(m) && a in m
    ensures |m - {a}| < |m| && ListsOk(m - {a})
  {
    var rest := m - {a};
    assert rest.Keys == m.Keys - {a};
    assert |rest.Keys| == |m.Keys| - 1;
  }

  lemma LengthsWithout(m: Lists, a: Address)
    requires a in m
    ensures Lengths(m) == |m[a]| + Lengths(m - {a})
  {
    var rest := m - {a};
    SumRemove(m.Keys, b => |At(m, b)|, a);
    assert rest.Keys == m.Keys - {a};
    SumAgree(rest.Keys, b => |At(m, b)|, b => |At(rest, b)|);
  }

  // ---------------------------------------------------------------- settings

  ghost predicate SameConfig(p: Pool, q: Pool) {
    q.cfg == p.cfg && q.gasPrice == p.gasPrice && q.accounts == p.accounts
  }

  lemma AddSettings(p: Pool, tx: Tx, v: Victims, now: Time)
    requires Inv(p)
    ensures var q := Add(p, tx, false, v, now).pool; SameConfig(p, q) && q.chain == p.chain
  {
    AddedExactly(p, tx, false, v, now);
    VictimsExactly(p, v.drop, now);
    hide InvT, Add, DropAll, ListedAs, SidedAs, Removes, Crowded;
  }

  lemma {:induction false} AddAllSettings(p: Pool, txs: seq<Tx>, vs: seq<Victims>, now: Time)
    requires Inv(p) && |vs| == |txs|
    ensures var q := AddAll(p, txs, false, vs, now); SameConfig(p, q) && q.chain == p.chain
    decreases |txs|
  {
    hide InvT, Add;
    if txs != [] {
      AddSettings(p, txs[0], vs[0], now);
      AddKeepsInv(p, txs[0], false, vs[0], now);
      AddAllSettings(Add(p, txs[0], false, vs[0], now).pool, txs[1..], vs[1..], now);
    }
  }

  lemma PromoteSettings(p: Pool, a: Address, now: Time)
    requires Inv(p)
    ensures var q := PromoteAccount(p, a, now); SameConfig(p, q) && q.chain == p.chain
  {
    if a in p.queue {
      var s := PromotionSplit(p, a);
      PromotionToTransit(p, a);
      var q := p.(queue := SetList(p.queue, a, s.kept), known := p.known.Minus(Hashes(s.dropped)));
      PromoteAllTransit(q, a, s.ready, now);
      hide InvT, PromotionSplit, PromoteAll, Hashes;
    }
  }

  lemma {:induction false} PromotionSettings(p: Pool, accounts: seq<Address>, now: Time)
    requires Inv(p)
    ensures var q := PromoteExecutables(p, accounts, now); SameConfig(p, q) && q.chain == p.chain
    decreases |accounts|
  {
    hide InvT, PromoteAccount;
    if accounts != [] {
      PromoteSettings(p, accounts[0], now);
      PromoteAccountKeepsInv(p, accounts[0], now);
      PromotionSettings(PromoteAccount(p, accounts[0], now), accounts[1..], now);
    }
  }

  lemma DemoteSettings(p: Pool, a: Address, now: Time)
    requires Inv(p)
    ensures var q := DemoteAccount(p, a, now); SameConfig(p, q) && q.chain == p.chain
  {
    if a in p.pending {
      DemotionToTransit(p, a);
      var q := p.(pending := SetList(p.pending, a, DemotionKept(p, a)),
                  known := p.known.Minus(Hashes(DemotionSplit(p, a).dropped)));
      EnqueueAllTransit(q, DemotionPostponed(p, a), now);
      hide InvT, DemotionSplit, HasGap, EnqueueAll, Hashes;
    }
  }

  lemma {:induction false} DemotionSettings(p: Pool, accounts: seq<Address>, now: Time)
    requires Inv(p)
    ensures var q := DemoteUnexecutables(p, accounts, now); SameConfig(p, q) && q.chain == p.chain
    decreases |accounts|
  {
    hide InvT, DemoteAccount;
    if accounts != [] {
      DemoteSettings(p, accounts[0], now);
      DemoteAccountKeepsInv(p, accounts[0], now);
      DemotionSettings(DemoteAccount(p, accounts[0], now), accounts[1..], now);
    }
  }

  lemma LimitSettings(p: Pool, order: seq<Address>)
    ensures SameConfig(p, TruncatePending(p)) && TruncatePending(p).chain == p.chain
    ensures SameConfig(p, TruncateQueue(p, order)) && TruncateQueue(p, order).chain == p.chain
    ensures TruncateQueue(p, order).pending == p.pending
  {
    DropQueueFrame(p, order, if QueueSize(p) > p.cfg.globalQueue then QueueSize(p) - p.cfg.globalQueue else 0);
    hide DropQueue, LevelLens, WaterLevel, CutHashes;
  }

  lemma BeforeLimits(p: Pool, plan: Plan, now: Time)
    requires Inv(p) && HeadOk(plan.head)
    ensures var d := AfterDemote(p, plan, now);
      SameConfig(p, d) && d.chain == if plan.head.NewHead? then plan.head.chain else p.chain
  {
    hide InvT, PromoteExecutables, DemoteUnexecutables, AddAll;
    ReorgKeepsInv(p, plan, now);
    if plan.head.NewHead? {
      var p1 := p.(chain := plan.head.chain, vnonces := map[]);
      InvIgnoresNonces(p, p1);
      AddAllSettings(p1, plan.head.reinject, plan.head.victims, now);
    }
    PromotionSettings(AfterReset(p, plan.head, now), plan.promote, now);
    DemotionSettings(AfterPromote(p, plan, now), plan.demote, now);
  }

  // ---------------------------------------------------------------- limits

  /** The queue is within its limit, or only local accounts have anything queued. */
  ghost predicate QueueFits(q: Pool) {
    |AllIn(q.queue)| <= q.cfg.globalQueue || forall t :: In(q.queue, t) ==> t.sender in q.accounts
  }

  /** The pending lists are within their limit, or every remote account is within its guarantee. */
  ghost predicate PendingFits(q: Pool) {
    || |AllIn(q.pending)| <= q.cfg.globalSlots
    || forall a :: a !in q.accounts ==> |At(q.pending, a)| <= q.cfg.accountSlots
  }

  lemma OnlyLocals(q: Pool)
    requires Inv(q) && QueueSize(q) == LocalQueued(q)
    ensures forall t :: In(q.queue, t) ==> t.sender in q.accounts
  {
    var f := a => |At(q.queue, a)|;
    var here, away := q.queue.Keys * q.accounts, q.queue.Keys - q.accounts;
    assert here + away == q.queue.Keys;
    SumSplit(here, away, f);
    if a :| a in away {
      SumRemove(away, f, a);
    }
  }

  lemma QueueAfter(p: Pool, order: seq<Address>)
    requires Inv(p) && (QueueSize(p) > p.cfg.globalQueue ==> ByAge(p, order))
    ensures QueueFits(TruncateQueue(p, order))
  {
    var q := TruncateQueue(p, order);
    TruncateQueueKeepsInv(p, order);
    LimitSettings(p, order);
    CountIs(q.queue);
    assert Lengths(q.queue) == QueueSize(q);
    hide TruncateQueue, AllIn;
    if QueueSize(p) > p.cfg.globalQueue {
      QueueLimit(p, order);
      if LocalQueued(p) > p.cfg.globalQueue {
        LocalsStay(p, q);
        OnlyLocals(q);
      }
    } else {
      NoLimit(p, order);
    }
  }

  lemma NoLimit(p: Pool, order: seq<Address>)
    requires QueueSize(p) <= p.cfg.globalQueue
    ensures TruncateQueue(p, order) == p
  {
  }

  lemma LocalsStay(p: Pool, q: Pool)
    requires ListsOk(p.queue) && ListsOk(q.queue) && q.accounts == p.accounts
    requires forall a :: a in p.accounts ==> At(q.queue, a) == At(p.queue, a)
    ensures LocalQueued(q) == LocalQueued(p)
  {
    forall a | a in p.accounts ensures a in q.queue <==> a in p.queue { assert At(q.queue, a) == At(p.queue, a); }
    assert q.queue.Keys * q.accounts == p.queue.Keys * p.accounts;
    SumAgree(p.queue.Keys * p.accounts, a => |At(q.queue, a)|, a => |At(p.queue, a)|);
  }

  lemma PendingAfter(p: Pool)
    requires Inv(p)
    ensures PendingFits(TruncatePending(p))
  {
    var q := TruncatePending(p);
    TruncatePendingKeepsInv(p);
    LimitSettings(p, []);
    CountIs(q.pending);
    assert Lengths(q.pending) == PendingSize(q);
    LimitOrGuarantee(p);
    hide TruncatePending, AllIn;
  }

  /**
   Every reorg leaves the pool at the new head, within both limits as far as local accounts and guarantees
   allow, and with its changes counted from zero; price, local accounts and configuration stay.
   */
  lemma ReorgEnds(p: Pool, plan: Plan, now: Time)
    requires Inv(p) && PlanOk(p, plan, now)
    ensures var q := Reorg(p, plan, now);
      && q.changes == 0 && PendingFits(q) && QueueFits(q)
      && q.chain == (if plan.head.NewHead? then plan.head.chain else p.chain)
      && q.cfg == p.cfg && q.gasPrice == p.gasPrice && q.accounts == p.accounts
  {
    hide *;
    PlanHead(p, plan, now);
    ReorgKeepsInv(p, plan, now);
    BeforeLimits(p, plan, now);
    var d := AfterDemote(p, plan, now);
    LimitSettings(d, plan.age);
    LimitSettings(TruncatePending(d), plan.age);
    PendingAfter(d);
    AgesChosen(p, plan, now);
    SameLimits(p, d);
    SameLimits(d, TruncatePending(d));
    SameLimits(TruncatePending(d), TruncateQueue(TruncatePending(d), plan.age));
    QueueAfter(TruncatePending(d), plan.age);
    FitsOn(TruncatePending(d), TruncateQueue(TruncatePending(d), plan.age), Reorg(p, plan, now));
    ReorgIs(p, plan, now);
  }

  lemma AgesChosen(p: Pool, plan: Plan, now: Time)
    requires PlanOk(p, plan, now) && HeadOk(plan.head)
    ensures var q := TruncatePending(AfterDemote(p, plan, now));
      QueueSize(q) > p.cfg.globalQueue ==> ByAge(q, plan.age)
  {
    hide TruncatePending, AfterDemote, ByAge, QueueSize, AfterReset, AfterPromote;
  }

  lemma SameLimits(p: Pool, q: Pool)
    requires SameConfig(p, q)
    ensures q.cfg == p.cfg && q.gasPrice == p.gasPrice && q.accounts == p.accounts
  {
  }

  lemma ReorgIs(p: Pool, plan: Plan, now: Time)
    requires HeadOk(plan.head)
    ensures Reorg(p, plan, now) == TruncateQueue(TruncatePending(AfterDemote(p, plan, now)), plan.age).(changes := 0)
  {
  }

  lemma FitsOn(d: Pool, t: Pool, q: Pool)
    requires SameConfig(d, t) && t.pending == d.pending
    ensures PendingFits(d) && q == t.(changes := 0) ==> PendingFits(q)
    ensures QueueFits(t) && q == t.(changes := 0) ==> QueueFits(q)
  {
    hide AllIn, In;
  }
}
