/**
 Runs of the pool: any sequence of additions, price changes, evictions and reorgs, in the order the
 pool's mutex lets them in. The price heaps, the iteration order of maps, the heartbeat ties and the
 chain heads are all chosen by the environment.
 */
module PoolRuns {
  import opened Transactions
  import opened PoolState
  import opened PoolInvariant
  import opened PoolPreservation
  import opened PoolTruncation
  import opened PoolContiguity
  import opened PoolGaps

  // ---------------------------------------------------------------- one reorg

  /** The reset part of a reorg: none, one that gives up early, or a switch to a new head. */
  datatype Head = NoReset | Abandoned | NewHead(chain: Chain, reinject: seq<Tx>, victims: seq<Victims>)

  /** A reorg with the orders in which it happens to visit the accounts. */
  datatype Plan = Plan(head: Head, promote: seq<Address>, demote: seq<Address>, age: seq<Address>)

  ghost predicate HeadOk(h: Head) { h.NewHead? ==> |h.victims| == |h.reinject| }

  ghost function AfterReset(p: Pool, h: Head, now: Time): Pool
    requires HeadOk(h)
  {
    if h.NewHead? then Reset(p, h.chain, h.reinject, h.victims, now) else p
  }

  ghost function AfterPromote(p: Pool, plan: Plan, now: Time): Pool
    requires HeadOk(plan.head)
  {
    PromoteExecutables(AfterReset(p, plan.head, now), plan.promote, now)
  }

  ghost function AfterDemote(p: Pool, plan: Plan, now: Time): Pool
    requires HeadOk(plan.head)
  {
    var q := AfterPromote(p, plan, now);
    if plan.head.NoReset? then q else SettleNonces(DemoteUnexecutables(q, plan.demote, now))
  }

  ghost function Reorg(p: Pool, plan: Plan, now: Time): Pool
    requires HeadOk(plan.head)
  {
    TruncateQueue(TruncatePending(AfterDemote(p, plan, now)), plan.age).(changes := 0)
  }

  ghost predicate Enumerates(order: seq<Address>, accounts: set<Address>) {
    Distinct(order) && forall a :: a in order <==> a in accounts
  }

  /** A reset visits every queued and every pending account; the queue is truncated by age. */
  ghost predicate PlanOk(p: Pool, plan: Plan, now: Time) {
    && HeadOk(plan.head)
    && (!plan.head.NoReset? ==>
          && Enumerates(plan.promote, AfterReset(p, plan.head, now).queue.Keys)
          && Enumerates(plan.demote, AfterPromote(p, plan, now).pending.Keys))
    && var q := TruncatePending(AfterDemote(p, plan, now));
      (QueueSize(q) > p.cfg.globalQueue ==> ByAge(q, plan.age))
  }

  // ---------------------------------------------------------------- operations and runs

  /** A remote account whose heartbeat is older than the configured lifetime. */
  predicate Expired(p: Pool, a: Address, now: Time) {
    a in p.queue && a !in p.accounts && a in p.beats && now > p.beats[a] + p.cfg.lifetime
  }

  function Evict(p: Pool, accounts: seq<Address>, now: Time): Pool
    decreases |accounts|
  {
    if accounts == [] then p
    else Evict(RemoveAll(p, At(p.queue, accounts[0]), now), accounts[1..], now)
  }

  function SetGasPrice(p: Pool, price: nat, drop: seq<Tx>, now: Time): Pool {
    RemoveAll(p.(gasPrice := price), drop, now)
  }

  /** The remote transactions below a raised price threshold. */
  ghost predicate BelowTip(p: Pool, price: nat, drop: seq<Tx>) {
    if price <= p.gasPrice then drop == []
    else forall t :: t in drop <==> t.hash in p.known.remotes && p.known.remotes[t.hash] == t && t.tipCap < price
  }

  datatype Op =
    | AddTxs(txs: seq<Tx>, local: bool, victims: seq<Victims>, now: Time)
    | Raise(price: nat, drop: seq<Tx>, now: Time)
    | Tick(expired: seq<Address>, now: Time)
    | RunReorg(plan: Plan, now: Time)

  ghost predicate Enabled(p: Pool, op: Op) {
    match op
    case AddTxs(txs, _, vs, _) => |vs| == |txs|
    case Raise(price, drop, _) => BelowTip(p, price, drop)
    case Tick(expired, now) => Distinct(expired) && forall a :: a in expired <==> Expired(p, a, now)
    case RunReorg(plan, now) => PlanOk(p, plan, now)
  }

  ghost function Apply(p: Pool, op: Op): Pool
    requires Enabled(p, op)
  {
    match op
    case AddTxs(txs, local, vs, now) => AddAll(p, txs, local, vs, now)
    case Raise(price, drop, now) => SetGasPrice(p, price, drop, now)
    case Tick(expired, now) => Evict(p, expired, now)
    case RunReorg(plan, now) => Reorg(p, plan, now)
  }

  /** `states` is what the pool goes through when `ops` happen from a freshly created pool. */
  ghost predicate IsRun(states: seq<Pool>, ops: seq<Op>) {
    && |states| == |ops| + 1
    && (exists cfg, chain, accounts :: states[0] == InitialPool(cfg, chain, accounts))
    && (forall i :: 0 <= i < |ops| ==> Enabled(states[i], ops[i]) && states[i + 1] == Apply(states[i], ops[i]))
  }

  // ---------------------------------------------------------------- the invariant in every run

  lemma {:induction false} EvictKeepsInv(p: Pool, accounts: seq<Address>, now: Time)
    requires Inv(p)
    ensures Inv(Evict(p, accounts, now))
    decreases |accounts|
  {
    if accounts != [] {
      RemoveAllKeepsInv(p, At(p.queue, accounts[0]), now);
      hide InvT, RemoveAll;
      EvictKeepsInv(RemoveAll(p, At(p.queue, accounts[0]), now), accounts[1..], now);
    }
  }

  lemma ReorgKeepsInv(p: Pool, plan: Plan, now: Time)
    requires Inv(p) && HeadOk(plan.head)
    ensures Inv(AfterReset(p, plan.head, now))
    ensures Inv(AfterPromote(p, plan, now))
    ensures Inv(AfterDemote(p, plan, now))
    ensures Inv(TruncatePending(AfterDemote(p, plan, now)))
    ensures Inv(Reorg(p, plan, now))
  {
    hide InvT, PromoteExecutables, DemoteUnexecutables, TruncatePending, TruncateQueue, AddAll;
    if plan.head.NewHead? {
      var p1 := p.(chain := plan.head.chain, vnonces := map[]);
      InvIgnoresNonces(p, p1);
      AddAllKeepsInv(p1, plan.head.reinject, false, plan.head.victims, now);
    }
    PromoteExecutablesKeepsInv(AfterReset(p, plan.head, now), plan.promote, now);
    var q := AfterPromote(p, plan, now);
    DemoteUnexecutablesKeepsInv(q, plan.demote, now);
    InvIgnoresNonces(DemoteUnexecutables(q, plan.demote, now), SettleNonces(DemoteUnexecutables(q, plan.demote, now)));
    var d := AfterDemote(p, plan, now);
    TruncatePendingKeepsInv(d);
    TruncateQueueKeepsInv(TruncatePending(d), plan.age);
    var t := TruncateQueue(TruncatePending(d), plan.age);
    InvIgnoresNonces(t, t.(changes := 0));
  }

  lemma ApplyKeepsInv(p: Pool, op: Op)
    requires Inv(p) && Enabled(p, op)
    ensures Inv(Apply(p, op))
  {
    hide InvT;
    match op
    case AddTxs(txs, local, vs, now) => AddAllKeepsInv(p, txs, local, vs, now);
    case Raise(price, drop, now) =>
      InvIgnoresNonces(p, p.(gasPrice := price));
      RemoveAllKeepsInv(p.(gasPrice := price), drop, now);
    case Tick(expired, now) => EvictKeepsInv(p, expired, now);
    case RunReorg(plan, now) => ReorgKeepsInv(p, plan, now);
  }

  lemma InitialPoolInv(cfg: Config, chain: Chain, accounts: set<Address>)
    ensures Inv(InitialPool(cfg, chain, accounts)) && Contiguous(InitialPool(cfg, chain, accounts))
  {
    var p := InitialPool(cfg, chain, accounts);
    forall a ensures ShapeAt(p, chain, true, a) { }
  }

  /** The pool invariant holds after every operation of every run. */
  lemma {:induction false} InvInEveryRun(states: seq<Pool>, ops: seq<Op>, i: nat)
    requires IsRun(states, ops) && i < |states|
    ensures Inv(states[i])
    decreases i
  {
    if i == 0 {
      var cfg, chain, accounts :| states[0] == InitialPool(cfg, chain, accounts);
      InitialPoolInv(cfg, chain, accounts);
    } else {
      InvInEveryRun(states, ops, i - 1);
      ApplyKeepsInv(states[i - 1], ops[i - 1]);
    }
  }

  // ---------------------------------------------------------------- one reset, exactly

  /** Where a reset leaves the accounts: at their old runs, with virtual nonces started over. */
  lemma ResetStart(p: Pool, plan: Plan, now: Time)
    requires Inv(p) && Contiguous(p) && HeadOk(plan.head) && plan.head.NewHead?
    ensures var q := AfterReset(p, plan.head, now);
      q.chain == plan.head.chain && Inv(q) && forall a :: ShapeAt(q, p.chain, false, a)
  {
    ResetShape(p, plan.head.chain, plan.head.reinject, plan.head.victims, now);
    hide InvT, ShapeAt, AddAll;
  }

  lemma AbandonedStart(p: Pool, a: Address)
    requires Contiguous(p)
    ensures PromotedAt(p, a) && !GapNoticed(p, p.chain, a) && !GapKept(p, p.chain, a)
  {
    assert ShapeAt(p, p.chain, true, a);
    ShapePromoted(p, p.chain, true, a);
  }

  /** The promotion of a reset, account by account. */
  lemma PromotionExactly(p: Pool, plan: Plan, now: Time)
    requires Inv(p) && Contiguous(p) && PlanOk(p, plan, now) && plan.head.NewHead?
    ensures var q := AfterReset(p, plan.head, now);
      AfterPromote(p, plan, now).chain == q.chain && forall a :: Promoted(q, AfterPromote(p, plan, now), p.chain, a)
  {
    var q := AfterReset(p, plan.head, now);
    ResetStart(p, plan, now);
    assert Enumerates(plan.promote, q.queue.Keys);
    hide InvT, ShapeAt, AfterReset, PromoteExecutables, Promoted, TruncatePending, ByAge, AfterDemote;
    forall a ensures if a in plan.promote then Untouched(q, q, a) else Promoted(q, q, p.chain, a) {
      assert ShapeAt(q, p.chain, false, a);
      if a !in plan.promote { NothingToPromote(q, q, p.chain, a); }
    }
    PromoteAllExactly(q, q, p.chain, plan.promote, now);
  }

  /** The demotion that follows, account by account. */
  lemma DemotionExactly(p: Pool, plan: Plan, now: Time)
    requires Inv(p) && PlanOk(p, plan, now) && !plan.head.NoReset?
    ensures var r := AfterPromote(p, plan, now);
      && (forall a :: At(AfterDemote(p, plan, now).pending, a) == DemotionKept(r, a))
      && AfterDemote(p, plan, now).chain == r.chain
      && (GapNeverTaken(r, plan.demote, now) <==> forall a :: !HasGap(r, a))
  {
    var r := AfterPromote(p, plan, now);
    ReorgKeepsInv(p, plan, now);
    assert Enumerates(plan.demote, r.pending.Keys);
    hide InvT, AfterPromote, DemoteUnexecutables, DemotionKept, HasGap, TruncatePending, ByAge, GapNeverTaken;
    forall a ensures At(r.pending, a) == (if a in plan.demote then At(r.pending, a) else DemotionKept(r, a))
      && (a !in plan.demote ==> !HasGap(r, a))
    {
      SameDemotion(r, r, a);
    }
    DemoteAllExactly(r, r, plan.demote, now);
  }

  /** The nonces are settled without a gap exactly if no pending list has one. */
  lemma SettledExactly(d: Pool)
    requires Inv(d)
    ensures Contiguous(SettleNonces(d)) <==> forall a :: NoGapAt(d, a)
  {
    if forall a :: NoGapAt(d, a) { SettleNoncesContiguous(d); }
    if Contiguous(SettleNonces(d)) {
      forall a ensures NoGapAt(d, a) { assert ShapeAt(SettleNonces(d), d.chain, true, a); }
    }
  }

  lemma PlanHead(p: Pool, plan: Plan, now: Time)
    requires PlanOk(p, plan, now)
    ensures HeadOk(plan.head)
  {
    hide TruncatePending, AfterDemote, ByAge, AfterReset, AfterPromote;
  }

  /**
   Exactly when a reset leaves a gap, decided account by account after the reinjection. The demotion
   notices a gap for an account whose nonce fell below its pending list if the queue does not start at
   the chain nonce; it keeps one if the queue starts there but does not reach the pending list. In
   both cases the first pending transaction must still be payable.
   */
  lemma ResetGapsExactly(p: Pool, plan: Plan, now: Time)
    requires Inv(p) && Contiguous(p) && PlanOk(p, plan, now) && !plan.head.NoReset?
    ensures var q := AfterReset(p, plan.head, now);
      && (GapNeverTaken(AfterPromote(p, plan, now), plan.demote, now) <==> forall a :: !GapNoticed(q, p.chain, a))
      && (Contiguous(AfterDemote(p, plan, now)) <==> forall a :: !GapKept(q, p.chain, a))
  {
    var q, r, d := AfterReset(p, plan.head, now), AfterPromote(p, plan, now), AfterDemote(p, plan, now);
    hide *;
    PlanHead(p, plan, now);
    DemotionExactly(p, plan, now);
    GapsByAccount(p, plan, now);
    SettledAfter(p, plan, now);
    NoticedAgree(q, r, p.chain);
    KeptAgree(q, d, p.chain);
  }

  lemma NoticedAgree(q: Pool, r: Pool, base: Chain)
    requires forall a :: HasGap(r, a) <==> GapNoticed(q, base, a)
    ensures (forall a :: !HasGap(r, a)) <==> forall a :: !GapNoticed(q, base, a)
  {
    hide HasGap, GapNoticed;
  }

  lemma KeptAgree(q: Pool, d: Pool, base: Chain)
    requires forall a :: NoGapAt(d, a) <==> !GapKept(q, base, a)
    ensures (forall a :: NoGapAt(d, a)) <==> forall a :: !GapKept(q, base, a)
  {
    hide NoGapAt, GapKept;
  }

  lemma SettledAfter(p: Pool, plan: Plan, now: Time)
    requires Inv(p) && HeadOk(plan.head) && !plan.head.NoReset?
    ensures Contiguous(AfterDemote(p, plan, now)) <==> forall a :: NoGapAt(AfterDemote(p, plan, now), a)
  {
    var r := AfterPromote(p, plan, now);
    var d := DemoteUnexecutables(r, plan.demote, now);
    ReorgKeepsInv(p, plan, now);
    DemoteUnexecutablesKeepsInv(r, plan.demote, now);
    SettledExactly(d);
    hide InvT, AfterPromote, DemoteUnexecutables, Contiguous;
    assert AfterDemote(p, plan, now) == SettleNonces(d);
    forall a ensures NoGapAt(SettleNonces(d), a) == NoGapAt(d, a) { }
  }

  lemma GapsByAccount(p: Pool, plan: Plan, now: Time)
    requires Inv(p) && Contiguous(p) && PlanOk(p, plan, now) && !plan.head.NoReset?
    ensures var q, r, d := AfterReset(p, plan.head, now), AfterPromote(p, plan, now), AfterDemote(p, plan, now);
      && (forall a :: HasGap(r, a) <==> GapNoticed(q, p.chain, a))
      && (forall a :: NoGapAt(d, a) <==> !GapKept(q, p.chain, a))
  {
    var q, r, d := AfterReset(p, plan.head, now), AfterPromote(p, plan, now), AfterDemote(p, plan, now);
    DemotionExactly(p, plan, now);
    if plan.head.NewHead? {
      ResetStart(p, plan, now);
      PromotionExactly(p, plan, now);
      hide InvT, AfterReset, AfterPromote, AfterDemote, Promoted, HasGap, DemotionKept, GapNoticed, GapKept, ShapeAt;
      forall a ensures (HasGap(r, a) <==> GapNoticed(q, p.chain, a)) && (NoGapAt(d, a) <==> !GapKept(q, p.chain, a)) {
        assert ShapeAt(q, p.chain, false, a) && Promoted(q, r, p.chain, a);
        GapExactly(q, r, p.chain, a);
      }
    } else {
      PromoteAllSettled(p, plan.promote, now);
      hide InvT, PromoteExecutables, AfterDemote, HasGap, DemotionKept, GapNoticed, GapKept, ShapeAt;
      forall a ensures (HasGap(r, a) <==> GapNoticed(q, p.chain, a)) && (NoGapAt(d, a) <==> !GapKept(q, p.chain, a)) {
        AbandonedStart(p, a);
        AbandonedStart(r, a);
        DemotionRun(r, a);
        KeptIs(r, a);
      }
    }
  }

  lemma KeptIs(r: Pool, a: Address)
    requires !HasGap(r, a)
    ensures DemotionKept(r, a) == DemotionSplit(r, a).kept
  {
  }

  // ---------------------------------------------------------------- contiguity in every run

  /** No account's nonce falls by more than `k` at this head. */
  ghost predicate FallsAtMost(p: Pool, h: Head, k: nat) {
    h.NewHead? ==> forall a :: p.chain.Nonce(a) <= h.chain.Nonce(a) + k
  }

  /** No reset of the run lowers an account's chain nonce by two or more. */
  ghost predicate NoDeepFall(states: seq<Pool>, ops: seq<Op>)
    requires |states| == |ops| + 1
  {
    forall i :: 0 <= i < |ops| && ops[i].RunReorg? ==> FallsAtMost(states[i], ops[i].plan.head, 1)
  }

  lemma ResetChain(p: Pool, h: Head, now: Time)
    requires Inv(p) && Contiguous(p) && HeadOk(h) && h.NewHead?
    ensures AfterReset(p, h, now).chain == h.chain
  {
    ResetShape(p, h.chain, h.reinject, h.victims, now);
    hide AddAll, InvT;
  }

  /** A head that takes no nonce back by two or more leaves no gap, whatever is reinjected. */
  lemma ResetReorgContiguous(p: Pool, plan: Plan, now: Time)
    requires Inv(p) && Contiguous(p) && PlanOk(p, plan, now) && FallsAtMost(p, plan.head, 1) && !plan.head.NoReset?
    ensures Contiguous(AfterDemote(p, plan, now))
    ensures FallsAtMost(p, plan.head, 0) ==> GapNeverTaken(AfterPromote(p, plan, now), plan.demote, now)
  {
    ResetGapsExactly(p, plan, now);
    if plan.head.NewHead? { ResetChain(p, plan.head, now); }
    hide InvT, AddAll, Contiguous, GapNeverTaken, AfterDemote, AfterPromote, Live;
  }

  lemma ReorgContiguous(p: Pool, plan: Plan, now: Time)
    requires Inv(p) && Contiguous(p) && PlanOk(p, plan, now) && FallsAtMost(p, plan.head, 1)
    ensures Contiguous(Reorg(p, plan, now))
  {
    hide InvT, PromoteExecutables, DemoteUnexecutables, TruncatePending, TruncateQueue, AddAll;
    if plan.head.NoReset? {
      PromoteAllSettled(p, plan.promote, now);
    } else {
      ResetReorgContiguous(p, plan, now);
    }
    LimitsContiguous(p, plan, now);
  }

  /** The limits open no gap. */
  lemma LimitsContiguous(p: Pool, plan: Plan, now: Time)
    requires Inv(p) && HeadOk(plan.head) && Contiguous(AfterDemote(p, plan, now))
    ensures Contiguous(Reorg(p, plan, now))
  {
    hide InvT, PromoteExecutables, DemoteUnexecutables, TruncatePending, TruncateQueue, AddAll;
    ReorgKeepsInv(p, plan, now);
    var d := AfterDemote(p, plan, now);
    TruncatePendingContiguous(d);
    TruncateQueueContiguous(TruncatePending(d), plan.age);
    var t := TruncateQueue(TruncatePending(d), plan.age);
    SameNonces(t, t.(changes := 0), t.chain, true);
  }

  lemma {:induction false} EvictKeepsShape(p: Pool, accounts: seq<Address>, now: Time, base: Chain)
    requires Inv(p) && Shape(p, base, true)
    ensures Shape(Evict(p, accounts, now), base, true) && Evict(p, accounts, now).chain == p.chain
    decreases |accounts|
  {
    if accounts != [] {
      var l := At(p.queue, accounts[0]);
      RemoveAllKeepsInv(p, l, now);
      RemoveAllKeepsShape(p, l, now, base, true);
      hide InvT, RemoveAll, Shape;
      EvictKeepsShape(RemoveAll(p, l, now), accounts[1..], now, base);
    }
  }

  lemma ApplyContiguous(p: Pool, op: Op)
    requires Inv(p) && Contiguous(p) && Enabled(p, op)
    requires op.RunReorg? ==> FallsAtMost(p, op.plan.head, 1)
    ensures Contiguous(Apply(p, op))
  {
    hide InvT, Shape;
    match op
    case AddTxs(txs, local, vs, now) => AddAllKeepsShape(p, txs, local, vs, now, p.chain, true);
    case Raise(price, drop, now) =>
      InvIgnoresNonces(p, p.(gasPrice := price));
      SameNonces(p, p.(gasPrice := price), p.chain, true);
      RemoveAllKeepsShape(p.(gasPrice := price), drop, now, p.chain, true);
    case Tick(expired, now) => EvictKeepsShape(p, expired, now, p.chain);
    case RunReorg(plan, now) => ReorgContiguous(p, plan, now);
  }

  /**
   In every run whose heads never take a nonce back by two or more, every pending list is at all times
   the gap-free run of nonces from the chain nonce, ending right below the virtual nonce.
   */
  lemma {:induction false} ContiguousInEveryRun(states: seq<Pool>, ops: seq<Op>, i: nat)
    requires IsRun(states, ops) && NoDeepFall(states, ops) && i < |states|
    ensures Inv(states[i]) && Contiguous(states[i])
    decreases i
  {
    if i == 0 {
      var cfg, chain, accounts :| states[0] == InitialPool(cfg, chain, accounts);
      InitialPoolInv(cfg, chain, accounts);
    } else {
      ContiguousInEveryRun(states, ops, i - 1);
      ApplyKeepsInv(states[i - 1], ops[i - 1]);
      ApplyContiguous(states[i - 1], ops[i - 1]);
    }
  }

  /** In such runs a reorg whose head takes no nonce back never takes the branch the source logs as an error. */
  lemma GapBranchIsDead(states: seq<Pool>, ops: seq<Op>, i: nat)
    requires IsRun(states, ops) && NoDeepFall(states, ops) && i < |ops|
    requires ops[i].RunReorg? && !ops[i].plan.head.NoReset? && FallsAtMost(states[i], ops[i].plan.head, 0)
    ensures GapNeverTaken(AfterPromote(states[i], ops[i].plan, ops[i].now), ops[i].plan.demote, ops[i].now)
  {
    ContiguousInEveryRun(states, ops, i);
    ResetReorgContiguous(states[i], ops[i].plan, ops[i].now);
  }

  // ---------------------------------------------------------------- eviction

  lemma EvictOne(p: Pool, a: Address, now: Time)
    requires Inv(p) && a in p.queue
    ensures var q := RemoveAll(p, At(p.queue, a), now);
      && Inv(q)
      && q.pending == p.pending && q.vnonces == p.vnonces && q.accounts == p.accounts
      && q.queue == p.queue - {a} && q.beats == p.beats - {a}
  {
    hide RemoveAll, InvT;
    RemoveAllQueued(p, a, now);
    CapQueueKeepsInv(p, a, 0);
  }

  lemma MinusStep<V>(m: map<Address, V>, a: Address, rest: set<Address>)
    ensures (m - {a}) - rest == m - ({a} + rest)
  {
  }

  /** Dropping expired accounts removes exactly their queues and leaves everything else alone. */
  lemma {:induction false} EvictExact(p: Pool, accounts: seq<Address>, now: Time)
    requires Inv(p) && Distinct(accounts) && forall a :: a in accounts ==> a in p.queue
    ensures var q := Evict(p, accounts, now);
      && q.pending == p.pending && q.vnonces == p.vnonces && q.accounts == p.accounts
      && q.queue == p.queue - (set a | a in accounts)
      && q.beats == p.beats - (set a | a in accounts)
    decreases |accounts|
  {
    hide RemoveAll, InvT;
    if accounts == [] {
      assert p.queue - {} == p.queue && p.beats - {} == p.beats;
    } else {
      var a := accounts[0];
      var rest := set b | b in accounts[1..];
      assert accounts == [a] + accounts[1..];
      assert a !in accounts[1..];
      assert (set b | b in accounts) == {a} + rest;
      EvictOne(p, a, now);
      EvictExact(RemoveAll(p, At(p.queue, a), now), accounts[1..], now);
      MinusStep(p.queue, a, rest);
      MinusStep(p.beats, a, rest);
    }
  }
}
