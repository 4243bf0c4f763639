/**
 How far back a head may go. A head that takes nonces back by at most one leaves no gap, and one that
 takes none back never shows one; both bounds are exact, since for every deeper head there is a run of
 the pool and a reorg that break them, unless a head has no room for even a plain transaction.
 */
module PoolBackwards {
  import opened Sums
  import opened Transactions
  import opened TxLists
  import opened PoolState
  import opened PoolInvariant
  import opened PoolTruncation
  import opened PoolContiguity
  import opened PoolGaps
  import opened PoolRuns
  import opened PoolExecutable

  // ---------------------------------------------------------------- a pool with one pending transaction

  /** A plain transaction of a local account that moves nothing at no price. */
  function Sample(a: Address, hash: Hash, nonce: nat): Tx { Tx(hash, a, nonce, 0, TX_GAS, 0, 0, 1, 0, true) }

  const CONFIG: Config := Config(1, 1, 1, 10, 1, 10, 1)

  function Low(c1: Chain, a: Address): Tx { Sample(a, 30, c1.Nonce(a)) }

  function High(c0: Chain, a: Address): Tx { Sample(a, 50, c0.Nonce(a)) }

  /** The account's only pending transaction has the nonce of the chain. */
  function Before(c0: Chain, a: Address): Pool {
    Pool(CONFIG, c0, 1, {a}, map[a := [High(c0, a)]], map[], map[], map[a := c0.Nonce(a) + 1],
         Known(map[50 := High(c0, a)], map[]), 0)
  }

  lemma OnePromoted(q: Pool, a: Address)
    ensures PromoteExecutables(q, [a], 0) == PromoteAccount(q, a, 0) && PromoteExecutables(q, [], 0) == q
  {
    hide PromoteAccount;
    assert [a][1..] == [];
    assert PromoteExecutables(PromoteAccount(q, a, 0), [], 0) == PromoteAccount(q, a, 0);
  }

  lemma OneDemoted(q: Pool, a: Address)
    ensures DemoteUnexecutables(q, [a], 0) == DemoteAccount(q, a, 0)
  {
    hide DemoteAccount;
    assert [a][1..] == [];
    assert DemoteUnexecutables(DemoteAccount(q, a, 0), [], 0) == DemoteAccount(q, a, 0);
  }

  lemma AfterPromoteIs(p: Pool, plan: Plan, q: Pool)
    requires HeadOk(plan.head) && AfterReset(p, plan.head, 0) == q
    ensures AfterPromote(p, plan, 0) == PromoteExecutables(q, plan.promote, 0)
  {
    hide AfterReset, PromoteExecutables;
  }

  lemma AfterDemoteIs(p: Pool, plan: Plan, q: Pool)
    requires HeadOk(plan.head) && !plan.head.NoReset? && AfterPromote(p, plan, 0) == q
    ensures AfterDemote(p, plan, 0) == SettleNonces(DemoteUnexecutables(q, plan.demote, 0))
  {
    hide AfterPromote, SettleNonces, DemoteUnexecutables;
  }

  lemma PlanIsOk(p: Pool, plan: Plan, a: Address)
    requires HeadOk(plan.head) && !plan.head.NoReset? && plan.demote == [a]
    requires plan.promote == (if a in AfterReset(p, plan.head, 0).queue then [a] else [])
    requires AfterReset(p, plan.head, 0).queue.Keys <= {a} && AfterPromote(p, plan, 0).pending.Keys == {a}
    requires QueueSize(TruncatePending(AfterDemote(p, plan, 0))) <= p.cfg.globalQueue
    ensures PlanOk(p, plan, 0)
  {
    hide AfterDemote, TruncatePending, QueueSize, AfterReset, AfterPromote;
  }

  lemma ReorgIs(p: Pool, plan: Plan, d: Pool)
    requires HeadOk(plan.head) && AfterDemote(p, plan, 0) == d && TruncatePending(d) == d && d.changes == 0
    requires QueueSize(d) <= d.cfg.globalQueue
    ensures Reorg(p, plan, 0) == d
  {
    hide AfterDemote, TruncatePending, QueueSize;
  }

  // ---------------------------------------------------------------- a run that gets there

  function Queued(c0: Chain, a: Address): Pool {
    InitialPool(CONFIG, c0, {a}).(queue := map[a := [High(c0, a)]], beats := map[a := 0],
      known := Known(map[50 := High(c0, a)], map[]))
  }

  function AddHigh(c0: Chain, a: Address): Op { AddTxs([High(c0, a)], false, [Victims(false, [], true)], 0) }

  function PromoteHigh(a: Address): Plan { Plan(NoReset, [a], [], []) }

  lemma HighScreened(c0: Chain, a: Address)
    requires c0.gasLimit >= TX_GAS
    ensures Screen(InitialPool(CONFIG, c0, {a}), High(c0, a), false, Victims(false, [], true)) == Direct
  {
    var p := InitialPool(CONFIG, c0, {a});
    OneSlot(a, 50, c0.Nonce(a));
    assert TotalCost([]) == 0;
    assert Validate(p, High(c0, a), true) == Valid;
  }

  lemma HighQueued(c0: Chain, a: Address)
    requires c0.gasLimit >= TX_GAS
    ensures Apply(InitialPool(CONFIG, c0, {a}), AddHigh(c0, a)) == Queued(c0, a)
  {
    var p := InitialPool(CONFIG, c0, {a});
    HighScreened(c0, a);
    hide Screen;
    assert Put([], High(c0, a)) == [High(c0, a)];
    assert Add(p, High(c0, a), false, Victims(false, [], true), 0).pool == Queued(c0, a);
    hide Add;
    OneAdded(p, High(c0, a), Victims(false, [], true));
  }

  lemma HighReady(c0: Chain, a: Address)
    requires c0.gasLimit >= TX_GAS
    ensures PromotionSplit(Queued(c0, a), a) == Split([], [High(c0, a)], [])
  {
    var p, x := Queued(c0, a), High(c0, a);
    FreeOfCharge(x, c0.Balance(a), c0.gasLimit);
    OneLive(x);
    hide Payable, Unaffordable, Chain.Balance, Chain.Nonce;
    assert At(p.queue, a) == [x] && p.Virtual(a) == x.nonce == c0.Nonce(a);
  }

  lemma OneLive(x: Tx)
    ensures Rank([x], x.nonce) == 0 && ReadyCount([x], x.nonce) == 1
    ensures [x][0..] == [x] && [x][..0] == [] && [x][..1] == [x] && [x][1..] == []
  {
    assert [x][1..] == [];
  }

  lemma HighPromoted(c0: Chain, a: Address)
    requires c0.gasLimit >= TX_GAS
    ensures PromoteAccount(Queued(c0, a), a, 0) == Before(c0, a)
  {
    hide PromotionSplit, PromoteAccount, PromoteAll, Promote;
    HighReady(c0, a);
    AllPromoted(Queued(c0, a), a, [High(c0, a)]);
    var q := Queued(c0, a).(queue := map[]);
    assert Queued(c0, a).queue - {a} == map[];
    OneReady(q, a, High(c0, a));
    HighMoved(c0, a, q);
    assert Before(c0, a).(beats := map[a := 0]).beats - {a} == map[];
  }

  lemma OneReady(q: Pool, a: Address, x: Tx)
    ensures PromoteAll(q, a, [x], 0) == Promote(q, a, x, 0)
  {
    hide Promote;
    assert [x][1..] == [];
    assert PromoteAll(q, a, [x], 0) == PromoteAll(Promote(q, a, x, 0), a, [], 0);
  }

  lemma HighMoved(c0: Chain, a: Address, q: Pool)
    requires q == Queued(c0, a).(queue := map[])
    ensures Promote(q, a, High(c0, a), 0) == Before(c0, a).(beats := map[a := 0])
  {
    assert Put([], High(c0, a)) == [High(c0, a)];
  }

  lemma BeforeIsSmall(c0: Chain, a: Address)
    ensures TruncatePending(Before(c0, a)) == Before(c0, a) && QueueSize(Before(c0, a)) == 0
  {
    var d := Before(c0, a);
    SumRemove(d.pending.Keys, b => |At(d.pending, b)|, a);
    assert d.pending.Keys - {a} == {};
    assert d.queue.Keys == {};
  }

  lemma HighReorged(c0: Chain, a: Address)
    requires c0.gasLimit >= TX_GAS
    ensures PlanOk(Queued(c0, a), PromoteHigh(a), 0) && Reorg(Queued(c0, a), PromoteHigh(a), 0) == Before(c0, a)
  {
    hide *;
    PromoteHighIs(c0, a);
    OnePromoted(Queued(c0, a), a);
    HighPromoted(c0, a);
    BeforeIsSmall(c0, a);
    NoResetPlan(Queued(c0, a), PromoteHigh(a));
    ReorgIs(Queued(c0, a), PromoteHigh(a), Before(c0, a));
  }

  lemma PromoteHighIs(c0: Chain, a: Address)
    ensures var plan := PromoteHigh(a);
      && HeadOk(plan.head) && plan.head.NoReset?
      && AfterDemote(Queued(c0, a), plan, 0) == PromoteExecutables(Queued(c0, a), [a], 0)
    ensures Before(c0, a).changes == 0 && Before(c0, a).cfg == CONFIG == Queued(c0, a).cfg && CONFIG.globalQueue == 10
  {
    hide PromoteExecutables;
  }

  lemma NoResetPlan(p: Pool, plan: Plan)
    requires HeadOk(plan.head) && plan.head.NoReset?
    requires QueueSize(TruncatePending(AfterDemote(p, plan, 0))) <= p.cfg.globalQueue
    ensures PlanOk(p, plan, 0)
  {
    hide AfterDemote, TruncatePending, QueueSize;
  }

  /** The pool comes about in two steps: the transaction is added, and promoted. */
  lemma BeforeIsReached(c0: Chain, a: Address)
    requires c0.gasLimit >= TX_GAS
    ensures Reachable(Before(c0, a))
  {
    hide *;
    HighQueued(c0, a);
    HighReorged(c0, a);
    StepsAre(c0, a);
    ReachedInTwo(CONFIG, c0, {a}, AddHigh(c0, a), Queued(c0, a), RunReorg(PromoteHigh(a), 0), Before(c0, a));
  }

  lemma StepsAre(c0: Chain, a: Address)
    requires PlanOk(Queued(c0, a), PromoteHigh(a), 0)
    ensures var op := RunReorg(PromoteHigh(a), 0);
      && AddHigh(c0, a).AddTxs? && Enabled(InitialPool(CONFIG, c0, {a}), AddHigh(c0, a))
      && op.plan.head.NoReset? && Enabled(Queued(c0, a), op)
      && Apply(Queued(c0, a), op) == Reorg(Queued(c0, a), PromoteHigh(a), 0)
  {
    hide Reorg, PlanOk;
  }

  lemma ReachedInTwo(cfg: Config, chain: Chain, accounts: set<Address>, add: Op, p: Pool, reorg: Op, q: Pool)
    requires add.AddTxs? && reorg.RunReorg? && reorg.plan.head.NoReset?
    requires Enabled(InitialPool(cfg, chain, accounts), add) && Apply(InitialPool(cfg, chain, accounts), add) == p
    requires Enabled(p, reorg) && Apply(p, reorg) == q
    ensures Reachable(q)
  {
    hide Enabled, Apply, InitialPool;
    var states := [InitialPool(cfg, chain, accounts), p, q];
    assert ReachedBy(q, states, [add, reorg]);
  }

  ghost predicate ReachedBy(p: Pool, states: seq<Pool>, ops: seq<Op>) {
    IsRun(states, ops) && NoDeepFall(states, ops) && states[|ops|] == p
  }

  /** The pool is the last state of a run without deep falls. */
  ghost predicate Reachable(p: Pool) { exists states, ops :: ReachedBy(p, states, ops) }

  lemma ReachableIs(p: Pool)
    requires Reachable(p)
    ensures Inv(p) && Contiguous(p) && Executable(p) && AllFuelled(p)
  {
    hide ReachedBy;
    var states, ops :| ReachedBy(p, states, ops);
    RunIsSound(p, states, ops);
  }

  lemma RunIsSound(p: Pool, states: seq<Pool>, ops: seq<Op>)
    requires ReachedBy(p, states, ops)
    ensures Inv(p) && Contiguous(p) && Executable(p) && AllFuelled(p)
  {
    hide NoDeepFall, Inv, Contiguous, Executable, AllFuelled;
    ContiguousInEveryRun(states, ops, |ops|);
    ExecutableInEveryRun(states, ops, |ops|);
  }

  // ---------------------------------------------------------------- a gap that is kept

  /** Of the transactions that the head takes back, only the first one comes back. */
  function DeepPlan(c1: Chain, a: Address): Plan {
    Plan(NewHead(c1, [Low(c1, a)], [Victims(false, [], true)]), [a], [a], [])
  }

  function Added(c0: Chain, c1: Chain, a: Address): Pool {
    Before(c0, a).(chain := c1, vnonces := map[], queue := map[a := [Low(c1, a)]], beats := map[a := 0],
      known := Known(map[50 := High(c0, a), 30 := Low(c1, a)], map[]))
  }

  function Joined(c0: Chain, c1: Chain, a: Address): Pool {
    Added(c0, c1, a).(queue := map[], beats := map[], pending := map[a := [Low(c1, a), High(c0, a)]],
      vnonces := map[a := c1.Nonce(a) + 1])
  }

  function Settled(c0: Chain, c1: Chain, a: Address): Pool {
    Joined(c0, c1, a).(vnonces := map[a := c0.Nonce(a) + 1])
  }

  /** One plain transaction takes one slot. */
  lemma OneSlot(a: Address, hash: Hash, nonce: nat)
    ensures Known(map[hash := Sample(a, hash, nonce)], map[]).Slots() == 1 && Known(map[], map[]).Slots() == 0
  {
    var k := Known(map[hash := Sample(a, hash, nonce)], map[]);
    var f := h => if k.Has(h) then k.Get(h).Slots() else 0;
    assert k.locals.Keys + k.remotes.Keys == {hash};
    SumRemove({hash}, f, hash);
    assert {hash} - {hash} == {};
    assert Known(map[], map[]).locals.Keys + Known(map[], map[]).remotes.Keys == {};
  }

  lemma RankBelow(x: Tx, m: nat)
    requires m < x.nonce
    ensures Rank([x], m) == 0 && !HasNonce([x], m)
  {
  }

  lemma Screened(q: Pool, c0: Chain, c1: Chain, a: Address)
    requires c1.Nonce(a) < c0.Nonce(a) && c1.gasLimit >= TX_GAS
    requires q == Before(c0, a).(chain := c1, vnonces := map[])
    ensures Screen(q, Low(c1, a), false, Victims(false, [], true)) == Direct
  {
    OneSlot(a, 50, c0.Nonce(a));
    RankBelow(High(c0, a), c1.Nonce(a));
    assert TotalCost([High(c0, a)]) == TotalCost([]);
    hide HasNonce, Rank;
    assert Validate(q, Low(c1, a), true) == Valid;
  }

  lemma Reinjected(c0: Chain, c1: Chain, a: Address)
    requires c1.Nonce(a) < c0.Nonce(a) && c1.gasLimit >= TX_GAS
    ensures AfterReset(Before(c0, a), DeepPlan(c1, a).head, 0) == Added(c0, c1, a)
  {
    var q, v := Before(c0, a).(chain := c1, vnonces := map[]), Victims(false, [], true);
    Screened(q, c0, c1, a);
    LowPlaced(q, c0, c1, a);
    hide Screen, Place;
    assert Add(q, Low(c1, a), false, v, 0).pool == Added(c0, c1, a);
    hide Add;
    OneAdded(q, Low(c1, a), v);
  }

  lemma LowPlaced(q: Pool, c0: Chain, c1: Chain, a: Address)
    requires c1.Nonce(a) < c0.Nonce(a) && q == Before(c0, a).(chain := c1, vnonces := map[])
    ensures Place(q, Low(c1, a), false, true, 0).pool == Added(c0, c1, a)
  {
    RankBelow(High(c0, a), c1.Nonce(a));
    PutFirst(Low(c1, a));
    hide Put, HasNonce, Rank, Chain.Nonce;
  }

  lemma PutFirst(x: Tx)
    ensures Put([], x) == [x] && !HasNonce([], x.nonce)
  {
  }

  lemma OneAdded(q: Pool, tx: Tx, v: Victims)
    ensures AddAll(q, [tx], false, [v], 0) == Add(q, tx, false, v, 0).pool
  {
    hide Add;
    assert [tx][1..] == [] && [v][1..] == [];
    assert AddAll(Add(q, tx, false, v, 0).pool, [], false, [], 0) == Add(q, tx, false, v, 0).pool;
  }

  lemma FreeOfCharge(x: Tx, balance: nat, gasLimit: nat)
    requires x.cost == 0 && x.gas <= gasLimit
    ensures Payable([x], balance, gasLimit) == [x] && Unaffordable([x], balance, gasLimit) == []
    ensures PayableRun([x], balance, gasLimit) == 1
  {
  }

  lemma PromotionOfLow(c0: Chain, c1: Chain, a: Address)
    requires c1.gasLimit >= TX_GAS
    ensures PromotionSplit(Added(c0, c1, a), a) == Split([], [Low(c1, a)], [])
  {
    var x := Low(c1, a);
    FreeOfCharge(x, c1.Balance(a), c1.gasLimit);
    assert [x][0..] == [x] && [x][..0] == [];
  }

  lemma LowPromoted(c0: Chain, c1: Chain, a: Address)
    requires c1.Nonce(a) < c0.Nonce(a) && c1.gasLimit >= TX_GAS
    ensures PromoteAll(Added(c0, c1, a).(queue := map[]), a, [Low(c1, a)], 0)
      == Joined(c0, c1, a).(beats := map[a := 0])
  {
    var x, q := Low(c1, a), Added(c0, c1, a).(queue := map[]);
    RankBelow(High(c0, a), x.nonce);
    assert Put([High(c0, a)], x) == [x, High(c0, a)];
    assert [x][1..] == [];
    assert PromoteAll(q, a, [x], 0) == PromoteAll(Promote(q, a, x, 0), a, [], 0);
  }

  lemma AccountPromoted(c0: Chain, c1: Chain, a: Address)
    requires c1.Nonce(a) < c0.Nonce(a) && c1.gasLimit >= TX_GAS
    ensures PromoteAccount(Added(c0, c1, a), a, 0) == Joined(c0, c1, a)
  {
    var q := Added(c0, c1, a);
    PromotionOfLow(c0, c1, a);
    LowPromoted(c0, c1, a);
    hide PromotionSplit, PromoteAll, PromoteAccount;
    AllPromoted(q, a, [Low(c1, a)]);
    assert q.queue - {a} == map[];
  }

  /** An account that has nothing to drop or to keep is emptied. */
  lemma AllPromoted(q: Pool, a: Address, ready: seq<Tx>)
    requires a in q.queue && PromotionSplit(q, a) == Split([], ready, [])
    ensures var r := PromoteAll(q.(queue := q.queue - {a}), a, ready, 0);
      PromoteAccount(q, a, 0) == r.(beats := r.beats - {a})
  {
    hide PromotionSplit, PromoteAll;
    assert Hashes([]) == {} && q.known.Minus({}) == q.known;
  }

  lemma DemotionOfNone(c0: Chain, c1: Chain, a: Address)
    requires c1.Nonce(a) < c0.Nonce(a) && c1.gasLimit >= TX_GAS
    ensures DemotionSplit(Joined(c0, c1, a), a) == Split([], [], [Low(c1, a), High(c0, a)])
    ensures HasNonce([Low(c1, a), High(c0, a)], c1.Nonce(a))
  {
    var l := [Low(c1, a), High(c0, a)];
    FreeOfCharge(High(c0, a), c1.Balance(a), c1.gasLimit);
    assert Rank(l, c1.Nonce(a)) == 0;
    assert l[1..] == [High(c0, a)];
    assert PayableRun(l, c1.Balance(a), c1.gasLimit) == 2;
    assert l[0..] == l && l[..0] == [] && l[..2] == l && l[2..] == [];
  }

  lemma NothingDemoted(c0: Chain, c1: Chain, a: Address)
    requires c1.Nonce(a) < c0.Nonce(a) && c1.gasLimit >= TX_GAS
    ensures DemoteAccount(Joined(c0, c1, a), a, 0) == Joined(c0, c1, a)
  {
    DemotionOfNone(c0, c1, a);
    hide DemotionSplit, HasNonce;
    var q := Joined(c0, c1, a);
    assert Hashes([]) == {} && q.known.Minus({}) == q.known;
    assert SetList(q.pending, a, [Low(c1, a), High(c0, a)]) == q.pending;
  }

  lemma NoncesSettled(c0: Chain, c1: Chain, a: Address)
    ensures SettleNonces(Joined(c0, c1, a)) == Settled(c0, c1, a)
  {
    assert SettleNonces(Joined(c0, c1, a)).vnonces == map[a := c0.Nonce(a) + 1];
  }

  lemma DeepPlanFields(c0: Chain, c1: Chain, a: Address)
    ensures var plan := DeepPlan(c1, a);
      HeadOk(plan.head) && plan.head.NewHead? && plan.head.chain == c1 && plan.promote == [a] && plan.demote == [a]
    ensures Before(c0, a).chain == c0 && Before(c0, a).cfg == CONFIG == Settled(c0, c1, a).cfg
    ensures CONFIG.globalQueue == 10
    ensures Added(c0, c1, a).queue.Keys == {a} && Joined(c0, c1, a).pending.Keys == {a}
    ensures Settled(c0, c1, a).changes == 0
  {
  }

  lemma SettledIsSmall(c0: Chain, c1: Chain, a: Address)
    ensures var d := Settled(c0, c1, a); TruncatePending(d) == d && QueueSize(d) == 0
  {
    var d := Settled(c0, c1, a);
    SumRemove(d.pending.Keys, b => |At(d.pending, b)|, a);
    assert d.pending.Keys - {a} == {};
    assert d.queue.Keys == {};
  }

  lemma SettledHasGap(c0: Chain, c1: Chain, a: Address)
    requires c1.Nonce(a) + 2 <= c0.Nonce(a)
    ensures !Contiguous(Settled(c0, c1, a))
  {
    var d := Settled(c0, c1, a);
    assert At(d.pending, a)[1].nonce == c0.Nonce(a);
    assert !ShapeAt(d, d.chain, true, a);
  }

  /** A head that takes a nonce back by two or more can leave a gap. */
  lemma DeepFallLeavesGap(c0: Chain, c1: Chain, a: Address)
    requires c1.Nonce(a) + 2 <= c0.Nonce(a) && c0.gasLimit >= TX_GAS && c1.gasLimit >= TX_GAS
    ensures var p, plan := Before(c0, a), DeepPlan(c1, a);
      && Reachable(p) && p.chain == c0 && PlanOk(p, plan, 0) && plan.head.NewHead? && plan.head.chain == c1
      && !Contiguous(Reorg(p, plan, 0))
  {
    hide *;
    var p, plan := Before(c0, a), DeepPlan(c1, a);
    DeepPlanFields(c0, c1, a);
    BeforeIsReached(c0, a);
    Reinjected(c0, c1, a);
    AfterPromoteIs(p, plan, Added(c0, c1, a));
    OnePromoted(Added(c0, c1, a), a);
    AccountPromoted(c0, c1, a);
    AfterDemoteIs(p, plan, Joined(c0, c1, a));
    OneDemoted(Joined(c0, c1, a), a);
    NothingDemoted(c0, c1, a);
    NoncesSettled(c0, c1, a);
    SettledIsSmall(c0, c1, a);
    PlanIsOk(p, plan, a);
    ReorgIs(p, plan, Settled(c0, c1, a));
    SettledHasGap(c0, c1, a);
  }

  // ---------------------------------------------------------------- a gap that is noticed

  /** Nothing comes back. */
  function BarePlan(c1: Chain, a: Address): Plan { Plan(NewHead(c1, [], []), [], [a], []) }

  function Moved(c0: Chain, c1: Chain, a: Address): Pool { Before(c0, a).(chain := c1, vnonces := map[]) }

  function Postponed(c0: Chain, c1: Chain, a: Address): Pool {
    Moved(c0, c1, a).(pending := map[], queue := map[a := [High(c0, a)]], beats := map[a := 0])
  }

  lemma BarePlanFields(c0: Chain, c1: Chain, a: Address)
    ensures var plan := BarePlan(c1, a);
      && HeadOk(plan.head) && plan.head.NewHead? && plan.head.chain == c1 && plan.promote == [] && plan.demote == [a]
      && AfterReset(Before(c0, a), plan.head, 0) == Moved(c0, c1, a)
    ensures Before(c0, a).chain == c0 && Before(c0, a).cfg == CONFIG && CONFIG.globalQueue == 10
    ensures Moved(c0, c1, a).queue.Keys == {} && Moved(c0, c1, a).pending.Keys == {a}
  {
  }

  lemma HighNoticed(c0: Chain, c1: Chain, a: Address)
    requires c1.Nonce(a) < c0.Nonce(a) && c1.gasLimit >= TX_GAS
    ensures HasGap(Moved(c0, c1, a), a) && DemotionSplit(Moved(c0, c1, a), a) == Split([], [], [High(c0, a)])
  {
    var x := High(c0, a);
    FreeOfCharge(x, c1.Balance(a), c1.gasLimit);
    RankBelow(x, c1.Nonce(a));
    assert [x][0..] == [x] && [x][..0] == [] && [x][..1] == [x] && [x][1..] == [];
  }

  lemma HighPostponed(c0: Chain, c1: Chain, a: Address)
    requires c1.Nonce(a) < c0.Nonce(a) && c1.gasLimit >= TX_GAS
    ensures DemoteAccount(Moved(c0, c1, a), a, 0) == Postponed(c0, c1, a)
  {
    HighNoticed(c0, c1, a);
    hide DemotionSplit, HasGap;
    var q, x := Moved(c0, c1, a), High(c0, a);
    assert Hashes([]) == {} && q.known.Minus({}) == q.known;
    assert SetList(q.pending, a, []) == map[];
    assert [] + [x] == [x] && [x][1..] == [] && Put([], x) == [x];
    var q1 := q.(pending := map[]);
    assert EnqueueAll(q1, [x], 0) == EnqueueAll(Enqueue(q1, x, false, false, 0).pool, [], 0);
  }

  lemma PostponedIsSmall(c0: Chain, c1: Chain, a: Address)
    ensures var d := SettleNonces(Postponed(c0, c1, a)); TruncatePending(d) == d && QueueSize(d) == 1
  {
    var d := SettleNonces(Postponed(c0, c1, a));
    assert d.pending.Keys == {};
    SumRemove(d.queue.Keys, b => |At(d.queue, b)|, a);
    assert d.queue.Keys - {a} == {};
  }

  /** A head that takes a nonce back at all can make the demotion take the branch the source logs as an error. */
  lemma FallIsNoticed(c0: Chain, c1: Chain, a: Address)
    requires c1.Nonce(a) < c0.Nonce(a) && c0.gasLimit >= TX_GAS && c1.gasLimit >= TX_GAS
    ensures var p, plan := Before(c0, a), BarePlan(c1, a);
      && Reachable(p) && p.chain == c0 && PlanOk(p, plan, 0) && plan.head.NewHead? && plan.head.chain == c1
      && !GapNeverTaken(AfterPromote(p, plan, 0), plan.demote, 0)
  {
    hide *;
    var p, plan := Before(c0, a), BarePlan(c1, a);
    BarePlanFields(c0, c1, a);
    BeforeIsReached(c0, a);
    AfterPromoteIs(p, plan, Moved(c0, c1, a));
    OnePromoted(Moved(c0, c1, a), a);
    AfterDemoteIs(p, plan, Moved(c0, c1, a));
    OneDemoted(Moved(c0, c1, a), a);
    HighPostponed(c0, c1, a);
    PostponedIsSmall(c0, c1, a);
    PlanIsOk(p, plan, a);
    HighNoticed(c0, c1, a);
    FirstGap(Moved(c0, c1, a), a);
  }

  lemma FirstGap(q: Pool, a: Address)
    requires HasGap(q, a)
    ensures !GapNeverTaken(q, [a], 0)
  {
    hide HasGap, DemoteAccount;
  }

  // ---------------------------------------------------------------- both bounds are exact

  /** A reorg from one head to another, of a pool that the program can get to. */
  ghost predicate Moves(c0: Chain, c1: Chain, p: Pool, plan: Plan, now: Time) {
    Reachable(p) && p.chain == c0 && PlanOk(p, plan, now) && plan.head.NewHead? && plan.head.chain == c1
  }

  /** Both heads have room for a plain transaction. */
  predicate Roomy(c0: Chain, c1: Chain) { c0.gasLimit >= TX_GAS && c1.gasLimit >= TX_GAS }

  lemma NothingStranded(c0: Chain, c1: Chain, p: Pool, plan: Plan, now: Time)
    requires Moves(c0, c1, p, plan, now) && !Roomy(c0, c1)
    ensures Contiguous(Reorg(p, plan, now)) && GapNeverTaken(AfterPromote(p, plan, now), plan.demote, now)
  {
    PlanHead(p, plan, now);
    hide Reachable, PlanOk, Inv, Contiguous, Executable, AllFuelled, AfterReset, AfterDemote, AfterPromote, Reorg;
    hide Stranded, GapNeverTaken;
    ReachableIs(p);
    forall a ensures !Stranded(AfterReset(p, plan.head, now), p.chain, a) {
      NobodyStranded(p, plan.head, now, a);
    }
    ResetGapsExactly(p, plan, now);
    LimitsContiguous(p, plan, now);
  }

  lemma StaysContiguous(c0: Chain, c1: Chain, p: Pool, plan: Plan, now: Time)
    requires Moves(c0, c1, p, plan, now) && (Roomy(c0, c1) ==> forall a :: c0.Nonce(a) <= c1.Nonce(a) + 1)
    ensures Contiguous(Reorg(p, plan, now))
  {
    if Roomy(c0, c1) {
      ReachableIs(p);
      hide Reachable, PlanOk, Inv, Contiguous, Reorg, Executable, AllFuelled;
      ReorgContiguous(p, plan, now);
    } else {
      hide Moves, Contiguous;
      NothingStranded(c0, c1, p, plan, now);
    }
  }

  lemma StaysUnnoticed(c0: Chain, c1: Chain, p: Pool, plan: Plan, now: Time)
    requires Moves(c0, c1, p, plan, now) && (Roomy(c0, c1) ==> forall a :: c0.Nonce(a) <= c1.Nonce(a))
    ensures HeadOk(plan.head) && GapNeverTaken(AfterPromote(p, plan, now), plan.demote, now)
  {
    PlanHead(p, plan, now);
    if Roomy(c0, c1) {
      ReachableIs(p);
      hide Reachable, PlanOk, Inv, Contiguous, AfterPromote, GapNeverTaken, Executable, AllFuelled;
      ResetReorgContiguous(p, plan, now);
    } else {
      hide Moves, GapNeverTaken;
      NothingStranded(c0, c1, p, plan, now);
    }
  }

  lemma MovesHead(c0: Chain, c1: Chain, p: Pool, plan: Plan, now: Time)
    requires Moves(c0, c1, p, plan, now)
    ensures HeadOk(plan.head)
  {
    PlanHead(p, plan, now);
    hide Reachable, PlanOk;
  }

  /**
   No reorg that can happen from one head to another leaves a gap, exactly if no nonce falls by two or
   more or one of the heads has no room for a plain transaction.
   */
  lemma NoGapExactly(c0: Chain, c1: Chain)
    ensures (forall p, plan, now :: Moves(c0, c1, p, plan, now) ==> LeavesNoGap(p, plan, now))
      <==> (Roomy(c0, c1) ==> forall a :: c0.Nonce(a) <= c1.Nonce(a) + 1)
  {
    if Roomy(c0, c1) ==> forall a :: c0.Nonce(a) <= c1.Nonce(a) + 1 {
      hide Moves, Contiguous, Reorg, HeadOk;
      forall p, plan, now | Moves(c0, c1, p, plan, now) ensures LeavesNoGap(p, plan, now) {
        MovesHead(c0, c1, p, plan, now);
        StaysContiguous(c0, c1, p, plan, now);
      }
    } else {
      var a :| c0.Nonce(a) > c1.Nonce(a) + 1;
      hide Reachable, PlanOk, Contiguous, Reorg, Before, DeepPlan;
      DeepFallLeavesGap(c0, c1, a);
      assert Moves(c0, c1, Before(c0, a), DeepPlan(c1, a), 0);
      assert !LeavesNoGap(Before(c0, a), DeepPlan(c1, a), 0);
    }
  }

  ghost predicate LeavesNoGap(p: Pool, plan: Plan, now: Time) {
    HeadOk(plan.head) && Contiguous(Reorg(p, plan, now))
  }

  ghost predicate ShowsNoGap(p: Pool, plan: Plan, now: Time) {
    HeadOk(plan.head) && GapNeverTaken(AfterPromote(p, plan, now), plan.demote, now)
  }

  /**
   No reorg that can happen from one head to another takes the branch that the source logs as an error,
   exactly if no nonce falls or one of the heads has no room for a plain transaction.
   */
  lemma NoGapNoticedExactly(c0: Chain, c1: Chain)
    ensures (forall p, plan, now :: Moves(c0, c1, p, plan, now) ==> ShowsNoGap(p, plan, now))
      <==> (Roomy(c0, c1) ==> forall a :: c0.Nonce(a) <= c1.Nonce(a))
  {
    if Roomy(c0, c1) ==> forall a :: c0.Nonce(a) <= c1.Nonce(a) {
      hide Moves, GapNeverTaken, AfterPromote, HeadOk;
      forall p, plan, now | Moves(c0, c1, p, plan, now) ensures ShowsNoGap(p, plan, now) {
        StaysUnnoticed(c0, c1, p, plan, now);
      }
    } else {
      var a :| c0.Nonce(a) > c1.Nonce(a);
      hide Reachable, PlanOk, GapNeverTaken, AfterPromote, Before, BarePlan;
      FallIsNoticed(c0, c1, a);
      assert Moves(c0, c1, Before(c0, a), BarePlan(c1, a), 0);
      assert !ShowsNoGap(Before(c0, a), BarePlan(c1, a), 0);
    }
  }
}
