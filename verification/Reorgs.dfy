/**
 Where the parts of a reorg meet: the walk between two heads decides the reset, the scheduler's batch of
 events and the promotion decide what is announced.
 */
module Reorgs {
  import opened Wrappers
  import opened Transactions
  import opened TxEvents
  import opened PoolState
  import opened PoolInvariant
  import opened PoolRuns
  import opened PoolExecutable
  import opened PoolSteps
  import opened ReorgWalk
  import ReorgLoop

  // ---------------------------------------------------------------- from the walk to the reset

  /**
   The reset that the outcome of the walk leads to. `state` is the account state at the new head, which
   the chain may fail to give, and `v` what the price heaps answer for each transaction put back.
   */
  function HeadOf(o: Outcome, state: Option<Chain>, v: nat -> Victims): (h: Head)
    requires !o.Crash?
    ensures h.NewHead? ==> |h.victims| == |h.reinject|
  {
    if o.GiveUp? || state.None? then Abandoned
    else NewHead(state.value, o.reinject, seq(|o.reinject|, i requires 0 <= i < |o.reinject| => v(i)))
  }

  method ResetBetween(s: Store, oldHead: Option<Header>, newHead: Header, state: Option<Chain>, v: nat -> Victims)
    returns (h: Option<Head>, ghost o: Outcome)
    requires StoreOk(s)
    ensures IsOutcome(s, oldHead, newHead, o)
    ensures h == if o.Crash? then None else Some(HeadOf(o, state, v))
  {
    var outcome := Reinjection(s, oldHead, newHead);
    o := outcome;
    if outcome.Crash? { return None, o; }
    return Some(HeadOf(outcome, state, v)), o;
  }

  /** On the branch of the old head above the meeting point, and not included on the other one. */
  ghost predicate OnAbandoned(s: Store, oldHead: Header, newHead: Header, t: Tx)
    requires StoreOk(s)
  {
    match (GetBlock(s, oldHead.hash, oldHead.number), GetBlock(s, newHead.hash, newHead.number))
    case (Some(x), Some(y)) =>
      exists m :: HighestMeeting(s, x, y, m) && OnBranch(s, x, m, t)
        && !exists u :: OnBranch(s, y, m, u) && u.hash == t.hash
    case _ => false
  }

  lemma OfferedAbandoned(s: Store, oldHead: Option<Header>, newHead: Header, o: Outcome, t: Tx)
    requires StoreOk(s) && IsOutcome(s, oldHead, newHead, o) && o.Proceed? && t in o.reinject
    ensures Walks(oldHead, newHead) && OnAbandoned(s, oldHead.value, newHead, t)
  {
    hide HighestMeeting, OnBranch, MeetsAt;
  }

  /**
   Whatever is in the pool after a reorg between two heads was there before, or is a transaction of the
   abandoned branch that the adopted branch does not include, and has its intrinsic gas.
   */
  lemma OnlyAbandonedReturn(
      s: Store, oldHead: Option<Header>, newHead: Header, o: Outcome, state: Option<Chain>, v: nat -> Victims,
      p: Pool, plan: Plan, now: Time, t: Tx)
    requires StoreOk(s) && IsOutcome(s, oldHead, newHead, o) && !o.Crash? && plan.head == HeadOf(o, state, v)
    requires Inv(p) && Pooled(Reorg(p, plan, now).known, t) && !Pooled(p.known, t)
    ensures Fuelled(t) && Walks(oldHead, newHead) && OnAbandoned(s, oldHead.value, newHead, t)
  {
    ReorgPooled(p, plan, now);
    hide Reorg, Inv, Pooled, IsOutcome, OnAbandoned, Walks, Fuelled;
    OfferedAbandoned(s, oldHead, newHead, o, t);
  }

  // ---------------------------------------------------------------- from the events to the announcement

  /** No two promoted transactions share a sender and a nonce. */
  lemma PromotedApart(r: Pool, promoted: seq<Tx>)
    requires Inv(r) && forall t :: t in promoted ==> In(r.pending, t)
    ensures forall x, y :: x in promoted && y in promoted && SameSlot(x, y) ==> x == y
  {
    forall x, y | x in promoted && y in promoted && SameSlot(x, y) ensures x == y {
      assert Listed(r, [], x) && Listed(r, [], y);
    }
  }

  lemma CurrentAre(q: Pool, events: Events, t: Tx)
    requires Keyed(events)
    ensures Keyed(CurrentEvents(q, events))
    ensures t in CurrentEvents(q, events).Values <==> t in events.Values && t.nonce >= q.Virtual(t.sender)
  {
    var current := CurrentEvents(q, events);
    assert t in current.Values <==> Key(t) in current && current[Key(t)] == t;
    assert t in events.Values <==> Key(t) in events && events[Key(t)] == t;
  }

  /** The event has not been overtaken by the reset, nor replaced by a promoted transaction. */
  predicate Current(q: Pool, plan: Plan, events: Events, promoted: seq<Tx>, t: Tx) {
    && t in events.Values
    && (plan.head.NoReset? || t.nonce >= q.Virtual(t.sender))
    && forall x :: x in promoted ==> !SameSlot(x, t)
  }

  /**
   A run announces exactly the public transactions that it made pending, and the public events of its
   batch that are still current; for any batch that the scheduler hands to a run.
   */
  lemma RunAnnounces(p: Pool, plan: Plan, now: Time, events: Events, promoted: seq<Tx>, private: set<Hash>, t: Tx)
    requires Inv(p) && HeadOk(plan.head) && Keyed(events)
    requires forall x :: x in promoted <==>
      In(AfterPromote(p, plan, now).pending, x) && !In(AfterReset(p, plan.head, now).pending, x)
    ensures var q, r := AfterReset(p, plan.head, now), AfterPromote(p, plan, now);
      t in Announced(if plan.head.NoReset? then events else CurrentEvents(q, events), promoted, private) <==>
        t.hash !in private && ((In(r.pending, t) && !In(q.pending, t)) || Current(q, plan, events, promoted, t))
  {
    var q, r := AfterReset(p, plan.head, now), AfterPromote(p, plan, now);
    hide *;
    ReorgKeepsInv(p, plan, now);
    PromotedApart(r, promoted);
    AnnouncedFrom(q, plan, events, promoted, private, t);
  }

  lemma AnnouncedFrom(q: Pool, plan: Plan, events: Events, promoted: seq<Tx>, private: set<Hash>, t: Tx)
    requires Keyed(events) && forall x, y :: x in promoted && y in promoted && SameSlot(x, y) ==> x == y
    ensures t in Announced(if plan.head.NoReset? then events else CurrentEvents(q, events), promoted, private) <==>
      t.hash !in private && (t in promoted || Current(q, plan, events, promoted, t))
  {
    hide CurrentEvents, Announced, Pool.Virtual, SameSlot;
    CurrentAre(q, events, t);
    AnnouncedExactly(if plan.head.NoReset? then events else CurrentEvents(q, events), promoted, private, t);
  }

  /** The batches of the scheduler are of that kind, in every run of every trace. */
  lemma BatchAnnounces(states: seq<ReorgLoop.System>, actions: seq<ReorgLoop.Action>, i: nat, k: nat,
      p: Pool, plan: Plan, now: Time, promoted: seq<Tx>, private: set<Hash>, t: Tx)
    requires ReorgLoop.IsTrace(states, actions) && i < |states| && k < |states[i].runs|
    requires Inv(p) && HeadOk(plan.head) && forall x :: x in promoted <==>
      In(AfterPromote(p, plan, now).pending, x) && !In(AfterReset(p, plan.head, now).pending, x)
    ensures var q, r, events := AfterReset(p, plan.head, now), AfterPromote(p, plan, now), states[i].runs[k].events;
      t in Announced(if plan.head.NoReset? then events else CurrentEvents(q, events), promoted, private) <==>
        t.hash !in private && ((In(r.pending, t) && !In(q.pending, t)) || Current(q, plan, events, promoted, t))
  {
    hide *;
    ReorgLoop.EventsAreKeyed(states, actions, i, k);
    RunAnnounces(p, plan, now, states[i].runs[k].events, promoted, private, t);
  }
}
