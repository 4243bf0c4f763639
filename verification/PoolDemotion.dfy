/**
 What a demotion pass does to every transaction of the pool, said in terms of nonces, balances and gas
 limits: which are forgotten, which stay pending, and which go back to the queue.
 */
module PoolDemotion {
  import opened Transactions
  import opened TxLists
  import opened PoolState
  import opened PoolInvariant
  import opened PoolPreservation
  import opened PoolTruncation
  import opened PoolRuns
  import opened PoolExecutable

  /** The head covers the transaction's cost and gas. */
  predicate Covered(c: Chain, t: Tx) { t.gas <= c.gasLimit && t.cost <= c.Balance(t.sender) }

  /** Pending, but already included in the chain, or no longer covered. */
  ghost predicate Forgotten(p: Pool, t: Tx) {
    In(p.pending, t) && (t.nonce < p.chain.Nonce(t.sender) || !Covered(p.chain, t))
  }

  /**
   Pending and not below the chain nonce, with everything of its account from there up to it covered, and
   the account's pending transactions going down to the chain nonce.
   */
  ghost predicate Stays(p: Pool, t: Tx) {
    && In(p.pending, t) && t.nonce >= p.chain.Nonce(t.sender)
    && (forall u :: In(p.pending, u) && u.sender == t.sender && p.chain.Nonce(t.sender) <= u.nonce <= t.nonce
          ==> Covered(p.chain, u))
    && (exists u :: In(p.pending, u) && u.sender == t.sender && u.nonce == p.chain.Nonce(t.sender))
  }

  ghost predicate StartsAtChain(p: Pool, a: Address) {
    exists u :: In(p.pending, u) && u.sender == a && u.nonce == p.chain.Nonce(a)
  }

  /** Pending, and neither forgotten nor staying. */
  ghost predicate Returns(p: Pool, t: Tx) { In(p.pending, t) && !Forgotten(p, t) && !Stays(p, t) }

  // ---------------------------------------------------------------- one account

  lemma LiveIs(l: seq<Tx>, m: nat, t: Tx)
    requires Sorted(l)
    ensures t in l[Rank(l, m)..] <==> t in l && t.nonce >= m
    ensures t in l[..Rank(l, m)] <==> t in l && t.nonce < m
  {
    TakeDrop(l, Rank(l, m));
  }

  /** The list up to and with the nonce of `t` is within the bounds. */
  ghost predicate FitsUpTo(l: seq<Tx>, low: nat, t: Tx, balance: nat, gasLimit: nat) {
    forall u :: u in l && low <= u.nonce <= t.nonce ==> u.gas <= gasLimit && u.cost <= balance
  }

  lemma RunIs(live: seq<Tx>, balance: nat, gasLimit: nat, t: Tx)
    requires Sorted(live)
    ensures t in live[..PayableRun(live, balance, gasLimit)] <==> t in live && FitsUpTo(live, 0, t, balance, gasLimit)
  {
    var k := PayableRun(live, balance, gasLimit);
    TakeDrop(live, k);
    if t in live[..k] {
      InRun(live, balance, gasLimit, t);
    } else if t in live {
      BeyondRun(live, balance, gasLimit, t);
    }
    hide PayableRun, Sorted;
  }

  lemma InRun(live: seq<Tx>, balance: nat, gasLimit: nat, t: Tx)
    requires Sorted(live) && t in live[..PayableRun(live, balance, gasLimit)]
    ensures FitsUpTo(live, 0, t, balance, gasLimit)
  {
    var k := PayableRun(live, balance, gasLimit);
    TakeDrop(live, k);
    forall u | u in live && u.nonce <= t.nonce ensures u.gas <= gasLimit && u.cost <= balance {
      assert u in live[..k];
      var i :| 0 <= i < k && live[i] == u;
    }
  }

  lemma NotBefore(l: seq<Tx>, k: nat, i: nat)
    requires i < |l| && k <= |l| && l[i] !in l[..k]
    ensures i >= k
  {
    forall j | 0 <= j < k ensures l[j] in l[..k] { assert l[..k][j] == l[j]; }
  }

  lemma BeyondRun(live: seq<Tx>, balance: nat, gasLimit: nat, t: Tx)
    requires Sorted(live) && t in live && t !in live[..PayableRun(live, balance, gasLimit)]
    ensures !FitsUpTo(live, 0, t, balance, gasLimit)
  {
    var k := PayableRun(live, balance, gasLimit);
    var i: nat :| i < |live| && live[i] == t;
    NotBefore(live, k, i);
    assert live[k] in live && live[k].nonce <= live[i].nonce;
  }

  /** What does not fit lies above the run that does. */
  lemma LowIs(live: seq<Tx>, balance: nat, gasLimit: nat, t: Tx)
    requires Sorted(live)
    ensures t in Unaffordable(live[PayableRun(live, balance, gasLimit)..], balance, gasLimit) <==>
      t in live && !(t.gas <= gasLimit && t.cost <= balance)
  {
    TakeDrop(live, PayableRun(live, balance, gasLimit));
    RunIs(live, balance, gasLimit, t);
    hide PayableRun, Sorted;
  }

  lemma RunOfLive(l: seq<Tx>, m: nat, t: Tx, balance: nat, gasLimit: nat)
    requires Sorted(l) && t.nonce >= m
    ensures FitsUpTo(l[Rank(l, m)..], 0, t, balance, gasLimit) <==> FitsUpTo(l, m, t, balance, gasLimit)
  {
    forall u ensures u in l[Rank(l, m)..] <==> u in l && u.nonce >= m { LiveIs(l, m, u); }
    hide Rank, Sorted;
  }

  /** The split of an account's list, transaction by transaction. */
  lemma SplitExactly(p: Pool, a: Address, t: Tx)
    requires Inv(p) && a in p.pending
    ensures var l, s, m := p.pending[a], DemotionSplit(p, a), p.chain.Nonce(a);
      var b, g := p.chain.Balance(a), p.chain.gasLimit;
      && (t in s.dropped <==> t in l && (t.nonce < m || t.gas > g || t.cost > b))
      && (t in s.kept <==> t in l && t.nonce >= m && FitsUpTo(l, m, t, b, g))
      && (t in s.ready <==> t in l && t !in s.dropped && t !in s.kept)
  {
    AtFacts(p.pending, a);
    DemotionSplits(p, a);
    assert At(p.pending, a) == p.pending[a];
    var l, m, b, g := p.pending[a], p.chain.Nonce(a), p.chain.Balance(a), p.chain.gasLimit;
    TakeDrop(l, Rank(l, m));
    hide InvT, Rank, PayableRun, Sorted, Unaffordable, Payable, FitsUpTo;
    LiveIs(l, m, t);
    RunIs(l[Rank(l, m)..], b, g, t);
    LowIs(l[Rank(l, m)..], b, g, t);
    if t.nonce >= m { RunOfLive(l, m, t, b, g); }
  }

  ghost predicate KeptRun(p: Pool, t: Tx) {
    && t.nonce >= p.chain.Nonce(t.sender)
    && (forall u :: In(p.pending, u) && u.sender == t.sender && p.chain.Nonce(t.sender) <= u.nonce <= t.nonce
          ==> Covered(p.chain, u))
  }

  lemma OfAccount(p: Pool, a: Address)
    requires Inv(p) && a in p.pending
    ensures forall t :: t in p.pending[a] <==> t.sender == a && In(p.pending, t)
  {
    AtFacts(p.pending, a);
  }

  /** The kept list has a gap exactly if it is there and nothing pending is at the chain nonce. */
  lemma GapExactly(p: Pool, a: Address)
    requires Inv(p) && a in p.pending
    requires forall u :: u in DemotionSplit(p, a).kept <==> u.sender == a && In(p.pending, u) && KeptRun(p, u)
    ensures HasGap(p, a) <==> DemotionSplit(p, a).kept != [] && !StartsAtChain(p, a)
  {
    var kept, m := DemotionSplit(p, a).kept, p.chain.Nonce(a);
    DemotionSplits(p, a);
    HasNonceIff(kept, m);
    hide InvT, DemotionSplit, HasNonce;
    if kept != [] {
      if StartsAtChain(p, a) {
        var u :| In(p.pending, u) && u.sender == a && u.nonce == m;
        assert kept[0] in kept;
        SameNonceCovered(p, kept[0], u);
        assert u in kept;
      }
    }
  }

  lemma SameNonceCovered(p: Pool, t: Tx, u: Tx)
    requires KeptRun(p, t) && In(p.pending, u) && u.sender == t.sender && u.nonce == p.chain.Nonce(t.sender)
    ensures KeptRun(p, u)
  {
  }

  lemma DroppedIs(p: Pool, a: Address, t: Tx)
    requires Inv(p) && a in p.pending
    ensures t in DemotionSplit(p, a).dropped <==> t.sender == a && Forgotten(p, t)
  {
    hide *;
    OfAccount(p, a);
    SplitExactly(p, a, t);
    ForgottenIs(p, t);
  }

  lemma ForgottenIs(p: Pool, t: Tx)
    ensures Forgotten(p, t) <==>
      && In(p.pending, t)
      && (t.nonce < p.chain.Nonce(t.sender) || t.gas > p.chain.gasLimit || t.cost > p.chain.Balance(t.sender))
  {
  }

  lemma KeptIs(p: Pool, a: Address, t: Tx)
    requires Inv(p) && a in p.pending
    ensures t in DemotionSplit(p, a).kept <==> t.sender == a && In(p.pending, t) && KeptRun(p, t)
  {
    hide *;
    OfAccount(p, a);
    SplitExactly(p, a, t);
    if t.sender == a && t.nonce >= p.chain.Nonce(a) { RunHere(p, a, t); } else { NotKept(p, t); }
  }

  lemma NotKept(p: Pool, t: Tx)
    ensures KeptRun(p, t) ==> t.nonce >= p.chain.Nonce(t.sender)
  {
  }

  lemma RunHere(p: Pool, a: Address, t: Tx)
    requires Inv(p) && a in p.pending && t.sender == a && t.nonce >= p.chain.Nonce(a)
    ensures FitsUpTo(p.pending[a], p.chain.Nonce(a), t, p.chain.Balance(a), p.chain.gasLimit) <==> KeptRun(p, t)
  {
    OfAccount(p, a);
    hide InvT, In, Chain.Nonce, Chain.Balance;
  }

  lemma StaysIs(p: Pool, t: Tx)
    ensures Stays(p, t) <==> In(p.pending, t) && KeptRun(p, t) && StartsAtChain(p, t.sender)
  {
    hide In, Covered;
  }

  /** What the pass makes of each transaction of the account, after the gap check. */
  lemma FateExactly(p: Pool, a: Address, t: Tx)
    requires Inv(p) && a in p.pending
    ensures t in DemotionSplit(p, a).dropped <==> t.sender == a && Forgotten(p, t)
    ensures t in DemotionKept(p, a) <==> t.sender == a && Stays(p, t)
    ensures t in DemotionPostponed(p, a) <==> t.sender == a && Returns(p, t)
  {
    forall u ensures u in DemotionSplit(p, a).kept <==> u.sender == a && In(p.pending, u) && KeptRun(p, u) {
      KeptIs(p, a, u);
    }
    GapExactly(p, a);
    DroppedIs(p, a, t);
    StaysIs(p, t);
    OfAccount(p, a);
    Postponement(p, a);
    hide InvT, DemotionSplit, HasGap, Stays, Forgotten, KeptRun, StartsAtChain, In, DemotionPostponed, Distinct, Sorted;
  }

  lemma DemoteOne(p: Pool, a: Address, now: Time)
    requires Inv(p) && a in p.pending
    ensures var q := DemoteAccount(p, a, now);
      && Inv(q) && q.chain == p.chain
      && (forall t :: In(q.pending, t) <==> if t.sender == a then Stays(p, t) else In(p.pending, t))
      && (forall t :: In(q.queue, t) <==> In(p.queue, t) || (t.sender == a && Returns(p, t)))
  {
    var q1 := p.(pending := SetList(p.pending, a, DemotionKept(p, a)),
                 known := p.known.Minus(Hashes(DemotionSplit(p, a).dropped)));
    DemotionToTransit(p, a);
    EnqueueAllTransit(q1, DemotionPostponed(p, a), now);
    KeptInPlace(p, a);
    DemoteAccountIs(p, a, now);
    hide *;
    var m := SetList(p.pending, a, DemotionKept(p, a));
    forall t ensures In(m, t) <==> if t.sender == a then Stays(p, t) else In(p.pending, t) { FateExactly(p, a, t); }
    forall t ensures t in DemotionPostponed(p, a) <==> t.sender == a && Returns(p, t) { FateExactly(p, a, t); }
  }

  lemma DemoteAccountIs(p: Pool, a: Address, now: Time)
    requires a in p.pending
    ensures DemoteAccount(p, a, now) == EnqueueAll(
      p.(pending := SetList(p.pending, a, DemotionKept(p, a)),
         known := p.known.Minus(Hashes(DemotionSplit(p, a).dropped))),
      DemotionPostponed(p, a), now)
  {
    hide EnqueueAll, DemotionSplit, HasGap;
  }

  lemma KeptInPlace(p: Pool, a: Address)
    requires Inv(p) && a in p.pending
    ensures forall t :: In(SetList(p.pending, a, DemotionKept(p, a)), t) <==>
      if t.sender == a then t in DemotionKept(p, a) else In(p.pending, t)
  {
    Postponement(p, a);
    OfAccount(p, a);
    hide DemotionKept, DemotionPostponed, DemotionSplit;
    SetListIn(p.pending, a, DemotionKept(p, a));
  }

  // ---------------------------------------------------------------- all accounts

  lemma OthersKeep(p: Pool, q: Pool, a: Address, t: Tx)
    requires q.chain == p.chain && t.sender != a
    requires forall u: Tx :: u.sender != a ==> (In(q.pending, u) <==> In(p.pending, u))
    ensures (Stays(q, t) <==> Stays(p, t)) && (Forgotten(q, t) <==> Forgotten(p, t))
    ensures Returns(q, t) <==> Returns(p, t)
  {
    hide In, Covered, Chain.Nonce;
  }

  /** A pass over some of the accounts, in any order. */
  lemma {:induction false} DemoteSome(p: Pool, order: seq<Address>, now: Time)
    requires Inv(p) && Distinct(order) && forall a :: a in order ==> a in p.pending
    ensures var q := DemoteUnexecutables(p, order, now);
      && Inv(q) && q.chain == p.chain
      && (forall t :: In(q.pending, t) <==> if t.sender in order then Stays(p, t) else In(p.pending, t))
      && (forall t :: In(q.queue, t) <==> In(p.queue, t) || (t.sender in order && Returns(p, t)))
    decreases |order|
  {
    hide InvT, DemoteAccount, Stays, Forgotten, Returns;
    if order != [] {
      var a, rest := order[0], order[1..];
      var q := DemoteAccount(p, a, now);
      DemoteOne(p, a, now);
      assert order == [a] + rest && a !in rest;
      forall b | b in rest ensures b in q.pending { StillPending(p, q, a, b); }
      DemoteSome(q, rest, now);
      forall t: Tx | t.sender != a
        ensures (Stays(q, t) <==> Stays(p, t)) && (Returns(q, t) <==> Returns(p, t))
      {
        OthersKeep(p, q, a, t);
      }
    }
  }

  lemma StillPending(p: Pool, q: Pool, a: Address, b: Address)
    requires Inv(p) && b in p.pending && b != a
    requires forall u: Tx :: u.sender != a ==> (In(q.pending, u) <==> In(p.pending, u))
    ensures b in q.pending
  {
    OfAccount(p, b);
    var t := p.pending[b][0];
    assert t in p.pending[b];
  }

  /**
   A demotion pass over all accounts. Forgotten is exactly what was pending and is included already or
   not covered; what stays pending is covered and goes down to the chain nonce; and everything else that
   was pending is queued again.
   */
  lemma DemotionExactly(p: Pool, order: seq<Address>, now: Time)
    requires Inv(p) && Distinct(order) && forall a :: a in order <==> a in p.pending
    ensures var q := DemoteUnexecutables(p, order, now);
      && (forall t :: In(q.pending, t) <==> Stays(p, t))
      && (forall t :: In(q.queue, t) <==> In(p.queue, t) || Returns(p, t))
      && (forall t :: Pooled(q.known, t) <==> Pooled(p.known, t) && !Forgotten(p, t))
  {
    hide Stays, Forgotten, Returns, DemoteUnexecutables, InvT;
    DemoteSome(p, order, now);
    var q := DemoteUnexecutables(p, order, now);
    forall t ensures (Stays(p, t) ==> t.sender in order) && (Returns(p, t) ==> t.sender in order) {
      PendingAccount(p, t);
    }
    forall t ensures Pooled(q.known, t) <==> Pooled(p.known, t) && !Forgotten(p, t) {
      PooledIsListed(p, t);
      PooledIsListed(q, t);
      FatesApart(p, t);
      PendingAccount(p, t);
    }
  }

  lemma PendingAccount(p: Pool, t: Tx)
    ensures Stays(p, t) || Returns(p, t) || Forgotten(p, t) ==> t.sender in p.pending && In(p.pending, t)
  {
  }

  lemma FatesApart(p: Pool, t: Tx)
    requires Inv(p)
    ensures In(p.pending, t) <==> Stays(p, t) || Returns(p, t) || Forgotten(p, t)
    ensures !(Stays(p, t) && Forgotten(p, t)) && !(Returns(p, t) && Forgotten(p, t))
    ensures In(p.queue, t) ==> !Forgotten(p, t)
  {
  }

  lemma PooledIsListed(p: Pool, t: Tx)
    requires Inv(p)
    ensures Pooled(p.known, t) <==> In(p.pending, t) || In(p.queue, t)
  {
    assert Listed(p, [], t) <==> In(p.pending, t) || In(p.queue, t);
  }

  /** The same for the demotion in a reorg, from what the promotion before it has left. */
  lemma ReorgDemotesExactly(p: Pool, plan: Plan, now: Time)
    requires Inv(p) && PlanOk(p, plan, now) && !plan.head.NoReset?
    ensures var r, d := AfterPromote(p, plan, now), AfterDemote(p, plan, now);
      && (forall t :: In(d.pending, t) <==> Stays(r, t))
      && (forall t :: In(d.queue, t) <==> In(r.queue, t) || Returns(r, t))
      && (forall t :: Pooled(d.known, t) <==> Pooled(r.known, t) && !Forgotten(r, t))
  {
    var r := AfterPromote(p, plan, now);
    PlanHead(p, plan, now);
    ReorgKeepsInv(p, plan, now);
    assert Enumerates(plan.demote, r.pending.Keys);
    hide InvT, AfterPromote, DemoteUnexecutables, Stays, Returns, Forgotten, Pooled, TruncatePending, ByAge;
    DemotionExactly(r, plan.demote, now);
  }
}
