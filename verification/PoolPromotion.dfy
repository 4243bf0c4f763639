/**
 What a promotion does to every queued transaction of an account, said in terms of nonces, balances, gas
 limits and counts: which are forgotten, which become pending, and which stay queued.
 */
module PoolPromotion {
  import opened Transactions
  import opened TxLists
  import opened PoolState
  import opened PoolInvariant
  import opened PoolPreservation
  import opened PoolContiguity
  import opened PoolTruncation
  import opened PoolRuns
  import opened PoolDemotion

  /** Queued, not included in the chain yet, and covered. */
  ghost predicate Alive(p: Pool, t: Tx) {
    In(p.queue, t) && t.nonce >= p.chain.Nonce(t.sender) && Covered(p.chain, t)
  }

  ghost predicate AliveAt(p: Pool, a: Address, n: nat) { exists u :: Alive(p, u) && u.sender == a && u.nonce == n }

  /** `low` is the account's lowest live nonce, and all nonces from there up to `t` are live. */
  ghost predicate Chained(p: Pool, low: Tx, t: Tx) {
    && Alive(p, low) && low.sender == t.sender
    && (forall u :: Alive(p, u) && u.sender == t.sender ==> low.nonce <= u.nonce)
    && (forall n :: low.nonce <= n <= t.nonce ==> AliveAt(p, t.sender, n))
  }

  /** Live, and reached without a gap from a lowest nonce that is not above the virtual nonce. */
  ghost predicate Ready(p: Pool, t: Tx) {
    Alive(p, t) && exists low :: Chained(p, low, t) && low.nonce <= p.Virtual(t.sender)
  }

  ghost predicate Waits(p: Pool, t: Tx) { Alive(p, t) && !Ready(p, t) }

  // ---------------------------------------------------------------- lists

  /** The nonces from the front of the list up to `t` are all there. */
  ghost predicate NoHole(live: seq<Tx>, t: Tx)
    requires live != []
  {
    forall n :: live[0].nonce <= n <= t.nonce ==> Occurs(live, n)
  }

  ghost predicate Occurs(l: seq<Tx>, n: nat) { exists u :: u in l && u.nonce == n }

  lemma InsideRun(live: seq<Tx>, t: Tx)
    requires Sorted(live) && live != [] && t in live[..RunLength(live)]
    ensures NoHole(live, t)
  {
    var k := RunLength(live);
    var i: nat :| i < k && live[..k][i] == t;
    forall n | live[0].nonce <= n <= t.nonce ensures Occurs(live, n) {
      assert live[n - live[0].nonce] in live && live[n - live[0].nonce].nonce == n;
    }
  }

  lemma NotNext(live: seq<Tx>, u: Tx)
    requires Sorted(live) && u in live && RunLength(live) < |live|
    ensures u.nonce != live[0].nonce + RunLength(live)
  {
    var k := RunLength(live);
    var j: nat :| j < |live| && live[j] == u;
    assert live[k - 1].nonce < live[k].nonce;
    if j > k { assert live[k].nonce < live[j].nonce; }
  }

  lemma OutsideRun(live: seq<Tx>, t: Tx)
    requires Sorted(live) && live != [] && t in live && t !in live[..RunLength(live)]
    ensures !NoHole(live, t)
  {
    var k := RunLength(live);
    var i: nat :| i < |live| && live[i] == t;
    NotBefore(live, k, i);
    var n := live[0].nonce + k;
    assert live[k - 1].nonce < live[k].nonce <= t.nonce;
    forall u | u in live ensures u.nonce != n { NotNext(live, u); }
    assert !Occurs(live, n);
  }

  lemma ReadyListed(live: seq<Tx>, start: nat, t: Tx)
    requires Sorted(live)
    ensures t in live[..ReadyCount(live, start)] <==>
      t in live && live[0].nonce <= start && NoHole(live, t)
  {
    if live != [] && t in live {
      if t in live[..RunLength(live)] { InsideRun(live, t); } else { OutsideRun(live, t); }
    }
    hide Sorted, NoHole, RunLength;
  }

  // ---------------------------------------------------------------- one account

  function LiveList(p: Pool, a: Address): seq<Tx> {
    Payable(At(p.queue, a)[Rank(At(p.queue, a), p.chain.Nonce(a))..], p.chain.Balance(a), p.chain.gasLimit)
  }

  lemma LiveListIs(p: Pool, a: Address)
    requires Inv(p)
    ensures Sorted(LiveList(p, a)) && forall t :: t in LiveList(p, a) <==> t.sender == a && Alive(p, t)
  {
    AtFacts(p.queue, a);
    var l, m := At(p.queue, a), p.chain.Nonce(a);
    TakeDrop(l, Rank(l, m));
    hide InvT, Rank, Sorted, Payable;
    forall t ensures t in LiveList(p, a) <==> t.sender == a && Alive(p, t) {
      LiveIs(l, m, t);
      hide In;
    }
  }

  lemma ReadyIs(p: Pool, a: Address, t: Tx)
    requires Inv(p)
    ensures t in LiveList(p, a)[..ReadyCount(LiveList(p, a), p.Virtual(a))] <==> t.sender == a && Ready(p, t)
  {
    var live := LiveList(p, a);
    LiveListIs(p, a);
    ReadyListed(live, p.Virtual(a), t);
    hide InvT, LiveList, Alive, ReadyCount, Pool.Virtual;
    if t in live {
      LowestIs(p, a, live);
      ChainedIs(p, a, live, t);
      if Ready(p, t) {
        var low :| Chained(p, low, t) && low.nonce <= p.Virtual(t.sender);
        SameLowest(p, low, live[0], t);
      }
    }
    hide Sorted;
  }

  lemma LowestIs(p: Pool, a: Address, live: seq<Tx>)
    requires Sorted(live) && live != [] && forall t :: t in live <==> t.sender == a && Alive(p, t)
    ensures Alive(p, live[0]) && live[0].sender == a
    ensures forall u :: Alive(p, u) && u.sender == a ==> live[0].nonce <= u.nonce
  {
    hide Alive;
    assert live[0] in live;
    forall u | Alive(p, u) && u.sender == a ensures live[0].nonce <= u.nonce {
      assert u in live;
      var j: nat :| j < |live| && live[j] == u;
    }
  }

  lemma ChainedIs(p: Pool, a: Address, live: seq<Tx>, t: Tx)
    requires live != [] && t.sender == a && (forall u :: u in live <==> u.sender == a && Alive(p, u))
    requires forall u :: Alive(p, u) && u.sender == a ==> live[0].nonce <= u.nonce
    ensures Chained(p, live[0], t) <==> NoHole(live, t)
  {
    hide Alive;
    assert live[0] in live;
    forall n: nat ensures Occurs(live, n) <==> AliveAt(p, a, n) { }
    hide Occurs, AliveAt;
  }

  lemma SameLowest(p: Pool, low: Tx, first: Tx, t: Tx)
    requires Chained(p, low, t) && Alive(p, first) && first.sender == t.sender
    requires forall u :: Alive(p, u) && u.sender == t.sender ==> first.nonce <= u.nonce
    ensures low.nonce == first.nonce && Chained(p, first, t)
  {
    hide Alive, AliveAt;
  }

  ghost function Waiting(p: Pool, a: Address): set<Tx> { set t | t in At(p.queue, a) && Waits(p, t) }

  lemma {:induction false} SetSize(l: seq<Tx>, s: set<Tx>)
    requires Distinct(l) && forall t :: t in s <==> t in l
    ensures |s| == |l|
    decreases |l|
  {
    if l == [] {
      assert s == {};
    } else {
      assert l == [l[0]] + l[1..] && l[0] !in l[1..];
      SetSize(l[1..], s - {l[0]});
    }
  }

  /**
   Of what waits, an account keeps everything if it is local, and otherwise up to the configured number,
   lowest nonces first.
   */
  ghost predicate KeepsLowest(p: Pool, kept: seq<Tx>, a: Address) {
    var n, cap := |Waiting(p, a)|, p.cfg.accountQueue;
    && (forall t :: t in kept ==> t in Waiting(p, a))
    && |kept| == (if a in p.accounts || n <= cap then n else cap)
    && (forall t, u :: t in kept && u in Waiting(p, a) && u !in kept ==> t.nonce < u.nonce)
  }

  lemma RestIs(p: Pool, a: Address)
    requires Inv(p)
    ensures var rest := LiveList(p, a)[ReadyCount(LiveList(p, a), p.Virtual(a))..];
      Sorted(rest) && |rest| == |Waiting(p, a)| && forall t :: t in rest <==> t in Waiting(p, a)
  {
    var live, k := LiveList(p, a), ReadyCount(LiveList(p, a), p.Virtual(a));
    LiveListIs(p, a);
    TakeDrop(live, k);
    AtFacts(p.queue, a);
    hide InvT, LiveList, ReadyCount, Ready, Pool.Virtual;
    forall t ensures t in live[k..] <==> t in Waiting(p, a) {
      ReadyIs(p, a, t);
      assert Alive(p, t) ==> In(p.queue, t);
      hide Alive;
    }
    SortedDistinct(live[k..]);
    SetSize(live[k..], Waiting(p, a));
  }

  lemma CutKeepsLowest(rest: seq<Tx>, c: nat)
    requires Sorted(rest) && c <= |rest|
    ensures forall t, u :: t in rest[..c] && u in rest && u !in rest[..c] ==> t.nonce < u.nonce
  {
    TakeDrop(rest, c);
  }

  lemma KeptLowest(p: Pool, a: Address, rest: seq<Tx>, c: nat)
    requires Sorted(rest) && |rest| == |Waiting(p, a)| && forall t :: t in rest <==> t in Waiting(p, a)
    requires c == if a in p.accounts || |rest| <= p.cfg.accountQueue then |rest| else p.cfg.accountQueue
    ensures KeepsLowest(p, rest[..c], a)
  {
    hide Waiting;
    CutKeepsLowest(rest, c);
    hide Sorted;
    forall t | t in rest[..c] ensures t in Waiting(p, a) { assert t in rest; }
  }

  /** The split of a queued list, transaction by transaction. */
  lemma PromotionFate(p: Pool, a: Address)
    requires Inv(p)
    ensures var s := PromotionSplit(p, a);
      && (forall t :: t in s.ready <==> t.sender == a && Ready(p, t))
      && KeepsLowest(p, s.kept, a)
  {
    hide *;
    var live, k := LiveList(p, a), ReadyCount(LiveList(p, a), p.Virtual(a));
    var rest := live[k..];
    RestIs(p, a);
    SplitIs(p, a);
    KeptLowest(p, a, rest, if a in p.accounts || |rest| <= p.cfg.accountQueue then |rest| else p.cfg.accountQueue);
    forall t ensures t in live[..k] <==> t.sender == a && Ready(p, t) { ReadyIs(p, a, t); }
  }

  lemma SplitIs(p: Pool, a: Address)
    ensures var live, k := LiveList(p, a), ReadyCount(LiveList(p, a), p.Virtual(a));
      var rest := live[k..];
      var c := if a in p.accounts || |rest| <= p.cfg.accountQueue then |rest| else p.cfg.accountQueue;
      PromotionSplit(p, a).ready == live[..k] && PromotionSplit(p, a).kept == rest[..c]
  {
    hide Payable, Rank, ReadyCount;
  }

  /** One account's promotion: the lists. */
  lemma PromoteOne(p: Pool, a: Address, now: Time)
    requires Inv(p) && a in p.queue
    ensures var q := PromoteAccount(p, a, now);
      && Inv(q) && q.chain == p.chain && q.cfg == p.cfg && q.accounts == p.accounts
      && (forall t :: In(q.pending, t) <==> In(p.pending, t) || (t.sender == a && Ready(p, t)))
      && (forall b :: b != a ==> At(q.queue, b) == At(p.queue, b) && q.Virtual(b) == p.Virtual(b))
      && KeepsLowest(p, At(q.queue, a), a)
  {
    PromotionFate(p, a);
    PromoteAccountKeepsInv(p, a, now);
    PromoteAccountEffect(p, a, now);
    PromotedLists(p, a, now);
    hide InvT, Ready, PromotionSplit, PromoteAccount, KeepsLowest, Pool.Virtual;
  }

  lemma PromotedLists(p: Pool, a: Address, now: Time)
    requires Inv(p) && a in p.queue
    ensures var s, q := PromotionSplit(p, a), PromoteAccount(p, a, now);
      && (forall t :: In(q.pending, t) <==> In(p.pending, t) || t in s.ready)
      && At(q.queue, a) == s.kept
  {
    var s := PromotionSplit(p, a);
    PromotionToTransit(p, a);
    var p1 := p.(queue := SetList(p.queue, a, s.kept), known := p.known.Minus(Hashes(s.dropped)));
    hide InvT, PromotionSplit, PromoteAll, Hashes;
    PromoteAllTransit(p1, a, s.ready, now);
  }

  /** One account's promotion: the virtual nonce is right above what has become pending last. */
  lemma PromotedNonce(p: Pool, a: Address, now: Time)
    requires Inv(p) && a in p.queue
    ensures var v := PromoteAccount(p, a, now).Virtual(a);
      if exists t :: Ready(p, t) && t.sender == a
      then (exists t :: Ready(p, t) && t.sender == a && v == t.nonce + 1)
        && forall t :: Ready(p, t) && t.sender == a ==> t.nonce < v
      else v == p.Virtual(a)
  {
    hide *;
    PromotionFate(p, a);
    PromoteAccountEffect(p, a, now);
    var ready := PromotionSplit(p, a).ready;
    ReadySorted(p, a);
    if ready != [] {
      LastIsTop(ready);
      assert Ready(p, ready[|ready| - 1]);
    }
  }

  lemma ReadySorted(p: Pool, a: Address)
    requires Inv(p)
    ensures Sorted(PromotionSplit(p, a).ready)
  {
    PromotionSplits(p, a);
    hide InvT, PromotionSplit;
  }

  lemma LastIsTop(l: seq<Tx>)
    requires Sorted(l) && l != []
    ensures l[|l| - 1] in l && forall t :: t in l ==> t.nonce <= l[|l| - 1].nonce
  {
    forall t | t in l ensures t.nonce <= l[|l| - 1].nonce { var i: nat :| i < |l| && l[i] == t; }
  }

  lemma {:induction false} PromoteAllBeats(p: Pool, a: Address, txs: seq<Tx>, now: Time)
    requires InvT(p, txs) && forall t :: t in txs ==> t.sender == a
    ensures PromoteAll(p, a, txs, now).beats == if txs == [] then p.beats else p.beats[a := now]
    decreases |txs|
  {
    hide *;
    PromoteAllStep(p, a, txs, now);
    if txs != [] {
      PromoteBeat(p, a, txs, now);
      PromoteAllBeats(Promote(p, a, txs[0], now), a, txs[1..], now);
    }
  }

  lemma PromoteBeat(p: Pool, a: Address, txs: seq<Tx>, now: Time)
    requires txs != [] && InvT(p, txs) && txs[0].sender == a
    ensures InvT(Promote(p, a, txs[0], now), txs[1..]) && Promote(p, a, txs[0], now).beats == p.beats[a := now]
  {
    hide *;
    assert txs == [txs[0]] + txs[1..];
    PromoteTransit(p, a, txs[0], txs[1..], now);
  }

  /**
   One account's promotion: the heartbeat is renewed if something has become pending, and goes if nothing
   is left in the queue; nobody else's changes.
   */
  lemma PromotedBeats(p: Pool, a: Address, now: Time)
    requires Inv(p) && a in p.queue
    ensures var q := PromoteAccount(p, a, now);
      var beats := if exists t :: Ready(p, t) && t.sender == a then p.beats[a := now] else p.beats;
      q.beats == if At(q.queue, a) == [] then beats - {a} else beats
  {
    hide *;
    var s := PromotionSplit(p, a);
    PromotionToTransit(p, a);
    PromotionFate(p, a);
    PromotedLists(p, a, now);
    var p1 := p.(queue := SetList(p.queue, a, s.kept), known := p.known.Minus(Hashes(s.dropped)));
    PromoteAllBeats(p1, a, s.ready, now);
    BeatsAre(p, a, now);
    if s.ready != [] { assert Ready(p, s.ready[0]); }
  }

  lemma BeatsAre(p: Pool, a: Address, now: Time)
    requires a in p.queue
    ensures var s := PromotionSplit(p, a);
      var p1 := p.(queue := SetList(p.queue, a, s.kept), known := p.known.Minus(Hashes(s.dropped)));
      var beats := PromoteAll(p1, a, s.ready, now).beats;
      PromoteAccount(p, a, now).beats == if s.kept == [] then beats - {a} else beats
  {
    hide PromotionSplit, PromoteAll, Hashes, SetList;
  }

  // ---------------------------------------------------------------- several accounts

  ghost predicate SameAlive(p: Pool, q: Pool, a: Address) {
    forall t: Tx :: t.sender == a ==> (Alive(q, t) <==> Alive(p, t))
  }

  lemma AliveSame(p: Pool, q: Pool, a: Address)
    requires q.chain == p.chain && At(q.queue, a) == At(p.queue, a)
    ensures SameAlive(p, q, a)
  {
    forall t: Tx | t.sender == a ensures Alive(q, t) <==> Alive(p, t) {
      InAt(p, q, t);
      hide In, Covered;
    }
  }

  lemma AliveAtSame(p: Pool, q: Pool, a: Address, n: nat)
    requires SameAlive(p, q, a)
    ensures AliveAt(q, a, n) <==> AliveAt(p, a, n)
  {
    hide Alive;
  }

  lemma ChainedSame(p: Pool, q: Pool, low: Tx, t: Tx)
    requires SameAlive(p, q, t.sender) && Chained(p, low, t)
    ensures Chained(q, low, t)
  {
    hide Alive, AliveAt;
    forall n: nat | low.nonce <= n <= t.nonce ensures AliveAt(q, t.sender, n) { AliveAtSame(p, q, t.sender, n); }
  }

  lemma AliveSwaps(p: Pool, q: Pool, a: Address)
    requires SameAlive(p, q, a)
    ensures SameAlive(q, p, a)
  {
    hide Alive;
  }

  lemma ReadySame(p: Pool, q: Pool, t: Tx)
    requires SameAlive(p, q, t.sender) && q.Virtual(t.sender) == p.Virtual(t.sender)
    ensures Ready(q, t) <==> Ready(p, t)
  {
    AliveSwaps(p, q, t.sender);
    hide Alive, Chained, Pool.Virtual;
    if Ready(p, t) {
      var low :| Chained(p, low, t) && low.nonce <= p.Virtual(t.sender);
      ChainedSame(p, q, low, t);
    }
    if Ready(q, t) {
      var low :| Chained(q, low, t) && low.nonce <= q.Virtual(t.sender);
      ChainedSame(q, p, low, t);
    }
  }

  lemma SameQueue(p: Pool, q: Pool, a: Address)
    requires Inv(p) && q.chain == p.chain
    requires At(q.queue, a) == At(p.queue, a) && q.Virtual(a) == p.Virtual(a)
    ensures Waiting(q, a) == Waiting(p, a) && forall t: Tx :: t.sender == a ==> (Ready(q, t) <==> Ready(p, t))
  {
    AliveSame(p, q, a);
    AtFacts(p.queue, a);
    hide InvT, Alive, Ready, Pool.Virtual;
    forall t: Tx | t.sender == a ensures Ready(q, t) <==> Ready(p, t) { ReadySame(p, q, t); }
  }

  lemma InAt(p: Pool, q: Pool, t: Tx)
    requires At(q.queue, t.sender) == At(p.queue, t.sender)
    ensures In(q.queue, t) <==> In(p.queue, t)
  {
  }

  /**
   A promotion of some accounts: pending is what was and what is ready; of the rest of their queues every
   account keeps the lowest nonces up to its bound; everybody else is left alone.
   */
  lemma {:induction false} PromotionExactly(p: Pool, accounts: seq<Address>, now: Time)
    requires Inv(p) && Distinct(accounts) && forall a :: a in accounts ==> a in p.queue
    ensures var q := PromoteExecutables(p, accounts, now);
      && Inv(q) && q.chain == p.chain && q.cfg == p.cfg && q.accounts == p.accounts
      && (forall t :: In(q.pending, t) <==> In(p.pending, t) || (t.sender in accounts && Ready(p, t)))
      && (forall a :: if a in accounts then KeepsLowest(p, At(q.queue, a), a) else At(q.queue, a) == At(p.queue, a))
    decreases |accounts|
  {
    hide InvT, PromoteAccount, Ready, Waiting, Pool.Virtual;
    if accounts != [] {
      var a, rest := accounts[0], accounts[1..];
      var q := PromoteAccount(p, a, now);
      PromoteOne(p, a, now);
      assert accounts == [a] + rest && a !in rest;
      forall b | b in rest ensures b in q.queue { AtNotEmpty(p, q, b); }
      PromotionExactly(q, rest, now);
      forall b | b != a
        ensures Waiting(q, b) == Waiting(p, b) && forall t: Tx :: t.sender == b ==> (Ready(q, t) <==> Ready(p, t))
      {
        SameQueue(p, q, b);
      }
    }
  }

  lemma AtNotEmpty(p: Pool, q: Pool, b: Address)
    requires Inv(p) && b in p.queue && At(q.queue, b) == At(p.queue, b)
    ensures b in q.queue
  {
  }

  /** The promotion in a reorg with a reset, of all queues that the reset leaves. */
  lemma ReorgPromotesExactly(p: Pool, plan: Plan, now: Time)
    requires Inv(p) && PlanOk(p, plan, now) && !plan.head.NoReset?
    ensures var q, r := AfterReset(p, plan.head, now), AfterPromote(p, plan, now);
      && (forall t :: In(r.pending, t) <==> In(q.pending, t) || Ready(q, t))
      && (forall a :: KeepsLowest(q, At(r.queue, a), a))
  {
    var q := AfterReset(p, plan.head, now);
    PlanHead(p, plan, now);
    ReorgKeepsInv(p, plan, now);
    assert Enumerates(plan.promote, q.queue.Keys);
    hide InvT, AfterReset, PromoteExecutables, Ready, KeepsLowest, TruncatePending, ByAge, AfterDemote;
    PromotionExactly(q, plan.promote, now);
    forall t ensures Ready(q, t) ==> t.sender in q.queue { ReadyQueued(q, t); }
    forall a | a !in q.queue ensures KeepsLowest(q, At(q.queue, a), a) { NothingWaits(q, a); }
  }

  lemma ReadyQueued(q: Pool, t: Tx)
    ensures Ready(q, t) ==> t.sender in q.queue
  {
  }

  lemma NothingWaits(q: Pool, a: Address)
    requires a !in q.queue
    ensures KeepsLowest(q, At(q.queue, a), a)
  {
    assert Waiting(q, a) == {};
  }
}
