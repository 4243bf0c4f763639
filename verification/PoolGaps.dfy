/**
 Exactly when a reset leaves a gap. After a new head an account's pending list still starts at the old
 chain nonce; what the queue holds in between decides whether the gap is closed, noticed, or kept.
 */
module PoolGaps {
  import opened Transactions
  import opened TxLists
  import opened PoolState
  import opened PoolInvariant
  import opened PoolPreservation
  import opened PoolContiguity

  /** The queued transactions of an account that the new chain state admits. */
  function Live(p: Pool, a: Address): seq<Tx> {
    var l := At(p.queue, a);
    Payable(l[Rank(l, p.chain.Nonce(a))..], p.chain.Balance(a), p.chain.gasLimit)
  }

  /** The account's nonce fell below its pending list, whose first transaction can still be paid for. */
  predicate Stranded(p: Pool, base: Chain, a: Address) {
    var l := At(p.pending, a);
    p.chain.Nonce(a) < base.Nonce(a) && l != [] && !Unpayable(l[0], p.chain.Balance(a), p.chain.gasLimit)
  }

  /** Nothing in the queue starts at the chain nonce, so the gap is noticed. */
  predicate GapNoticed(p: Pool, base: Chain, a: Address) {
    Stranded(p, base, a) && !HasNonce(Live(p, a), p.chain.Nonce(a))
  }

  /** The queue starts at the chain nonce but does not reach up to the pending list. */
  ghost predicate GapKept(p: Pool, base: Chain, a: Address) {
    && Stranded(p, base, a) && HasNonce(Live(p, a), p.chain.Nonce(a))
    && exists n :: p.chain.Nonce(a) < n < base.Nonce(a) && !HasNonce(Live(p, a), n)
  }

  // ---------------------------------------------------------------- one account whose nonce fell

  /** What the promotion of an account hands out. */
  function ReadyOf(p: Pool, a: Address): seq<Tx> {
    if a in p.queue then PromotionSplit(p, a).ready else []
  }

  lemma LiveFacts(p: Pool, a: Address)
    requires Inv(p)
    ensures var live := Live(p, a);
      && Sorted(live)
      && (forall t :: t in live ==> t in At(p.queue, a) && t.nonce >= p.chain.Nonce(a))
      && (forall t :: t in live ==> !Unpayable(t, p.chain.Balance(a), p.chain.gasLimit))
  {
    var l := At(p.queue, a);
    AtFacts(p.queue, a);
    TakeDrop(l, Rank(l, p.chain.Nonce(a)));
    hide InvT;
  }

  /** With a fallen nonce the ready transactions are the run at the front of the admitted queue. */
  lemma ReadyIsRun(p: Pool, base: Chain, a: Address)
    requires Inv(p) && ShapeAt(p, base, false, a) && p.chain.Nonce(a) < base.Nonce(a)
    ensures var live, m := Live(p, a), p.chain.Nonce(a);
      ReadyOf(p, a) == if live != [] && live[0].nonce == m then live[..RunLength(live)] else []
  {
    LiveFacts(p, a);
    assert p.Virtual(a) == p.chain.Nonce(a);
    var live := Live(p, a);
    assert live != [] ==> live[0] in live;
    if a !in p.queue { assert live == []; }
    hide InvT, RunLength;
  }

  /** Which nonces a sorted list holds, told from the length of the run at its front. */
  lemma FrontRun(live: seq<Tx>, m: nat, n: nat)
    requires Sorted(live) && m < n && forall t :: t in live ==> t.nonce >= m
    ensures HasNonce(live, m) <==> live != [] && live[0].nonce == m
    ensures HasNonce(live, m) && RunLength(live) >= n - m ==> forall x :: m <= x < n ==> HasNonce(live, x)
    ensures HasNonce(live, m) && RunLength(live) < n - m ==> !HasNonce(live, m + RunLength(live))
  {
    StartsAt(live, m);
    hide HasNonce, Sorted;
    if HasNonce(live, m) {
      var k := RunLength(live);
      RunEndsAt(live, m);
      if k >= n - m {
        forall x | m <= x < n ensures HasNonce(live, x) { HoldsWithin(live, m, x); }
      }
    }
  }

  lemma StartsAt(live: seq<Tx>, m: nat)
    requires Sorted(live) && forall t :: t in live ==> t.nonce >= m
    ensures HasNonce(live, m) <==> live != [] && live[0].nonce == m
  {
    HasNonceIff(live, m);
    hide HasNonce;
    assert live != [] ==> live[0] in live;
    assert forall i :: 0 < i < |live| ==> live[0].nonce < live[i].nonce;
  }

  lemma HoldsWithin(live: seq<Tx>, m: nat, x: nat)
    requires Sorted(live) && live != [] && live[0].nonce == m && m <= x < m + RunLength(live)
    ensures HasNonce(live, x)
  {
    assert live[x - m].nonce == x;
    InHasNonce(live, live[x - m]);
    hide HasNonce;
  }

  lemma RunEndsAt(live: seq<Tx>, m: nat)
    requires Sorted(live) && live != [] && live[0].nonce == m
    ensures !HasNonce(live, m + RunLength(live))
  {
    hide HasNonce, RunLength;
    HasNonceIff(live, m + RunLength(live));
    forall i | 0 <= i < |live| ensures live[i].nonce != m + RunLength(live) { FrontEnds(live, m, i); }
  }

  lemma FrontEnds(live: seq<Tx>, m: nat, i: nat)
    requires Sorted(live) && i < |live| && live[0].nonce == m
    ensures live[i].nonce != m + RunLength(live)
  {
    var k := RunLength(live);
    if i >= k {
      assert live[k - 1].nonce == m + k - 1;
      assert live[k].nonce > live[k - 1].nonce;
      if i > k { assert live[i].nonce > live[k].nonce; }
    }
  }

  /** The queue cannot hold the nonce where the pending list starts, so the run stops before it. */
  lemma RunStopsBelow(p: Pool, base: Chain, a: Address)
    requires Inv(p) && ShapeAt(p, base, false, a) && p.chain.Nonce(a) < base.Nonce(a) && At(p.pending, a) != []
    ensures var ready, m := ReadyOf(p, a), p.chain.Nonce(a);
      && RunFrom(ready, m) && |ready| <= base.Nonce(a) - m
      && (forall t :: t in ready ==> !Unpayable(t, p.chain.Balance(a), p.chain.gasLimit))
  {
    var live, ready, m, n := Live(p, a), ReadyOf(p, a), p.chain.Nonce(a), base.Nonce(a);
    hide Inv, Live, ReadyOf, HasNonce, RunLength;
    LiveFacts(p, a);
    ReadyIsRun(p, base, a);
    ReadyRunFrom(p, base, a);
    NoSharedNonce(p, a, n);
    FirstNonce(At(p.pending, a), n);
    QueueSorted(p, a);
    if |ready| > n - m {
      var t := ready[n - m];
      assert t.nonce == n && t in live;
      InHasNonce(At(p.queue, a), t);
    }
  }

  lemma QueueSorted(p: Pool, a: Address)
    requires Inv(p)
    ensures Sorted(At(p.queue, a))
  {
    AtFacts(p.queue, a);
  }

  lemma FirstNonce(l: seq<Tx>, n: nat)
    requires RunFrom(l, n) && l != []
    ensures HasNonce(l, n)
  {
    RunHasNonce(l, n, n);
  }

  lemma InHasNonce(l: seq<Tx>, t: Tx)
    requires Sorted(l) && t in l
    ensures HasNonce(l, t.nonce)
  {
    HasNonceIff(l, t.nonce);
  }

  /** Promotion puts the run in front of the pending list. */
  lemma {:induction false} PromoteAllPrepends(p: Pool, a: Address, done: seq<Tx>, txs: seq<Tx>,
      l: seq<Tx>, s: nat, now: Time)
    requires At(p.pending, a) == done + l
    requires RunFrom(done + txs, s) && forall t :: t in l ==> t.nonce >= s + |done| + |txs|
    ensures At(PromoteAll(p, a, txs, now).pending, a) == done + txs + l
    decreases |txs|
  {
    if txs == [] {
      assert done + txs == done;
    } else {
      var x := txs[0];
      RunParts(done, txs, s);
      hide RunFrom, Promote, Put, Rank, At, HasNonce;
      PutBetween(done, x, l, s);
      assert done + txs == done + [x] + txs[1..];
      PromotePut(p, a, x, now);
      PromoteAllPrepends(Promote(p, a, x, now), a, done + [x], txs[1..], l, s, now);
    }
  }

  lemma RunParts(done: seq<Tx>, txs: seq<Tx>, s: nat)
    requires RunFrom(done + txs, s) && txs != []
    ensures RunFrom(done, s) && txs[0].nonce == s + |done|
  {
    assert forall i :: 0 <= i < |done| ==> (done + txs)[i] == done[i];
    assert (done + txs)[|done|].nonce == s + |done|;
  }

  lemma PutBetween(done: seq<Tx>, x: Tx, l: seq<Tx>, s: nat)
    requires RunFrom(done, s) && x.nonce == s + |done| && forall t :: t in l ==> t.nonce > x.nonce
    ensures !HasNonce(done + l, x.nonce) && Put(done + l, x) == done + [x] + l
  {
    assert l != [] ==> l[0] in l;
    RankSplit(done, l, x.nonce);
    assert (done + l)[..|done|] == done;
  }

  lemma PromotePut(p: Pool, a: Address, x: Tx, now: Time)
    requires !HasNonce(At(p.pending, a), x.nonce)
    ensures At(Promote(p, a, x, now).pending, a) == Put(At(p.pending, a), x)
  {
  }

  /** What the demotion makes of a payable run in front of an old pending list. */
  lemma DemoteJoined(p: Pool, a: Address, ready: seq<Tx>, l: seq<Tx>, n: nat)
    requires At(p.pending, a) == ready + l && l != [] && p.chain.Nonce(a) < n
    requires RunFrom(ready, p.chain.Nonce(a)) && RunFrom(l, n) && |ready| <= n - p.chain.Nonce(a)
    requires forall t :: t in ready ==> !Unpayable(t, p.chain.Balance(a), p.chain.gasLimit)
    ensures var survives := !Unpayable(l[0], p.chain.Balance(a), p.chain.gasLimit);
      && (HasGap(p, a) <==> survives && ready == [])
      && (RunFrom(DemotionKept(p, a), p.chain.Nonce(a)) <==> !(survives && 0 < |ready| < n - p.chain.Nonce(a)))
  {
    hide DemotionSplit, PayableRun, Unpayable, HasNonce, At;
    var m, j := p.chain.Nonce(a), PayableRun(l, p.chain.Balance(a), p.chain.gasLimit);
    KeptOfJoined(p, a, ready, l, n);
    PayableRunJoined([], l, p.chain.Balance(a), p.chain.gasLimit);
    PrefixRun(l, j, n);
    KeptHasNonce(ready, l[..j], m, n);
    JoinedRun(ready, l[..j], m, n);
    hide RunFrom;
    EmptyRun(m);
  }

  lemma PrefixRun(l: seq<Tx>, j: nat, n: nat)
    requires RunFrom(l, n) && j <= |l|
    ensures RunFrom(l[..j], n) && (l[..j] == [] <==> j == 0)
  {
  }

  lemma EmptyRun(m: nat)
    ensures RunFrom([], m)
  {
  }

  lemma KeptOfJoined(p: Pool, a: Address, ready: seq<Tx>, l: seq<Tx>, n: nat)
    requires At(p.pending, a) == ready + l && l != [] && p.chain.Nonce(a) < n
    requires RunFrom(ready, p.chain.Nonce(a)) && RunFrom(l, n)
    requires forall t :: t in ready ==> !Unpayable(t, p.chain.Balance(a), p.chain.gasLimit)
    ensures DemotionSplit(p, a).kept == ready + l[..PayableRun(l, p.chain.Balance(a), p.chain.gasLimit)]
  {
    var m, b, g := p.chain.Nonce(a), p.chain.Balance(a), p.chain.gasLimit;
    JoinedAbove(ready, l, m, n);
    PayableRunJoined(ready, l, b, g);
    hide PayableRun, Unpayable, Unaffordable, Payable, Rank, RunFrom;
    var all := ready + l;
    assert all[0..] == all && all[..|ready| + PayableRun(l, b, g)] == ready + l[..PayableRun(l, b, g)];
  }

  lemma JoinedAbove(ready: seq<Tx>, l: seq<Tx>, m: nat, n: nat)
    requires l != [] && m < n && RunFrom(ready, m) && RunFrom(l, n)
    ensures Rank(ready + l, m) == 0
  {
    assert (ready + l)[0] == if ready == [] then l[0] else ready[0];
  }

  lemma JoinedRun(ready: seq<Tx>, l: seq<Tx>, m: nat, n: nat)
    requires m < n && RunFrom(ready, m) && RunFrom(l, n) && |ready| <= n - m
    ensures RunFrom(ready + l, m) <==> l == [] || |ready| == n - m
  {
    if l != [] { assert (ready + l)[|ready|] == l[0]; }
  }

  lemma KeptHasNonce(ready: seq<Tx>, l: seq<Tx>, m: nat, n: nat)
    requires m < n && RunFrom(ready, m) && RunFrom(l, n) && |ready| <= n - m
    ensures HasNonce(ready + l, m) <==> ready != []
  {
    var kept := ready + l;
    if kept != [] { assert kept[0].nonce >= m && Rank(kept, m) == 0; }
  }

  lemma {:induction false} PayableRunJoined(ready: seq<Tx>, l: seq<Tx>, balance: nat, gasLimit: nat)
    requires forall t :: t in ready ==> !Unpayable(t, balance, gasLimit)
    ensures PayableRun(ready + l, balance, gasLimit) == |ready| + PayableRun(l, balance, gasLimit)
    ensures l != [] ==> (PayableRun(l, balance, gasLimit) > 0 <==> !Unpayable(l[0], balance, gasLimit))
    decreases |ready|
  {
    if ready == [] {
      assert ready + l == l;
    } else {
      assert (ready + l)[1..] == ready[1..] + l;
      PayableRunJoined(ready[1..], l, balance, gasLimit);
    }
  }

  // ---------------------------------------------------------------- one account, from reset to demotion

  /**
   What promotion makes of an account: nothing is missing from the chain nonce on, or, if the nonce
   fell, the ready run is put in front of what was pending.
   */
  ghost predicate Promoted(q: Pool, r: Pool, base: Chain, a: Address) {
    if base.Nonce(a) <= q.chain.Nonce(a) then PromotedAt(r, a)
    else At(r.pending, a) == ReadyOf(q, a) + At(q.pending, a)
  }

  lemma PromoteOneAccount(q: Pool, base: Chain, a: Address, now: Time)
    requires Inv(q) && ShapeAt(q, base, false, a) && a in q.queue
    ensures Promoted(q, PromoteAccount(q, a, now), base, a) && PromoteAccount(q, a, now).chain == q.chain
  {
    PromoteAccountEffect(q, a, now);
    if base.Nonce(a) <= q.chain.Nonce(a) {
      PromoteUnsettled(q, a, now, base);
      hide PromoteAccount, PromoteAll, PromotionSplit, InvT;
    } else {
      PromoteFallen(q, base, a, now);
      hide PromoteAccount, PromoteAll, PromotionSplit, InvT;
    }
  }

  lemma PromoteFallen(q: Pool, base: Chain, a: Address, now: Time)
    requires Inv(q) && ShapeAt(q, base, false, a) && a in q.queue && q.chain.Nonce(a) < base.Nonce(a)
    ensures At(PromoteAll(q, a, ReadyOf(q, a), now).pending, a) == ReadyOf(q, a) + At(q.pending, a)
  {
    var ready, l, m := ReadyOf(q, a), At(q.pending, a), q.chain.Nonce(a);
    ReadyRunFrom(q, base, a);
    if l != [] { RunStopsBelow(q, base, a); }
    assert [] + l == l && [] + ready == ready;
    hide InvT, ReadyOf, PromoteAll;
    forall t | t in l ensures t.nonce >= m + |ready| { InRun(l, base.Nonce(a), t); }
    PromoteAllPrepends(q, a, [], ready, l, m, now);
  }

  lemma InRun(l: seq<Tx>, s: nat, t: Tx)
    requires RunFrom(l, s) && t in l
    ensures t.nonce >= s
  {
  }

  lemma ReadyRunFrom(q: Pool, base: Chain, a: Address)
    requires Inv(q) && ShapeAt(q, base, false, a) && q.chain.Nonce(a) < base.Nonce(a)
    ensures RunFrom(ReadyOf(q, a), q.chain.Nonce(a))
  {
    LiveFacts(q, a);
    ReadyIsRun(q, base, a);
    hide InvT, Live, ReadyOf;
  }

  /** The outcome for one account, decided by what it had pending and queued after the reset. */
  lemma GapExactly(q: Pool, r: Pool, base: Chain, a: Address)
    requires Inv(q) && ShapeAt(q, base, false, a) && r.chain == q.chain && Promoted(q, r, base, a)
    ensures HasGap(r, a) <==> GapNoticed(q, base, a)
    ensures RunFrom(DemotionKept(r, a), r.chain.Nonce(a)) <==> !GapKept(q, base, a)
  {
    if base.Nonce(a) <= q.chain.Nonce(a) {
      DemotionRun(r, a);
    } else if At(q.pending, a) == [] {
      OnlyReady(q, r, base, a);
    } else {
      JoinedExactly(q, r, base, a);
    }
    hide DemotionSplit, HasGap, InvT, Live, ReadyOf, Promoted, HasNonce;
  }

  lemma OnlyReady(q: Pool, r: Pool, base: Chain, a: Address)
    requires Inv(q) && ShapeAt(q, base, false, a) && r.chain == q.chain && Promoted(q, r, base, a)
    requires q.chain.Nonce(a) < base.Nonce(a) && At(q.pending, a) == []
    ensures !HasGap(r, a) && RunFrom(DemotionKept(r, a), r.chain.Nonce(a))
  {
    ReadyRunFrom(q, base, a);
    assert ReadyOf(q, a) + [] == ReadyOf(q, a);
    hide InvT, ReadyOf, DemotionSplit, HasGap;
    RunPromoted(r, a);
    DemotionRun(r, a);
  }

  lemma JoinedExactly(q: Pool, r: Pool, base: Chain, a: Address)
    requires Inv(q) && ShapeAt(q, base, false, a) && r.chain == q.chain && Promoted(q, r, base, a)
    requires q.chain.Nonce(a) < base.Nonce(a) && At(q.pending, a) != []
    ensures HasGap(r, a) <==> GapNoticed(q, base, a)
    ensures RunFrom(DemotionKept(r, a), r.chain.Nonce(a)) <==> !GapKept(q, base, a)
  {
    hide Inv, Live, ReadyOf, HasGap, DemotionKept, RunLength, HasNonce, Unpayable, PromotedAt;
    RunStopsBelow(q, base, a);
    ReadyIsRun(q, base, a);
    LiveFacts(q, a);
    QueueReaches(Live(q, a), q.chain.Nonce(a), base.Nonce(a));
    DemoteJoined(r, a, ReadyOf(q, a), At(q.pending, a), base.Nonce(a));
  }

  /** Whether the admitted queue reaches up to `n`, told from the run at its front. */
  lemma QueueReaches(live: seq<Tx>, m: nat, n: nat)
    requires Sorted(live) && m < n && forall t :: t in live ==> t.nonce >= m
    ensures var ready := if live != [] && live[0].nonce == m then live[..RunLength(live)] else [];
      && (HasNonce(live, m) <==> ready != [])
      && (HasNonce(live, m) && (exists x :: m < x < n && !HasNonce(live, x)) <==> 0 < |ready| < n - m)
  {
    FrontRun(live, m, n);
    hide HasNonce, RunLength;
  }

  lemma RunPromoted(p: Pool, a: Address)
    requires NoGapAt(p, a)
    ensures PromotedAt(p, a)
  {
    var l := At(p.pending, a);
    if l != [] { assert Rank(l, p.chain.Nonce(a)) == 0; }
  }

  // ---------------------------------------------------------------- all accounts

  /** What decides an account's promotion is the same in both pools. */
  ghost predicate Untouched(q: Pool, s: Pool, a: Address) {
    && s.chain == q.chain && s.cfg == q.cfg && s.accounts == q.accounts
    && At(s.pending, a) == At(q.pending, a) && At(s.queue, a) == At(q.queue, a) && s.Virtual(a) == q.Virtual(a)
  }

  ghost predicate PromotedSoFar(q: Pool, s: Pool, base: Chain, todo: seq<Address>) {
    && s.chain == q.chain && s.cfg == q.cfg && s.accounts == q.accounts
    && forall a :: if a in todo then Untouched(q, s, a) else Promoted(q, s, base, a)
  }

  lemma SameReady(q: Pool, s: Pool, base: Chain, a: Address)
    requires Inv(q) && Inv(s) && Untouched(q, s, a)
    ensures ReadyOf(s, a) == ReadyOf(q, a) && (a in s.queue <==> a in q.queue)
    ensures ShapeAt(s, base, false, a) == ShapeAt(q, base, false, a)
  {
    QueuedIff(q, a);
    QueuedIff(s, a);
    hide InvT;
  }

  lemma QueuedIff(p: Pool, a: Address)
    requires Inv(p)
    ensures a in p.queue <==> At(p.queue, a) != []
  {
  }

  lemma NothingToPromote(q: Pool, s: Pool, base: Chain, a: Address)
    requires Inv(q) && Inv(s) && Untouched(q, s, a) && ShapeAt(q, base, false, a) && a !in s.queue
    ensures Promoted(q, s, base, a)
  {
    SameReady(q, s, base, a);
    if base.Nonce(a) <= q.chain.Nonce(a) { ShapePromoted(s, base, false, a); }
    assert [] + At(q.pending, a) == At(q.pending, a);
    hide InvT;
  }

  /** One step of the promotion loop. */
  lemma PromoteStep(q: Pool, s: Pool, base: Chain, todo: seq<Address>, now: Time)
    requires Inv(q) && Inv(s) && Distinct(todo) && todo != [] && PromotedSoFar(q, s, base, todo)
    requires ShapeAt(q, base, false, todo[0])
    ensures PromotedSoFar(q, PromoteAccount(s, todo[0], now), base, todo[1..])
  {
    hide Inv, PromoteAccount, ShapeAt, Promoted;
    var a, t := todo[0], PromoteAccount(s, todo[0], now);
    assert todo == [a] + todo[1..];
    assert a in todo && a !in todo[1..];
    OnePromotedNext(q, s, base, a, now);
    forall b ensures if b in todo[1..] then Untouched(q, t, b) else Promoted(q, t, base, b) {
      if b != a { OthersCarried(q, s, t, base, b); }
    }
  }

  /** An account's turn promotes it and leaves the others as they are. */
  lemma OnePromotedNext(q: Pool, s: Pool, base: Chain, a: Address, now: Time)
    requires Inv(q) && Inv(s) && Untouched(q, s, a) && ShapeAt(q, base, false, a)
    ensures var t := PromoteAccount(s, a, now);
      && Promoted(q, t, base, a) && t.chain == s.chain && t.cfg == s.cfg && t.accounts == s.accounts
      && (forall b :: b != a ==>
            At(t.pending, b) == At(s.pending, b) && At(t.queue, b) == At(s.queue, b) && t.Virtual(b) == s.Virtual(b))
  {
    SameReady(q, s, base, a);
    if a in s.queue {
      PromoteOneAccount(s, base, a, now);
      PromoteAccountEffect(s, a, now);
    } else {
      NothingToPromote(q, s, base, a);
    }
    hide InvT, PromoteAll, PromotionSplit, ReadyOf, PromotedAt, ShapeAt, At;
  }

  lemma OthersCarried(q: Pool, s: Pool, t: Pool, base: Chain, b: Address)
    requires t.chain == s.chain && t.cfg == s.cfg && t.accounts == s.accounts
    requires At(t.pending, b) == At(s.pending, b) && At(t.queue, b) == At(s.queue, b) && t.Virtual(b) == s.Virtual(b)
    ensures Untouched(q, s, b) ==> Untouched(q, t, b)
    ensures Promoted(q, s, base, b) ==> Promoted(q, t, base, b)
  {
    SamePromotedAt(s, t, b);
    hide PromotedAt, ReadyOf;
  }

  lemma SamePromotedAt(s: Pool, t: Pool, b: Address)
    requires t.chain == s.chain && At(t.pending, b) == At(s.pending, b)
    ensures PromotedAt(t, b) == PromotedAt(s, b)
  {
  }

  lemma {:induction false} PromoteAllExactly(q: Pool, s: Pool, base: Chain, todo: seq<Address>, now: Time)
    requires Inv(q) && Inv(s) && Distinct(todo) && PromotedSoFar(q, s, base, todo)
    requires forall a :: ShapeAt(q, base, false, a)
    ensures var r := PromoteExecutables(s, todo, now);
      r.chain == q.chain && forall a :: Promoted(q, r, base, a)
    decreases |todo|
  {
    hide InvT, PromoteAccount, ShapeAt, Promoted;
    if todo != [] {
      assert ShapeAt(q, base, false, todo[0]);
      PromoteAccountKeepsInv(s, todo[0], now);
      PromoteStep(q, s, base, todo, now);
      PromoteAllExactly(q, PromoteAccount(s, todo[0], now), base, todo[1..], now);
    }
  }

  ghost predicate DemotedSoFar(r: Pool, s: Pool, todo: seq<Address>) {
    && s.chain == r.chain
    && forall a :: At(s.pending, a) == if a in todo then At(r.pending, a) else DemotionKept(r, a)
  }

  lemma SameDemotion(r: Pool, s: Pool, a: Address)
    requires s.chain == r.chain && At(s.pending, a) == At(r.pending, a)
    ensures HasGap(s, a) == HasGap(r, a) && DemotionKept(s, a) == DemotionKept(r, a)
    ensures At(r.pending, a) == [] ==> DemotionKept(r, a) == [] && !HasGap(r, a)
  {
  }

  lemma DemoteStep(r: Pool, s: Pool, todo: seq<Address>, now: Time)
    requires Inv(s) && Distinct(todo) && todo != [] && DemotedSoFar(r, s, todo)
    ensures DemotedSoFar(r, DemoteAccount(s, todo[0], now), todo[1..]) && HasGap(s, todo[0]) == HasGap(r, todo[0])
  {
    var a := todo[0];
    assert todo == [a] + todo[1..];
    assert a in todo && a !in todo[1..];
    SameDemotion(r, s, a);
    DemoteAccountEffect(s, a, now);
    hide InvT, DemoteAccount, DemotionKept, HasGap;
  }

  /** The demotion loop meets a gap exactly where the promotion left one, and keeps what it should. */
  lemma {:induction false} DemoteAllExactly(r: Pool, s: Pool, todo: seq<Address>, now: Time)
    requires Inv(s) && Distinct(todo) && DemotedSoFar(r, s, todo)
    ensures var d := DemoteUnexecutables(s, todo, now);
      d.chain == r.chain && forall a :: At(d.pending, a) == DemotionKept(r, a)
    ensures GapNeverTaken(s, todo, now) <==> forall a :: a in todo ==> !HasGap(r, a)
    decreases |todo|
  {
    hide InvT, DemoteAccount, DemotionKept, HasGap;
    if todo != [] {
      assert todo == [todo[0]] + todo[1..];
      DemoteAccountKeepsInv(s, todo[0], now);
      DemoteStep(r, s, todo, now);
      DemoteAllExactly(r, DemoteAccount(s, todo[0], now), todo[1..], now);
    }
  }
}
