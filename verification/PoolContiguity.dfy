/**
 Pending lists without gaps: the run of nonces that starts at the chain nonce, with the virtual nonce
 right behind it. What keeps this shape, and what a single account's promotion and demotion do to it.
 */
module PoolContiguity {
  import opened Transactions
  import opened TxLists
  import opened PoolState
  import opened PoolInvariant
  import opened PoolPreservation
  import opened PoolTruncation

  ghost predicate RunFrom(l: seq<Tx>, s: nat) {
    forall i :: 0 <= i < |l| ==> l[i].nonce == s + i
  }

  /**
   The pending list of `a` is a run from the nonce in `base`. When settled, `base` is the current
   chain and the virtual nonce is the end of the run; right after a new head it is the chain nonce,
   or lower if the chain nonce has overtaken the run and part of that has been removed.
   */
  ghost predicate ShapeAt(p: Pool, base: Chain, settled: bool, a: Address) {
    var l := At(p.pending, a);
    && RunFrom(l, base.Nonce(a))
    && (settled ==> base.Nonce(a) == p.chain.Nonce(a) && p.Virtual(a) == base.Nonce(a) + |l|)
    && (!settled ==> p.Virtual(a) <= p.chain.Nonce(a))
    && (!settled && p.Virtual(a) < p.chain.Nonce(a) ==> base.Nonce(a) <= p.Virtual(a))
  }

  ghost predicate Shape(p: Pool, base: Chain, settled: bool) {
    forall a :: ShapeAt(p, base, settled, a)
  }

  ghost predicate Contiguous(p: Pool) { Shape(p, p.chain, true) }

  /** What is left once nonces below the chain's are gone is a run from the chain nonce. */
  ghost predicate PromotedAt(p: Pool, a: Address) {
    var l := At(p.pending, a);
    RunFrom(l[Rank(l, p.chain.Nonce(a))..], p.chain.Nonce(a))
  }

  ghost predicate NoGapAt(p: Pool, a: Address) {
    RunFrom(At(p.pending, a), p.chain.Nonce(a))
  }

  // ---------------------------------------------------------------- removeTx and add

  lemma SameNonces(p: Pool, q: Pool, base: Chain, settled: bool)
    requires Shape(p, base, settled) && q.chain == p.chain
    requires forall a :: |At(q.pending, a)| == |At(p.pending, a)| && q.Virtual(a) == p.Virtual(a)
    requires forall a, i :: 0 <= i < |At(p.pending, a)| ==> At(q.pending, a)[i].nonce == At(p.pending, a)[i].nonce
    ensures Shape(q, base, settled)
  {
    forall a ensures ShapeAt(q, base, settled, a) {
      assert ShapeAt(p, base, settled, a);
    }
  }

  lemma RemoveTxKeepsShape(p: Pool, h: Hash, now: Time, base: Chain, settled: bool)
    requires Inv(p) && Shape(p, base, settled)
    ensures Shape(RemoveTx(p, h, now).pool, base, settled)
    ensures RemoveTx(p, h, now).pool.chain == p.chain
  {
    if p.known.Has(h) {
      hide RemoveTx, InvT;
      var tx := p.known.Get(h);
      KnownIsListed(p, h);
      var q := RemoveTx(p, h, now).pool;
      if In(p.pending, tx) {
        RemovePending(p, tx, now);
        CutKeepsShape(p, q, tx, base, settled);
      } else {
        RemoveQueued(p, tx, now);
        SameNonces(p, q, base, settled);
      }
    }
  }

  lemma KnownIsListed(p: Pool, h: Hash)
    requires Inv(p) && p.known.Has(h)
    ensures var tx := p.known.Get(h);
      tx.hash == h && (In(p.pending, tx) || In(p.queue, tx))
  {
    assert Listed(p, [], p.known.Get(h));
  }

  lemma CutKeepsShape(p: Pool, q: Pool, tx: Tx, base: Chain, settled: bool)
    requires Shape(p, base, settled) && In(p.pending, tx) && q.chain == p.chain
    requires var l := p.pending[tx.sender];
      var r := Rank(l, tx.nonce);
      && HasNonce(l, tx.nonce) && l[r] == tx
      && q.pending == SetList(p.pending, tx.sender, l[..r])
      && q.vnonces == p.Lower(tx.sender, tx.nonce).vnonces
    ensures Shape(q, base, settled)
  {
    var l := p.pending[tx.sender];
    var r := Rank(l, tx.nonce);
    forall a ensures ShapeAt(q, base, settled, a) {
      assert ShapeAt(p, base, settled, a);
      if a == tx.sender {
        assert At(q.pending, a) == l[..r];
        assert l[r].nonce == base.Nonce(a) + r;
      } else {
        assert At(q.pending, a) == At(p.pending, a) && q.Virtual(a) == p.Virtual(a);
      }
    }
  }

  lemma {:induction false} DropAllKeepsShape(p: Pool, txs: seq<Tx>, now: Time, base: Chain, settled: bool)
    requires Inv(p) && Shape(p, base, settled)
    ensures Shape(DropAll(p, txs, now), base, settled)
    ensures DropAll(p, txs, now).chain == p.chain
    decreases |txs|
  {
    if txs != [] {
      var h := txs[0].hash;
      RemoveTxKeepsShape(p, h, now, base, settled);
      DropKeepsInv(p, h, now);
      hide RemoveTx, InvT;
      SameNonces(RemoveTx(p, h, now).pool, DropOne(p, h, now), base, settled);
      DropAllKeepsShape(DropOne(p, h, now), txs[1..], now, base, settled);
    }
  }

  lemma {:induction false} RemoveAllKeepsShape(p: Pool, txs: seq<Tx>, now: Time, base: Chain, settled: bool)
    requires Inv(p) && Shape(p, base, settled)
    ensures Shape(RemoveAll(p, txs, now), base, settled)
    ensures RemoveAll(p, txs, now).chain == p.chain
    decreases |txs|
  {
    if txs != [] {
      RemoveTxKeepsShape(p, txs[0].hash, now, base, settled);
      RemoveTxInv(p, txs[0].hash, now);
      hide RemoveTx, InvT;
      RemoveAllKeepsShape(RemoveTx(p, txs[0].hash, now).pool, txs[1..], now, base, settled);
    }
  }

  /** Placing a transaction changes at most one pending entry, and not its nonce. */
  lemma PlaceEffect(p: Pool, tx: Tx, local: bool, isLocal: bool, now: Time)
    ensures var q := Place(p, tx, local, isLocal, now).pool;
      var l := At(p.pending, tx.sender);
      && q.chain == p.chain && q.vnonces == p.vnonces
      && (q.pending == p.pending ||
           (HasNonce(l, tx.nonce) && q.pending == p.pending[tx.sender := l[Rank(l, tx.nonce) := tx]]))
  {
    if HasNonce(At(p.pending, tx.sender), tx.nonce) {
      OverwriteEffect(p, tx, isLocal, now);
      hide Overwrite, Accepts;
    } else {
      EnqueueEffect(p, tx, isLocal, now);
      hide Enqueue, MarkLocal, HasNonce;
      var e := Enqueue(p, tx, isLocal, true, now).pool;
      MarkLocalEffect(e, tx.sender);
    }
  }

  lemma OverwriteEffect(p: Pool, tx: Tx, isLocal: bool, now: Time)
    requires HasNonce(At(p.pending, tx.sender), tx.nonce)
    ensures var q := Overwrite(p, tx, isLocal, now);
      var l := At(p.pending, tx.sender);
      && q.chain == p.chain && q.vnonces == p.vnonces
      && q.pending == p.pending[tx.sender := l[Rank(l, tx.nonce) := tx]]
  {
  }

  lemma EnqueueEffect(p: Pool, tx: Tx, isLocal: bool, now: Time)
    ensures var q := Enqueue(p, tx, isLocal, true, now).pool;
      q.chain == p.chain && q.vnonces == p.vnonces && q.pending == p.pending && q.accounts == p.accounts
  {
  }

  lemma MarkLocalEffect(p: Pool, a: Address)
    ensures var q := MarkLocal(p, a); q.chain == p.chain && q.vnonces == p.vnonces && q.pending == p.pending
  {
  }

  lemma PlaceKeepsShape(p: Pool, tx: Tx, local: bool, isLocal: bool, now: Time, base: Chain, settled: bool)
    requires Shape(p, base, settled)
    ensures Shape(Place(p, tx, local, isLocal, now).pool, base, settled)
    ensures Place(p, tx, local, isLocal, now).pool.chain == p.chain
  {
    hide Place, Shape;
    PlaceEffect(p, tx, local, isLocal, now);
    SameNonces(p, Place(p, tx, local, isLocal, now).pool, base, settled);
  }

  lemma AddKeepsShape(p: Pool, tx: Tx, local: bool, v: Victims, now: Time, base: Chain, settled: bool)
    requires Inv(p) && Shape(p, base, settled)
    ensures Shape(Add(p, tx, local, v, now).pool, base, settled)
    ensures Add(p, tx, local, v, now).pool.chain == p.chain
  {
    hide Screen, InvT, Shape, Place, DropAll;
    var isLocal := local || tx.sender in p.accounts;
    match Screen(p, tx, local, v)
    case Refuse(_) =>
    case Direct => PlaceKeepsShape(p, tx, local, isLocal, now, base, settled);
    case MakeRoom =>
      DropAllKeepsShape(p, v.drop, now, base, settled);
      PlaceKeepsShape(DropAll(p, v.drop, now), tx, local, isLocal, now, base, settled);
  }

  lemma {:induction false} AddAllKeepsShape(
    p: Pool, txs: seq<Tx>, local: bool, vs: seq<Victims>, now: Time, base: Chain, settled: bool)
    requires Inv(p) && Shape(p, base, settled) && |vs| == |txs|
    ensures Shape(AddAll(p, txs, local, vs, now), base, settled)
    ensures AddAll(p, txs, local, vs, now).chain == p.chain
    decreases |txs|
  {
    if txs != [] {
      AddKeepsShape(p, txs[0], local, vs[0], now, base, settled);
      AddKeepsInv(p, txs[0], local, vs[0], now);
      hide Add, InvT, Shape;
      AddAllKeepsShape(Add(p, txs[0], local, vs[0], now).pool, txs[1..], local, vs[1..], now, base, settled);
    }
  }

  /** Switching heads keeps the runs of the old chain; virtual nonces restart at the new one. */
  lemma ResetShape(p: Pool, chain: Chain, reinject: seq<Tx>, vs: seq<Victims>, now: Time)
    requires Inv(p) && Contiguous(p) && |vs| == |reinject|
    ensures var q := Reset(p, chain, reinject, vs, now);
      Inv(q) && Shape(q, p.chain, false) && q.chain == chain
  {
    var q := p.(chain := chain, vnonces := map[]);
    InvIgnoresNonces(p, q);
    forall a ensures ShapeAt(q, p.chain, false, a) { assert ShapeAt(p, p.chain, true, a); }
    AddAllKeepsInv(q, reinject, false, vs, now);
    AddAllKeepsShape(q, reinject, false, vs, now, p.chain, false);
  }

  // ---------------------------------------------------------------- promoteExecutables

  lemma PutAppends(l: seq<Tx>, x: Tx)
    requires forall i :: 0 <= i < |l| ==> l[i].nonce < x.nonce
    ensures !HasNonce(l, x.nonce) && Put(l, x) == l + [x]
  {
  }

  ghost predicate Below(l: seq<Tx>, m: seq<Tx>) {
    forall i, j :: 0 <= i < |l| && 0 <= j < |m| ==> l[i].nonce < m[j].nonce
  }

  lemma PromoteAppends(p: Pool, a: Address, x: Tx, now: Time)
    requires forall i :: 0 <= i < |At(p.pending, a)| ==> At(p.pending, a)[i].nonce < x.nonce
    ensures At(Promote(p, a, x, now).pending, a) == At(p.pending, a) + [x]
  {
    PutAppends(At(p.pending, a), x);
  }

  lemma BelowStep(l: seq<Tx>, m: seq<Tx>)
    requires Below(l, m) && Sorted(m) && m != []
    ensures Below(l + [m[0]], m[1..]) && Sorted(m[1..])
    ensures forall i :: 0 <= i < |l| ==> l[i].nonce < m[0].nonce
    ensures l + [m[0]] + m[1..] == l + m
  {
    var l' := l + [m[0]];
    forall i, j | 0 <= i < |l'| && 0 <= j < |m[1..]| ensures l'[i].nonce < m[1..][j].nonce {
      assert m[1..][j] == m[j + 1];
    }
  }

  lemma {:induction false} PromoteAllAppends(p: Pool, a: Address, txs: seq<Tx>, now: Time)
    requires Sorted(txs) && Below(At(p.pending, a), txs)
    ensures At(PromoteAll(p, a, txs, now).pending, a) == At(p.pending, a) + txs
    decreases |txs|
  {
    if txs != [] {
      BelowStep(At(p.pending, a), txs);
      PromoteAppends(p, a, txs[0], now);
      hide Promote, Below, Sorted, At;
      PromoteAllAppends(Promote(p, a, txs[0], now), a, txs[1..], now);
    }
  }

  /** What a promotion hands out: a run that starts at a nonce between the chain's and the virtual one. */
  lemma ReadyFacts(p: Pool, a: Address)
    requires Inv(p) && a in p.queue
    ensures var s := PromotionSplit(p, a);
      && Sorted(s.ready)
      && (s.ready != [] ==>
            && p.chain.Nonce(a) <= s.ready[0].nonce <= p.Virtual(a)
            && !HasNonce(At(p.pending, a), s.ready[0].nonce)
            && RunFrom(s.ready, s.ready[0].nonce))
  {
    var s := PromotionSplit(p, a);
    PromotionSplits(p, a);
    ReadyRun(p, a);
    hide PromotionSplit;
    if s.ready != [] {
      var t := s.ready[0];
      assert t in s.ready;
      assert t in p.queue[a];
      AtFacts(p.queue, a);
      HasNonceIff(p.queue[a], t.nonce);
      NoSharedNonce(p, a, t.nonce);
    }
  }

  lemma ReadyRun(p: Pool, a: Address)
    requires Sorted(At(p.queue, a))
    ensures var s := PromotionSplit(p, a);
      s.ready != [] ==>
        && p.chain.Nonce(a) <= s.ready[0].nonce <= p.Virtual(a)
        && RunFrom(s.ready, s.ready[0].nonce)
  {
    var l := At(p.queue, a);
    var current := l[Rank(l, p.chain.Nonce(a))..];
    var live := Payable(current, p.chain.Balance(a), p.chain.gasLimit);
    assert live != [] ==> live[0] in live;
  }

  /** Nothing that a promotion of other accounts than `a` looks at is different. */
  ghost predicate SameFor(p: Pool, q: Pool, a: Address) {
    && q.chain == p.chain && q.cfg == p.cfg && q.accounts == p.accounts
    && forall b :: b != a ==> At(q.queue, b) == At(p.queue, b)
  }

  lemma {:induction false} PromoteAllLeaves(p: Pool, a: Address, txs: seq<Tx>, now: Time)
    ensures var q := PromoteAll(p, a, txs, now);
      q.queue == p.queue && q.chain == p.chain && q.cfg == p.cfg && q.accounts == p.accounts
    decreases |txs|
  {
    if txs != [] { PromoteAllLeaves(Promote(p, a, txs[0], now), a, txs[1..], now); }
  }

  /** The lists and nonces after one account's promotion. */
  lemma PromoteAccountEffect(p: Pool, a: Address, now: Time)
    requires Inv(p) && a in p.queue
    ensures var s := PromotionSplit(p, a);
      var q := PromoteAccount(p, a, now);
      && SameFor(p, q, a)
      && (forall b :: b != a ==> At(q.pending, b) == At(p.pending, b) && q.Virtual(b) == p.Virtual(b))
      && q.Virtual(a) == (if s.ready == [] then p.Virtual(a) else s.ready[|s.ready| - 1].nonce + 1)
      && At(q.pending, a) == At(PromoteAll(p, a, s.ready, now).pending, a)
  {
    hide InvT, PromotionSplit, PromoteAll;
    var s := PromotionSplit(p, a);
    PromotionToTransit(p, a);
    var p1 := p.(queue := SetList(p.queue, a, s.kept), known := p.known.Minus(Hashes(s.dropped)));
    PromoteAllTransit(p1, a, s.ready, now);
    PromoteAllNonces(p1, a, s.ready, now);
    PromoteAllPending(p, p1, a, s.ready, now);
    PromoteAllLeaves(p1, a, s.ready, now);
    var q1 := PromoteAll(p1, a, s.ready, now);
    var q := PromoteAccount(p, a, now);
    assert q.pending == q1.pending && q.vnonces == q1.vnonces && q.chain == q1.chain;
    forall b | b != a ensures At(q.pending, b) == At(p.pending, b) && q.Virtual(b) == p.Virtual(b) {
      assert At(q1.pending, b) == At(p1.pending, b) && q1.Virtual(b) == p1.Virtual(b);
    }
  }

  lemma {:induction false} PromoteAllPending(p: Pool, q: Pool, a: Address, txs: seq<Tx>, now: Time)
    requires p.pending == q.pending && p.cfg == q.cfg
    ensures PromoteAll(p, a, txs, now).pending == PromoteAll(q, a, txs, now).pending
    decreases |txs|
  {
    if txs != [] {
      PromoteAllPending(Promote(p, a, txs[0], now), Promote(q, a, txs[0], now), a, txs[1..], now);
    }
  }

  lemma RunHasNonce(l: seq<Tx>, s: nat, n: nat)
    requires RunFrom(l, s)
    ensures HasNonce(l, n) <==> s <= n < s + |l|
  {
    assert Sorted(l);
    HasNonceIff(l, n);
    if s <= n < s + |l| { assert l[n - s].nonce == n; }
  }

  /** A run below the virtual nonce is extended by the ready transactions, right behind it. */
  lemma PromoteSettledAt(p: Pool, a: Address, now: Time)
    requires Inv(p) && ShapeAt(p, p.chain, true, a) && a in p.queue
    ensures ShapeAt(PromoteAccount(p, a, now), p.chain, true, a)
  {
    hide PromoteAccount, PromoteAll, PromotionSplit, HasNonce, Sorted;
    var ready := PromotionSplit(p, a).ready;
    PromoteAccountEffect(p, a, now);
    ReadyFacts(p, a);
    hide InvT;
    if ready == [] {
      PromoteNothing(p, a, now);
    } else {
      RunHasNonce(At(p.pending, a), p.chain.Nonce(a), ready[0].nonce);
      ExtendRun(p, a, ready, now);
      RunEnd(ready, ready[0].nonce);
    }
  }

  lemma ExtendRun(p: Pool, a: Address, ready: seq<Tx>, now: Time)
    requires ShapeAt(p, p.chain, true, a) && RunFrom(ready, p.Virtual(a))
    ensures At(PromoteAll(p, a, ready, now).pending, a) == At(p.pending, a) + ready
    ensures RunFrom(At(p.pending, a) + ready, p.chain.Nonce(a))
  {
    RunAppend(At(p.pending, a), ready, p.chain.Nonce(a));
    PromoteAllAppends(p, a, ready, now);
  }

  lemma RunEnd(l: seq<Tx>, s: nat)
    requires RunFrom(l, s) && l != []
    ensures l[|l| - 1].nonce + 1 == s + |l|
  {
  }

  lemma RunAppend(l: seq<Tx>, m: seq<Tx>, s: nat)
    requires RunFrom(l, s) && RunFrom(m, s + |l|)
    ensures RunFrom(l + m, s) && Below(l, m)
  {
  }

  lemma PromoteNothing(p: Pool, a: Address, now: Time)
    ensures PromoteAll(p, a, [], now) == p
  {
  }

  lemma PromoteSettled(p: Pool, a: Address, now: Time)
    requires Inv(p) && Contiguous(p)
    ensures Contiguous(PromoteAccount(p, a, now))
    ensures PromoteAccount(p, a, now).chain == p.chain
  {
    if a in p.queue {
      var q := PromoteAccount(p, a, now);
      assert ShapeAt(p, p.chain, true, a);
      PromoteAccountEffect(p, a, now);
      PromoteSettledAt(p, a, now);
      hide InvT, PromoteAccount, PromoteAll, PromotionSplit, ShapeAt;
      forall b ensures ShapeAt(q, q.chain, true, b) {
        assert ShapeAt(p, p.chain, true, b);
        if b != a { CarryOver(p, q, b, p.chain); }
      }
    }
  }

  lemma PromoteUnsettled(p: Pool, a: Address, now: Time, base: Chain)
    requires Inv(p) && ShapeAt(p, base, false, a) && base.Nonce(a) <= p.chain.Nonce(a) && a in p.queue
    ensures PromotedAt(PromoteAccount(p, a, now), a)
  {
    var s := PromotionSplit(p, a);
    var l := At(p.pending, a);
    PromoteAccountEffect(p, a, now);
    ReadyFacts(p, a);
    ShapePromoted(p, base, false, a);
    hide InvT, PromoteAccount, PromoteAll, PromotionSplit;
    RunHasNonce(l, base.Nonce(a), p.chain.Nonce(a));
    if s.ready == [] {
      PromoteNothing(p, a, now);
    } else {
      PromoteAllAppends(p, a, s.ready, now);
      RankSplit(l, s.ready, p.chain.Nonce(a));
    }
  }

  lemma {:induction false} RankSplit(low: seq<Tx>, high: seq<Tx>, n: nat)
    requires forall i :: 0 <= i < |low| ==> low[i].nonce < n
    requires high != [] ==> high[0].nonce >= n
    ensures Rank(low + high, n) == |low|
    ensures (low + high)[|low|..] == high
    decreases |low|
  {
    if low == [] {
      assert low + high == high;
    } else {
      assert (low + high)[1..] == low[1..] + high;
      RankSplit(low[1..], high, n);
    }
  }

  lemma ShapePromoted(p: Pool, base: Chain, settled: bool, a: Address)
    requires ShapeAt(p, base, settled, a) && base.Nonce(a) <= p.chain.Nonce(a)
    ensures PromotedAt(p, a)
  {
    var l := At(p.pending, a);
    var s := p.chain.Nonce(a);
    var r := Rank(l, s);
    assert Sorted(l);
    assert r < |l| ==> r == 0 || l[r - 1].nonce < s;
    assert r < |l| ==> l[r].nonce == s;
  }

  lemma CarryOver(p: Pool, q: Pool, b: Address, base: Chain)
    requires q.chain == p.chain && At(q.pending, b) == At(p.pending, b) && q.Virtual(b) == p.Virtual(b)
    ensures PromotedAt(p, b) == PromotedAt(q, b)
    ensures ShapeAt(p, base, false, b) == ShapeAt(q, base, false, b)
    ensures ShapeAt(p, base, true, b) == ShapeAt(q, base, true, b)
  {
  }

  lemma {:induction false} PromoteAllSettled(p: Pool, accounts: seq<Address>, now: Time)
    requires Inv(p) && Contiguous(p)
    ensures Contiguous(PromoteExecutables(p, accounts, now))
    ensures PromoteExecutables(p, accounts, now).chain == p.chain
    decreases |accounts|
  {
    if accounts != [] {
      PromoteAccountKeepsInv(p, accounts[0], now);
      PromoteSettled(p, accounts[0], now);
      hide PromoteAccount, InvT, Contiguous;
      PromoteAllSettled(PromoteAccount(p, accounts[0], now), accounts[1..], now);
    }
  }

  // ---------------------------------------------------------------- demoteUnexecutables

  lemma DemoteAccountEffect(p: Pool, a: Address, now: Time)
    requires Inv(p)
    ensures var q := DemoteAccount(p, a, now);
      && q.chain == p.chain
      && (a in p.pending ==> At(q.pending, a) == DemotionKept(p, a))
      && (a !in p.pending ==> q == p)
      && (forall b :: b != a ==> At(q.pending, b) == At(p.pending, b))
  {
    hide DemotionSplit, InvT;
    if a in p.pending {
      DemotionToTransit(p, a);
      var p1 := p.(pending := SetList(p.pending, a, DemotionKept(p, a)),
                   known := p.known.Minus(Hashes(DemotionSplit(p, a).dropped)));
      EnqueueAllTransit(p1, DemotionPostponed(p, a), now);
    }
  }

  lemma DemotionRun(p: Pool, a: Address)
    requires PromotedAt(p, a)
    ensures !HasGap(p, a)
    ensures RunFrom(DemotionSplit(p, a).kept, p.chain.Nonce(a))
    ensures a !in p.pending ==> At(p.pending, a) == []
    ensures forall t :: t in DemotionSplit(p, a).kept ==> !Unpayable(t, p.chain.Balance(a), p.chain.gasLimit)
  {
    var s := p.chain.Nonce(a);
    var kept := DemotionSplit(p, a).kept;
    assert RunFrom(kept, s);
    RunHasNonce(kept, s, s);
  }

  /** At no point of the demotion loop is the gap branch taken. */
  ghost predicate GapNeverTaken(p: Pool, accounts: seq<Address>, now: Time)
    decreases |accounts|
  {
    accounts == [] || (!HasGap(p, accounts[0]) && GapNeverTaken(DemoteAccount(p, accounts[0], now), accounts[1..], now))
  }

  lemma SettleNoncesContiguous(p: Pool)
    requires Inv(p) && forall a :: NoGapAt(p, a)
    ensures Contiguous(SettleNonces(p)) && Inv(SettleNonces(p))
  {
    var q := SettleNonces(p);
    InvIgnoresNonces(p, q);
    forall a ensures ShapeAt(q, q.chain, true, a) { assert NoGapAt(p, a); }
  }

  // ---------------------------------------------------------------- truncation

  lemma CapPendingShapeAt(p: Pool, level: nat, a: Address)
    requires ShapeAt(p, p.chain, true, a)
    ensures ShapeAt(CapPending(p, level), p.chain, true, a)
  {
    CapPendingAt(p, level, a);
    hide CapPending, Chain.Nonce, CapLen;
  }

  /** What levelling does to one account: its list is cut, and a higher virtual nonce is lowered. */
  lemma CapPendingAt(p: Pool, level: nat, a: Address)
    ensures var l, k, q := At(p.pending, a), CapLen(p, a, level), CapPending(p, level);
      && At(q.pending, a) == l[..k] && q.chain == p.chain
      && q.Virtual(a) == if k < |l| && p.Virtual(a) > l[k].nonce then l[k].nonce else p.Virtual(a)
  {
    hide CutHashes, Chain.Nonce;
    var lens := LevelLens(p, level);
    assert a in p.pending ==> lens[a] == CapLen(p, a, level);
  }

  lemma TruncatePendingContiguous(p: Pool)
    requires Inv(p) && Contiguous(p)
    ensures Contiguous(TruncatePending(p)) && TruncatePending(p).chain == p.chain
  {
    if PendingSize(p) > p.cfg.globalSlots {
      var level := WaterLevel(p);
      var q := CapPending(p, level);
      hide InvT, ShapeAt;
      forall a ensures ShapeAt(q, q.chain, true, a) {
        assert ShapeAt(p, p.chain, true, a);
        CapPendingShapeAt(p, level, a);
      }
    }
  }

  lemma TruncateQueueContiguous(p: Pool, order: seq<Address>)
    requires Contiguous(p)
    ensures Contiguous(TruncateQueue(p, order)) && TruncateQueue(p, order).chain == p.chain
  {
    if QueueSize(p) > p.cfg.globalQueue {
      DropQueueFrame(p, order, QueueSize(p) - p.cfg.globalQueue);
      SameNonces(p, TruncateQueue(p, order), p.chain, true);
    }
  }
}
