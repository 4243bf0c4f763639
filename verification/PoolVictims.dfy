/**
 What the removal of several transactions does: victims that make room, those below a raised price, and
 those of accounts that have been silent for too long.
 */
module PoolVictims {
  import opened Transactions
  import opened TxLists
  import opened PoolState
  import opened PoolInvariant
  import opened PoolPreservation
  import opened PoolContiguity
  import opened PoolAdmission
  import opened PoolPromotion
  import opened PoolRuns

  /** Pending, with a removed transaction of the same account at its nonce or below. */
  ghost predicate Displaced(p: Pool, hs: set<Hash>, t: Tx) {
    In(p.pending, t) && exists u :: Gone(p, hs, u) && u.sender == t.sender && u.nonce <= t.nonce
  }

  /** Pending, and to be removed. */
  ghost predicate Gone(p: Pool, hs: set<Hash>, u: Tx) { In(p.pending, u) && u.hash in hs }

  /** The lowest of the old virtual nonce and the removed pending nonces. */
  ghost predicate LowestOf(p: Pool, hs: set<Hash>, a: Address, v: nat) {
    && v <= p.Virtual(a)
    && (forall u :: Gone(p, hs, u) && u.sender == a ==> v <= u.nonce)
    && (v == p.Virtual(a) || exists u :: Gone(p, hs, u) && u.sender == a && u.nonce == v)
  }

  ghost predicate SameSettings(p: Pool, q: Pool) {
    q.cfg == p.cfg && q.chain == p.chain && q.accounts == p.accounts && q.gasPrice == p.gasPrice
  }

  /** What is pending above a removed transaction leaves the pending list, and the virtual nonce comes down. */
  ghost predicate ListsWithout(p: Pool, q: Pool, hs: set<Hash>) {
    && (forall t :: In(q.pending, t) <==> In(p.pending, t) && !Displaced(p, hs, t))
    && (forall a :: LowestOf(p, hs, a, q.Virtual(a)))
  }

  ghost predicate SideWithout(p: Pool, q: Pool, hs: set<Hash>, t: Tx) {
    && (OnList(q, t) <==> OnList(p, t) && t.hash !in hs)
    && (LocalTx(q, t) <==> LocalTx(p, t) && t.hash !in hs)
    && (RemoteTx(q, t) <==> RemoteTx(p, t) && t.hash !in hs)
  }

  /** Nothing but the removed is gone from the lists and from the table; the displaced are queued then. */
  ghost predicate SidesWithout(p: Pool, q: Pool, hs: set<Hash>) { forall t :: SideWithout(p, q, hs, t) }

  ghost predicate Removes(p: Pool, q: Pool, hs: set<Hash>) { ListsWithout(p, q, hs) && SidesWithout(p, q, hs) }

  // ---------------------------------------------------------------- one removal

  lemma RemovesNone(p: Pool, hs: set<Hash>)
    requires Inv(p) && forall h :: h in hs ==> !p.known.Has(h)
    ensures Removes(p, p, hs)
  {
    forall t | OnList(p, t) ensures t.hash !in hs { assert Listed(p, [], t); }
    forall t ensures SideWithout(p, p, hs, t) {
      OneSide(p, t);
      hide InvT, OnList, LocalTx, RemoteTx;
    }
    hide InvT, SideWithout;
  }

  lemma TableOf(p: Pool, q: Pool, hs: set<Hash>, t: Tx)
    requires Inv(p) && Inv(q) && q.known == p.known.Minus(hs)
    ensures OnList(q, t) <==> OnList(p, t) && t.hash !in hs
    ensures LocalTx(q, t) <==> LocalTx(p, t) && t.hash !in hs
    ensures RemoteTx(q, t) <==> RemoteTx(p, t) && t.hash !in hs
  {
    OneSide(p, t);
    OneSide(q, t);
    hide InvT, OnList;
  }

  lemma OnlyGone(p: Pool, tx: Tx, u: Tx)
    requires Inv(p) && OnList(p, tx)
    ensures Gone(p, {tx.hash}, u) <==> u == tx && In(p.pending, tx)
  {
    assert Listed(p, [], tx);
    ByHash(p, [], tx);
    if In(p.pending, u) { assert Listed(p, [], u); }
  }

  lemma RemovesPending(p: Pool, tx: Tx, now: Time)
    requires Inv(p) && In(p.pending, tx)
    ensures ListsWithout(p, RemoveTx(p, tx.hash, now).pool, {tx.hash})
  {
    var q := RemoveTx(p, tx.hash, now).pool;
    RemovePending(p, tx, now);
    forall u ensures Gone(p, {tx.hash}, u) <==> u == tx { OnlyGone(p, tx, u); }
    PendingCut(p, tx);
    hide RemoveTx, InvT, Rank, Gone, HasNonce, SetList, In, ListsWithout, Pool.Lower;
    CutAt(p, q, tx);
  }

  lemma CutAt(p: Pool, q: Pool, tx: Tx)
    requires forall u :: Gone(p, {tx.hash}, u) <==> u == tx
    requires forall t :: In(q.pending, t) <==> In(p.pending, t) && !(t.sender == tx.sender && tx.nonce <= t.nonce)
    requires q.vnonces == p.Lower(tx.sender, tx.nonce).vnonces && q.chain == p.chain
    ensures ListsWithout(p, q, {tx.hash})
  {
    hide Gone, In;
    forall t ensures In(q.pending, t) <==> In(p.pending, t) && !Displaced(p, {tx.hash}, t) { }
    hide Displaced;
    forall a ensures LowestOf(p, {tx.hash}, a, q.Virtual(a)) {
      if a == tx.sender { assert q.Virtual(a) == if p.Virtual(a) <= tx.nonce then p.Virtual(a) else tx.nonce; }
      hide Chain.Nonce;
    }
  }

  lemma PendingCut(p: Pool, tx: Tx)
    requires Inv(p) && In(p.pending, tx)
    requires HasNonce(p.pending[tx.sender], tx.nonce)
    requires p.pending[tx.sender][Rank(p.pending[tx.sender], tx.nonce)] == tx
    ensures var l := p.pending[tx.sender];
      forall t :: In(SetList(p.pending, tx.sender, l[..Rank(l, tx.nonce)]), t) <==>
        In(p.pending, t) && !(t.sender == tx.sender && tx.nonce <= t.nonce)
  {
    var l := p.pending[tx.sender];
    AtFacts(p.pending, tx.sender);
    SplitMembers(l, Rank(l, tx.nonce));
    SetListIn(p.pending, tx.sender, l[..Rank(l, tx.nonce)]);
    hide InvT, Sorted, Rank, HasNonce, SetList;
  }

  lemma RemovesQueued(p: Pool, tx: Tx, now: Time)
    requires Inv(p) && In(p.queue, tx)
    ensures ListsWithout(p, RemoveTx(p, tx.hash, now).pool, {tx.hash})
  {
    RemoveQueued(p, tx, now);
    NotPending(p, tx);
    forall u ensures !Gone(p, {tx.hash}, u) { OnlyGone(p, tx, u); }
    hide InvT, RemoveTx, Gone, In;
    NothingGone(p, RemoveTx(p, tx.hash, now).pool, {tx.hash});
  }

  lemma NotPending(p: Pool, tx: Tx)
    requires Inv(p) && In(p.queue, tx)
    ensures OnList(p, tx) && !In(p.pending, tx)
  {
    assert Apart(p, []);
  }

  lemma NothingGone(p: Pool, q: Pool, hs: set<Hash>)
    requires (forall u :: !Gone(p, hs, u)) && q.pending == p.pending && q.vnonces == p.vnonces && q.chain == p.chain
    ensures ListsWithout(p, q, hs)
  {
    hide Gone, In;
  }

  lemma SidesOne(p: Pool, q: Pool, h: Hash)
    requires Inv(p) && Inv(q) && q.known == p.known.Minus({h})
    ensures SidesWithout(p, q, {h})
  {
    hide *;
    forall t ensures SideWithout(p, q, {h}, t) {
      TableOf(p, q, {h}, t);
      SideIs(p, q, {h}, t);
    }
    SidesAre(p, q, {h});
  }

  lemma SideIs(p: Pool, q: Pool, hs: set<Hash>, t: Tx)
    ensures SideWithout(p, q, hs, t) <==>
      && (OnList(q, t) <==> OnList(p, t) && t.hash !in hs)
      && (LocalTx(q, t) <==> LocalTx(p, t) && t.hash !in hs)
      && (RemoteTx(q, t) <==> RemoteTx(p, t) && t.hash !in hs)
  {
  }

  lemma SidesAre(p: Pool, q: Pool, hs: set<Hash>)
    requires forall t :: SideWithout(p, q, hs, t)
    ensures SidesWithout(p, q, hs)
  {
  }

  lemma ListsOne(p: Pool, h: Hash, now: Time)
    requires Inv(p)
    ensures ListsWithout(p, RemoveTx(p, h, now).pool, {h})
  {
    hide InvT, RemoveTx, Displaced, LowestOf, OnList, LocalTx, RemoteTx, Known.Has;
    if p.known.Has(h) {
      KnownIsListed(p, h);
      var tx := p.known.Get(h);
      if In(p.pending, tx) { RemovesPending(p, tx, now); } else { RemovesQueued(p, tx, now); }
    } else {
      RemoveTxKeepsInv(p, h, now);
      RemovesNone(p, {h});
    }
  }

  lemma RemovesOne(p: Pool, h: Hash, now: Time)
    requires Inv(p)
    ensures var q := RemoveTx(p, h, now).pool; Inv(q) && Removes(p, q, {h}) && SameSettings(p, q)
  {
    RemoveTxKeepsInv(p, h, now);
    ListsOne(p, h, now);
    SidesOne(p, RemoveTx(p, h, now).pool, h);
    hide InvT, RemoveTx, ListsWithout, SidesWithout;
  }

  // ---------------------------------------------------------------- several removals

  lemma GoneTwice(p: Pool, q: Pool, hs: set<Hash>, more: set<Hash>, t: Tx)
    requires ListsWithout(p, q, hs)
    ensures Displaced(p, hs + more, t) <==> Displaced(p, hs, t) || (In(q.pending, t) && Displaced(q, more, t))
  {
    hide In, LowestOf;
    if Displaced(p, hs + more, t) && !Displaced(p, hs, t) {
      var u :| Gone(p, hs + more, u) && u.sender == t.sender && u.nonce <= t.nonce;
      assert !Displaced(p, hs, u);
      assert Gone(q, more, u);
    }
    if Displaced(p, hs, t) {
      var u :| Gone(p, hs, u) && u.sender == t.sender && u.nonce <= t.nonce;
      assert Gone(p, hs + more, u);
    }
    if In(q.pending, t) && Displaced(q, more, t) {
      var u :| Gone(q, more, u) && u.sender == t.sender && u.nonce <= t.nonce;
      assert Gone(p, hs + more, u);
    }
  }

  lemma LowestTwice(p: Pool, q: Pool, r: Pool, hs: set<Hash>, more: set<Hash>, a: Address)
    requires ListsWithout(p, q, hs) && LowestOf(q, more, a, r.Virtual(a))
    ensures LowestOf(p, hs + more, a, r.Virtual(a))
  {
    assert LowestOf(p, hs, a, q.Virtual(a));
    var v := r.Virtual(a);
    hide In, Pool.Virtual;
    forall u | Gone(p, hs + more, u) && u.sender == a ensures v <= u.nonce { NotBelow(p, q, hs, more, v, u); }
    forall u ensures Gone(q, more, u) ==> Gone(p, hs + more, u) { }
    forall u ensures Gone(p, hs, u) ==> Gone(p, hs + more, u) { }
    hide Gone, ListsWithout;
  }

  lemma NotBelow(p: Pool, q: Pool, hs: set<Hash>, more: set<Hash>, v: nat, u: Tx)
    requires ListsWithout(p, q, hs) && Gone(p, hs + more, u)
    requires v <= q.Virtual(u.sender) && LowestOf(p, hs, u.sender, q.Virtual(u.sender))
    requires forall w :: Gone(q, more, w) && w.sender == u.sender ==> v <= w.nonce
    ensures v <= u.nonce
  {
    hide In, Pool.Virtual;
    if Gone(p, hs, u) {
    } else if Displaced(p, hs, u) {
      var w :| Gone(p, hs, w) && w.sender == u.sender && w.nonce <= u.nonce;
    } else {
      assert Gone(q, more, u);
    }
  }

  lemma RemovesTwice(p: Pool, q: Pool, r: Pool, hs: set<Hash>, more: set<Hash>)
    requires Removes(p, q, hs) && Removes(q, r, more)
    ensures Removes(p, r, hs + more)
  {
    forall t ensures
      Displaced(p, hs + more, t) <==> Displaced(p, hs, t) || (In(q.pending, t) && Displaced(q, more, t))
    {
      GoneTwice(p, q, hs, more, t);
    }
    forall a ensures LowestOf(p, hs + more, a, r.Virtual(a)) {
      assert LowestOf(q, more, a, r.Virtual(a));
      LowestTwice(p, q, r, hs, more, a);
    }
    SidesTwice(p, q, r, hs, more);
    hide Displaced, LowestOf, SideWithout, In, Pool.Virtual, SidesWithout;
  }

  lemma SidesTwice(p: Pool, q: Pool, r: Pool, hs: set<Hash>, more: set<Hash>)
    requires SidesWithout(p, q, hs) && SidesWithout(q, r, more)
    ensures SidesWithout(p, r, hs + more)
  {
    hide OnList, LocalTx, RemoteTx;
    forall t ensures SideWithout(p, r, hs + more, t) {
      assert SideWithout(p, q, hs, t) && SideWithout(q, r, more, t);
    }
  }

  /** Removing a batch is removing all its hashes, in whatever order. */
  lemma {:induction false} RemovesAll(p: Pool, txs: seq<Tx>, now: Time)
    requires Inv(p)
    ensures var q := RemoveAll(p, txs, now); Inv(q) && Removes(p, q, Hashes(txs)) && SameSettings(p, q)
    decreases |txs|
  {
    hide InvT, RemoveTx, Removes;
    if txs == [] {
      RemovesNone(p, {});
      assert Hashes(txs) == {};
    } else {
      var q := RemoveTx(p, txs[0].hash, now).pool;
      RemovesOne(p, txs[0].hash, now);
      RemovesAll(q, txs[1..], now);
      RemovesTwice(p, q, RemoveAll(q, txs[1..], now), {txs[0].hash}, Hashes(txs[1..]));
      HashesSplit(txs);
    }
  }

  lemma HashesSplit(txs: seq<Tx>)
    requires txs != []
    ensures Hashes(txs) == {txs[0].hash} + Hashes(txs[1..])
  {
    assert txs == [txs[0]] + txs[1..];
  }

  // ---------------------------------------------------------------- victims that make room

  /** How many transactions are pending. */
  ghost function PendingCount(p: Pool): nat { |AllIn(p.pending)| }

  lemma DroppedCount(p: Pool, h: Hash, now: Time)
    requires Inv(p)
    ensures PendingCount(RemoveTx(p, h, now).pool) + RemoveTx(p, h, now).dropped == PendingCount(p)
  {
    hide InvT, RemoveTx, Known.Has;
    if p.known.Has(h) {
      KnownIsListed(p, h);
      var tx := p.known.Get(h);
      if In(p.pending, tx) {
        RemovePending(p, tx, now);
        CutCount(p, tx);
        hide Rank, HasNonce;
      } else {
        RemoveQueued(p, tx, now);
      }
    } else {
      RemoveTxKeepsInv(p, h, now);
    }
  }

  lemma CutCount(p: Pool, tx: Tx)
    requires Inv(p) && In(p.pending, tx)
    requires HasNonce(p.pending[tx.sender], tx.nonce)
    requires p.pending[tx.sender][Rank(p.pending[tx.sender], tx.nonce)] == tx
    ensures var l := p.pending[tx.sender];
      var r := Rank(l, tx.nonce);
      |AllIn(SetList(p.pending, tx.sender, l[..r]))| + (|l| - r) == |AllIn(p.pending)|
  {
    hide *;
    PendingSorted(p, tx);
    var l := p.pending[tx.sender];
    var r := Rank(l, tx.nonce);
    CutParts(l, r);
    ListCount(p.pending, tx.sender, l[..r], l[r..]);
  }

  lemma PendingSorted(p: Pool, tx: Tx)
    requires Inv(p) && In(p.pending, tx)
    ensures tx.sender in p.pending && ListsOk(p.pending) && Sorted(p.pending[tx.sender])
  {
  }

  lemma CutParts(l: seq<Tx>, r: nat)
    requires Sorted(l) && r <= |l|
    ensures Sorted(l[..r]) && Distinct(l[r..]) && l == l[..r] + l[r..]
    ensures forall t, u :: t in l[..r] && u in l[r..] ==> t.nonce < u.nonce
  {
    TakeDrop(l, r);
    SortedDistinct(l[r..]);
  }

  /** Cutting the end off a list takes away as many transactions as it has. */
  lemma ListCount(m: Lists, a: Address, kept: seq<Tx>, cut: seq<Tx>)
    requires ListsOk(m) && a in m && m[a] == kept + cut && Sorted(kept) && Distinct(cut)
    requires forall t, u :: t in kept && u in cut ==> t.nonce < u.nonce
    ensures |AllIn(SetList(m, a, kept))| + |cut| == |AllIn(m)|
  {
    var c := set t | t in cut;
    SetListIn(m, a, kept);
    SetSize(cut, c);
    CutApart(m, a, kept, cut);
    hide ListsOk, SetList, Sorted, In, Distinct;
    forall t ensures t in AllIn(m) <==> In(m, t) { InAll(m, t); }
    forall t ensures t in AllIn(SetList(m, a, kept)) <==> In(SetList(m, a, kept), t) { InAll(SetList(m, a, kept), t); }
    hide AllIn;
    CountSplit(AllIn(m), AllIn(SetList(m, a, kept)), c);
  }

  lemma CountSplit(whole: set<Tx>, left: set<Tx>, right: set<Tx>)
    requires forall t :: t in whole <==> t in left || t in right
    requires forall t :: t in right ==> t !in left
    ensures |left| + |right| == |whole|
  {
    assert whole == left + right && left !! right;
  }

  lemma InAll(m: Lists, t: Tx)
    requires ListsOk(m)
    ensures t in AllIn(m) <==> In(m, t)
  {
  }

  lemma CutApart(m: Lists, a: Address, kept: seq<Tx>, cut: seq<Tx>)
    requires ListsOk(m) && a in m && m[a] == kept + cut
    requires forall t, u :: t in kept && u in cut ==> t.nonce < u.nonce
    ensures forall t :: In(m, t) <==> if t.sender == a then t in kept || t in cut else In(m, t)
    ensures forall t :: t in cut ==> t.sender == a && In(m, t) && t !in kept
    ensures forall t :: t in kept ==> t.sender == a && In(m, t)
  {
    assert forall t :: t in m[a] <==> t in kept || t in cut;
  }

  /**
   Making room for a transaction removes exactly the victims, and the pool counts every transaction that is
   no longer pending because of it, the displaced ones included.
   */
  lemma {:induction false} VictimsExactly(p: Pool, drop: seq<Tx>, now: Time)
    requires Inv(p)
    ensures var q := DropAll(p, drop, now);
      && Inv(q) && Removes(p, q, Hashes(drop)) && SameSettings(p, q)
      && q.changes + PendingCount(q) == p.changes + PendingCount(p)
    decreases |drop|
  {
    hide InvT, RemoveTx, Removes, PendingCount;
    if drop == [] {
      RemovesNone(p, {});
      assert Hashes(drop) == {};
    } else {
      var q := DropOne(p, drop[0].hash, now);
      DropsOne(p, drop[0].hash, now);
      VictimsExactly(q, drop[1..], now);
      RemovesTwice(p, q, DropAll(q, drop[1..], now), {drop[0].hash}, Hashes(drop[1..]));
      HashesSplit(drop);
    }
  }

  lemma DropsOne(p: Pool, h: Hash, now: Time)
    requires Inv(p)
    ensures var q := DropOne(p, h, now);
      && Inv(q) && Removes(p, q, {h}) && SameSettings(p, q)
      && q.changes + PendingCount(q) == p.changes + PendingCount(p)
  {
    DropKeepsInv(p, h, now);
    RemovesOne(p, h, now);
    DroppedCount(p, h, now);
    RemoveTxKeepsInv(p, h, now);
    var r := RemoveTx(p, h, now).pool;
    ChangesAside(p, r, DropOne(p, h, now).changes, {h});
    hide InvT, RemoveTx, Removes;
  }

  lemma ChangesAside(p: Pool, r: Pool, n: nat, hs: set<Hash>)
    requires Removes(p, r, hs)
    ensures Removes(p, r.(changes := n), hs)
  {
    var q := r.(changes := n);
    forall t ensures SideWithout(p, q, hs, t) { assert SideWithout(p, r, hs, t); }
    forall a ensures LowestOf(p, hs, a, q.Virtual(a)) { assert LowestOf(p, hs, a, r.Virtual(a)); }
    hide Displaced, LowestOf, SideWithout;
  }

  // ---------------------------------------------------------------- prices and silence

  /**
   Setting the gas price: when it rises, the remote transactions with a lower tip are removed, and nothing
   else is; otherwise nothing is.
   */
  lemma PricedExactly(p: Pool, price: nat, drop: seq<Tx>, now: Time)
    requires Inv(p) && BelowTip(p, price, drop)
    ensures var q := SetGasPrice(p, price, drop, now);
      && Inv(q) && q.gasPrice == price && q.accounts == p.accounts && q.cfg == p.cfg && q.chain == p.chain
      && (forall t :: RemoteTx(q, t) <==> RemoteTx(p, t) && (price > p.gasPrice ==> t.tipCap >= price))
      && (forall t :: LocalTx(q, t) <==> LocalTx(p, t))
  {
    var p1 := p.(gasPrice := price);
    InvIgnoresNonces(p, p1);
    RemovesAll(p1, drop, now);
    var q := SetGasPrice(p, price, drop, now);
    hide InvT, RemoveAll;
    forall t
      ensures RemoteTx(q, t) <==> RemoteTx(p, t) && (price > p.gasPrice ==> t.tipCap >= price)
      ensures LocalTx(q, t) <==> LocalTx(p, t)
    {
      assert SideWithout(p1, q, Hashes(drop), t);
      BelowIs(p, price, drop, t);
    }
  }

  lemma BelowIs(p: Pool, price: nat, drop: seq<Tx>, t: Tx)
    requires Inv(p) && BelowTip(p, price, drop)
    ensures RemoteTx(p, t) ==> (t.hash in Hashes(drop) <==> price > p.gasPrice && t.tipCap < price)
    ensures LocalTx(p, t) ==> t.hash !in Hashes(drop)
  {
    assert KnownOk(p.known);
    hide InvT;
  }

  /** A queued account, not a local one, whose heartbeat is longer ago than the lifetime. */
  predicate SilentFor(p: Pool, a: Address, now: Time) {
    a in p.queue && a !in p.accounts && a in p.beats && now - p.beats[a] > p.cfg.lifetime
  }

  /**
   A tick of the eviction clock: the queue keeps exactly the transactions of local accounts and of those
   whose heartbeat is at most the configured lifetime ago.
   */
  lemma SilentExactly(p: Pool, expired: seq<Address>, now: Time)
    requires Inv(p) && Enabled(p, Tick(expired, now))
    ensures var q := Evict(p, expired, now);
      && q.pending == p.pending && q.vnonces == p.vnonces && q.accounts == p.accounts
      && q.beats == (map a | a in p.beats && !SilentFor(p, a, now) :: p.beats[a])
      && forall t :: In(q.queue, t) <==> In(p.queue, t) && !SilentFor(p, t.sender, now)
  {
    EvictExact(p, expired, now);
    assert p.queue.Keys <= p.beats.Keys;
    hide InvT, Evict;
  }
}
