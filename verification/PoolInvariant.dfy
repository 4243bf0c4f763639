/**
 The invariant the pool never writes down: the lookup table is exactly the disjoint union of the
 pending and the queued lists, no account has the same nonce in both, and every queued account has
 a heartbeat. `transit` holds transactions that are between two lists in the middle of an operation.
 */
module PoolInvariant {
  import opened Transactions
  import opened TxLists
  import opened PoolState

  ghost predicate In(m: Lists, t: Tx) { t.sender in m && t in m[t.sender] }

  ghost predicate ListsOk(m: Lists) {
    forall a :: a in m ==> m[a] != [] && Sorted(m[a]) && forall t :: t in m[a] ==> t.sender == a
  }

  ghost predicate KnownOk(k: Known) {
    && k.locals.Keys !! k.remotes.Keys
    && (forall h :: h in k.locals ==> k.locals[h].hash == h)
    && (forall h :: h in k.remotes ==> k.remotes[h].hash == h)
  }

  ghost predicate Listed(p: Pool, transit: seq<Tx>, t: Tx) {
    In(p.pending, t) || In(p.queue, t) || t in transit
  }

  ghost predicate Covers(p: Pool, transit: seq<Tx>) {
    && (forall t :: Listed(p, transit, t) ==> p.known.Has(t.hash) && p.known.Get(t.hash) == t)
    && (forall h :: p.known.Has(h) ==> Listed(p, transit, p.known.Get(h)))
  }

  /** No two listed transactions share an account and a nonce. */
  ghost predicate OneEach(p: Pool, transit: seq<Tx>) {
    forall t, u :: Listed(p, transit, t) && Listed(p, transit, u) && t.sender == u.sender && t.nonce == u.nonce
      ==> t == u
  }

  ghost predicate Apart(p: Pool, transit: seq<Tx>) {
    && (forall t :: In(p.pending, t) ==> !In(p.queue, t))
    && (forall t :: t in transit ==> !In(p.pending, t) && !In(p.queue, t))
    && Distinct(transit)
  }

  ghost predicate Distinct<T>(s: seq<T>) {
    forall i, j :: 0 <= i < j < |s| ==> s[i] != s[j]
  }

  ghost predicate InvT(p: Pool, transit: seq<Tx>) {
    && p.cfg.Sane()
    && ListsOk(p.pending) && ListsOk(p.queue) && KnownOk(p.known)
    && Covers(p, transit) && OneEach(p, transit) && Apart(p, transit)
    && p.queue.Keys <= p.beats.Keys
  }

  ghost predicate Inv(p: Pool) { InvT(p, []) }

  // ---------------------------------------------------------------- what the invariant means

  /** `removeTx` may look at the pending list first: a nonce is never in both lists. */
  lemma NoSharedNonce(p: Pool, a: Address, n: nat)
    requires Inv(p)
    ensures !(HasNonce(At(p.pending, a), n) && HasNonce(At(p.queue, a), n))
  {
    if HasNonce(At(p.pending, a), n) && HasNonce(At(p.queue, a), n) {
      var t, u := AtNonce(p.pending[a], n), AtNonce(p.queue[a], n);
      assert In(p.pending, t) && In(p.queue, u);
      assert Listed(p, [], t) && Listed(p, [], u);
      assert false;
    }
  }

  // ---------------------------------------------------------------- list updates

  lemma SetListIn(m: Lists, a: Address, l: seq<Tx>)
    requires ListsOk(m) && Sorted(l) && forall t :: t in l ==> t.sender == a
    ensures ListsOk(SetList(m, a, l))
    ensures forall t :: In(SetList(m, a, l), t) <==> if t.sender == a then t in l else In(m, t)
    ensures l != [] ==> SetList(m, a, l) == m[a := l]
  {
  }

  lemma AtFacts(m: Lists, a: Address)
    requires ListsOk(m)
    ensures Sorted(At(m, a)) && forall t :: t in At(m, a) <==> t.sender == a && In(m, t)
  {
  }

  /** Rearranging the lists and forgetting the hashes `hs` keeps the invariant. */
  lemma Reshuffle(p: Pool, tr: seq<Tx>, q: Pool, tr': seq<Tx>, hs: set<Hash>)
    requires InvT(p, tr)
    requires q.cfg == p.cfg && ListsOk(q.pending) && ListsOk(q.queue)
    requires q.known == p.known.Minus(hs)
    requires forall t :: Listed(q, tr', t) <==> Listed(p, tr, t) && t.hash !in hs
    requires Apart(q, tr') && q.queue.Keys <= q.beats.Keys
    ensures InvT(q, tr')
  {
    forall t | Listed(q, tr', t) ensures q.known.Has(t.hash) && q.known.Get(t.hash) == t {
      assert Listed(p, tr, t);
    }
    forall h | q.known.Has(h) ensures Listed(q, tr', q.known.Get(h)) {
      assert p.known.Has(h) && q.known.Get(h) == p.known.Get(h);
      assert Listed(p, tr, p.known.Get(h));
    }
  }

  /** A listed transaction is identified by its hash. */
  lemma ByHash(p: Pool, tr: seq<Tx>, x: Tx)
    requires InvT(p, tr) && Listed(p, tr, x)
    ensures p.known.Has(x.hash) && p.known.Get(x.hash) == x
    ensures forall t :: Listed(p, tr, t) ==> (t.hash == x.hash <==> t == x)
  {
  }

  lemma BySomeHash(p: Pool, tr: seq<Tx>, gone: seq<Tx>)
    requires InvT(p, tr) && forall t :: t in gone ==> Listed(p, tr, t)
    ensures forall t :: Listed(p, tr, t) ==> (t.hash in Hashes(gone) <==> t in gone)
  {
    forall t | Listed(p, tr, t) && t.hash in Hashes(gone) ensures t in gone {
      var u :| u in gone && u.hash == t.hash;
      ByHash(p, tr, u);
    }
  }

  /** Taking in a transaction the pool did not know, at an account and nonce that are free. */
  lemma Admit(p: Pool, q: Pool, tx: Tx, local: bool)
    requires Inv(p) && !p.known.Has(tx.hash)
    requires q.cfg == p.cfg && ListsOk(q.pending) && ListsOk(q.queue)
    requires q.known == p.known.Add(tx, local)
    requires forall t :: Listed(p, [], t) && t.sender == tx.sender ==> t.nonce != tx.nonce
    requires forall t :: Listed(q, [], t) <==> t == tx || Listed(p, [], t)
    requires Apart(q, []) && q.queue.Keys <= q.beats.Keys
    ensures Inv(q)
  {
    forall t | Listed(q, [], t) ensures q.known.Has(t.hash) && q.known.Get(t.hash) == t {
      if t != tx { assert Listed(p, [], t); }
    }
    forall h | q.known.Has(h) ensures Listed(q, [], q.known.Get(h)) {
      if h != tx.hash {
        assert p.known.Has(h) && q.known.Get(h) == p.known.Get(h);
        assert Listed(p, [], p.known.Get(h));
      }
    }
  }

  // ---------------------------------------------------------------- enqueueTx and promoteTx in transit

  lemma HeadTail(x: Tx, rest: seq<Tx>)
    requires Distinct([x] + rest)
    ensures Distinct(rest) && x !in rest
    ensures forall t :: t in [x] + rest <==> t == x || t in rest
  {
    var tr := [x] + rest;
    forall i | 0 <= i < |rest| ensures rest[i] != x { assert tr[i + 1] == rest[i] && tr[0] == x; }
    forall i, j | 0 <= i < j < |rest| ensures rest[i] != rest[j] {
      assert rest[i] == tr[i + 1] && rest[j] == tr[j + 1];
    }
  }

  /** The nonce of a transaction in transit is free in both lists of its account. */
  lemma TransitIsFree(p: Pool, tr: seq<Tx>, x: Tx)
    requires InvT(p, tr) && x in tr
    ensures !HasNonce(At(p.queue, x.sender), x.nonce)
    ensures !HasNonce(At(p.pending, x.sender), x.nonce)
  {
    assert Listed(p, tr, x);
    forall u: Tx | u.sender == x.sender && (In(p.queue, u) || In(p.pending, u)) ensures u.nonce != x.nonce {
      assert Listed(p, tr, u);
    }
    if HasNonce(At(p.queue, x.sender), x.nonce) {
      assert In(p.queue, AtNonce(At(p.queue, x.sender), x.nonce));
    }
    if HasNonce(At(p.pending, x.sender), x.nonce) {
      assert In(p.pending, AtNonce(At(p.pending, x.sender), x.nonce));
    }
  }

  lemma PutIn(m: Lists, x: Tx)
    requires ListsOk(m) && !HasNonce(At(m, x.sender), x.nonce)
    ensures var m' := m[x.sender := Put(At(m, x.sender), x)];
      ListsOk(m') && forall t :: In(m', t) <==> t == x || In(m, t)
  {
    var l := At(m, x.sender);
    AtFacts(m, x.sender);
    HasNonceIff(l, x.nonce);
    SetListIn(m, x.sender, Put(l, x));
  }

  /** A postponed transaction always finds its nonce free, so the ignored result is a success. */
  lemma EnqueueTransit(p: Pool, x: Tx, rest: seq<Tx>, now: Time)
    requires InvT(p, [x] + rest)
    ensures var e := Enqueue(p, x, false, false, now);
      && e.inserted && !e.replaced && InvT(e.pool, rest)
      && e.pool == p.(queue := e.pool.queue, beats := e.pool.beats)
      && (forall t :: In(e.pool.queue, t) <==> t == x || In(p.queue, t))
      && p.queue.Keys <= e.pool.queue.Keys
  {
    var tr := [x] + rest;
    HeadTail(x, rest);
    TransitIsFree(p, tr, x);
    PutIn(p.queue, x);
    MoveFromTransit(p, x, rest, Enqueue(p, x, false, false, now).pool);
  }

  lemma MoveFromTransit(p: Pool, x: Tx, rest: seq<Tx>, q: Pool)
    requires InvT(p, [x] + rest)
    requires q.cfg == p.cfg && q.known == p.known && ListsOk(q.pending) && ListsOk(q.queue)
    requires q.queue.Keys <= q.beats.Keys
    requires
      || ((forall t :: In(q.queue, t) <==> In(p.queue, t) || t == x) && q.pending == p.pending)
      || ((forall t :: In(q.pending, t) <==> In(p.pending, t) || t == x) && q.queue == p.queue)
    ensures InvT(q, rest)
  {
    var tr := [x] + rest;
    HeadTail(x, rest);
    assert x in tr;
    assert q.known == p.known.Minus({});
    forall t ensures Listed(q, rest, t) <==> Listed(p, tr, t) { }
    Reshuffle(p, tr, q, rest, {});
  }

  lemma {:induction false} EnqueueAllTransit(p: Pool, txs: seq<Tx>, now: Time)
    requires InvT(p, txs)
    ensures var q := EnqueueAll(p, txs, now);
      && Inv(q)
      && q == p.(queue := q.queue, beats := q.beats)
      && (forall t :: In(q.queue, t) <==> t in txs || In(p.queue, t))
      && p.queue.Keys <= q.queue.Keys
    decreases |txs|
  {
    if txs == [] {
    } else {
      assert txs == [txs[0]] + txs[1..];
      EnqueueTransit(p, txs[0], txs[1..], now);
      EnqueueAllTransit(Enqueue(p, txs[0], false, false, now).pool, txs[1..], now);
    }
  }

  /** A promoted transaction never meets an older one in the pending list. */
  lemma PromoteTransit(p: Pool, a: Address, x: Tx, rest: seq<Tx>, now: Time)
    requires InvT(p, [x] + rest) && x.sender == a
    ensures var q := Promote(p, a, x, now);
      && !HasNonce(At(p.pending, a), x.nonce)
      && InvT(q, rest)
      && q == p.(pending := p.pending[a := Put(At(p.pending, a), x)], beats := p.beats[a := now],
                 vnonces := p.vnonces[a := x.nonce + 1])
      && (forall t :: In(q.pending, t) <==> t == x || In(p.pending, t))
  {
    var tr := [x] + rest;
    HeadTail(x, rest);
    TransitIsFree(p, tr, x);
    PutIn(p.pending, x);
    MoveFromTransit(p, x, rest, Promote(p, a, x, now));
  }

  lemma {:induction false} PromoteAllTransit(p: Pool, a: Address, txs: seq<Tx>, now: Time)
    requires InvT(p, txs) && forall t :: t in txs ==> t.sender == a
    ensures var q := PromoteAll(p, a, txs, now);
      && Inv(q)
      && q == p.(pending := q.pending, beats := q.beats, vnonces := q.vnonces)
      && q.beats.Keys >= p.beats.Keys
      && (forall t :: In(q.pending, t) <==> t in txs || In(p.pending, t))
    decreases |txs|
  {
    if txs == [] {
    } else {
      assert txs == [txs[0]] + txs[1..];
      PromoteTransit(p, a, txs[0], txs[1..], now);
      PromoteAllTransit(Promote(p, a, txs[0], now), a, txs[1..], now);
    }
  }

  lemma PromoteLocal(p: Pool, a: Address, x: Tx, now: Time)
    requires !HasNonce(At(p.pending, a), x.nonce)
    ensures var q := Promote(p, a, x, now);
      && (forall b :: b != a ==> At(q.pending, b) == At(p.pending, b) && q.Virtual(b) == p.Virtual(b))
      && q.pending.Keys == p.pending.Keys + {a}
      && q.Virtual(a) == x.nonce + 1
  {
  }

  lemma {:induction false} PromoteAllNonces(p: Pool, a: Address, txs: seq<Tx>, now: Time)
    requires InvT(p, txs) && forall t :: t in txs ==> t.sender == a
    ensures var q := PromoteAll(p, a, txs, now);
      && (forall b :: b != a ==> At(q.pending, b) == At(p.pending, b) && q.Virtual(b) == p.Virtual(b))
      && q.pending.Keys == p.pending.Keys + (if txs == [] then {} else {a})
      && q.Virtual(a) == if txs == [] then p.Virtual(a) else txs[|txs| - 1].nonce + 1
    decreases |txs|
  {
    hide *;
    PromoteAllStep(p, a, txs, now);
    if txs != [] {
      PromoteNext(p, a, txs, now);
      PromoteAllNonces(Promote(p, a, txs[0], now), a, txs[1..], now);
    }
  }

  lemma PromoteAllStep(p: Pool, a: Address, txs: seq<Tx>, now: Time)
    ensures PromoteAll(p, a, txs, now)
      == if txs == [] then p else PromoteAll(Promote(p, a, txs[0], now), a, txs[1..], now)
  {
  }

  /** What promoting the first of several transactions does to the pending list and virtual nonces. */
  lemma PromoteNext(p: Pool, a: Address, txs: seq<Tx>, now: Time)
    requires txs != [] && InvT(p, txs) && txs[0].sender == a
    ensures var q := Promote(p, a, txs[0], now);
      && InvT(q, txs[1..])
      && (forall b :: b != a ==> At(q.pending, b) == At(p.pending, b) && q.Virtual(b) == p.Virtual(b))
      && q.pending.Keys == p.pending.Keys + {a} && q.Virtual(a) == txs[0].nonce + 1
  {
    hide *;
    assert txs == [txs[0]] + txs[1..];
    PromoteTransit(p, a, txs[0], txs[1..], now);
    PromoteLocal(p, a, txs[0], now);
  }

  // ---------------------------------------------------------------- removeTx

  /**
   `removeTx` keeps the invariant, forgets exactly the given hash, and touches nothing but the
   list the transaction is in: a pending removal postpones the higher nonces and lowers the virtual
   nonce, a queued removal leaves every pending list and virtual nonce alone.
   */
  lemma RemoveTxKeepsInv(p: Pool, h: Hash, now: Time)
    requires Inv(p)
    ensures var q := RemoveTx(p, h, now).pool;
      && Inv(q)
      && q.known == p.known.Minus({h})
      && q.cfg == p.cfg && q.chain == p.chain && q.accounts == p.accounts && q.changes == p.changes
      && q.gasPrice == p.gasPrice
    ensures p.known.Has(h) && In(p.pending, p.known.Get(h)) ==>
      var tx := p.known.Get(h);
      var l := p.pending[tx.sender];
      var r := Rank(l, tx.nonce);
      var q := RemoveTx(p, h, now).pool;
      && HasNonce(l, tx.nonce) && l[r] == tx
      && q.pending == SetList(p.pending, tx.sender, l[..r])
      && (forall t :: In(q.queue, t) <==> t in l[r + 1..] || In(p.queue, t))
      && q.vnonces == p.Lower(tx.sender, tx.nonce).vnonces
      && RemoveTx(p, h, now).dropped == |l| - r
    ensures p.known.Has(h) && In(p.queue, p.known.Get(h)) ==>
      var tx := p.known.Get(h);
      var l := p.queue[tx.sender];
      var q := RemoveTx(p, h, now).pool;
      && q.pending == p.pending && q.vnonces == p.vnonces
      && q.queue == SetList(p.queue, tx.sender, Without(l, tx.nonce))
      && RemoveTx(p, h, now).dropped == 0
    ensures !p.known.Has(h) ==> RemoveTx(p, h, now) == Removed(p, 0)
  {
    if !p.known.Has(h) {
      assert p.known.locals - {h} == p.known.locals && p.known.remotes - {h} == p.known.remotes;
    } else {
      var tx := p.known.Get(h);
      assert Listed(p, [], tx);
      if In(p.pending, tx) {
        RemovePending(p, tx, now);
      } else {
        RemoveQueued(p, tx, now);
      }
    }
  }

  lemma RemovePending(p: Pool, tx: Tx, now: Time)
    requires Inv(p) && In(p.pending, tx)
    ensures var l := p.pending[tx.sender];
      var r := Rank(l, tx.nonce);
      var o := RemoveTx(p, tx.hash, now);
      var q := o.pool;
      && HasNonce(l, tx.nonce) && l[r] == tx
      && Inv(q)
      && q == p.(pending := SetList(p.pending, tx.sender, l[..r]), queue := q.queue, beats := q.beats,
                 vnonces := p.Lower(tx.sender, tx.nonce).vnonces, known := p.known.Minus({tx.hash}))
      && (forall t :: In(q.queue, t) <==> t in l[r + 1..] || In(p.queue, t))
      && o.dropped == |l| - r
  {
    var a := tx.sender;
    var l := p.pending[a];
    var r := Rank(l, tx.nonce);
    FindPending(p, tx);
    var up := l[r + 1..];
    var q1 := p.(known := p.known.Minus({tx.hash}), pending := SetList(p.pending, a, l[..r]));
    CutPending(p, tx, q1);
    EnqueueAllTransit(q1, up, now);
    var q2 := EnqueueAll(q1, up, now);
    InvIgnoresNonces(q2, q2.Lower(a, tx.nonce));
  }

  lemma FindPending(p: Pool, tx: Tx)
    requires Inv(p) && In(p.pending, tx)
    ensures HasNonce(p.pending[tx.sender], tx.nonce)
    ensures p.pending[tx.sender][Rank(p.pending[tx.sender], tx.nonce)] == tx
    ensures p.known.Has(tx.hash) && p.known.Get(tx.hash) == tx
  {
    var l := p.pending[tx.sender];
    assert Listed(p, [], tx);
    HasNonceIff(l, tx.nonce);
    var u := AtNonce(l, tx.nonce);
    assert In(p.pending, u) && Listed(p, [], u);
  }

  lemma CutPending(p: Pool, tx: Tx, q: Pool)
    requires Inv(p) && In(p.pending, tx)
    requires var l := p.pending[tx.sender];
      q == p.(known := p.known.Minus({tx.hash}),
              pending := SetList(p.pending, tx.sender, l[..Rank(l, tx.nonce)]))
    ensures var l := p.pending[tx.sender];
      Rank(l, tx.nonce) < |l| && InvT(q, l[Rank(l, tx.nonce) + 1..])
  {
    var a := tx.sender;
    var l := p.pending[a];
    var r := Rank(l, tx.nonce);
    FindPending(p, tx);
    var up := l[r + 1..];
    SplitMembers(l, r);
    SetListIn(p.pending, a, l[..r]);
    CutToTransit(p, tx, q, up);
  }

  lemma CutToTransit(p: Pool, tx: Tx, q: Pool, up: seq<Tx>)
    requires Inv(p) && In(p.pending, tx)
    requires q == p.(known := p.known.Minus({tx.hash}), pending := q.pending)
    requires ListsOk(q.pending) && Distinct(up)
    requires forall t :: In(p.pending, t) <==> In(q.pending, t) || t == tx || t in up
    requires !In(q.pending, tx) && tx !in up && forall t :: t in up ==> !In(q.pending, t)
    ensures InvT(q, up)
  {
    assert Listed(p, [], tx);
    ByHash(p, [], tx);
    forall t | t in up ensures !In(q.queue, t) { assert In(p.pending, t); }
    forall t | In(q.pending, t) ensures !In(q.queue, t) { assert In(p.pending, t); }
    Reshuffle(p, [], q, up, {tx.hash});
  }

  /** A sorted list is its part below position `r`, the element there, and the part above. */
  lemma SplitMembers(l: seq<Tx>, r: nat)
    requires Sorted(l) && r < |l|
    ensures forall t :: t in l <==> t in l[..r] || t == l[r] || t in l[r + 1..]
    ensures forall t :: t in l[..r] ==> t.nonce < l[r].nonce
    ensures forall t :: t in l[r + 1..] ==> t.nonce > l[r].nonce
    ensures Sorted(l[..r]) && Sorted(l[r + 1..]) && Distinct(l[r + 1..])
  {
    assert l == l[..r] + [l[r]] + l[r + 1..];
  }

  lemma InvIgnoresNonces(p: Pool, q: Pool)
    requires Inv(p)
    requires q == p.(vnonces := q.vnonces, changes := q.changes, gasPrice := q.gasPrice, chain := q.chain,
                     accounts := q.accounts)
    ensures Inv(q)
  {
    assert forall t :: Listed(q, [], t) <==> Listed(p, [], t);
  }

  lemma CutFromQueue(p: Pool, tx: Tx, q: Pool)
    requires Inv(p) && In(p.queue, tx)
    requires q == p.(known := p.known.Minus({tx.hash}), queue := q.queue, beats := q.beats)
    requires ListsOk(q.queue) && q.queue.Keys <= q.beats.Keys
    requires forall t :: In(q.queue, t) <==> In(p.queue, t) && t != tx
    ensures InvT(q, [])
  {
    assert Listed(p, [], tx);
    ByHash(p, [], tx);
    forall t | In(q.pending, t) ensures !In(q.queue, t) { assert In(p.pending, t); }
    Reshuffle(p, [], q, [], {tx.hash});
  }

  lemma RemoveQueued(p: Pool, tx: Tx, now: Time)
    requires Inv(p) && In(p.queue, tx)
    ensures var f := Without(p.queue[tx.sender], tx.nonce);
      var o := RemoveTx(p, tx.hash, now);
      && Inv(o.pool)
      && o.pool == p.(queue := SetList(p.queue, tx.sender, f), known := p.known.Minus({tx.hash}),
                      beats := if f == [] then p.beats - {tx.sender} else p.beats)
      && o.dropped == 0
  {
    var a := tx.sender;
    var l := p.queue[a];
    var f := Without(l, tx.nonce);
    assert Listed(p, [], tx);
    HasNonceIff(l, tx.nonce);
    NoSharedNonce(p, a, tx.nonce);
    ByHash(p, [], tx);
    var q := RemoveTx(p, tx.hash, now).pool;
    hide RemoveTx;
    SetListIn(p.queue, a, f);
    forall t | In(p.queue, t) && t.sender == a && t.nonce == tx.nonce ensures t == tx {
      assert Listed(p, [], t);
    }
    assert forall t :: In(q.queue, t) <==> In(p.queue, t) && t != tx;
    CutFromQueue(p, tx, q);
  }
}
