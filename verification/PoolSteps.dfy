/** Facts about single steps of the pool's loops, used where the class is tied to the value. */
module PoolSteps {
  import opened Sums
  import opened Transactions
  import opened TxLists
  import opened PoolState
  import opened PoolInvariant
  import opened PoolPreservation
  import opened PoolTruncation
  import opened PoolLevelling
  import opened PoolRuns
  import opened TxEvents

  lemma SlotsWithout(k: Known, h: Hash)
    requires KnownOk(k) && k.Has(h)
    ensures k.Slots() == k.Minus({h}).Slots() + k.Get(h).Slots()
  {
    var f := x => if k.Has(x) then k.Get(x).Slots() else 0;
    var m := k.Minus({h});
    var g := x => if m.Has(x) then m.Get(x).Slots() else 0;
    var keys := k.locals.Keys + k.remotes.Keys;
    SumRemove(keys, f, h);
    assert m.locals.Keys + m.remotes.Keys == keys - {h};
    SumAgree(keys - {h}, f, g);
  }

  lemma SlotsAdd(k: Known, tx: Tx, local: bool)
    requires KnownOk(k) && !k.Has(tx.hash)
    ensures k.Add(tx, local).Slots() == k.Slots() + tx.Slots()
    ensures KnownOk(k.Add(tx, local))
  {
    var a := k.Add(tx, local);
    SlotsWithout(a, tx.hash);
    assert a.Minus({tx.hash}) == k;
  }

  lemma SlotsLocalise(k: Known, accounts: set<Address>)
    requires KnownOk(k)
    ensures k.Localise(accounts).Slots() == k.Slots() && KnownOk(k.Localise(accounts))
  {
    var m := k.Localise(accounts);
    assert m.locals.Keys + m.remotes.Keys == k.locals.Keys + k.remotes.Keys;
    SumAgree(k.locals.Keys + k.remotes.Keys,
             x => if k.Has(x) then k.Get(x).Slots() else 0, x => if m.Has(x) then m.Get(x).Slots() else 0);
  }

  lemma StaysBelow(p: Pool)
    requires PendingSize(p) <= p.cfg.globalSlots
    ensures PoolTruncation.TruncatePending(p) == p
  {
  }

  lemma FewerSpammers(spam: map<Address, nat>, a: Address)
    requires Largest(spam, a)
    ensures |spam - {a}| < |spam|
  {
    assert (spam - {a}).Keys == spam.Keys - {a};
  }

  /** Where the levelling of `p` stands: the pool `q` is `p` cut to `level`, above which nothing fits. */
  ghost predicate Levelled(q: Pool, p: Pool, os: seq<Address>, spam: map<Address, nat>, total: nat, level: nat) {
    && Inv(p) && PendingSize(p) > p.cfg.globalSlots && q.cfg == p.cfg
    && q == CapPending(p, level) && total == PendingTotal(p, level) && Highest(p, level)
    && Progress(p, os, spam, level, total > p.cfg.globalSlots)
    && (os == [] ==> level == PendingSize(p))
  }

  lemma StartLevelled(p: Pool)
    requires Inv(p) && PendingSize(p) > p.cfg.globalSlots
    ensures Levelled(p, p, [], HighRollers(p), PendingSize(p), PendingSize(p))
  {
    hide InvT, PendingSize, PendingTotal, CapPending, HighRollers, Progress, Highest;
    NothingCut(p);
    StartProgress(p);
    HighestAtSize(p, PendingSize(p));
  }

  lemma PopFacts(q: Pool, p: Pool, os: seq<Address>, spam: map<Address, nat>, total: nat, top: nat, a: Address)
    requires Levelled(q, p, os, spam, total, top) && total > p.cfg.globalSlots && Largest(spam, a)
    ensures Inv(p) && q.cfg == p.cfg && q == CapPending(p, top) && total == PendingTotal(p, top) && Highest(p, top)
    ensures a in q.pending && a in p.pending && |q.pending[a]| == |p.pending[a]| && 1 <= |p.pending[a]| <= top
    ensures Between(p, os, |p.pending[a]|, top)
    ensures os == [] ==>
      q == CapPending(p, |p.pending[a]|) && total == PendingTotal(p, |p.pending[a]|) && Highest(p, |p.pending[a]|)
  {
    hide Inv, PendingTotal, CapPending, Highest, HighRollers, PendingSize, Between, Progress, Largest;
    PopLargest(p, os, spam, top, a);
    LengthAt(p, top, a);
    if os == [] {
      SameCut(p, top, |p.pending[a]|);
      HighestAtSize(p, |p.pending[a]|);
    }
  }

  lemma PopLevelled(q: Pool, p: Pool, os: seq<Address>, spam: map<Address, nat>, total: nat, top: nat,
                    a: Address, left: nat, level: nat)
    requires Levelled(CapPending(p, top), p, os, spam, total, top) && total > p.cfg.globalSlots && Largest(spam, a)
    requires a in p.pending && |p.pending[a]| <= level <= top && (left <= p.cfg.globalSlots || level == |p.pending[a]|)
    requires q.cfg == p.cfg && q == CapPending(p, level) && left == PendingTotal(p, level) && Highest(p, level)
    ensures Levelled(q, p, os + [a], spam - {a}, left, level)
  {
    hide Inv, PendingTotal, CapPending, Highest, PendingSize, Progress, Largest;
    PopProgress(p, os, spam, top, a, level, left > p.cfg.globalSlots);
  }

  lemma NoSpammers(p: Pool, os: seq<Address>, spam: map<Address, nat>, total: nat, level: nat)
    requires Levelled(CapPending(p, level), p, os, spam, total, level)
    requires total > p.cfg.globalSlots ==> spam == map[]
    ensures os == [] ==> forall a ::
      Remote(p, a) ==> |p.pending[a]| <= p.cfg.accountSlots && |p.pending[a]| <= PendingSize(p)
  {
    if os == [] {
      NothingCut(p);
      assert forall a :: a !in HighRollers(p);
      NoneAbove(p);
    }
  }

  lemma NoneAbove(p: Pool)
    requires HighRollers(p) == map[]
    ensures forall a :: Remote(p, a) ==> |p.pending[a]| <= p.cfg.accountSlots
    ensures forall a :: Remote(p, a) ==> |p.pending[a]| <= PendingSize(p)
  {
    NothingCut(p);
    forall a | Remote(p, a) ensures |p.pending[a]| <= p.cfg.accountSlots { assert a !in HighRollers(p); }
  }

  function SiftPending(p: Pool, a: Address): Sifted {
    var l := At(p.pending, a);
    var r := Rank(l, p.chain.Nonce(a));
    var live := l[r..];
    var k := PayableRun(live, p.chain.Balance(a), p.chain.gasLimit);
    var low := Unaffordable(live[k..], p.chain.Balance(a), p.chain.gasLimit);
    Sifted(p.(known := p.known.Minus(Hashes(l[..r])).Minus(Hashes(low))),
           Payable(live[k..], p.chain.Balance(a), p.chain.gasLimit), live[..k])
  }

  /** Postpone what was sifted out, and everything else too if it does not start at the chain nonce. */
  function Regrouped(p: Pool, a: Address, ready: seq<Tx>, rest: seq<Tx>, now: Time): Pool {
    var gap := rest != [] && !HasNonce(rest, p.chain.Nonce(a));
    var p1 := EnqueueAll(p, ready, now);
    var p2 := if gap then EnqueueAll(p1, rest, now) else p1;
    p2.(pending := SetList(p.pending, a, if gap then [] else rest))
  }

  /** The steps of one account's demotion, in the order the program takes them. */
  lemma DemotionInOrder(p: Pool, a: Address, now: Time)
    requires a in p.pending
    ensures var s := SiftPending(p, a);
      Regrouped(s.pool, a, s.ready, s.rest, now) == DemoteAccount(p, a, now)
  {
    SiftIsSplit(p, a);
    var s := SiftPending(p, a);
    hide SiftPending, DemotionSplit, Regrouped, EnqueueAll, HasNonce, Hashes, Known.Minus;
    RegroupedIs(s.pool, a, s.ready, s.rest, now);
  }

  /** Forgetting the old and the unaffordable transactions one after the other is forgetting them together. */
  lemma SiftIsSplit(p: Pool, a: Address)
    requires a in p.pending
    ensures var s := DemotionSplit(p, a);
      SiftPending(p, a) == Sifted(p.(known := p.known.Minus(Hashes(s.dropped))), s.ready, s.kept)
  {
    var l := p.pending[a];
    var r := Rank(l, p.chain.Nonce(a));
    var live := l[r..];
    var k := PayableRun(live, p.chain.Balance(a), p.chain.gasLimit);
    var low := Unaffordable(live[k..], p.chain.Balance(a), p.chain.gasLimit);
    ForgetInParts(p.known, l[..r], low, []);
    ForgetNone(p.known.Minus(Hashes(l[..r])).Minus(Hashes(low)));
    assert l[..r] + low + [] == l[..r] + low;
    hide Rank, PayableRun, Unaffordable, Payable, Hashes, Known.Minus;
  }

  /** Postponing in two steps and shortening the list last is the same as shortening it first. */
  lemma RegroupedIs(p: Pool, a: Address, ready: seq<Tx>, rest: seq<Tx>, now: Time)
    ensures var gap := rest != [] && !HasNonce(rest, p.chain.Nonce(a));
      Regrouped(p, a, ready, rest, now) ==
        EnqueueAll(p.(pending := SetList(p.pending, a, if gap then [] else rest)),
                   ready + (if gap then rest else []), now)
  {
    var gap := rest != [] && !HasNonce(rest, p.chain.Nonce(a));
    var m := SetList(p.pending, a, if gap then [] else rest);
    EnqueueAllFrame(p, m, ready + (if gap then rest else []), now);
    EnqueueAllSplit(p, ready, rest, now);
    assert ready + [] == ready;
    hide EnqueueAll, HasNonce, SetList;
  }

  lemma {:induction false} EnqueueAllFrame(p: Pool, m: Lists, txs: seq<Tx>, now: Time)
    ensures EnqueueAll(p.(pending := m), txs, now) == EnqueueAll(p, txs, now).(pending := m)
    decreases |txs|
  {
    if txs != [] {
      EnqueueAllFrame(Enqueue(p, txs[0], false, false, now).pool, m, txs[1..], now);
    }
  }

  lemma EnqueueAllPending(p: Pool, txs: seq<Tx>, now: Time)
    ensures EnqueueAll(p, txs, now).pending == p.pending
  {
    EnqueueAllFrame(p, p.pending, txs, now);
    assert p.(pending := p.pending) == p;
  }

  lemma {:induction false} EnqueueAllSplit(p: Pool, xs: seq<Tx>, ys: seq<Tx>, now: Time)
    ensures EnqueueAll(p, xs + ys, now) == EnqueueAll(EnqueueAll(p, xs, now), ys, now)
    decreases |xs|
  {
    if xs == [] {
      assert xs + ys == ys;
    } else {
      assert (xs + ys)[0] == xs[0] && (xs + ys)[1..] == xs[1..] + ys;
      EnqueueAllSplit(Enqueue(p, xs[0], false, false, now).pool, xs[1..], ys, now);
    }
  }

  lemma {:induction false} DemoteSnoc(p: Pool, order: seq<Address>, a: Address, now: Time)
    ensures PoolState.DemoteUnexecutables(p, order + [a], now)
      == DemoteAccount(PoolState.DemoteUnexecutables(p, order, now), a, now)
    decreases |order|
  {
    hide DemoteAccount;
    if order == [] {
      assert [] + [a] == [a];
      assert [a][1..] == [];
      assert PoolState.DemoteUnexecutables(DemoteAccount(p, a, now), [], now) == DemoteAccount(p, a, now);
    } else {
      assert (order + [a])[0] == order[0] && (order + [a])[1..] == order[1..] + [a];
      DemoteSnoc(DemoteAccount(p, order[0], now), order[1..], a, now);
    }
  }

  lemma DemoteLeavesOthers(p: Pool, a: Address, now: Time)
    ensures forall b :: b != a && b in p.pending ==> b in DemoteAccount(p, a, now).pending
  {
    if a in p.pending {
      var p1 := p.(pending := SetList(p.pending, a, DemotionKept(p, a)),
                   known := p.known.Minus(Hashes(DemotionSplit(p, a).dropped)));
      EnqueueAllPending(p1, DemotionPostponed(p, a), now);
    }
  }

  lemma ForgetNone(k: Known)
    ensures Hashes([]) == {} && k.Minus({}) == k
  {
  }

  /** No nonce to be promoted is taken when its turn comes. */
  predicate NoneTaken(p: Pool, a: Address, txs: seq<Tx>, now: Time)
    decreases |txs|
  {
    txs == [] || (!HasNonce(At(p.pending, a), txs[0].nonce) && NoneTaken(Promote(p, a, txs[0], now), a, txs[1..], now))
  }

  /** Promotion does not look at the queue or the lookup table. */
  lemma {:induction false} PromoteAllFrame(p: Pool, q: Pool, a: Address, txs: seq<Tx>, now: Time)
    requires InvT(p, txs) && forall t :: t in txs ==> t.sender == a
    requires q == p.(queue := q.queue, known := q.known)
    ensures PromoteAll(q, a, txs, now) == PromoteAll(p, a, txs, now).(queue := q.queue, known := q.known)
    ensures NoneTaken(q, a, txs, now)
    decreases |txs|
  {
    if txs != [] {
      assert txs == [txs[0]] + txs[1..];
      PromoteTransit(p, a, txs[0], txs[1..], now);
      hide InvT;
      PromoteAllFrame(Promote(p, a, txs[0], now), Promote(q, a, txs[0], now), a, txs[1..], now);
    }
  }

  datatype Sifted = Sifted(pool: Pool, ready: seq<Tx>, rest: seq<Tx>)

  function SiftQueue(p: Pool, a: Address): Sifted {
    var l := At(p.queue, a);
    var r := Rank(l, p.chain.Nonce(a));
    var low := Unaffordable(l[r..], p.chain.Balance(a), p.chain.gasLimit);
    var live := Payable(l[r..], p.chain.Balance(a), p.chain.gasLimit);
    var k := ReadyCount(live, p.Virtual(a));
    Sifted(p.(known := p.known.Minus(Hashes(l[..r])).Minus(Hashes(low))), live[..k], live[k..])
  }

  function StoreQueue(p: Pool, a: Address, rest: seq<Tx>): Pool {
    var c := if a in p.accounts || |rest| <= p.cfg.accountQueue then |rest| else p.cfg.accountQueue;
    p.(queue := SetList(p.queue, a, rest[..c]), known := p.known.Minus(Hashes(rest[c..])),
       beats := if rest[..c] == [] then p.beats - {a} else p.beats)
  }

  /** The steps of one account's promotion, in the order the program takes them. */
  lemma PromotionInOrder(p: Pool, a: Address, now: Time)
    requires Inv(p) && a in p.queue
    ensures var s := SiftQueue(p, a);
      && NoneTaken(s.pool, a, s.ready, now)
      && PromoteAccount(p, a, now) == StoreQueue(PromoteAll(s.pool, a, s.ready, now), a, s.rest)
      && (forall t :: t in s.ready <==> In(PromoteAccount(p, a, now).pending, t) && !In(p.pending, t))
  {
    var l := p.queue[a];
    var s := PromotionSplit(p, a);
    var r := Rank(l, p.chain.Nonce(a));
    var low := Unaffordable(l[r..], p.chain.Balance(a), p.chain.gasLimit);
    var live := Payable(l[r..], p.chain.Balance(a), p.chain.gasLimit);
    var k := ReadyCount(live, p.Virtual(a));
    var rest := live[k..];
    var c := if a in p.accounts || |rest| <= p.cfg.accountQueue then |rest| else p.cfg.accountQueue;
    assert s == Split(l[..r] + low + rest[c..], live[..k], rest[..c]);
    hide PromotionSplit;
    PromotionToTransit(p, a);
    var q := p.(queue := SetList(p.queue, a, s.kept), known := p.known.Minus(Hashes(s.dropped)));
    var p1 := p.(known := p.known.Minus(Hashes(l[..r])).Minus(Hashes(low)));
    PromoteAllFrame(q, p1, a, s.ready, now);
    PromoteAllTransit(q, a, s.ready, now);
    ForgetInParts(p.known, l[..r], low, rest[c..]);
    ReadyWasQueued(q, s.ready);
  }

  lemma ReadyWasQueued(q: Pool, ready: seq<Tx>)
    requires InvT(q, ready)
    ensures forall t :: t in ready ==> !In(q.pending, t)
  {
  }

  lemma ForgetInParts(k: Known, a: seq<Tx>, b: seq<Tx>, c: seq<Tx>)
    ensures k.Minus(Hashes(a + b + c)) == k.Minus(Hashes(a)).Minus(Hashes(b)).Minus(Hashes(c))
  {
    assert Hashes(a + b + c) == Hashes(a) + Hashes(b) + Hashes(c);
    MinusTwice(k, Hashes(a), Hashes(b));
    MinusTwice(k, Hashes(a) + Hashes(b), Hashes(c));
  }

  lemma PromoteKeepsPending(p: Pool, a: Address, now: Time)
    requires Inv(p)
    ensures forall t :: In(p.pending, t) ==> In(PromoteAccount(p, a, now).pending, t)
  {
    if a in p.queue {
      var s := PromotionSplit(p, a);
      PromotionToTransit(p, a);
      var q := p.(queue := SetList(p.queue, a, s.kept), known := p.known.Minus(Hashes(s.dropped)));
      hide PromotionSplit;
      PromoteAllTransit(q, a, s.ready, now);
    }
  }

  lemma EnqueueFrame(p: Pool, tx: Tx, local: bool, now: Time)
    ensures Enqueue(p, tx, local, true, now).pool.accounts == p.accounts
  {
  }

  lemma MinusHas(k: Known, gone: Hash, h: Hash)
    requires !k.Has(h)
    ensures !k.Minus({gone}).Has(h)
  {
  }

  // ---------------------------------------------------------------- queue truncation

  /** Keeping the whole queued list keeps the pool. */
  lemma BackStart(p: Pool, a: Address)
    requires Inv(p) && a in p.queue
    ensures At(p.queue, a) == p.queue[a] && CapQueue(p, a, |p.queue[a]|) == p
  {
    FrontIsCap(p, a);
    QueuedNotEmpty(p, a);
    hide InvT, DropFront;
  }

  lemma QueuedNotEmpty(p: Pool, a: Address)
    requires Inv(p) && a in p.queue
    ensures p.queue[a] != []
  {
  }

  /** `ys` is `xs` read backwards. */
  ghost predicate Mirror(xs: seq<Address>, ys: seq<Address>) {
    |xs| == |ys| && forall i :: 0 <= i < |xs| ==> ys[i] == xs[|xs| - 1 - i]
  }

  lemma MirrorFront(xs: seq<Address>, ys: seq<Address>, a: Address)
    requires Mirror(xs, ys)
    ensures Mirror(xs + [a], [a] + ys)
  {
  }

  function Ages(p: Pool): map<Address, Time> {
    map a | a in p.queue && a !in p.accounts :: if a in p.beats then p.beats[a] else 0
  }

  /** `order` holds the accounts taken so far by age, all at least as recent as what is left. */
  ghost predicate Aged(p: Pool, order: seq<Address>, ages: map<Address, Time>) {
    && Distinct(order)
    && (forall a :: a in order || a in ages <==> a in Ages(p))
    && (forall a :: a in ages ==> a !in order && ages[a] == Ages(p)[a])
    && (forall a, b :: a in ages && b in order ==> Ages(p)[a] <= Ages(p)[b])
    && (forall i, j :: 0 <= i < j < |order| ==> Ages(p)[order[i]] <= Ages(p)[order[j]])
  }

  lemma AgedStart(p: Pool)
    ensures Aged(p, [], Ages(p)) && Mirror([], [])
  {
  }

  lemma AgedStep(p: Pool, order: seq<Address>, ages: map<Address, Time>, a: Address)
    requires Aged(p, order, ages) && Largest(ages, a)
    ensures Aged(p, [a] + order, ages - {a})
  {
    hide Ages;
    var rest, longer := ages - {a}, [a] + order;
    assert forall b :: b in longer <==> b == a || b in order;
    assert forall b :: b in rest <==> b != a && b in ages;
    forall b ensures b in longer || b in rest <==> b in Ages(p) {
      assert b in order || b in ages <==> b in Ages(p);
    }
    forall b, c | b in rest && c in longer ensures Ages(p)[b] <= Ages(p)[c] { assert ages[b] <= ages[a]; }
    forall i, j | 0 <= i < j < |longer| ensures longer[i] != longer[j] && Ages(p)[longer[i]] <= Ages(p)[longer[j]] {
      assert longer[j] == order[j - 1];
      if i > 0 { assert longer[i] == order[i - 1]; } else { assert order[j - 1] in order; }
    }
  }

  lemma AgedEnd(p: Pool, order: seq<Address>, none: map<Address, Time>)
    requires Inv(p) && Aged(p, order, none) && none == map[]
    ensures ByAge(p, order)
  {
    forall a ensures a in order <==> a in Ages(p) { assert a in order || a in none <==> a in Ages(p); }
    hide Inv;
    forall i, j | 0 <= i < j < |order| ensures p.beats[order[i]] <= p.beats[order[j]] {
      assert order[i] in order && order[j] in order;
      assert Ages(p)[order[i]] <= Ages(p)[order[j]];
    }
  }

  /** Distinct accounts that all have something queued. */
  ghost predicate AreQueued(p: Pool, order: seq<Address>) {
    Distinct(order) && forall a :: a in order ==> a in p.queue
  }

  lemma AllQueued(p: Pool, order: seq<Address>)
    requires ByAge(p, order)
    ensures AreQueued(p, order)
  {
  }

  lemma DropQueueStep(p: Pool, order: seq<Address>, drop: nat)
    requires AreQueued(p, order) && order != [] && drop > 0
    ensures order[0] in p.queue
    ensures var n := |p.queue[order[0]]|;
      if n <= drop then
        var q := CapQueue(p, order[0], 0);
        AreQueued(q, order[1..]) && DropQueue(p, order, drop) == DropQueue(q, order[1..], drop - n)
      else
        AreQueued(CapQueue(p, order[0], n - drop), order[1..])
        && DropQueue(p, order, drop) == CapQueue(p, order[0], n - drop)
  {
    NamesStep(p, order);
    hide Known.Minus;
    if |p.queue[order[0]]| > drop {
      forall a | a in order[1..] ensures a in CapQueue(p, order[0], |p.queue[order[0]]| - drop).queue {
        assert a in order;
      }
    }
  }

  lemma DropNothing(p: Pool, order: seq<Address>)
    ensures DropQueue(p, order, 0) == p && DropQueue(p, [], 0) == p
    ensures order == [] ==> forall drop: nat :: DropQueue(p, order, drop) == p
  {
  }

  // ---------------------------------------------------------------- eviction

  lemma {:induction false} EvictSnoc(p: Pool, order: seq<Address>, a: Address, now: Time)
    ensures var q := Evict(p, order, now);
      Evict(p, order + [a], now) == RemoveAll(q, At(q.queue, a), now)
    decreases |order|
  {
    hide RemoveAll;
    if order == [] {
      assert [] + [a] == [a] && [a][1..] == [];
      assert Evict(RemoveAll(p, At(p.queue, a), now), [], now) == RemoveAll(p, At(p.queue, a), now);
    } else {
      assert (order + [a])[0] == order[0] && (order + [a])[1..] == order[1..] + [a];
      EvictSnoc(RemoveAll(p, At(p.queue, order[0]), now), order[1..], a, now);
    }
  }

  /** `q` is `p` after evicting the expired accounts outside `todo`. */
  ghost predicate Evicting(p: Pool, q: Pool, expired: seq<Address>, todo: set<Address>, now: Time) {
    && Distinct(expired) && (forall a :: a in expired <==> Expired(p, a, now) && a !in todo)
    && q == Evict(p, expired, now) && q.cfg == p.cfg
  }

  lemma EvictStart(p: Pool, now: Time)
    ensures Evicting(p, p, [], p.queue.Keys, now)
  {
  }

  lemma EvictStep(p: Pool, q: Pool, expired: seq<Address>, todo: set<Address>, a: Address, now: Time)
    requires Inv(p) && Inv(q) && Evicting(p, q, expired, todo, now) && a in todo && todo <= p.queue.Keys
    ensures a in q.queue && a in q.beats && q.cfg == p.cfg
    ensures if a !in q.accounts && now > q.beats[a] + q.cfg.lifetime
      then Evicting(p, CapQueue(q, a, 0), expired + [a], todo - {a}, now)
      else Evicting(p, q, expired, todo - {a}, now)
  {
    hide Inv, Evict, RemoveAll, CapQueue;
    QueuedHaveBeats(q);
    EvictExact(p, expired, now);
    assert a in q.queue && q.beats[a] == p.beats[a];
    if a !in q.accounts && now > q.beats[a] + q.cfg.lifetime {
      EvictSnoc(p, expired, a, now);
      RemoveAllQueued(q, a, now);
      CapQueueFrame(q, a);
      ExpiredSnoc(p, expired, todo, a, now);
    }
  }

  lemma ExpiredSnoc(p: Pool, expired: seq<Address>, todo: set<Address>, a: Address, now: Time)
    requires Distinct(expired) && (forall b :: b in expired <==> Expired(p, b, now) && b !in todo)
    requires a in todo && Expired(p, a, now)
    ensures Distinct(expired + [a]) && forall b :: b in expired + [a] <==> Expired(p, b, now) && b !in todo - {a}
  {
    hide Expired;
    assert forall b :: b in expired + [a] <==> b in expired || b == a;
  }

  lemma QueuedHaveBeats(p: Pool)
    requires Inv(p)
    ensures forall a :: a in p.queue ==> a in p.beats
  {
  }

  lemma CapQueueFrame(q: Pool, a: Address)
    ensures CapQueue(q, a, 0).cfg == q.cfg
  {
  }

  lemma EvictEnd(p: Pool, q: Pool, expired: seq<Address>, now: Time)
    requires Evicting(p, q, expired, {}, now)
    ensures Distinct(expired) && (forall a :: a in expired <==> Expired(p, a, now)) && q == Evict(p, expired, now)
  {
  }

  // ---------------------------------------------------------------- announcements

  /** The queued events whose nonce has not fallen below the account's virtual one. */
  function CurrentEvents(p: Pool, events: Events): Events {
    map k | k in events && k.1 >= p.Virtual(k.0) :: events[k]
  }

  // ---------------------------------------------------------------- batches

  /** The next transaction of a batch. */
  lemma BatchStep(p: Pool, txs: seq<Tx>, local: bool, vs: seq<Victims>, now: Time, i: nat)
    requires |vs| == |txs| && i < |txs|
    ensures var o := Add(p, txs[i], local, vs[i], now);
      && AddAll(p, txs[i..], local, vs[i..], now) == AddAll(o.pool, txs[i + 1..], local, vs[i + 1..], now)
      && AddVerdicts(p, txs[i..], local, vs[i..], now)
         == [o.verdict] + AddVerdicts(o.pool, txs[i + 1..], local, vs[i + 1..], now)
  {
    hide Add;
    assert txs[i..][0] == txs[i] && txs[i..][1..] == txs[i + 1..];
    assert vs[i..][0] == vs[i] && vs[i..][1..] == vs[i + 1..];
  }

  lemma BatchEnds(p: Pool, txs: seq<Tx>, local: bool, vs: seq<Victims>, now: Time)
    requires |vs| == |txs|
    ensures AddAll(p, txs[0..], local, vs[0..], now) == AddAll(p, txs, local, vs, now)
    ensures AddVerdicts(p, txs[0..], local, vs[0..], now) == AddVerdicts(p, txs, local, vs, now)
    ensures AddAll(p, txs[|txs|..], local, vs[|txs|..], now) == p
    ensures AddVerdicts(p, txs[|txs|..], local, vs[|txs|..], now) == []
  {
    assert txs[0..] == txs && vs[0..] == vs;
  }
}
