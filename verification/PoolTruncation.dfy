/**
 The two size limits. Pending lists are levelled down to one common height, locals excepted;
 queued lists are dropped account by account, oldest heartbeat first.
 */
module PoolTruncation {
  import opened Sums
  import opened Transactions
  import opened TxLists
  import opened PoolState
  import opened PoolInvariant
  import opened PoolPreservation

  // ---------------------------------------------------------------- truncatePending

  /** How many transactions of `a` survive when remote accounts are levelled to `level`. */
  function CapLen(p: Pool, a: Address, level: nat): (k: nat)
    ensures k <= |At(p.pending, a)|
  {
    var n := |At(p.pending, a)|;
    if a in p.accounts || n <= level then n else level
  }

  ghost function PendingTotal(p: Pool, level: nat): nat {
    Sum(p.pending.Keys, a => CapLen(p, a, level))
  }

  ghost function PendingSize(p: Pool): nat {
    Sum(p.pending.Keys, a => |At(p.pending, a)|)
  }

  predicate LensOk(p: Pool, lens: map<Address, nat>) {
    lens.Keys == p.pending.Keys && forall a :: a in lens ==> lens[a] <= |p.pending[a]|
  }

  /** Cutting `a` to its length drops a nonce below its virtual nonce. */
  predicate Lowers(p: Pool, a: Address, lens: map<Address, nat>)
    requires LensOk(p, lens) && a in p.pending
  {
    lens[a] < |p.pending[a]| && p.Virtual(a) > p.pending[a][lens[a]].nonce
  }

  function Lowered(p: Pool, lens: map<Address, nat>): map<Address, nat>
    requires LensOk(p, lens)
  {
    map a | a in p.pending && Lowers(p, a, lens) :: p.pending[a][lens[a]].nonce
  }

  function CutHashes(p: Pool, lens: map<Address, nat>): set<Hash>
    requires LensOk(p, lens)
  {
    set a, t | a in p.pending && t in p.pending[a][lens[a]..] :: t.hash
  }

  /** The pending lists cut to the given lengths, highest nonces first. */
  function CapTo(p: Pool, lens: map<Address, nat>): Pool
    requires LensOk(p, lens)
  {
    p.(pending := map a | a in p.pending :: p.pending[a][..lens[a]],
       known := p.known.Minus(CutHashes(p, lens)),
       vnonces := p.vnonces + Lowered(p, lens))
  }

  function LevelLens(p: Pool, level: nat): (r: map<Address, nat>)
    ensures LensOk(p, r)
  {
    map a | a in p.pending :: CapLen(p, a, level)
  }

  /** Every remote account keeps its `level` lowest nonces. */
  function CapPending(p: Pool, level: nat): Pool { CapTo(p, LevelLens(p, level)) }

  /** The highest level from `top` downwards that fits the limit, but never below the guaranteed slots. */
  ghost function LevelFrom(p: Pool, top: nat): nat {
    if top <= p.cfg.accountSlots then p.cfg.accountSlots
    else if PendingTotal(p, top) <= p.cfg.globalSlots then top
    else LevelFrom(p, top - 1)
  }

  ghost function WaterLevel(p: Pool): nat { LevelFrom(p, PendingSize(p)) }

  ghost function TruncatePending(p: Pool): Pool {
    if PendingSize(p) <= p.cfg.globalSlots then p else CapPending(p, WaterLevel(p))
  }

  lemma LengthBelowSize(p: Pool, a: Address)
    requires a in p.pending
    ensures |p.pending[a]| <= PendingSize(p)
  {
    SumRemove(p.pending.Keys, b => |At(p.pending, b)|, a);
  }

  /** From the total size upwards nothing is cut. */
  lemma HighLevelCutsNothing(p: Pool, level: nat)
    requires level >= PendingSize(p)
    ensures PendingTotal(p, level) == PendingSize(p)
  {
    forall a | a in p.pending.Keys ensures CapLen(p, a, level) == |At(p.pending, a)| {
      LengthBelowSize(p, a);
    }
    SumAgree(p.pending.Keys, a => CapLen(p, a, level), a => |At(p.pending, a)|);
  }

  lemma {:induction false} LevelFromIsLargest(p: Pool, top: nat)
    requires forall m :: m > top ==> PendingTotal(p, m) > p.cfg.globalSlots
    ensures var level := LevelFrom(p, top);
      && level >= p.cfg.accountSlots
      && (forall m :: m > level ==> PendingTotal(p, m) > p.cfg.globalSlots)
      && (PendingTotal(p, level) <= p.cfg.globalSlots || level == p.cfg.accountSlots)
    decreases top
  {
    if top > p.cfg.accountSlots && PendingTotal(p, top) > p.cfg.globalSlots {
      LevelFromIsLargest(p, top - 1);
    }
  }

  /**
   A level that is at least the guaranteed slots, fits the limit unless it is the guarantee itself,
   and above which nothing else fits.
   */
  ghost predicate IsWaterLevel(p: Pool, level: nat) {
    && level >= p.cfg.accountSlots
    && (forall m :: m > level ==> PendingTotal(p, m) > p.cfg.globalSlots)
    && (PendingTotal(p, level) <= p.cfg.globalSlots || level == p.cfg.accountSlots)
  }

  lemma WaterLevelUnique(p: Pool, l1: nat, l2: nat)
    requires IsWaterLevel(p, l1) && IsWaterLevel(p, l2)
    ensures l1 == l2
  {
  }

  lemma CapPendingSize(p: Pool, level: nat)
    ensures PendingSize(CapPending(p, level)) == PendingTotal(p, level)
  {
    var q := CapPending(p, level);
    assert q.pending.Keys == p.pending.Keys;
    SumAgree(p.pending.Keys, a => |At(q.pending, a)|, a => CapLen(p, a, level));
  }

  /**
   Water filling: an over-full pool is levelled to the one water level there is. Remote accounts
   keep their lowest nonces up to that level, locals keep everything, queues are left alone.
   */
  lemma WaterFilling(p: Pool)
    requires PendingSize(p) > p.cfg.globalSlots
    ensures var level := WaterLevel(p);
      var q := TruncatePending(p);
      && IsWaterLevel(p, level)
      && (forall m :: IsWaterLevel(p, m) ==> m == level)
      && PendingSize(q) == PendingTotal(p, level)
      && (forall a :: a in p.accounts ==> At(q.pending, a) == At(p.pending, a))
      && (forall a :: a !in p.accounts ==>
            At(q.pending, a) == if |At(p.pending, a)| <= level then At(p.pending, a) else At(p.pending, a)[..level])
      && q.queue == p.queue && q.beats == p.beats
  {
    forall m | m > PendingSize(p) ensures PendingTotal(p, m) > p.cfg.globalSlots {
      HighLevelCutsNothing(p, m);
    }
    LevelFromIsLargest(p, PendingSize(p));
    CapPendingSize(p, WaterLevel(p));
    forall m | IsWaterLevel(p, m) ensures m == WaterLevel(p) { WaterLevelUnique(p, m, WaterLevel(p)); }
  }

  /** After levelling, the limit holds unless every remote account is within its guarantee. */
  lemma LimitOrGuarantee(p: Pool)
    ensures var q := TruncatePending(p);
      || PendingSize(q) <= p.cfg.globalSlots
      || (forall a :: a !in p.accounts ==> |At(q.pending, a)| <= p.cfg.accountSlots)
  {
    if PendingSize(p) > p.cfg.globalSlots { WaterFilling(p); }
  }

  lemma CapToKeepsInv(p: Pool, lens: map<Address, nat>)
    requires Inv(p) && LensOk(p, lens) && forall a :: a in lens ==> lens[a] >= 1
    ensures Inv(CapTo(p, lens))
  {
    var q := CapTo(p, lens);
    forall a | a in q.pending
      ensures q.pending[a] != [] && Sorted(q.pending[a]) && forall t :: t in q.pending[a] ==> t.sender == a
    {
      AtFacts(p.pending, a);
    }
    forall t ensures Listed(q, [], t) <==> Listed(p, [], t) && t.hash !in CutHashes(p, lens) {
      if Listed(p, [], t) { CutByHash(p, lens, t); }
    }
    forall t | In(q.pending, t) ensures !In(q.queue, t) { assert In(p.pending, t); }
    Reshuffle(p, [], q, [], CutHashes(p, lens));
  }

  lemma CutByHash(p: Pool, lens: map<Address, nat>, t: Tx)
    requires Inv(p) && LensOk(p, lens) && Listed(p, [], t)
    ensures t.hash in CutHashes(p, lens) <==> In(p.pending, t) && t !in p.pending[t.sender][..lens[t.sender]]
  {
    hide Inv, InvT, CutHashes;
    if t.hash in CutHashes(p, lens) { HashCut(p, lens, t); }
    if In(p.pending, t) { CutOrKept(p, lens, t); }
  }

  /** A transaction whose hash goes is one that is cut off. */
  lemma HashCut(p: Pool, lens: map<Address, nat>, t: Tx)
    requires Inv(p) && LensOk(p, lens) && Listed(p, [], t) && t.hash in CutHashes(p, lens)
    ensures In(p.pending, t) && t in p.pending[t.sender][lens[t.sender]..]
  {
    var b, u :| b in p.pending && u in p.pending[b][lens[b]..] && u.hash == t.hash;
    AtFacts(p.pending, b);
    ByHash(p, [], t);
    hide InvT;
    assert u in p.pending[b] && Listed(p, [], u);
  }

  lemma CutOrKept(p: Pool, lens: map<Address, nat>, t: Tx)
    requires Inv(p) && LensOk(p, lens) && In(p.pending, t)
    ensures t in p.pending[t.sender][lens[t.sender]..] <==> t !in p.pending[t.sender][..lens[t.sender]]
    ensures t in p.pending[t.sender][lens[t.sender]..] ==> t.hash in CutHashes(p, lens)
  {
    CutHalves(p.pending[t.sender], lens[t.sender]) by { AtFacts(p.pending, t.sender); }
    hide InvT;
  }

  lemma TruncatePendingKeepsInv(p: Pool)
    requires Inv(p)
    ensures Inv(TruncatePending(p))
  {
    if PendingSize(p) > p.cfg.globalSlots {
      WaterFilling(p);
      CapToKeepsInv(p, LevelLens(p, WaterLevel(p)));
    }
  }

  // ---------------------------------------------------------------- cutting one transaction at a time

  lemma MinusTwice(k: Known, h1: set<Hash>, h2: set<Hash>)
    ensures k.Minus(h1).Minus(h2) == k.Minus(h1 + h2)
  {
  }

  /** Drop the highest pending nonce of `a`. */
  function DropLast(p: Pool, a: Address): Pool
    requires a in p.pending && p.pending[a] != []
  {
    var l := p.pending[a];
    var t := l[|l| - 1];
    p.(pending := p.pending[a := l[..|l| - 1]], known := p.known.Minus({t.hash})).Lower(a, t.nonce)
  }

  lemma CapStep(p: Pool, lens: map<Address, nat>, a: Address, next: map<Address, nat>)
    requires LensOk(p, lens) && a in p.pending && lens[a] > 0 && Sorted(p.pending[a])
    requires LensOk(p, next) && next == lens[a := lens[a] - 1]
    ensures var q := CapTo(p, lens);
      a in q.pending && |q.pending[a]| == lens[a] && DropLast(q, a) == CapTo(p, next)
  {
    hide CutHashes, Lowered, Known.Minus;
    var q := CapTo(p, lens);
    var l, k := p.pending[a], lens[a];
    var n := CapTo(p, next);
    assert q.pending[a] == l[..k] && l[..k][..k - 1] == l[..k - 1] && l[..k][k - 1] == l[k - 1];
    assert q.pending[a := l[..k - 1]] == n.pending;
    CapStepHashes(p, lens, a);
    MinusTwice(p.known, CutHashes(p, lens), {l[k - 1].hash});
    CapStepNonces(p, lens, a);
  }

  lemma CapStepHashes(p: Pool, lens: map<Address, nat>, a: Address)
    requires LensOk(p, lens) && a in p.pending && lens[a] > 0
    ensures CutHashes(p, lens[a := lens[a] - 1]) == CutHashes(p, lens) + {p.pending[a][lens[a] - 1].hash}
  {
    var l, k := p.pending[a], lens[a];
    var next := lens[a := k - 1];
    var h1, h2 := CutHashes(p, lens), CutHashes(p, next);
    assert l[k - 1..] == [l[k - 1]] + l[k..];
    forall h ensures h in h2 <==> h in h1 || h == l[k - 1].hash {
      if h in h1 {
        var b, t :| b in p.pending && t in p.pending[b][lens[b]..] && t.hash == h;
        assert t in p.pending[b][next[b]..];
      }
      if h in h2 {
        var b, t :| b in p.pending && t in p.pending[b][next[b]..] && t.hash == h;
        if b != a || t != l[k - 1] { assert t in p.pending[b][lens[b]..]; }
      }
      if h == l[k - 1].hash { assert l[k - 1] in p.pending[a][next[a]..]; }
    }
  }

  lemma LoweredStep(p: Pool, lens: map<Address, nat>, a: Address, next: map<Address, nat>)
    requires LensOk(p, lens) && a in p.pending && lens[a] > 0 && Sorted(p.pending[a])
    requires LensOk(p, next) && next == lens[a := lens[a] - 1]
    ensures var n := p.pending[a][lens[a] - 1].nonce;
      var was, now := Lowered(p, lens), Lowered(p, next);
      && (p.Virtual(a) > n ==> now == was[a := n])
      && (p.Virtual(a) <= n ==> now == was && a !in was)
      && (a in was ==> was[a] > n && p.Virtual(a) > n)
  {
    LoweredElsewhere(p, lens, a, next);
    LoweredHere(p, lens, a, next);
    var was, now := Lowered(p, lens), Lowered(p, next);
    hide *;
    if a in now { Overwritten(was, now, a); } else { SameBut(was, now, a); }
  }

  lemma Overwritten(was: map<Address, nat>, now: map<Address, nat>, a: Address)
    requires now - {a} == was - {a} && a in now
    ensures now == was[a := now[a]]
  {
    forall b | b != a ensures (b in now <==> b in was) && (b in was ==> now[b] == was[b]) {
      assert b in now - {a} <==> b in was - {a};
      if b in was { assert (now - {a})[b] == (was - {a})[b]; }
    }
  }

  lemma SameBut(was: map<Address, nat>, now: map<Address, nat>, a: Address)
    requires now - {a} == was - {a} && a !in now && a !in was
    ensures now == was
  {
    assert now - {a} == now && was - {a} == was;
  }

  lemma LoweredElsewhere(p: Pool, lens: map<Address, nat>, a: Address, next: map<Address, nat>)
    requires LensOk(p, lens) && LensOk(p, next) && a in lens && next == lens[a := next[a]]
    ensures Lowered(p, next) - {a} == Lowered(p, lens) - {a}
  {
    hide Pool.Virtual;
    assert forall b :: b in p.pending && b != a ==> Lowers(p, b, next) == Lowers(p, b, lens);
  }

  /** The cut account is lowered further than before, if at all. */
  lemma LoweredHere(p: Pool, lens: map<Address, nat>, a: Address, next: map<Address, nat>)
    requires LensOk(p, lens) && a in p.pending && lens[a] > 0 && Sorted(p.pending[a])
    requires LensOk(p, next) && next[a] == lens[a] - 1
    ensures var n := p.pending[a][lens[a] - 1].nonce;
      var was, now := Lowered(p, lens), Lowered(p, next);
      && (a in now <==> p.Virtual(a) > n) && (a in now ==> now[a] == n)
      && (a in was ==> was[a] > n && p.Virtual(a) > n)
  {
    hide Pool.Virtual;
  }

  lemma CapStepNonces(p: Pool, lens: map<Address, nat>, a: Address)
    requires LensOk(p, lens) && a in p.pending && lens[a] > 0 && Sorted(p.pending[a])
    ensures var q := p.(vnonces := p.vnonces + Lowered(p, lens));
      q.Lower(a, p.pending[a][lens[a] - 1].nonce).vnonces == p.vnonces + Lowered(p, lens[a := lens[a] - 1])
  {
    hide Sorted, Lowered;
    LoweredStep(p, lens, a, lens[a := lens[a] - 1]);
  }

  lemma SizeStep(p: Pool, q: Pool, a: Address)
    requires a in p.pending && p.pending[a] != []
    requires q.pending == p.pending[a := p.pending[a][..|p.pending[a]| - 1]]
    ensures PendingSize(p) == PendingSize(q) + 1
  {
    var f := b => |At(p.pending, b)|;
    var g := b => |At(q.pending, b)|;
    SumRemove(p.pending.Keys, f, a);
    SumRemove(q.pending.Keys, g, a);
    assert q.pending.Keys == p.pending.Keys;
    SumAgree(p.pending.Keys - {a}, f, g);
  }

  // ---------------------------------------------------------------- truncateQueue

  ghost function QueueSize(p: Pool): nat {
    Sum(p.queue.Keys, a => |At(p.queue, a)|)
  }

  ghost function LocalQueued(p: Pool): nat {
    Sum(p.queue.Keys * p.accounts, a => |At(p.queue, a)|)
  }

  /** Keep only the `k` lowest nonces of a queued list. */
  function CapQueue(p: Pool, a: Address, k: nat): Pool
    requires k <= |At(p.queue, a)|
  {
    var l := At(p.queue, a);
    p.(queue := SetList(p.queue, a, l[..k]), known := p.known.Minus(Hashes(l[k..])),
       beats := if k == 0 then p.beats - {a} else p.beats)
  }

  function DropQueue(p: Pool, order: seq<Address>, drop: nat): Pool
    decreases |order|
  {
    if order == [] || drop == 0 then p
    else
      var n := |At(p.queue, order[0])|;
      if n <= drop then DropQueue(CapQueue(p, order[0], 0), order[1..], drop - n)
      else CapQueue(p, order[0], n - drop)
  }

  /** The queued remote accounts, oldest heartbeat first. */
  ghost predicate ByAge(p: Pool, order: seq<Address>) {
    && Distinct(order)
    && (forall a :: a in order <==> a in p.queue && a !in p.accounts)
    && (forall a :: a in order ==> a in p.beats)
    && (forall i, j :: 0 <= i < j < |order| ==> p.beats[order[i]] <= p.beats[order[j]])
  }

  ghost function TruncateQueue(p: Pool, order: seq<Address>): Pool {
    if QueueSize(p) <= p.cfg.globalQueue then p
    else DropQueue(p, order, QueueSize(p) - p.cfg.globalQueue)
  }

  lemma CapQueueKeepsInv(p: Pool, a: Address, k: nat)
    requires Inv(p) && k <= |At(p.queue, a)|
    ensures Inv(CapQueue(p, a, k))
  {
    var l := At(p.queue, a);
    var q := CapQueue(p, a, k);
    AtFacts(p.queue, a);
    CutHalves(l, k);
    SetListIn(p.queue, a, l[..k]);
    assert forall t :: In(p.queue, t) <==> In(q.queue, t) || t in l[k..];
    Repartition(p, q, [], l[k..]);
  }

  lemma CapQueueSize(p: Pool, a: Address, k: nat)
    requires a in p.queue && k <= |p.queue[a]|
    ensures QueueSize(CapQueue(p, a, k)) + |p.queue[a]| == QueueSize(p) + k
  {
    var q := CapQueue(p, a, k);
    var f := b => |At(p.queue, b)|;
    var g := b => |At(q.queue, b)|;
    SumRemove(p.queue.Keys, f, a);
    SumAgree(p.queue.Keys - {a}, f, g);
    if k == 0 {
      assert q.queue.Keys == p.queue.Keys - {a};
    } else {
      assert q.queue.Keys == p.queue.Keys;
      SumRemove(q.queue.Keys, g, a);
    }
  }

  lemma {:induction false} DropQueueKeepsInv(p: Pool, order: seq<Address>, drop: nat)
    requires Inv(p)
    ensures Inv(DropQueue(p, order, drop))
    decreases |order|
  {
    hide CapQueue, InvT;
    if order != [] && drop > 0 {
      var n := |At(p.queue, order[0])|;
      if n <= drop {
        CapQueueKeepsInv(p, order[0], 0);
        DropQueueKeepsInv(CapQueue(p, order[0], 0), order[1..], drop - n);
      } else {
        CapQueueKeepsInv(p, order[0], n - drop);
      }
    }
  }

  lemma {:induction false} DropQueueFrame(p: Pool, order: seq<Address>, drop: nat)
    ensures var q := DropQueue(p, order, drop);
      && q.pending == p.pending && q.vnonces == p.vnonces && q.chain == p.chain && q.cfg == p.cfg
      && q.accounts == p.accounts && q.gasPrice == p.gasPrice && q.changes == p.changes
    decreases |order|
  {
    if order != [] && drop > 0 {
      var n := |At(p.queue, order[0])|;
      if n <= drop { DropQueueFrame(CapQueue(p, order[0], 0), order[1..], drop - n); }
    }
  }

  /** What the accounts outside `named` have queued. */
  ghost function QueuedBeside(p: Pool, named: set<Address>): nat {
    Sum(p.queue.Keys - named, a => |At(p.queue, a)|)
  }

  lemma BesideStep(p: Pool, a: Address, tail: set<Address>)
    requires a in p.queue && a !in tail
    ensures QueuedBeside(CapQueue(p, a, 0), tail) == QueuedBeside(p, {a} + tail)
    ensures QueuedBeside(p, {a} + tail) + |p.queue[a]| <= QueueSize(p)
  {
    var f := b => |At(p.queue, b)|;
    var q := CapQueue(p, a, 0);
    assert q.queue.Keys - tail == p.queue.Keys - ({a} + tail);
    SumAgree(q.queue.Keys - tail, b => |At(q.queue, b)|, f);
    SumRemove(p.queue.Keys, f, a);
    var rest := p.queue.Keys - ({a} + tail);
    SumSplit(rest, p.queue.Keys - {a} - rest, f);
    assert rest + (p.queue.Keys - {a} - rest) == p.queue.Keys - {a};
  }

  function Names(order: seq<Address>): set<Address> { set a | a in order }

  lemma NamesStep(p: Pool, order: seq<Address>)
    requires Distinct(order) && order != [] && forall a :: a in order ==> a in p.queue
    ensures Names(order) == {order[0]} + Names(order[1..]) && order[0] !in Names(order[1..])
    ensures Distinct(order[1..]) && order[0] in p.queue
    ensures forall a :: a in order[1..] ==> a in CapQueue(p, order[0], 0).queue
  {
    assert order == [order[0]] + order[1..];
    assert order[0] !in order[1..];
  }

  /** Exactly `drop` queued transactions go, or everything the named accounts have. */
  lemma {:induction false} DropQueueSize(p: Pool, order: seq<Address>, drop: nat)
    requires Distinct(order) && forall a :: a in order ==> a in p.queue
    ensures var q := DropQueue(p, order, drop);
      var rest := QueuedBeside(p, Names(order));
      && rest <= QueueSize(p)
      && QueueSize(q) == if drop <= QueueSize(p) - rest then QueueSize(p) - drop else rest
    decreases |order|
  {
    hide QueuedBeside, QueueSize, Names, CapQueue, DropQueue;
    DropQueueUnfolds(p, order, drop);
    if order == [] {
      NobodyNamed(p);
    } else {
      var a := order[0];
      NamesStep(p, order);
      BesideStep(p, a, Names(order[1..]));
      var n := |p.queue[a]|;
      if 0 < drop < n {
        CapQueueSize(p, a, n - drop);
      } else if drop > 0 {
        CapQueueSize(p, a, 0);
        DropQueueSize(CapQueue(p, a, 0), order[1..], drop - n);
      }
    }
  }

  lemma DropQueueUnfolds(p: Pool, order: seq<Address>, drop: nat)
    ensures order == [] || drop == 0 ==> DropQueue(p, order, drop) == p
    ensures order != [] && drop > 0 ==>
      var n := |At(p.queue, order[0])|;
      DropQueue(p, order, drop) ==
        if n <= drop then DropQueue(CapQueue(p, order[0], 0), order[1..], drop - n) else CapQueue(p, order[0], n - drop)
  {
  }

  lemma NobodyNamed(p: Pool)
    ensures QueuedBeside(p, Names([])) == QueueSize(p)
  {
    assert p.queue.Keys - Names([]) == p.queue.Keys;
  }

  /** Lists only lose their highest nonces, and an account is touched only after all before it are gone. */
  lemma {:induction false} DropQueueOrder(p: Pool, order: seq<Address>, drop: nat)
    requires Distinct(order) && forall a :: a in order ==> a in p.queue
    ensures var q := DropQueue(p, order, drop);
      && (forall a :: At(q.queue, a) <= At(p.queue, a))
      && (forall a :: a !in order ==> At(q.queue, a) == At(p.queue, a))
      && OldestFirst(p, q, order)
    decreases |order|
  {
    DropQueueUnfolds(p, order, drop);
    if order != [] && drop > 0 {
      var a := order[0];
      var n := |At(p.queue, a)|;
      NamesStep(p, order);
      CapQueueLists(p, a, if n <= drop then 0 else n - drop);
      hide CapQueue, Names, DropQueue, At;
      assert forall b :: b in order[1..] ==> b in order;
      if n <= drop {
        DropQueueOrder(CapQueue(p, a, 0), order[1..], drop - n);
        OrderStep(p, CapQueue(p, a, 0), DropQueue(p, order, drop), order);
      }
    }
  }

  lemma CapQueueLists(p: Pool, a: Address, k: nat)
    requires k <= |At(p.queue, a)|
    ensures At(CapQueue(p, a, k).queue, a) == At(p.queue, a)[..k]
    ensures forall b :: b != a ==> At(CapQueue(p, a, k).queue, b) == At(p.queue, b)
  {
  }

  /** An account has lost queued transactions only if the ones before it have none left. */
  ghost predicate OldestFirst(p: Pool, q: Pool, order: seq<Address>) {
    forall i, j ::
      0 <= i < j < |order| && At(q.queue, order[j]) != At(p.queue, order[j]) ==> At(q.queue, order[i]) == []
  }

  lemma OrderStep(p: Pool, m: Pool, q: Pool, order: seq<Address>)
    requires order != [] && At(m.queue, order[0]) == [] && At(q.queue, order[0]) == []
    requires forall b :: b in order[1..] ==> At(m.queue, b) == At(p.queue, b)
    requires OldestFirst(m, q, order[1..])
    ensures OldestFirst(p, q, order)
  {
    hide At;
    forall i, j | 0 <= i < j < |order| && At(q.queue, order[j]) != At(p.queue, order[j])
      ensures At(q.queue, order[i]) == []
    {
      assert order[j] == order[1..][j - 1];
      if i > 0 { assert order[i] == order[1..][i - 1]; }
    }
  }

  /**
   An over-full queue ends at the limit, or at what the local accounts have queued if that is more;
   pending lists and virtual nonces are untouched; an account loses transactions only if every
   remote account with an older heartbeat has lost all of its own.
   */
  lemma QueueLimit(p: Pool, order: seq<Address>)
    requires Inv(p) && ByAge(p, order) && QueueSize(p) > p.cfg.globalQueue
    ensures var q := TruncateQueue(p, order);
      && QueueSize(q) == (if LocalQueued(p) > p.cfg.globalQueue then LocalQueued(p) else p.cfg.globalQueue)
      && q.pending == p.pending && q.vnonces == p.vnonces
      && (forall a :: At(q.queue, a) <= At(p.queue, a))
      && (forall a :: a in p.accounts ==> At(q.queue, a) == At(p.queue, a))
      && (forall a, b :: a in p.queue && b in p.queue && b !in p.accounts && p.beats[b] < p.beats[a]
            && At(q.queue, a) != At(p.queue, a)
            ==> At(q.queue, b) == [])
  {
    var drop := QueueSize(p) - p.cfg.globalQueue;
    var q := TruncateQueue(p, order);
    hide DropQueue;
    DropQueueFrame(p, order, drop);
    DropQueueSize(p, order, drop);
    DropQueueOrder(p, order, drop);
    assert p.queue.Keys - Names(order) == p.queue.Keys * p.accounts;
    assert QueuedBeside(p, Names(order)) == LocalQueued(p);
    forall a, b | a in p.queue && b in p.queue && b !in p.accounts && p.beats[b] < p.beats[a]
      && At(q.queue, a) != At(p.queue, a)
      ensures At(q.queue, b) == []
    {
      assert a in order && b in order;
      var i :| 0 <= i < |order| && order[i] == b;
      var j :| 0 <= j < |order| && order[j] == a;
      assert i < j;
    }
  }

  lemma TruncateQueueKeepsInv(p: Pool, order: seq<Address>)
    requires Inv(p)
    ensures Inv(TruncateQueue(p, order))
  {
    hide DropQueue;
    if QueueSize(p) > p.cfg.globalQueue {
      DropQueueKeepsInv(p, order, QueueSize(p) - p.cfg.globalQueue);
    }
  }

  // ---------------------------------------------------------------- removing queued transactions one by one

  /** The queue of `a` without its `i` lowest nonces. */
  function DropFront(p: Pool, a: Address, i: nat): Pool
    requires i <= |At(p.queue, a)|
  {
    var l := At(p.queue, a);
    p.(queue := SetList(p.queue, a, l[i..]), known := p.known.Minus(Hashes(l[..i])),
       beats := if i == |l| then p.beats - {a} else p.beats)
  }

  lemma DropFrontKeepsInv(p: Pool, a: Address, i: nat)
    requires Inv(p) && a in p.queue && i <= |p.queue[a]|
    ensures Inv(DropFront(p, a, i))
  {
    var l := p.queue[a];
    var q := DropFront(p, a, i);
    AtFacts(p.queue, a);
    CutHalves(l, i);
    SetListIn(p.queue, a, l[i..]);
    assert forall t :: In(p.queue, t) <==> In(q.queue, t) || t in l[..i];
    Repartition(p, q, [], l[..i]);
  }

  lemma HashesSnoc(l: seq<Tx>, i: nat)
    requires i < |l|
    ensures Hashes(l[..i + 1]) == Hashes(l[..i]) + {l[i].hash}
    ensures Hashes(l[i..]) == Hashes(l[i + 1..]) + {l[i].hash}
  {
    assert l[..i + 1] == l[..i] + [l[i]];
    assert l[i..] == [l[i]] + l[i + 1..];
  }

  lemma WithoutFirst(l: seq<Tx>)
    requires Sorted(l) && l != []
    ensures HasNonce(l, l[0].nonce) && Without(l, l[0].nonce) == l[1..]
  {
  }

  lemma WithoutLast(l: seq<Tx>)
    requires Sorted(l) && l != []
    ensures HasNonce(l, l[|l| - 1].nonce) && Without(l, l[|l| - 1].nonce) == l[..|l| - 1]
  {
    var n := l[|l| - 1].nonce;
    assert Rank(l, n) == |l| - 1;
  }

  lemma RemoveFromQueue(p: Pool, a: Address, tx: Tx, now: Time)
    requires Inv(p) && a in p.queue && tx in p.queue[a]
    ensures var f := Without(p.queue[a], tx.nonce);
      RemoveTx(p, tx.hash, now) == Removed(
        p.(queue := SetList(p.queue, a, f), known := p.known.Minus({tx.hash}),
           beats := if f == [] then p.beats - {a} else p.beats), 0)
  {
    AtFacts(p.queue, a);
    assert In(p.queue, tx);
    hide RemoveTx;
    RemoveQueued(p, tx, now);
  }

  lemma SetListTwice(m: Lists, a: Address, l1: seq<Tx>, l2: seq<Tx>)
    ensures SetList(SetList(m, a, l1), a, l2) == SetList(m, a, l2)
  {
  }

  /** `removeTx` on the lowest remaining queued nonce. */
  lemma RemoveFront(p: Pool, a: Address, i: nat, now: Time)
    requires Inv(p) && a in p.queue && i < |p.queue[a]|
    ensures RemoveTx(DropFront(p, a, i), p.queue[a][i].hash, now) == Removed(DropFront(p, a, i + 1), 0)
  {
    var l := p.queue[a];
    hide RemoveTx, InvT, Hashes, Known.Minus, Without;
    var q := DropFront(p, a, i);
    var tx := l[i];
    DropFrontKeepsInv(p, a, i);
    AtFacts(p.queue, a);
    assert q.queue[a] == l[i..] && l[i..][0] == tx;
    RemoveFromQueue(q, a, tx, now) by { assert tx in l[i..]; }
    hide SetList;
    WithoutFirst(l[i..]);
    assert l[i..][1..] == l[i + 1..];
    HashesSnoc(l, i);
    MinusTwice(p.known, Hashes(l[..i]), {tx.hash});
    SetListTwice(p.queue, a, l[i..], l[i + 1..]);
  }

  lemma BackStep(l: seq<Tx>, k: nat)
    requires Sorted(l) && 0 < k <= |l|
    ensures l[k - 1] in l[..k] && l[..k] != []
    ensures Without(l[..k], l[k - 1].nonce) == l[..k - 1]
    ensures Hashes(l[k - 1..]) == Hashes(l[k..]) + {l[k - 1].hash}
    ensures l[..k - 1] == [] <==> k == 1
  {
    hide Without, Hashes, HasNonce, Rank;
    var m := l[..k];
    assert Sorted(m) && m[|m| - 1] == l[k - 1];
    WithoutLast(m);
    assert m[..|m| - 1] == l[..k - 1];
    HashesSnoc(l, k - 1);
  }

  /** `removeTx` on the highest remaining queued nonce. */
  lemma RemoveBack(p: Pool, a: Address, k: nat, now: Time)
    requires Inv(p) && a in p.queue && 0 < k <= |p.queue[a]|
    ensures RemoveTx(CapQueue(p, a, k), p.queue[a][k - 1].hash, now) == Removed(CapQueue(p, a, k - 1), 0)
  {
    hide RemoveTx, Hashes, Known.Minus, Without;
    var l := p.queue[a];
    var q := CapQueue(p, a, k);
    CapQueueKeepsInv(p, a, k);
    BackStep(l, k);
    hide InvT;
    RemoveFromQueue(q, a, l[k - 1], now);
    MinusTwice(p.known, Hashes(l[k..]), {l[k - 1].hash});
    SetListTwice(p.queue, a, l[..k], l[..k - 1]);
  }

  lemma FrontIsCap(p: Pool, a: Address)
    requires a in p.queue
    ensures DropFront(p, a, |p.queue[a]|) == CapQueue(p, a, 0)
    ensures p.queue[a] != [] ==> DropFront(p, a, 0) == p && CapQueue(p, a, |p.queue[a]|) == p
  {
    var l := p.queue[a];
    assert l[..|l|] == l && l[0..] == l && l[..0] == [] && l[|l|..] == [];
    assert Hashes([]) == {};
    assert p.known.Minus({}) == p.known;
    assert p.queue[a := l] == p.queue;
  }

  lemma {:induction false} RemoveAllQueuedFrom(p: Pool, a: Address, i: nat, now: Time)
    requires Inv(p) && a in p.queue && i <= |p.queue[a]|
    ensures RemoveAll(DropFront(p, a, i), p.queue[a][i..], now) == CapQueue(p, a, 0)
    decreases |p.queue[a]| - i
  {
    var l := p.queue[a];
    if i == |l| {
      FrontIsCap(p, a);
    } else {
      RemoveFront(p, a, i, now);
      assert l[i..][0] == l[i] && l[i..][1..] == l[i + 1..];
      hide DropFront, RemoveTx;
      RemoveAllQueuedFrom(p, a, i + 1, now);
    }
  }

  /** Removing every queued transaction of an account through `removeTx` empties just that queue. */
  lemma RemoveAllQueued(p: Pool, a: Address, now: Time)
    requires Inv(p) && a in p.queue
    ensures RemoveAll(p, p.queue[a], now) == CapQueue(p, a, 0)
  {
    FrontIsCap(p, a);
    assert p.queue[a][0..] == p.queue[a];
    RemoveAllQueuedFrom(p, a, 0, now);
  }
}
