/**
 When a transaction is admitted and what an admission does, said in terms of the transaction's fields, the
 transactions that are listed, and sums over them.
 */
module PoolAdmission {
  import opened Sums
  import opened Transactions
  import opened TxLists
  import opened PoolState
  import opened PoolInvariant
  import opened PoolPreservation
  import opened PoolContiguity

  ghost predicate OnList(p: Pool, t: Tx) { In(p.pending, t) || In(p.queue, t) }

  ghost predicate Held(p: Pool, h: Hash) { exists t :: OnList(p, t) && t.hash == h }

  /** A pending transaction of the same account and nonce. */
  ghost predicate Taken(m: Lists, tx: Tx) { exists t :: In(m, t) && SameSlot(t, tx) }

  predicate Trusted(p: Pool, tx: Tx, local: bool) { local || tx.sender in p.accounts }

  function CostOf(t: Tx): nat { t.cost }

  function SlotsOf(t: Tx): nat { (t.size + 32767) / 32768 }

  /** What the sender's other pending transactions may cost. */
  ghost function Committed(p: Pool, tx: Tx): nat {
    Sum((set t | t in At(p.pending, tx.sender) && t.nonce != tx.nonce), CostOf)
  }

  ghost function AllIn(m: Lists): set<Tx> { set a, t | a in m && t in m[a] :: t }

  /** The slots of everything that is listed, and of the transaction, are more than there are. */
  ghost predicate Crowded(p: Pool, tx: Tx) {
    Sum(AllIn(p.pending) + AllIn(p.queue), SlotsOf) + SlotsOf(tx) > p.cfg.globalSlots + p.cfg.globalQueue
  }

  /** Neither at this nonce nor right below it is anything pending; or nothing at all, and the nonce is not the next. */
  ghost predicate Future(p: Pool, tx: Tx) {
    if forall t :: In(p.pending, t) ==> t.sender != tx.sender then tx.nonce != p.Virtual(tx.sender)
    else !Taken(p.pending, tx) && !(tx.nonce > 0 && Taken(p.pending, tx.(nonce := tx.nonce - 1)))
  }

  ghost predicate Churns(p: Pool, drop: seq<Tx>) { exists t :: t in drop && Taken(p.pending, t) }

  /** Both caps are above the older ones, and by the percentage, rounded down. */
  predicate Beats(tx: Tx, older: Tx, bump: nat) {
    && tx.feeCap > older.feeCap && tx.tipCap > older.tipCap
    && 100 * (tx.feeCap + 1) > older.feeCap * (100 + bump)
    && 100 * (tx.tipCap + 1) > older.tipCap * (100 + bump)
  }

  ghost predicate BeatsAll(q: Pool, tx: Tx) {
    forall t :: OnList(q, t) && SameSlot(t, tx) ==> Beats(tx, t, q.cfg.priceBump)
  }

  /** The pool that the transaction is placed in: without the victims, if there was no room. */
  ghost function Base(p: Pool, tx: Tx, v: Victims, now: Time): Pool {
    if Crowded(p, tx) then DropAll(p, v.drop, now) else p
  }

  /** Why a transaction is refused, in the order of the checks, or that it is not. */
  ghost function Answer(p: Pool, tx: Tx, local: bool, v: Victims, now: Time): Verdict {
    var remote, q := !Trusted(p, tx, local), Base(p, tx, v, now);
    if Held(p, tx.hash) then Rejected(AlreadyKnown)
    else if !tx.wellFormed then Rejected(Malformed)
    else if tx.gas > p.chain.gasLimit then Rejected(GasLimit)
    else if remote && tx.tipCap < p.gasPrice then Rejected(Underpriced)
    else if tx.nonce < p.chain.Nonce(tx.sender) then Rejected(NonceTooLow)
    else if tx.cost > p.chain.Balance(tx.sender) then Rejected(InsufficientFunds)
    else if tx.cost + Committed(p, tx) > p.chain.Balance(tx.sender) then Rejected(Overdraft)
    else if tx.gas < 21000 + tx.extraGas then Rejected(IntrinsicGas)
    else if Crowded(p, tx) && remote && v.underpriced then Rejected(Underpriced)
    else if Crowded(p, tx) && 4 * p.changes > p.cfg.globalSlots then Rejected(PoolOverflow)
    else if Crowded(p, tx) && remote && !v.success then Rejected(PoolOverflow)
    else if Crowded(p, tx) && remote && Future(p, tx) && Churns(p, v.drop) then Rejected(FutureReplacePending)
    else if !BeatsAll(q, tx) then Rejected(ReplaceUnderpriced)
    else Added(Taken(q.pending, tx) || Taken(q.queue, tx))
  }

  // ---------------------------------------------------------------- what the parts mean

  lemma TakenIs(m: Lists, tx: Tx)
    requires ListsOk(m)
    ensures Taken(m, tx) <==> HasNonce(At(m, tx.sender), tx.nonce)
    ensures HasNonce(At(m, tx.sender), tx.nonce) ==>
      forall t :: In(m, t) && SameSlot(t, tx) <==> t == AtNonce(At(m, tx.sender), tx.nonce)
  {
    var l := At(m, tx.sender);
    AtFacts(m, tx.sender);
    HasNonceIff(l, tx.nonce);
    if HasNonce(l, tx.nonce) {
      var u := AtNonce(l, tx.nonce);
      assert In(m, u);
      forall t | In(m, t) && SameSlot(t, tx) ensures t == u { OnlyOne(l, t, u); }
    }
  }

  lemma OnlyOne(l: seq<Tx>, t: Tx, u: Tx)
    requires Sorted(l) && t in l && u in l && t.nonce == u.nonce
    ensures t == u
  {
    var i: nat :| i < |l| && l[i] == t;
    var j: nat :| j < |l| && l[j] == u;
  }

  lemma {:induction false} TotalIsSum(l: seq<Tx>)
    requires Distinct(l)
    ensures TotalCost(l) == Sum((set t | t in l), CostOf)
    decreases |l|
  {
    var s := set t | t in l;
    if l != [] {
      assert l == [l[0]] + l[1..] && l[0] !in l[1..];
      assert s - {l[0]} == set t | t in l[1..];
      TotalIsSum(l[1..]);
      SumRemove(s, CostOf, l[0]);
    }
  }

  lemma CommittedIs(p: Pool, tx: Tx)
    requires ListsOk(p.pending)
    ensures var l := At(p.pending, tx.sender);
      Committed(p, tx) == TotalCost(l) - if HasNonce(l, tx.nonce) then AtNonce(l, tx.nonce).cost else 0
  {
    var l := At(p.pending, tx.sender);
    AtFacts(p.pending, tx.sender);
    TakenIs(p.pending, tx);
    SortedDistinct(l);
    TotalIsSum(l);
    var s, others := (set t | t in l), (set t | t in l && t.nonce != tx.nonce);
    if HasNonce(l, tx.nonce) {
      var u := AtNonce(l, tx.nonce);
      assert others == s - {u};
      SumRemove(s, CostOf, u);
    } else {
      HasNonceIff(l, tx.nonce);
      assert others == s;
    }
  }

  lemma HeldIs(p: Pool, h: Hash)
    requires Inv(p)
    ensures Held(p, h) <==> p.known.Has(h)
  {
    if p.known.Has(h) { assert Listed(p, [], p.known.Get(h)) && p.known.Get(h).hash == h; }
    if t :| OnList(p, t) && t.hash == h { assert Listed(p, [], t); }
  }

  lemma {:induction false} SumByHash(s: set<Tx>, hs: set<Hash>, f: Hash -> nat)
    requires forall t, u :: t in s && u in s && t.hash == u.hash ==> t == u
    requires forall h :: h in hs <==> exists t :: t in s && t.hash == h
    requires forall t :: t in s ==> f(t.hash) == SlotsOf(t)
    ensures Sum(s, SlotsOf) == Sum(hs, f)
    decreases |s|
  {
    if s == {} {
      assert hs == {};
    } else {
      var t :| t in s;
      assert t.hash in hs;
      SumRemove(s, SlotsOf, t);
      SumRemove(hs, f, t.hash);
      forall h | h in hs - {t.hash} ensures exists u :: u in s - {t} && u.hash == h { var u :| u in s && u.hash == h; }
      SumByHash(s - {t}, hs - {t.hash}, f);
    }
  }

  lemma SlotsAre(p: Pool)
    requires Inv(p)
    ensures p.known.Slots() == Sum(AllIn(p.pending) + AllIn(p.queue), SlotsOf)
  {
    var k, s := p.known, AllIn(p.pending) + AllIn(p.queue);
    var f := h => if k.Has(h) then k.Get(h).Slots() else 0;
    assert k.Slots() == Sum(k.locals.Keys + k.remotes.Keys, f);
    forall t ensures t in s <==> Listed(p, [], t) { AllInIs(p, t); }
    hide AllIn, In, OneEach, Apart, ListsOk;
    forall t | t in s ensures f(t.hash) == SlotsOf(t) { assert Listed(p, [], t); }
    forall h | h in k.locals.Keys + k.remotes.Keys ensures exists t :: t in s && t.hash == h {
      assert Listed(p, [], k.Get(h));
    }
    SumByHash(s, k.locals.Keys + k.remotes.Keys, f);
  }

  lemma AllInIs(p: Pool, t: Tx)
    requires Inv(p)
    ensures t in AllIn(p.pending) + AllIn(p.queue) <==> Listed(p, [], t)
  {
  }

  lemma FutureIs(p: Pool, tx: Tx)
    requires Inv(p)
    ensures Future(p, tx) <==> IsFuture(p, tx)
  {
    TakenIs(p.pending, tx);
    if tx.nonce > 0 { TakenIs(p.pending, tx.(nonce := tx.nonce - 1)); }
    NobodyIs(p.pending, tx.sender);
    hide InvT, Taken, HasNonce, AtNonce, Pool.Virtual, In;
  }

  lemma NobodyIs(m: Lists, a: Address)
    requires ListsOk(m)
    ensures (forall t :: In(m, t) ==> t.sender != a) <==> a !in m
  {
    if a in m { assert m[a][0] in m[a] && In(m, m[a][0]); }
  }

  lemma ChurnsIs(p: Pool, drop: seq<Tx>)
    requires Inv(p)
    ensures Churns(p, drop) <==> ChurnsPending(p, drop)
  {
    forall t ensures Taken(p.pending, t) <==> HasNonce(At(p.pending, t.sender), t.nonce) { TakenIs(p.pending, t); }
    hide Taken, HasNonce, At;
  }

  lemma BeatsIs(tx: Tx, older: Tx, bump: nat)
    ensures Beats(tx, older, bump) <==> Outbids(tx, older, bump)
  {
    AtLeastRounded(tx.feeCap, older.feeCap * (100 + bump));
    AtLeastRounded(tx.tipCap, older.tipCap * (100 + bump));
  }

  lemma AtLeastRounded(x: nat, y: nat)
    ensures x >= y / 100 <==> 100 * (x + 1) > y
  {
  }

  lemma BeatsAllIs(q: Pool, tx: Tx)
    requires Inv(q)
    ensures BeatsAll(q, tx) <==>
      (if Taken(q.pending, tx) then Accepts(At(q.pending, tx.sender), tx, q.cfg.priceBump)
       else Accepts(At(q.queue, tx.sender), tx, q.cfg.priceBump))
  {
    var l, m := At(q.pending, tx.sender), At(q.queue, tx.sender);
    TakenIs(q.pending, tx);
    TakenIs(q.queue, tx);
    NoSharedNonce(q, tx.sender, tx.nonce);
    if HasNonce(l, tx.nonce) { BeatsIs(tx, AtNonce(l, tx.nonce), q.cfg.priceBump); }
    if HasNonce(m, tx.nonce) { BeatsIs(tx, AtNonce(m, tx.nonce), q.cfg.priceBump); }
    hide InvT, In, HasNonce, AtNonce, Beats, Outbids, SameSlot, At;
    if Taken(q.pending, tx) { OnlyIn(q.pending, q.queue, tx); } else { OnlyIn(q.queue, q.pending, tx); }
  }

  lemma OnlyIn(m: Lists, n: Lists, tx: Tx)
    requires !Taken(n, tx)
    ensures forall t :: (In(m, t) || In(n, t)) && SameSlot(t, tx) <==> In(m, t) && SameSlot(t, tx)
  {
  }

  // ---------------------------------------------------------------- the answer

  lemma ValidIs(p: Pool, tx: Tx, local: bool)
    requires Inv(p)
    ensures var remote := !Trusted(p, tx, local);
      Validate(p, tx, !remote) ==
        if !tx.wellFormed then Invalid(Malformed)
        else if tx.gas > p.chain.gasLimit then Invalid(GasLimit)
        else if remote && tx.tipCap < p.gasPrice then Invalid(Underpriced)
        else if tx.nonce < p.chain.Nonce(tx.sender) then Invalid(NonceTooLow)
        else if tx.cost > p.chain.Balance(tx.sender) then Invalid(InsufficientFunds)
        else if tx.cost + Committed(p, tx) > p.chain.Balance(tx.sender) then Invalid(Overdraft)
        else if tx.gas < 21000 + tx.extraGas then Invalid(IntrinsicGas)
        else Valid
  {
    CommittedIs(p, tx);
    hide Committed, InvT, HasNonce, AtNonce, Chain.Nonce, Chain.Balance;
  }

  lemma FullIs(p: Pool, tx: Tx)
    requires Inv(p)
    ensures Crowded(p, tx) <==> Full(p, tx)
  {
    SlotsAre(p);
    hide InvT, AllIn, Known.Slots;
  }

  lemma BaseInv(p: Pool, tx: Tx, v: Victims, now: Time)
    requires Inv(p)
    ensures Inv(Base(p, tx, v, now))
    ensures Held(Base(p, tx, v, now), tx.hash) ==> Held(p, tx.hash)
  {
    DropAllKeepsInv(p, v.drop, now);
    HeldIs(p, tx.hash);
    HeldIs(Base(p, tx, v, now), tx.hash);
    hide InvT, Held, DropAll, Crowded;
  }

  lemma PlacedAnswer(q: Pool, tx: Tx, local: bool, isLocal: bool, now: Time)
    requires Inv(q)
    ensures Place(q, tx, local, isLocal, now).verdict ==
      if !BeatsAll(q, tx) then Rejected(ReplaceUnderpriced) else Added(Taken(q.pending, tx) || Taken(q.queue, tx))
  {
    BeatsAllIs(q, tx);
    TakenIs(q.pending, tx);
    TakenIs(q.queue, tx);
    hide InvT, BeatsAll, Taken, Accepts, HasNonce, AtNonce, Overwrite, MarkLocal, At;
  }

  lemma ScreenIs(p: Pool, tx: Tx, local: bool, v: Victims, now: Time)
    requires Inv(p)
    ensures var a := Answer(p, tx, local, v, now);
      var s := Screen(p, tx, local, v);
      if s.Refuse? then a == Rejected(s.why)
      else
        && (s.MakeRoom? <==> Crowded(p, tx))
        && a == (if !BeatsAll(Base(p, tx, v, now), tx) then Rejected(ReplaceUnderpriced)
                 else Added(Taken(Base(p, tx, v, now).pending, tx) || Taken(Base(p, tx, v, now).queue, tx)))
  {
    HeldIs(p, tx.hash);
    ValidIs(p, tx, local);
    FullIs(p, tx);
    FutureIs(p, tx);
    ChurnsIs(p, v.drop);
    hide InvT, Held, Validate, Committed, Full, Crowded, Future, Churns, IsFuture, ChurnsPending, BeatsAll, Base;
    hide Taken, Chain.Nonce, Chain.Balance, Known.Has;
  }

  /** The verdict on every transaction, whatever the price heaps say. */
  lemma AnswersExactly(p: Pool, tx: Tx, local: bool, v: Victims, now: Time)
    requires Inv(p)
    ensures Add(p, tx, local, v, now).verdict == Answer(p, tx, local, v, now)
  {
    var isLocal := Trusted(p, tx, local);
    var q := Base(p, tx, v, now);
    ScreenIs(p, tx, local, v, now);
    BaseInv(p, tx, v, now);
    PlacedAnswer(q, tx, local, isLocal, now);
    hide InvT, Screen, Answer, Place, DropAll, BeatsAll, Taken, Crowded;
  }

  /** In a batch each transaction is answered from the pool that those before it have left. */
  lemma {:induction false} BatchExactly(p: Pool, txs: seq<Tx>, local: bool, vs: seq<Victims>, now: Time, i: nat)
    requires Inv(p) && |vs| == |txs| && i < |txs|
    ensures |AddVerdicts(p, txs, local, vs, now)| == |txs|
    ensures AddVerdicts(p, txs, local, vs, now)[i]
      == Answer(AddAll(p, txs[..i], local, vs[..i], now), txs[i], local, vs[i], now)
    decreases |txs|
  {
    hide InvT, Add, Answer;
    AnswersExactly(p, txs[0], local, vs[0], now);
    var q := Add(p, txs[0], local, vs[0], now).pool;
    AddKeepsInv(p, txs[0], local, vs[0], now);
    VerdictCount(q, txs[1..], local, vs[1..], now);
    if i > 0 {
      BatchExactly(q, txs[1..], local, vs[1..], now, i - 1);
      assert txs[..i][0] == txs[0] && vs[..i][0] == vs[0];
      assert txs[..i][1..] == txs[1..][..i - 1] && vs[..i][1..] == vs[1..][..i - 1];
    }
  }

  lemma {:induction false} VerdictCount(p: Pool, txs: seq<Tx>, local: bool, vs: seq<Victims>, now: Time)
    requires |vs| == |txs|
    ensures |AddVerdicts(p, txs, local, vs, now)| == |txs|
    decreases |txs|
  {
    hide Add;
    if txs != [] { VerdictCount(Add(p, txs[0], local, vs[0], now).pool, txs[1..], local, vs[1..], now); }
  }

  /** The admission, as one condition. */
  lemma AdmittedExactly(p: Pool, tx: Tx, local: bool, v: Victims, now: Time)
    requires Inv(p)
    ensures Add(p, tx, local, v, now).verdict.Added? <==>
      && !Held(p, tx.hash) && tx.wellFormed
      && 21000 + tx.extraGas <= tx.gas <= p.chain.gasLimit
      && (Trusted(p, tx, local) || tx.tipCap >= p.gasPrice)
      && tx.nonce >= p.chain.Nonce(tx.sender)
      && tx.cost + Committed(p, tx) <= p.chain.Balance(tx.sender)
      && (Crowded(p, tx) ==>
            && 4 * p.changes <= p.cfg.globalSlots
            && (Trusted(p, tx, local) || (!v.underpriced && v.success && !(Future(p, tx) && Churns(p, v.drop)))))
      && (forall t :: OnList(Base(p, tx, v, now), t) && SameSlot(t, tx) ==> Beats(tx, t, p.cfg.priceBump))
  {
    AnswersExactly(p, tx, local, v, now);
    BaseConfig(p, tx, v, now);
    hide Add, InvT, Held, Committed, Crowded, Future, Churns, Base, Taken, Chain.Nonce, Chain.Balance, OnList, Beats;
  }

  lemma BaseConfig(p: Pool, tx: Tx, v: Victims, now: Time)
    requires Inv(p)
    ensures Base(p, tx, v, now).cfg == p.cfg
  {
    DropAllFrame(p, v.drop, now);
    hide InvT, DropAll, Crowded;
  }

  lemma {:induction false} DropAllFrame(p: Pool, txs: seq<Tx>, now: Time)
    requires Inv(p)
    ensures var q := DropAll(p, txs, now);
      && q.cfg == p.cfg && q.chain == p.chain && q.accounts == p.accounts && q.gasPrice == p.gasPrice
    decreases |txs|
  {
    hide InvT, RemoveTx;
    if txs != [] {
      RemoveTxKeepsInv(p, txs[0].hash, now);
      DropKeepsInv(p, txs[0].hash, now);
      DropAllFrame(DropOne(p, txs[0].hash, now), txs[1..], now);
    }
  }

  // ---------------------------------------------------------------- what an admission does

  /** The lists: the transaction takes its place in the pending list if that is taken, and is queued otherwise. */
  ghost predicate ListedAs(q: Pool, r: Pool, tx: Tx) {
    && (forall t :: In(r.pending, t) <==> if SameSlot(t, tx) then t == tx && Taken(q.pending, tx) else In(q.pending, t))
    && (forall t :: In(r.queue, t) <==> if SameSlot(t, tx) then t == tx && !Taken(q.pending, tx) else In(q.queue, t))
  }

  /** The rest of the pool: the local accounts, the heartbeats, and everything that stays. */
  ghost predicate TouchesOnly(q: Pool, r: Pool, tx: Tx, local: bool, now: Time) {
    var a := tx.sender;
    && r.cfg == q.cfg && r.chain == q.chain && r.gasPrice == q.gasPrice
    && r.vnonces == q.vnonces && r.changes == q.changes
    && r.accounts == (if local && !Taken(q.pending, tx) then q.accounts + {a} else q.accounts)
    && r.beats == if Taken(q.pending, tx) || a !in q.beats then q.beats[a := now] else q.beats
  }

  ghost predicate LocalTx(p: Pool, t: Tx) { t.hash in p.known.locals && p.known.locals[t.hash] == t }

  ghost predicate RemoteTx(p: Pool, t: Tx) { t.hash in p.known.remotes && p.known.remotes[t.hash] == t }

  /** The side of the table: local for what was, for the trusted, and for an account that has just become local. */
  ghost predicate SidedAs(q: Pool, r: Pool, tx: Tx, trusted: bool) {
    forall t :: LocalTx(r, t) <==>
      && OnList(r, t)
      && (LocalTx(q, t) || (t == tx && trusted) || (r.accounts != q.accounts && t.sender in r.accounts))
  }

  /** Everything listed is on one side of the table, and nothing else is. */
  lemma OneSide(p: Pool, t: Tx)
    requires Inv(p)
    ensures OnList(p, t) <==> LocalTx(p, t) || RemoteTx(p, t)
    ensures !(LocalTx(p, t) && RemoteTx(p, t))
  {
    assert Listed(p, [], t) <==> OnList(p, t);
    hide OneEach, Apart, ListsOk, In, Listed, OnList;
    if LocalTx(p, t) || RemoteTx(p, t) { assert p.known.Has(t.hash) && p.known.Get(t.hash) == t; }
  }

  lemma OverwrittenIs(q: Pool, tx: Tx, isLocal: bool, now: Time)
    requires Inv(q) && Taken(q.pending, tx) && HasNonce(At(q.pending, tx.sender), tx.nonce)
    ensures var r := Overwrite(q, tx, isLocal, now);
      ListedAs(q, r, tx) && TouchesOnly(q, r, tx, false, now) && r.queue == q.queue
  {
    TakenIs(q.queue, tx);
    NoSharedNonce(q, tx.sender, tx.nonce);
    PutMembers(q.pending, tx);
    OverwriteIs(q, tx, isLocal, now);
    hide InvT, HasNonce, AtNonce, Put, At, Taken, Overwrite, TouchesOnly, In;
    assert !Taken(q.queue, tx);
    NotTaken(q.queue, tx);
    hide SameSlot, ListsOk;
  }

  lemma OverwriteIs(q: Pool, tx: Tx, isLocal: bool, now: Time)
    requires Taken(q.pending, tx) && HasNonce(At(q.pending, tx.sender), tx.nonce)
    ensures var r := Overwrite(q, tx, isLocal, now);
      && TouchesOnly(q, r, tx, false, now) && r.queue == q.queue
      && r.pending == q.pending[tx.sender := Put(At(q.pending, tx.sender), tx)]
  {
    hide HasNonce, AtNonce, Put, At, Taken, Known.Minus, Known.Add;
  }

  lemma NotTaken(m: Lists, tx: Tx)
    requires !Taken(m, tx)
    ensures forall t :: In(m, t) ==> !SameSlot(t, tx)
  {
  }

  lemma EnqueuedIs(q: Pool, tx: Tx, isLocal: bool, now: Time)
    requires Inv(q) && !Taken(q.pending, tx) && Enqueue(q, tx, isLocal, true, now).inserted
    ensures var r := Enqueue(q, tx, isLocal, true, now).pool;
      ListedAs(q, r, tx) && TouchesOnly(q, r, tx, false, now)
  {
    PutMembers(q.queue, tx);
    NotTaken(q.pending, tx);
    EnqueueIs(q, tx, isLocal, now);
    hide InvT, Put, Taken, Enqueue, TouchesOnly, In;
  }

  lemma EnqueueIs(q: Pool, tx: Tx, isLocal: bool, now: Time)
    requires !Taken(q.pending, tx) && Enqueue(q, tx, isLocal, true, now).inserted
    ensures var r := Enqueue(q, tx, isLocal, true, now).pool;
      && TouchesOnly(q, r, tx, false, now) && r.pending == q.pending
      && r.queue == q.queue[tx.sender := Put(At(q.queue, tx.sender), tx)]
  {
    hide HasNonce, AtNonce, Accepts, Put, Taken, At, Known.Minus, Known.Add;
  }

  lemma MarkedIs(q: Pool, e: Pool, tx: Tx, now: Time)
    requires ListedAs(q, e, tx) && TouchesOnly(q, e, tx, false, now) && !Taken(q.pending, tx)
    ensures var r := MarkLocal(e, tx.sender); ListedAs(q, r, tx) && TouchesOnly(q, r, tx, true, now)
  {
    hide Taken, SameSlot, In, Known.Localise;
  }

  lemma UnmarkedIs(q: Pool, e: Pool, tx: Tx, now: Time)
    requires TouchesOnly(q, e, tx, false, now) && tx.sender in q.accounts
    ensures TouchesOnly(q, e, tx, true, now)
  {
    hide Taken;
    assert q.accounts + {tx.sender} == q.accounts;
  }

  lemma PlacedIs(q: Pool, tx: Tx, local: bool, isLocal: bool, now: Time)
    requires Inv(q) && Place(q, tx, local, isLocal, now).verdict.Added?
    ensures var r := Place(q, tx, local, isLocal, now).pool;
      ListedAs(q, r, tx) && TouchesOnly(q, r, tx, local, now)
  {
    TakenIs(q.pending, tx);
    hide InvT, HasNonce, AtNonce, Accepts, Taken, ListedAs, TouchesOnly, Overwrite, Enqueue, MarkLocal;
    if Taken(q.pending, tx) {
      OverwrittenIs(q, tx, isLocal, now);
      var r := Overwrite(q, tx, isLocal, now);
      AsIfLocal(q, r, tx, local, now);
    } else {
      var e := Enqueue(q, tx, isLocal, true, now);
      EnqueuedIs(q, tx, isLocal, now);
      EnqueueEffect(q, tx, isLocal, now);
      if local && tx.sender !in q.accounts {
        MarkedIs(q, e.pool, tx, now);
      } else if local {
        UnmarkedIs(q, e.pool, tx, now);
      }
    }
  }

  lemma AsIfLocal(q: Pool, r: Pool, tx: Tx, local: bool, now: Time)
    requires TouchesOnly(q, r, tx, false, now) && Taken(q.pending, tx)
    ensures TouchesOnly(q, r, tx, local, now)
  {
    hide Taken;
  }

  // ---------------------------------------------------------------- the sides of the table

  /** The table is what it was, less some hashes, with the transaction on the side where it belongs. */
  lemma AddedSides(q: Pool, r: Pool, tx: Tx, isLocal: bool, hs: set<Hash>)
    requires Inv(q) && Inv(r) && !q.known.Has(tx.hash) && r.accounts == q.accounts
    requires r.known == q.known.Minus(hs).Add(tx, isLocal)
    ensures SidedAs(q, r, tx, isLocal)
  {
    assert KnownOk(q.known) && KnownOk(r.known);
    forall t ensures (OnList(r, t) <==> LocalTx(r, t) || RemoteTx(r, t)) && !(LocalTx(r, t) && RemoteTx(r, t)) {
      OneSide(r, t);
    }
    hide InvT, OnList;
    forall t ensures LocalTx(r, t) <==> OnList(r, t) && (LocalTx(q, t) || (t == tx && isLocal)) {
      SideOf(q, r, tx, isLocal, hs, t);
    }
  }

  lemma SideOf(q: Pool, r: Pool, tx: Tx, isLocal: bool, hs: set<Hash>, t: Tx)
    requires KnownOk(q.known) && KnownOk(r.known) && !q.known.Has(tx.hash)
    requires r.known == q.known.Minus(hs).Add(tx, isLocal)
    ensures LocalTx(r, t) ==> LocalTx(q, t) || (t == tx && isLocal)
    ensures RemoteTx(r, t) ==> !LocalTx(q, t) && !(t == tx && isLocal)
  {
  }

  lemma OverwrittenSides(q: Pool, tx: Tx, isLocal: bool, now: Time)
    requires Inv(q) && !q.known.Has(tx.hash) && HasNonce(At(q.pending, tx.sender), tx.nonce)
    ensures SidedAs(q, Overwrite(q, tx, isLocal, now), tx, isLocal)
  {
    ReplacePendingKeepsInv(q, tx, isLocal, now);
    hide InvT, HasNonce, AtNonce, Put, At, SidedAs;
    AddedSides(q, Overwrite(q, tx, isLocal, now), tx, isLocal, {AtNonce(At(q.pending, tx.sender), tx.nonce).hash});
  }

  lemma EnqueuedSides(q: Pool, tx: Tx, isLocal: bool, now: Time)
    requires Inv(q) && !q.known.Has(tx.hash) && !HasNonce(At(q.pending, tx.sender), tx.nonce)
    requires Enqueue(q, tx, isLocal, true, now).inserted
    ensures SidedAs(q, Enqueue(q, tx, isLocal, true, now).pool, tx, isLocal)
    ensures Inv(Enqueue(q, tx, isLocal, true, now).pool)
  {
    EnqueueNewKeepsInv(q, tx, isLocal, now);
    var l := At(q.queue, tx.sender);
    var hs := if HasNonce(l, tx.nonce) then {AtNonce(l, tx.nonce).hash} else {};
    EnqueuedKnown(q, tx, isLocal, now, hs);
    hide InvT, HasNonce, AtNonce, SidedAs, Enqueue, Known.Minus, Known.Add, Known.Has, At;
    AddedSides(q, Enqueue(q, tx, isLocal, true, now).pool, tx, isLocal, hs);
  }

  lemma EnqueuedKnown(q: Pool, tx: Tx, isLocal: bool, now: Time, hs: set<Hash>)
    requires Enqueue(q, tx, isLocal, true, now).inserted
    requires var l := At(q.queue, tx.sender);
      hs == if HasNonce(l, tx.nonce) then {AtNonce(l, tx.nonce).hash} else {}
    ensures var r := Enqueue(q, tx, isLocal, true, now).pool;
      r.known == q.known.Minus(hs).Add(tx, isLocal) && r.accounts == q.accounts
  {
    assert q.known.Minus({}) == q.known;
    hide HasNonce, AtNonce, Put, At, Accepts, Known.Minus, Known.Add;
  }

  lemma MarkedSides(e: Pool, a: Address)
    requires Inv(e)
    ensures var r := MarkLocal(e, a);
      forall t :: LocalTx(r, t) <==> OnList(r, t) && (LocalTx(e, t) || t.sender in r.accounts)
  {
    var r := MarkLocal(e, a);
    assert KnownOk(e.known);
    forall t ensures (OnList(e, t) <==> LocalTx(e, t) || RemoteTx(e, t)) && (OnList(r, t) <==> OnList(e, t)) {
      OneSide(e, t);
    }
    hide InvT, OnList;
  }

  lemma MarkedOn(q: Pool, e: Pool, tx: Tx, isLocal: bool)
    requires Inv(e) && SidedAs(q, e, tx, isLocal) && e.accounts == q.accounts && tx.sender !in q.accounts
    ensures SidedAs(q, MarkLocal(e, tx.sender), tx, isLocal)
  {
    var r := MarkLocal(e, tx.sender);
    MarkedSides(e, tx.sender);
    forall t ensures OnList(r, t) <==> OnList(e, t) { }
    assert tx.sender in r.accounts;
    hide InvT, OnList, LocalTx, Known.Localise;
  }

  lemma PlacedSides(q: Pool, tx: Tx, local: bool, isLocal: bool, now: Time)
    requires Inv(q) && !q.known.Has(tx.hash) && Place(q, tx, local, isLocal, now).verdict.Added?
    ensures SidedAs(q, Place(q, tx, local, isLocal, now).pool, tx, isLocal)
  {
    hide InvT, HasNonce, AtNonce, Accepts, SidedAs, Overwrite, Enqueue, MarkLocal;
    if HasNonce(At(q.pending, tx.sender), tx.nonce) {
      OverwrittenSides(q, tx, isLocal, now);
    } else {
      var e := Enqueue(q, tx, isLocal, true, now);
      EnqueuedSides(q, tx, isLocal, now);
      EnqueueEffect(q, tx, isLocal, now);
      if local && tx.sender !in q.accounts { MarkedOn(q, e.pool, tx, isLocal); }
    }
  }

  // ---------------------------------------------------------------- the whole addition

  lemma ScreenReasons(p: Pool, tx: Tx, local: bool, v: Victims)
    ensures Screen(p, tx, local, v) != Refuse(ReplaceUnderpriced)
  {
    hide Full, TotalCost, HasNonce, AtNonce, IsFuture, ChurnsPending, Known.Has;
  }

  lemma PlaceRejects(q: Pool, tx: Tx, local: bool, isLocal: bool, now: Time)
    ensures Place(q, tx, local, isLocal, now).verdict.Rejected? ==>
      Place(q, tx, local, isLocal, now) == AddOutcome(q, Rejected(ReplaceUnderpriced))
  {
    hide HasNonce, AtNonce, Overwrite, MarkLocal, Put, Accepts;
  }

  lemma AddIs(p: Pool, tx: Tx, local: bool, v: Victims, now: Time)
    requires Inv(p)
    ensures var o, q := Add(p, tx, local, v, now), Base(p, tx, v, now);
      if o.verdict.Added? then o == Place(q, tx, local, Trusted(p, tx, local), now) && !q.known.Has(tx.hash)
      else o.pool == if o.verdict == Rejected(ReplaceUnderpriced) then q else p
  {
    var q := Base(p, tx, v, now);
    ScreenIs(p, tx, local, v, now);
    ScreenReasons(p, tx, local, v);
    PlaceRejects(q, tx, local, Trusted(p, tx, local), now);
    BaseInv(p, tx, v, now);
    HeldIs(q, tx.hash);
    AnswersExactly(p, tx, local, v, now);
    hide InvT, Screen, Place, DropAll, BeatsAll, Taken, Crowded, Held, Known.Has, Future, Churns, Committed;
  }

  /**
   What an addition leaves: the pool as it was when refused, or less the victims when it is refused at the
   last check; and when admitted, the transaction in its place, on its side of the table, and nothing else.
   */
  lemma AddedExactly(p: Pool, tx: Tx, local: bool, v: Victims, now: Time)
    requires Inv(p)
    ensures var o, q := Add(p, tx, local, v, now), Base(p, tx, v, now);
      if o.verdict.Added?
      then ListedAs(q, o.pool, tx) && TouchesOnly(q, o.pool, tx, local, now)
        && SidedAs(q, o.pool, tx, Trusted(p, tx, local))
      else o.pool == if o.verdict == Rejected(ReplaceUnderpriced) then q else p
  {
    hide *;
    var q := Base(p, tx, v, now);
    AddIs(p, tx, local, v, now);
    BaseInv(p, tx, v, now);
    if Add(p, tx, local, v, now).verdict.Added? {
      PlacedIs(q, tx, local, Trusted(p, tx, local), now);
      PlacedSides(q, tx, local, Trusted(p, tx, local), now);
    }
  }
}
