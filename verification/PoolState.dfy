/**
 The transaction pool as a value: what each pool operation does to the two lists of every
 account, the lookup table, the virtual nonces and the heartbeats.
 */
module PoolState {
  import opened Sums
  import opened Transactions
  import opened TxLists

  type Lists = map<Address, seq<Tx>>

  function At(m: Lists, a: Address): seq<Tx> { if a in m then m[a] else [] }

  /** Store a list, dropping the account when the list is empty. */
  function SetList(m: Lists, a: Address, l: seq<Tx>): Lists {
    if l == [] then m - {a} else m[a := l]
  }

  /** The lookup table: every pooled transaction by hash, local and remote ones apart. */
  datatype Known = Known(locals: map<Hash, Tx>, remotes: map<Hash, Tx>) {
    predicate Has(h: Hash) { h in locals || h in remotes }

    function Get(h: Hash): Tx
      requires Has(h)
    {
      if h in locals then locals[h] else remotes[h]
    }

    function Add(tx: Tx, local: bool): Known {
      if local then Known(locals[tx.hash := tx], remotes) else Known(locals, remotes[tx.hash := tx])
    }

    function Minus(hs: set<Hash>): Known { Known(locals - hs, remotes - hs) }

    /** Migrate the transactions of local accounts to the local side. */
    function Localise(accounts: set<Address>): Known {
      var moved := map h | h in remotes && remotes[h].sender in accounts :: remotes[h];
      Known(locals + moved, remotes - moved.Keys)
    }

    ghost function Slots(): nat {
      Sum(locals.Keys + remotes.Keys, h => if Has(h) then Get(h).Slots() else 0)
    }
  }

  datatype Pool = Pool(
    cfg: Config, chain: Chain, gasPrice: nat, accounts: set<Address>,
    pending: Lists, queue: Lists, beats: map<Address, Time>, vnonces: map<Address, nat>,
    known: Known, changes: nat)
  {
    /** The virtual nonce: the stored one, or the chain's. */
    function Virtual(a: Address): nat {
      if a in vnonces then vnonces[a] else chain.Nonce(a)
    }

    function Lower(a: Address, n: nat): Pool {
      if Virtual(a) <= n then this else this.(vnonces := vnonces[a := n])
    }
  }

  function InitialPool(cfg: Config, chain: Chain, accounts: set<Address>): Pool {
    var c := cfg.Sanitize();
    Pool(c, chain, c.priceLimit, accounts, map[], map[], map[], map[], Known(map[], map[]), 0)
  }

  // ---------------------------------------------------------------- enqueueTx, promoteTx

  datatype Enqueued = Enqueued(pool: Pool, inserted: bool, replaced: bool)

  function Enqueue(p: Pool, tx: Tx, local: bool, addAll: bool, now: Time): Enqueued {
    var a := tx.sender;
    var l := At(p.queue, a);
    if !Accepts(l, tx, p.cfg.priceBump) then Enqueued(p, false, false)
    else
      var replaced := HasNonce(l, tx.nonce);
      var k := if replaced then p.known.Minus({AtNonce(l, tx.nonce).hash}) else p.known;
      Enqueued(
        p.(queue := p.queue[a := Put(l, tx)],
           known := if addAll then k.Add(tx, local) else k,
           beats := if a in p.beats then p.beats else p.beats[a := now]),
        true, replaced)
  }

  /** Postpone transactions that are already in the lookup table. */
  function EnqueueAll(p: Pool, txs: seq<Tx>, now: Time): Pool
    decreases |txs|
  {
    if txs == [] then p
    else EnqueueAll(Enqueue(p, txs[0], false, false, now).pool, txs[1..], now)
  }

  function Promote(p: Pool, a: Address, tx: Tx, now: Time): Pool {
    var l := At(p.pending, a);
    if !Accepts(l, tx, p.cfg.priceBump) then p.(known := p.known.Minus({tx.hash}))
    else
      p.(pending := p.pending[a := Put(l, tx)],
         known := if HasNonce(l, tx.nonce) then p.known.Minus({AtNonce(l, tx.nonce).hash}) else p.known,
         vnonces := p.vnonces[a := tx.nonce + 1],
         beats := p.beats[a := now])
  }

  function PromoteAll(p: Pool, a: Address, txs: seq<Tx>, now: Time): Pool
    decreases |txs|
  {
    if txs == [] then p
    else PromoteAll(Promote(p, a, txs[0], now), a, txs[1..], now)
  }

  // ---------------------------------------------------------------- removeTx

  datatype Removed = Removed(pool: Pool, dropped: nat)

  /** Cut the pending list at `tx`: higher nonces are postponed, the virtual nonce is lowered. */
  function UnlinkPending(p: Pool, tx: Tx, now: Time): Removed {
    var a := tx.sender;
    var l := At(p.pending, a);
    if !HasNonce(l, tx.nonce) then Removed(p, 0)
    else
      var r := Rank(l, tx.nonce);
      var q := p.(pending := SetList(p.pending, a, l[..r]));
      Removed(EnqueueAll(q, l[r + 1..], now).Lower(a, tx.nonce), |l| - r)
  }

  function UnlinkQueued(p: Pool, tx: Tx): Pool {
    var a := tx.sender;
    if a !in p.queue then p
    else
      var f := Without(p.queue[a], tx.nonce);
      p.(queue := SetList(p.queue, a, f), beats := if f == [] then p.beats - {a} else p.beats)
  }

  function RemoveTx(p: Pool, h: Hash, now: Time): Removed {
    if !p.known.Has(h) then Removed(p, 0)
    else
      var tx := p.known.Get(h);
      var q := p.(known := p.known.Minus({h}));
      if HasNonce(At(p.pending, tx.sender), tx.nonce) then UnlinkPending(q, tx, now)
      else Removed(UnlinkQueued(q, tx), 0)
  }

  function RemoveAll(p: Pool, txs: seq<Tx>, now: Time): Pool
    decreases |txs|
  {
    if txs == [] then p else RemoveAll(RemoveTx(p, txs[0].hash, now).pool, txs[1..], now)
  }

  // ---------------------------------------------------------------- add

  /** What the price heaps answer when the pool is full. */
  datatype Victims = Victims(underpriced: bool, drop: seq<Tx>, success: bool)

  datatype Rejection =
    | AlreadyKnown | Malformed | GasLimit | Underpriced | NonceTooLow | InsufficientFunds
    | Overdraft | IntrinsicGas | PoolOverflow | FutureReplacePending | ReplaceUnderpriced

  datatype Verdict = Added(replaced: bool) | Rejected(why: Rejection)

  datatype AddOutcome = AddOutcome(pool: Pool, verdict: Verdict)

  datatype Check = Valid | Invalid(why: Rejection)

  function Validate(p: Pool, tx: Tx, isLocal: bool): Check {
    var l := At(p.pending, tx.sender);
    var spent := TotalCost(l) - (if HasNonce(l, tx.nonce) then AtNonce(l, tx.nonce).cost else 0);
    if !tx.wellFormed then Invalid(Malformed)
    else if p.chain.gasLimit < tx.gas then Invalid(GasLimit)
    else if !isLocal && tx.tipCap < p.gasPrice then Invalid(Underpriced)
    else if p.chain.Nonce(tx.sender) > tx.nonce then Invalid(NonceTooLow)
    else if p.chain.Balance(tx.sender) < tx.cost then Invalid(InsufficientFunds)
    else if l != [] && p.chain.Balance(tx.sender) < tx.cost + spent then Invalid(Overdraft)
    else if tx.gas < tx.IntrinsicGas() then Invalid(IntrinsicGas)
    else Valid
  }

  /** Whether `tx` can only be executed after a transaction the pool does not have pending. */
  predicate IsFuture(p: Pool, tx: Tx) {
    var l := At(p.pending, tx.sender);
    if tx.sender !in p.pending then p.Virtual(tx.sender) != tx.nonce
    else !HasNonce(l, tx.nonce) && !(tx.nonce > 0 && HasNonce(l, tx.nonce - 1))
  }

  predicate ChurnsPending(p: Pool, drop: seq<Tx>) {
    exists t :: t in drop && HasNonce(At(p.pending, t.sender), t.nonce)
  }

  /** Kick out one victim, counting the pending transactions it displaced. */
  function DropOne(p: Pool, h: Hash, now: Time): Pool {
    var r := RemoveTx(p, h, now);
    r.pool.(changes := r.pool.changes + r.dropped)
  }

  function DropAll(p: Pool, txs: seq<Tx>, now: Time): Pool
    decreases |txs|
  {
    if txs == [] then p
    else DropAll(DropOne(p, txs[0].hash, now), txs[1..], now)
  }

  /** Overwrite the pending transaction with the same nonce. */
  function Overwrite(p: Pool, tx: Tx, isLocal: bool, now: Time): Pool
    requires HasNonce(At(p.pending, tx.sender), tx.nonce)
  {
    var a := tx.sender;
    var l := At(p.pending, a);
    p.(pending := p.pending[a := Put(l, tx)],
       known := p.known.Minus({AtNonce(l, tx.nonce).hash}).Add(tx, isLocal),
       beats := p.beats[a := now])
  }

  /** Count the sender among the local accounts. */
  function MarkLocal(p: Pool, a: Address): Pool {
    var accounts := p.accounts + {a};
    p.(accounts := accounts, known := p.known.Localise(accounts))
  }

  /** Insert a transaction that passed validation, once there is room for it. */
  function Place(p: Pool, tx: Tx, local: bool, isLocal: bool, now: Time): AddOutcome {
    var a := tx.sender;
    var l := At(p.pending, a);
    if HasNonce(l, tx.nonce) then
      if !Accepts(l, tx, p.cfg.priceBump) then AddOutcome(p, Rejected(ReplaceUnderpriced))
      else AddOutcome(Overwrite(p, tx, isLocal, now), Added(true))
    else
      var e := Enqueue(p, tx, isLocal, true, now);
      if !e.inserted then AddOutcome(e.pool, Rejected(ReplaceUnderpriced))
      else AddOutcome(if local && a !in p.accounts then MarkLocal(e.pool, a) else e.pool, Added(e.replaced))
  }

  ghost predicate Full(p: Pool, tx: Tx) {
    p.known.Slots() + tx.Slots() > p.cfg.globalSlots + p.cfg.globalQueue
  }

  /** What happens before a transaction is placed: nothing, or the victims are kicked out first. */
  datatype Gate = Refuse(why: Rejection) | Direct | MakeRoom

  ghost function Screen(p: Pool, tx: Tx, local: bool, v: Victims): Gate {
    var isLocal := local || tx.sender in p.accounts;
    var check := Validate(p, tx, isLocal);
    if p.known.Has(tx.hash) then Refuse(AlreadyKnown)
    else if check.Invalid? then Refuse(check.why)
    else if !Full(p, tx) then Direct
    else if !isLocal && v.underpriced then Refuse(Underpriced)
    else if p.changes > p.cfg.globalSlots / 4 then Refuse(PoolOverflow)
    else if !isLocal && !v.success then Refuse(PoolOverflow)
    else if !isLocal && IsFuture(p, tx) && ChurnsPending(p, v.drop) then Refuse(FutureReplacePending)
    else MakeRoom
  }

  ghost function Add(p: Pool, tx: Tx, local: bool, v: Victims, now: Time): AddOutcome {
    var isLocal := local || tx.sender in p.accounts;
    match Screen(p, tx, local, v)
    case Refuse(why) => AddOutcome(p, Rejected(why))
    case Direct => Place(p, tx, local, isLocal, now)
    case MakeRoom => Place(DropAll(p, v.drop, now), tx, local, isLocal, now)
  }

  /** A batch of additions under one lock; `vs[i]` is what the price heaps answer for `txs[i]`. */
  ghost function AddAll(p: Pool, txs: seq<Tx>, local: bool, vs: seq<Victims>, now: Time): Pool
    requires |vs| == |txs|
    decreases |txs|
  {
    if txs == [] then p
    else AddAll(Add(p, txs[0], local, vs[0], now).pool, txs[1..], local, vs[1..], now)
  }

  /** What a batch is answered, one verdict for each transaction. */
  ghost function AddVerdicts(p: Pool, txs: seq<Tx>, local: bool, vs: seq<Victims>, now: Time): seq<Verdict>
    requires |vs| == |txs|
    decreases |txs|
  {
    if txs == [] then []
    else
      var o := Add(p, txs[0], local, vs[0], now);
      [o.verdict] + AddVerdicts(o.pool, txs[1..], local, vs[1..], now)
  }

  // ---------------------------------------------------------------- promoteExecutables

  /** How one account's queued list is split by a promotion pass. */
  datatype Split = Split(dropped: seq<Tx>, ready: seq<Tx>, kept: seq<Tx>)

  function PromotionSplit(p: Pool, a: Address): Split {
    var l := At(p.queue, a);
    var r := Rank(l, p.chain.Nonce(a));
    var live := Payable(l[r..], p.chain.Balance(a), p.chain.gasLimit);
    var k := ReadyCount(live, p.Virtual(a));
    var rest := live[k..];
    var c := if a in p.accounts || |rest| <= p.cfg.accountQueue then |rest| else p.cfg.accountQueue;
    Split(l[..r] + Unaffordable(l[r..], p.chain.Balance(a), p.chain.gasLimit) + rest[c..],
          live[..k], rest[..c])
  }

  function PromoteAccount(p: Pool, a: Address, now: Time): Pool {
    if a !in p.queue then p
    else
      var s := PromotionSplit(p, a);
      var q := PromoteAll(
        p.(queue := SetList(p.queue, a, s.kept), known := p.known.Minus(Hashes(s.dropped))), a, s.ready, now);
      if s.kept == [] then q.(beats := q.beats - {a}) else q
  }

  function PromoteExecutables(p: Pool, accounts: seq<Address>, now: Time): Pool
    decreases |accounts|
  {
    if accounts == [] then p
    else PromoteExecutables(PromoteAccount(p, accounts[0], now), accounts[1..], now)
  }

  // ---------------------------------------------------------------- demoteUnexecutables

  /** How one account's pending list is split by a demotion pass, before the gap check. */
  function DemotionSplit(p: Pool, a: Address): Split {
    var l := At(p.pending, a);
    var r := Rank(l, p.chain.Nonce(a));
    var live := l[r..];
    var k := PayableRun(live, p.chain.Balance(a), p.chain.gasLimit);
    Split(l[..r] + Unaffordable(live[k..], p.chain.Balance(a), p.chain.gasLimit),
          Payable(live[k..], p.chain.Balance(a), p.chain.gasLimit),
          live[..k])
  }

  /** The branch the source logs as an error: what is left does not start at the chain nonce. */
  predicate HasGap(p: Pool, a: Address) {
    var s := DemotionSplit(p, a);
    s.kept != [] && !HasNonce(s.kept, p.chain.Nonce(a))
  }

  function DemoteAccount(p: Pool, a: Address, now: Time): Pool {
    if a !in p.pending then p
    else
      var s := DemotionSplit(p, a);
      var gap := HasGap(p, a);
      EnqueueAll(
        p.(pending := SetList(p.pending, a, if gap then [] else s.kept),
           known := p.known.Minus(Hashes(s.dropped))),
        s.ready + (if gap then s.kept else []), now)
  }

  function DemoteUnexecutables(p: Pool, accounts: seq<Address>, now: Time): Pool
    decreases |accounts|
  {
    if accounts == [] then p
    else DemoteUnexecutables(DemoteAccount(p, accounts[0], now), accounts[1..], now)
  }

  /** After a reset every account's virtual nonce is one past its last pending transaction. */
  function SettleNonces(p: Pool): Pool {
    p.(vnonces := map a | a in p.pending && p.pending[a] != [] :: p.pending[a][|p.pending[a]| - 1].nonce + 1)
  }

  // ---------------------------------------------------------------- reset

  /** Switch to a new chain head and put the abandoned transactions back. */
  ghost function Reset(p: Pool, chain: Chain, reinject: seq<Tx>, vs: seq<Victims>, now: Time): Pool
    requires |vs| == |reinject|
  {
    AddAll(p.(chain := chain, vnonces := map[]), reinject, false, vs, now)
  }
}
