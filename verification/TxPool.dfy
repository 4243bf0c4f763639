/**
 The pool as the program keeps it: fields updated in place by methods with loops. Every method is
 proved equal to its counterpart on the value `State()`, so what is proved about runs of values
 holds of the object.
 */
module TransactionPool {
  import opened Wrappers
  import opened Sums
  import opened Transactions
  import opened TxLists
  import opened PoolState
  import opened PoolInvariant
  import opened PoolPreservation
  import opened PoolTruncation
  import opened PoolLevelling
  import opened PoolSteps
  import opened PoolRuns
  import opened TxEvents

  /** The hash table over both lists, with its running slot count. */
  class Lookup {
    var slots: int
    var locals: map<Hash, Tx>
    var remotes: map<Hash, Tx>

    function Value(): Known
      reads this
    {
      Known(locals, remotes)
    }

    /** The slot count is the sum of the members' slots. */
    ghost predicate Valid()
      reads this
    {
      KnownOk(Value()) && slots == Value().Slots()
    }

    constructor ()
      ensures Valid() && Value() == Known(map[], map[])
    {
      slots, locals, remotes := 0, map[], map[];
    }

    method Get(h: Hash) returns (r: Option<Tx>)
      ensures r.Some? <==> Value().Has(h)
      ensures r.Some? ==> r.value == Value().Get(h)
    {
      if h in locals { return Some(locals[h]); }
      if h in remotes { return Some(remotes[h]); }
      return None;
    }

    /** The slots are counted whether or not the hash is new; the count stays exact for new ones. */
    method Add(tx: Tx, local: bool)
      requires Valid()
      modifies this
      ensures Value() == old(Value()).Add(tx, local) && slots == old(slots) + tx.Slots()
      ensures !old(Value()).Has(tx.hash) ==> Valid()
    {
      if !Value().Has(tx.hash) { SlotsAdd(Value(), tx, local); }
      slots := slots + tx.Slots();
      if local {
        locals := locals[tx.hash := tx];
      } else {
        remotes := remotes[tx.hash := tx];
      }
    }

    method Remove(h: Hash)
      requires Valid()
      modifies this
      ensures Valid() && Value() == old(Value()).Minus({h})
    {
      var tx := Get(h);
      if tx.None? {
        assert locals - {h} == locals && remotes - {h} == remotes;
        return;
      }
      SlotsWithout(Value(), h);
      slots := slots - tx.value.Slots();
      locals := locals - {h};
      remotes := remotes - {h};
    }

    method RemoteToLocals(accounts: set<Address>) returns (migrated: nat)
      requires Valid()
      modifies this
      ensures Valid() && Value() == old(Value()).Localise(accounts)
      ensures migrated == |Movable(old(Value()), accounts, {})|
    {
      ghost var was := Value();
      hide KnownOk, Known.Localise, Known.Slots, Migrated, Movable;
      SlotsLocalise(was, accounts);
      MigratedAll(was, accounts);
      var todo := remotes.Keys;
      migrated := 0;
      while todo != {}
        invariant todo <= was.remotes.Keys
        invariant Value() == Migrated(was, Movable(was, accounts, todo))
        invariant migrated == |Movable(was, accounts, todo)| && slots == old(slots)
        decreases todo
      {
        var h :| h in todo;
        MigratedStep(was, accounts, todo, h);
        assert h in remotes && remotes[h] == was.remotes[h];
        if remotes[h].sender in accounts {
          locals := locals[h := remotes[h]];
          remotes := remotes - {h};
          migrated := migrated + 1;
        }
        todo := todo - {h};
      }
    }

    /** The remote transactions of local accounts, without those in `todo`. */
    static function Movable(k: Known, accounts: set<Address>, todo: set<Hash>): set<Hash> {
      set h | h in k.remotes && h !in todo && k.remotes[h].sender in accounts
    }

    /** The table once the hashes in `done` have moved to the local side. */
    static function Migrated(k: Known, done: set<Hash>): Known {
      Known(k.locals + (map h | h in done && h in k.remotes :: k.remotes[h]), k.remotes - done)
    }

    static lemma MigratedStep(k: Known, accounts: set<Address>, todo: set<Hash>, h: Hash)
      requires h in todo && h in k.remotes
      ensures var m := Migrated(k, Movable(k, accounts, todo));
        var next := Movable(k, accounts, todo - {h});
        && h in m.remotes && m.remotes[h] == k.remotes[h]
        && (if k.remotes[h].sender in accounts
              then Migrated(k, next) == Known(m.locals[h := k.remotes[h]], m.remotes - {h})
                && |next| == |Movable(k, accounts, todo)| + 1
              else next == Movable(k, accounts, todo))
    {
      MovableStep(k, accounts, todo, h);
      hide Movable;
      MoveOne(k, Movable(k, accounts, todo), h);
    }

    static lemma MovableStep(k: Known, accounts: set<Address>, todo: set<Hash>, h: Hash)
      requires h in todo && h in k.remotes
      ensures h !in Movable(k, accounts, todo)
      ensures Movable(k, accounts, todo - {h})
        == Movable(k, accounts, todo) + if k.remotes[h].sender in accounts then {h} else {}
    {
    }

    static lemma MoveOne(k: Known, done: set<Hash>, h: Hash)
      requires h in k.remotes && h !in done
      ensures var m := Migrated(k, done);
        && h in m.remotes && m.remotes[h] == k.remotes[h]
        && Migrated(k, done + {h}) == Known(m.locals[h := k.remotes[h]], m.remotes - {h})
    {
      var m, n := Migrated(k, done), Migrated(k, done + {h});
      assert n.locals == m.locals[h := k.remotes[h]];
      assert n.remotes == m.remotes - {h};
    }

    static lemma MigratedAll(k: Known, accounts: set<Address>)
      ensures Movable(k, accounts, k.remotes.Keys) == {} && Migrated(k, {}) == k
      ensures Migrated(k, Movable(k, accounts, {})) == k.Localise(accounts)
    {
      NothingMigrated(k);
      MovedAre(k, accounts);
      assert Migrated(k, Movable(k, accounts, {})).remotes == k.Localise(accounts).remotes;
    }

    static lemma NothingMigrated(k: Known)
      ensures Migrated(k, {}) == k
    {
      assert k.remotes - {} == k.remotes;
    }

    static lemma MovedAre(k: Known, accounts: set<Address>)
      ensures Migrated(k, Movable(k, accounts, {})).locals == k.Localise(accounts).locals
    {
    }

    method RemotesBelowTip(threshold: nat) returns (found: seq<Tx>)
      requires Valid()
      ensures forall t :: t in found <==> t.hash in remotes && remotes[t.hash] == t && t.tipCap < threshold
    {
      found := [];
      var todo := remotes.Keys;
      while todo != {}
        invariant todo <= remotes.Keys
        invariant forall t ::
          t in found <==> t.hash in remotes.Keys - todo && remotes[t.hash] == t && t.tipCap < threshold
        decreases todo
      {
        var h :| h in todo;
        todo := todo - {h};
        if remotes[h].tipCap < threshold { found := found + [remotes[h]]; }
      }
    }
  }

  class TxPool {
    const cfg: Config
    var chain: Chain
    var gasPrice: nat
    var accounts: set<Address>
    var pending: Lists
    var queue: Lists
    var beats: map<Address, Time>
    var vnonces: map<Address, nat>
    var changes: nat
    const all: Lookup

    function State(): Pool
      reads this, all
    {
      Pool(cfg, chain, gasPrice, accounts, pending, queue, beats, vnonces, all.Value(), changes)
    }

    ghost predicate Valid()
      reads this, all
    {
      all.Valid() && Inv(State())
    }

    constructor (config: Config, head: Chain, locals: set<Address>)
      ensures Valid() && fresh(all) && State() == InitialPool(config, head, locals)
    {
      var c := config.Sanitize();
      cfg, chain, gasPrice, accounts := c, head, c.priceLimit, locals;
      pending, queue, beats, vnonces, changes := map[], map[], map[], map[], 0;
      all := new Lookup();
      new;
      InitialPoolInv(config, head, locals);
    }

    /** The virtual nonce of an account. */
    function Nonce(a: Address): nat
      reads this, all
    {
      State().Virtual(a)
    }

    method SetIfLower(a: Address, n: nat)
      modifies this`vnonces
      ensures State() == old(State()).Lower(a, n)
    {
      if Nonce(a) <= n { return; }
      vnonces := vnonces[a := n];
    }

    method EnqueueTx(tx: Tx, local: bool, addAll: bool, now: Time) returns (inserted: bool, replaced: bool)
      requires all.Valid() && (addAll ==> !all.Value().Has(tx.hash))
      modifies this`queue, this`beats, all
      ensures all.Valid()
      ensures Enqueued(State(), inserted, replaced) == Enqueue(old(State()), tx, local, addAll, now)
    {
      var a := tx.sender;
      var list := if a in queue then queue[a] else [];
      if !Accepts(list, tx, cfg.priceBump) { return false, false; }
      replaced := HasNonce(list, tx.nonce);
      if replaced { all.Remove(AtNonce(list, tx.nonce).hash); }
      queue := queue[a := Put(list, tx)];
      if addAll { all.Add(tx, local); }
      if a !in beats { beats := beats[a := now]; }
      return true, replaced;
    }

    method PromoteTx(a: Address, tx: Tx, now: Time) returns (inserted: bool)
      requires all.Valid()
      modifies this`pending, this`beats, this`vnonces, all
      ensures all.Valid() && State() == Promote(old(State()), a, tx, now)
      ensures inserted == Accepts(At(old(pending), a), tx, cfg.priceBump)
    {
      var list := if a in pending then pending[a] else [];
      if !Accepts(list, tx, cfg.priceBump) {
        all.Remove(tx.hash);
        return false;
      }
      if HasNonce(list, tx.nonce) { all.Remove(AtNonce(list, tx.nonce).hash); }
      pending := pending[a := Put(list, tx)];
      vnonces := vnonces[a := tx.nonce + 1];
      beats := beats[a := now];
      return true;
    }

    /** Postpone a batch of transactions that are in the lookup table already. */
    method Postpone(txs: seq<Tx>, now: Time)
      requires all.Valid()
      modifies this`queue, this`beats, all
      ensures all.Valid() && State() == EnqueueAll(old(State()), txs, now)
    {
      var i := 0;
      while i < |txs|
        invariant i <= |txs| && all.Valid()
        invariant EnqueueAll(State(), txs[i..], now) == EnqueueAll(old(State()), txs, now)
      {
        assert txs[i..][0] == txs[i] && txs[i..][1..] == txs[i + 1..];
        var _, _ := EnqueueTx(txs[i], false, false, now);
        i := i + 1;
      }
    }

    method UnlinkPending(tx: Tx, now: Time) returns (removed: bool, dropped: nat)
      requires all.Valid()
      modifies this`pending, this`queue, this`beats, this`vnonces, all
      ensures all.Valid()
      ensures removed == HasNonce(At(old(pending), tx.sender), tx.nonce)
      ensures Removed(State(), dropped) == PoolState.UnlinkPending(old(State()), tx, now)
    {
      hide EnqueueAll;
      var a := tx.sender;
      if a !in pending || !HasNonce(pending[a], tx.nonce) { return false, 0; }
      var r := Rank(pending[a], tx.nonce);
      var kept, invalids := pending[a][..r], pending[a][r + 1..];
      StorePending(a, kept);
      Postpone(invalids, now);
      SetIfLower(a, tx.nonce);
      return true, 1 + |invalids|;
    }

    method UnlinkQueued(tx: Tx)
      modifies this`queue, this`beats
      ensures State() == PoolState.UnlinkQueued(old(State()), tx)
    {
      var a := tx.sender;
      if a in queue {
        var future := Without(queue[a], tx.nonce);
        if future == [] {
          queue := queue - {a};
          beats := beats - {a};
        } else {
          queue := queue[a := future];
        }
      }
    }

    method RemoveTx(h: Hash, now: Time) returns (dropped: nat)
      requires Valid()
      modifies this`pending, this`queue, this`beats, this`vnonces, all
      ensures Valid() && Removed(State(), dropped) == PoolState.RemoveTx(old(State()), h, now)
    {
      RemoveTxInv(State(), h, now);
      hide InvT, PoolState.UnlinkPending, PoolState.UnlinkQueued;
      var tx := all.Get(h);
      if tx.None? { return 0; }
      all.Remove(h);
      var removed, n := UnlinkPending(tx.value, now);
      if removed { return n; }
      UnlinkQueued(tx.value);
      return 0;
    }

    // -------------------------------------------------------------- add

    /** Whether one of the victims is pending: the scan stops at the first. */
    method ReplacesPending(drop: seq<Tx>) returns (found: bool)
      ensures found == ChurnsPending(State(), drop)
    {
      var i := 0;
      while i < |drop|
        invariant i <= |drop|
        invariant forall j :: 0 <= j < i ==> !HasNonce(At(pending, drop[j].sender), drop[j].nonce)
      {
        if drop[i].sender in pending && HasNonce(pending[drop[i].sender], drop[i].nonce) { return true; }
        i := i + 1;
      }
      return false;
    }

    method KickOutOne(h: Hash, now: Time)
      requires Valid()
      modifies this`pending, this`queue, this`beats, this`vnonces, this`changes, all
      ensures Valid() && State() == DropOne(old(State()), h, now)
    {
      DropKeepsInv(State(), h, now);
      hide Inv, PoolState.RemoveTx, KnownOk, Known.Slots, Known.Minus;
      var n := RemoveTx(h, now);
      changes := changes + n;
      assert State() == DropOne(old(State()), h, now);
    }

    method KickOut(drop: seq<Tx>, now: Time)
      requires Valid()
      modifies this, all
      ensures Valid() && State() == DropAll(old(State()), drop, now)
    {
      hide InvT, DropOne;
      var i := 0;
      while i < |drop|
        invariant i <= |drop| && Valid()
        invariant DropAll(State(), drop[i..], now) == DropAll(old(State()), drop, now)
      {
        assert drop[i..][0] == drop[i] && drop[i..][1..] == drop[i + 1..];
        KickOutOne(drop[i].hash, now);
        i := i + 1;
      }
    }

    method OverwriteTx(tx: Tx, isLocal: bool, now: Time)
      requires all.Valid() && !all.Value().Has(tx.hash) && HasNonce(At(pending, tx.sender), tx.nonce)
      modifies this`pending, this`beats, all
      ensures all.Valid() && State() == Overwrite(old(State()), tx, isLocal, now)
    {
      var a := tx.sender;
      var list := pending[a];
      var older := AtNonce(list, tx.nonce);
      MinusHas(all.Value(), older.hash, tx.hash);
      all.Remove(older.hash);
      all.Add(tx, isLocal);
      pending := pending[a := Put(list, tx)];
      beats := beats[a := now];
    }

    method MarkSenderLocal(a: Address)
      requires all.Valid()
      modifies this`accounts, all
      ensures all.Valid() && State() == MarkLocal(old(State()), a)
    {
      accounts := accounts + {a};
      var _ := all.RemoteToLocals(accounts);
    }

    method PlaceTx(tx: Tx, local: bool, isLocal: bool, now: Time) returns (verdict: Verdict)
      requires Valid() && !all.Value().Has(tx.hash)
      modifies this, all
      ensures Valid() && AddOutcome(State(), verdict) == Place(old(State()), tx, local, isLocal, now)
    {
      PlaceKeepsInv(State(), tx, local, isLocal, now);
      hide InvT, Overwrite, MarkLocal, Enqueue;
      var a := tx.sender;
      if a in pending && HasNonce(pending[a], tx.nonce) {
        if !Accepts(pending[a], tx, cfg.priceBump) { return Rejected(ReplaceUnderpriced); }
        OverwriteTx(tx, isLocal, now);
        return Added(true);
      }
      EnqueueFrame(State(), tx, isLocal, now);
      var inserted, replaced := EnqueueTx(tx, isLocal, true, now);
      if !inserted { return Rejected(ReplaceUnderpriced); }
      if local && a !in accounts { MarkSenderLocal(a); }
      return Added(replaced);
    }

    method AddTx(tx: Tx, local: bool, v: Victims, now: Time) returns (verdict: Verdict)
      requires Valid()
      modifies this, all
      ensures Valid() && AddOutcome(State(), verdict) == Add(old(State()), tx, local, v, now)
    {
      hide InvT, Place, DropAll, Validate, IsFuture, ChurnsPending;
      var seen := all.Get(tx.hash);
      if seen.Some? { return Rejected(AlreadyKnown); }
      var isLocal := local || tx.sender in accounts;
      var check := Validate(State(), tx, isLocal);
      if check.Invalid? { return Rejected(check.why); }
      if all.slots + tx.Slots() > cfg.globalSlots + cfg.globalQueue {
        if !isLocal && v.underpriced { return Rejected(Underpriced); }
        if changes > cfg.globalSlots / 4 { return Rejected(PoolOverflow); }
        if !isLocal && !v.success { return Rejected(PoolOverflow); }
        if !isLocal && IsFuture(State(), tx) {
          var churns := ReplacesPending(v.drop);
          if churns { return Rejected(FutureReplacePending); }
        }
        DropAllKeepsInv(State(), v.drop, now);
        KickOut(v.drop, now);
      }
      verdict := PlaceTx(tx, local, isLocal, now);
    }

    /** A batch under one lock; accounts with a new transaction become dirty. */
    method AddTxsLocked(txs: seq<Tx>, local: bool, vs: seq<Victims>, now: Time)
      returns (verdicts: seq<Verdict>, dirty: set<Address>)
      requires Valid() && |vs| == |txs|
      modifies this, all
      ensures Valid() && State() == AddAll(old(State()), txs, local, vs, now)
      ensures |verdicts| == |txs| && verdicts == AddVerdicts(old(State()), txs, local, vs, now)
      ensures dirty == set i | 0 <= i < |txs| && verdicts[i] == Added(false) :: txs[i].sender
    {
      hide InvT, Add, AddAll, AddVerdicts;
      verdicts, dirty := [], {};
      var i := 0;
      BatchEnds(State(), txs, local, vs, now);
      while i < |txs|
        invariant i <= |txs| && |verdicts| == i && Valid()
        invariant AddAll(State(), txs[i..], local, vs[i..], now) == AddAll(old(State()), txs, local, vs, now)
        invariant verdicts + AddVerdicts(State(), txs[i..], local, vs[i..], now)
          == AddVerdicts(old(State()), txs, local, vs, now)
        invariant dirty == set j | 0 <= j < i && verdicts[j] == Added(false) :: txs[j].sender
      {
        BatchStep(State(), txs, local, vs, now, i);
        var verdict := AddTx(txs[i], local, vs[i], now);
        verdicts := verdicts + [verdict];
        if verdict == Added(false) { dirty := dirty + {txs[i].sender}; }
        i := i + 1;
      }
      BatchEnds(State(), txs, local, vs, now);
    }

    // -------------------------------------------------------------- promoteExecutables

    method Forget(txs: seq<Tx>)
      requires all.Valid()
      modifies all
      ensures all.Valid() && all.Value() == old(all.Value()).Minus(Hashes(txs))
    {
      ForgetNone(all.Value());
      hide Known.Minus, Hashes;
      var i := 0;
      while i < |txs|
        invariant i <= |txs| && all.Valid()
        invariant all.Value() == old(all.Value()).Minus(Hashes(txs[..i]))
      {
        HashesSnoc(txs, i);
        MinusTwice(old(all.Value()), Hashes(txs[..i]), {txs[i].hash});
        all.Remove(txs[i].hash);
        i := i + 1;
      }
      assert txs[..i] == txs;
    }

    method PromoteReady(a: Address, txs: seq<Tx>, now: Time) returns (promoted: seq<Tx>)
      requires all.Valid()
      modifies this`pending, this`beats, this`vnonces, all
      ensures all.Valid() && State() == PromoteAll(old(State()), a, txs, now)
      ensures forall t :: t in promoted ==> t in txs
      ensures NoneTaken(old(State()), a, txs, now) ==> promoted == txs
    {
      hide Promote;
      promoted := [];
      var i := 0;
      while i < |txs|
        invariant i <= |txs| && all.Valid()
        invariant PromoteAll(State(), a, txs[i..], now) == PromoteAll(old(State()), a, txs, now)
        invariant forall t :: t in promoted ==> t in txs
        invariant NoneTaken(old(State()), a, txs, now) ==> promoted == txs[..i] && NoneTaken(State(), a, txs[i..], now)
      {
        assert txs[i..][0] == txs[i] && txs[i..][1..] == txs[i + 1..];
        var inserted := PromoteTx(a, txs[i], now);
        if inserted { promoted := promoted + [txs[i]]; }
        i := i + 1;
      }
      assert txs[..i] == txs;
    }

    /** Take out what is too old or too costly, and what can be executed now. */
    method Sift(a: Address) returns (readies: seq<Tx>, rest: seq<Tx>)
      requires all.Valid() && a in queue
      modifies all
      ensures all.Valid()
      ensures Sifted(State(), readies, rest) == SiftQueue(old(State()), a)
    {
      hide Known.Minus, Hashes;
      var list := queue[a];
      var r := Rank(list, chain.Nonce(a));
      var forwards := list[..r];
      list := list[r..];
      Forget(forwards);
      var drops := Unaffordable(list, chain.Balance(a), chain.gasLimit);
      list := Payable(list, chain.Balance(a), chain.gasLimit);
      Forget(drops);
      var k := ReadyCount(list, Nonce(a));
      return list[..k], list[k..];
    }

    /** Cap what stays queued, and delete the entry if nothing does. */
    method StoreRest(a: Address, rest: seq<Tx>)
      requires all.Valid()
      modifies this`queue, this`beats, all
      ensures all.Valid() && State() == StoreQueue(old(State()), a, rest)
    {
      hide Known.Minus, Hashes;
      var list, caps := rest, [];
      if a !in accounts && |list| > cfg.accountQueue {
        caps := list[cfg.accountQueue..];
        list := list[..cfg.accountQueue];
      } else {
        assert rest[|rest|..] == [] && rest[..|rest|] == rest;
      }
      Forget(caps);
      if list == [] {
        queue := queue - {a};
        beats := beats - {a};
      } else {
        queue := queue[a := list];
      }
    }

    /** One account's turn: forward, filter, promote, cap. */
    method PromoteOne(a: Address, now: Time) returns (promoted: seq<Tx>)
      requires Valid()
      modifies this`pending, this`queue, this`beats, this`vnonces, all
      ensures Valid() && State() == PromoteAccount(old(State()), a, now)
      ensures forall t :: t in promoted <==> In(pending, t) && !In(old(pending), t)
    {
      PromoteAccountKeepsInv(State(), a, now);
      if a !in queue { return []; }
      PromotionInOrder(State(), a, now);
      hide InvT, PromoteAll, NoneTaken, PromoteAccount, SiftQueue, StoreQueue;
      var readies, rest := Sift(a);
      promoted := PromoteReady(a, readies, now);
      StoreRest(a, rest);
    }

    method PromoteExecutables(addrs: seq<Address>, now: Time) returns (promoted: seq<Tx>)
      requires Valid()
      modifies this`pending, this`queue, this`beats, this`vnonces, all
      ensures Valid() && State() == PoolState.PromoteExecutables(old(State()), addrs, now)
      ensures forall t :: t in promoted <==> In(pending, t) && !In(old(pending), t)
    {
      hide InvT, PromoteAccount;
      promoted := [];
      var i := 0;
      while i < |addrs|
        invariant i <= |addrs| && Valid()
        invariant PoolState.PromoteExecutables(State(), addrs[i..], now)
          == PoolState.PromoteExecutables(old(State()), addrs, now)
        invariant forall t :: t in promoted <==> In(pending, t) && !In(old(pending), t)
        invariant forall t :: In(old(pending), t) ==> In(pending, t)
      {
        assert addrs[i..][0] == addrs[i] && addrs[i..][1..] == addrs[i + 1..];
        PromoteKeepsPending(State(), addrs[i], now);
        var more := PromoteOne(addrs[i], now);
        promoted := promoted + more;
        i := i + 1;
      }
    }

    // -------------------------------------------------------------- demoteUnexecutables

    /** Take out what is too old or too costly, and everything above the lowest costly one. */
    method SiftDown(a: Address) returns (invalids: seq<Tx>, rest: seq<Tx>)
      requires all.Valid() && a in pending
      modifies all
      ensures all.Valid()
      ensures Sifted(State(), invalids, rest) == SiftPending(old(State()), a)
    {
      hide Known.Minus, Hashes;
      var list := pending[a];
      var r := Rank(list, chain.Nonce(a));
      var olds := list[..r];
      list := list[r..];
      Forget(olds);
      var k := PayableRun(list, chain.Balance(a), chain.gasLimit);
      var drops := Unaffordable(list[k..], chain.Balance(a), chain.gasLimit);
      invalids := Payable(list[k..], chain.Balance(a), chain.gasLimit);
      rest := list[..k];
      Forget(drops);
    }

    method StorePending(a: Address, list: seq<Tx>)
      modifies this`pending
      ensures pending == SetList(old(pending), a, list)
    {
      if list == [] { pending := pending - {a}; } else { pending := pending[a := list]; }
    }

    /** If there is a gap in front, which should never happen, postpone everything. */
    method CloseGap(list: seq<Tx>, nonce: nat, now: Time) returns (kept: seq<Tx>)
      requires all.Valid()
      modifies this`queue, this`beats, all
      ensures all.Valid()
      ensures var gap := list != [] && !HasNonce(list, nonce);
        && kept == (if gap then [] else list)
        && State() == if gap then EnqueueAll(old(State()), list, now) else old(State())
    {
      if list != [] && !HasNonce(list, nonce) {
        Postpone(list, now);
        return [];
      }
      return list;
    }

    method Regroup(a: Address, invalids: seq<Tx>, list: seq<Tx>, now: Time)
      requires all.Valid()
      modifies this`pending, this`queue, this`beats, all
      ensures all.Valid() && State() == Regrouped(old(State()), a, invalids, list, now)
    {
      hide EnqueueAll, HasNonce, SetList;
      ghost var p := State();
      Postpone(invalids, now);
      EnqueueAllFrame(p, p.pending, invalids, now);
      var kept := CloseGap(list, chain.Nonce(a), now);
      StorePending(a, kept);
    }

    /** One account's turn: forward, filter, postpone, and the gap check. */
    method DemoteOne(a: Address, now: Time)
      requires Valid() && a in pending
      modifies this`pending, this`queue, this`beats, all
      ensures Valid() && State() == DemoteAccount(old(State()), a, now)
    {
      DemoteAccountKeepsInv(State(), a, now);
      DemotionInOrder(State(), a, now);
      hide Inv, DemoteAccount, SiftPending, Regrouped;
      var invalids, list := SiftDown(a);
      Regroup(a, invalids, list, now);
    }

    method DemoteUnexecutables(now: Time) returns (ghost order: seq<Address>)
      requires Valid()
      modifies this`pending, this`queue, this`beats, all
      ensures Valid() && Enumerates(order, old(pending).Keys)
      ensures State() == PoolState.DemoteUnexecutables(old(State()), order, now)
    {
      hide InvT, DemoteAccount;
      ghost var p := State();
      order := [];
      var todo := pending.Keys;
      while todo != {}
        invariant Valid() && todo <= old(pending).Keys
        invariant Enumerates(order, old(pending).Keys - todo)
        invariant State() == PoolState.DemoteUnexecutables(p, order, now)
        invariant forall a :: a in todo ==> a in pending
        decreases todo
      {
        var a :| a in todo;
        DemoteSnoc(p, order, a, now);
        DemoteLeavesOthers(State(), a, now);
        DemoteOne(a, now);
        order := order + [a];
        todo := todo - {a};
      }
    }

    method SettleAllNonces()
      modifies this`vnonces
      ensures State() == SettleNonces(old(State()))
    {
      var nonces: map<Address, nat> := map[];
      var todo := pending.Keys;
      while todo != {}
        invariant todo <= pending.Keys
        invariant nonces ==
          map a | a in pending && a !in todo && pending[a] != [] :: pending[a][|pending[a]| - 1].nonce + 1
        decreases todo
      {
        var a :| a in todo;
        var list := pending[a];
        if list != [] { nonces := nonces[a := list[|list| - 1].nonce + 1]; }
        todo := todo - {a};
      }
      vnonces := nonces;
    }

    // -------------------------------------------------------------- truncatePending

    method CountPending() returns (total: nat)
      ensures total == PendingSize(State())
    {
      ghost var p := State();
      ghost var f := a => |At(p.pending, a)|;
      total := 0;
      var todo := pending.Keys;
      while todo != {}
        invariant todo <= pending.Keys && total + Sum(todo, f) == Sum(p.pending.Keys, f)
        decreases todo
      {
        var a :| a in todo;
        SumRemove(todo, f, a);
        total := total + |pending[a]|;
        todo := todo - {a};
      }
    }

    /** Drop the highest nonce of one account. */
    method CapOne(a: Address)
      requires all.Valid() && a in pending && pending[a] != []
      modifies this`pending, this`vnonces, all
      ensures all.Valid() && State() == DropLast(old(State()), a)
    {
      hide Known.Minus;
      var list := pending[a];
      var cut := list[|list| - 1];
      pending := pending[a := list[..|list| - 1]];
      all.Remove(cut.hash);
      SetIfLower(a, cut.nonce);
    }

    /** One pass over the offenders, each losing its highest nonce. */
    method CapEach(os: seq<Address>, total: nat, ghost p: Pool, ghost level: nat) returns (left: nat)
      requires all.Valid() && Inv(p) && level >= 1 && Offenders(p, os, level)
      requires State() == CapPending(p, level) && total == PendingTotal(p, level)
      modifies this`pending, this`vnonces, all
      ensures all.Valid()
      ensures State() == CapPending(p, level - 1) && left == PendingTotal(p, level - 1)
    {
      hide CapPending, PassState, DropLast, PendingSize, PendingTotal, InvT;
      left := total;
      PassStart(p, level);
      assert os[..0] == [];
      var i := 0;
      while i < |os|
        invariant i <= |os| && all.Valid()
        invariant State() == PassState(p, os[..i], level) && left == PendingSize(State())
      {
        PassStep(p, os, level, i);
        CapOne(os[i]);
        left := left - 1;
        i := i + 1;
      }
      assert os[..i] == os;
      PassEnd(p, os, level);
    }

    /** The accounts above the guaranteed slots, with their list lengths as priorities. */
    method Spammers() returns (spammers: map<Address, nat>)
      ensures spammers == HighRollers(State())
    {
      spammers := map[];
      var todo := pending.Keys;
      while todo != {}
        invariant todo <= pending.Keys
        invariant spammers ==
          map a | a in pending && a !in todo && a !in accounts && |pending[a]| > cfg.accountSlots :: |pending[a]|
        decreases todo
      {
        var a :| a in todo;
        if a !in accounts && |pending[a]| > cfg.accountSlots { spammers := spammers[a := |pending[a]|]; }
        todo := todo - {a};
      }
    }

    /** Pop the spammer with the longest list; ties are broken arbitrarily. */
    method Pop(spammers: map<Address, nat>) returns (a: Address)
      requires spammers != map[]
      ensures Largest(spammers, a)
    {
      ghost var largest := LargestExists(spammers);
      a :| a in spammers && forall b :: b in spammers ==> spammers[b] <= spammers[a];
    }

    /** Lower all offenders together until the limit holds or they are down at `floor`. */
    method Lower(os: seq<Address>, floor: nat, total: nat, ghost p: Pool, ghost top: nat)
      returns (left: nat, ghost level: nat)
      requires all.Valid() && Inv(p) && cfg == p.cfg && os != [] && 1 <= floor <= top && Between(p, os, floor, top)
      requires State() == CapPending(p, top) && total == PendingTotal(p, top) && Highest(p, top)
      modifies this`pending, this`vnonces, all
      ensures all.Valid()
      ensures floor <= level <= top && (left <= cfg.globalSlots || level == floor)
      ensures State() == CapPending(p, level) && left == PendingTotal(p, level) && Highest(p, level)
    {
      hide InvT, PendingTotal, CapPending, Highest;
      left, level := total, top;
      var last := os[|os| - 1];
      assert last in os;
      LengthAt(p, level, last);
      while left > cfg.globalSlots && |pending[last]| > floor
        invariant floor <= level <= top && all.Valid() && cfg == p.cfg
        invariant State() == CapPending(p, level) && left == PendingTotal(p, level) && Highest(p, level)
        invariant last in pending && |pending[last]| == level
        decreases level
      {
        BetweenOffenders(p, os, floor, top, level);
        HighestStep(p, level);
        left := CapEach(os, left, p, level);
        level := level - 1;
        LengthAt(p, level, last);
      }
    }

    /** Equalise the earlier offenders, if any, with the one that has just been popped. */
    method Equalise(os: seq<Address>, offender: Address, total: nat, ghost spam: map<Address, nat>,
      ghost p: Pool, ghost top: nat)
      returns (left: nat, ghost level: nat)
      requires all.Valid() && Levelled(State(), p, os, spam, total, top)
      requires total > cfg.globalSlots && Largest(spam, offender)
      modifies this`pending, this`vnonces, all
      ensures all.Valid() && Levelled(State(), p, os + [offender], spam - {offender}, left, level)
    {
      PopFacts(State(), p, os, spam, total, top, offender);
      hide Inv, PendingTotal, CapPending, Highest, Between, Levelled, Largest;
      left, level := total, top;
      var threshold := |pending[offender]|;
      if os != [] {
        left, level := Lower(os, threshold, total, p, top);
      } else {
        level := threshold;
      }
      PopLevelled(State(), p, os, spam, total, top, offender, left, level);
    }

    /** The last step, once every spammer is an offender: level them down to the guarantee. */
    method LevelToGuarantee(os: seq<Address>, total: nat, ghost spam: map<Address, nat>, ghost p: Pool, ghost top: nat)
      requires all.Valid() && Levelled(State(), p, os, spam, total, top) && (total > cfg.globalSlots ==> spam == map[])
      modifies this`pending, this`vnonces, all
      ensures all.Valid() && State() == PoolTruncation.TruncatePending(p)
    {
      assert cfg.Sane();
      NoSpammers(p, os, spam, total, top);
      hide InvT, PendingTotal, CapPending, Highest, HighRollers, PendingSize, Between;
      ghost var level := top;
      if total > cfg.globalSlots && os != [] {
        AllPopped(p, os, top);
        var left;
        left, level := Lower(os, cfg.accountSlots, total, p, top);
      } else if os == [] {
        level := cfg.accountSlots;
        SameCut(p, PendingSize(p), level);
        HighestAtSize(p, level);
      }
      ReachedWaterLevel(p, level);
    }

    method TruncatePending()
      requires Valid()
      modifies this`pending, this`vnonces, all
      ensures Valid() && State() == PoolTruncation.TruncatePending(old(State()))
    {
      ghost var p := State();
      TruncatePendingKeepsInv(p);
      hide Inv, PoolTruncation.TruncatePending, HighRollers, PendingSize, Levelled, Largest;
      var total: nat := CountPending();
      if total <= cfg.globalSlots { StaysBelow(p); return; }
      var spammers := Spammers();
      var offenders := [];
      ghost var level: nat := PendingSize(p);
      StartLevelled(p);
      while total > cfg.globalSlots && spammers != map[]
        invariant all.Valid() && Levelled(State(), p, offenders, spammers, total, level)
        decreases |spammers|
      {
        var offender := Pop(spammers);
        total, level := Equalise(offenders, offender, total, spammers, p, level);
        FewerSpammers(spammers, offender);
        offenders := offenders + [offender];
        spammers := spammers - {offender};
      }
      LevelToGuarantee(offenders, total, spammers, p, level);
    }

    // -------------------------------------------------------------- truncateQueue

    method CountQueued() returns (total: nat)
      ensures total == QueueSize(State())
    {
      ghost var p := State();
      ghost var f := a => |At(p.queue, a)|;
      total := 0;
      var todo := queue.Keys;
      while todo != {}
        invariant todo <= queue.Keys && total + Sum(todo, f) == Sum(p.queue.Keys, f)
        decreases todo
      {
        var a :| a in todo;
        SumRemove(todo, f, a);
        total := total + |queue[a]|;
        todo := todo - {a};
      }
    }

    /** The queued remote accounts, newest heartbeat first. */
    method NewestFirst() returns (addresses: seq<Address>, ghost order: seq<Address>)
      requires Valid()
      ensures Mirror(addresses, order) && ByAge(State(), order)
    {
      var ages := map a | a in queue && a !in accounts :: if a in beats then beats[a] else 0;
      addresses, order := [], [];
      AgedStart(State());
      hide Aged, Largest, Mirror;
      while ages != map[]
        invariant Mirror(addresses, order) && Aged(State(), order, ages)
        decreases |ages|
      {
        var a := Pop(ages);
        FewerSpammers(ages, a);
        AgedStep(State(), order, ages, a);
        MirrorFront(addresses, order, a);
        addresses, order := addresses + [a], [a] + order;
        ages := ages - {a};
      }
      AgedEnd(State(), order, ages);
    }

    /** Drop everything an account has queued, lowest nonce first. */
    method DropQueued(a: Address, now: Time)
      requires Valid() && a in queue
      modifies this`pending, this`queue, this`beats, this`vnonces, all
      ensures Valid() && State() == CapQueue(old(State()), a, 0)
    {
      ghost var p := State();
      FrontIsCap(p, a);
      QueuedNotEmpty(p, a);
      hide Inv, PoolState.RemoveTx, DropFront, CapQueue;
      var txs := queue[a];
      var i := 0;
      while i < |txs|
        invariant i <= |txs| && Valid() && State() == DropFront(p, a, i)
      {
        RemoveFront(p, a, i, now);
        var _ := RemoveTx(txs[i].hash, now);
        i := i + 1;
      }
    }

    /** Drop the highest of the nonces that an account still has queued. */
    method DropBack(a: Address, h: Hash, now: Time, ghost p: Pool, ghost i: nat)
      requires Valid() && Inv(p) && a in p.queue && i < |p.queue[a]| && h == p.queue[a][i].hash
      requires State() == CapQueue(p, a, i + 1)
      modifies this`pending, this`queue, this`beats, this`vnonces, all
      ensures Valid() && State() == CapQueue(p, a, i)
    {
      hide *;
      RemoveBack(p, a, i + 1, now);
      var _ := RemoveTx(h, now);
    }

    /** Drop the `drop` highest nonces an account has queued. */
    method DropHighest(a: Address, drop: nat, now: Time, ghost p: Pool, ghost keep: nat)
      requires Valid() && p == State() && Inv(p) && a in p.queue && |p.queue[a]| == keep + drop
      modifies this`pending, this`queue, this`beats, this`vnonces, all
      ensures Valid() && State() == CapQueue(p, a, keep)
    {
      assert p.queue == queue;
      hide *;
      BackStart(p, a);
      var txs := queue[a];
      var i: nat, left: nat := |txs|, drop;
      while i > 0 && left > 0
        invariant i <= |txs| && i == keep + left
        invariant Valid() && State() == CapQueue(p, a, i)
      {
        i := i - 1;
        DropBack(a, txs[i].hash, now, p, i);
        left := left - 1;
      }
    }

    method TruncateQueue(now: Time) returns (ghost order: seq<Address>)
      requires Valid()
      modifies this`pending, this`queue, this`beats, this`vnonces, all
      ensures Valid() && (QueueSize(old(State())) > cfg.globalQueue ==> ByAge(old(State()), order))
      ensures State() == PoolTruncation.TruncateQueue(old(State()), order)
    {
      ghost var p := State();
      hide Inv, QueueSize, ByAge, DropQueue;
      var queued: nat := CountQueued();
      if queued <= cfg.globalQueue { order := []; return; }
      var addresses;
      addresses, order := NewestFirst();
      var drop: nat := queued - cfg.globalQueue;
      AllQueued(p, order);
      ghost var rest := order;
      while drop > 0 && addresses != []
        invariant Valid() && Mirror(addresses, rest) && AreQueued(State(), rest)
        invariant DropQueue(State(), rest, drop) == DropQueue(p, order, queued - cfg.globalQueue)
        decreases |addresses|
      {
        var a := addresses[|addresses| - 1];
        DropQueueStep(State(), rest, drop);
        addresses := addresses[..|addresses| - 1];
        var size := |queue[a]|;
        if size <= drop {
          DropQueued(a, now);
          drop := drop - size;
        } else {
          DropHighest(a, drop, now, State(), |queue[a]| - drop);
          drop := 0;
        }
        rest := rest[1..];
        DropNothing(State(), rest);
      }
      DropNothing(State(), rest);
    }

    // -------------------------------------------------------------- eviction and the price threshold

    /** Evict the queues of remote accounts that have been idle for longer than the lifetime. */
    method Evict(now: Time) returns (ghost expired: seq<Address>)
      requires Valid()
      modifies this`pending, this`queue, this`beats, this`vnonces, all
      ensures Valid() && Distinct(expired) && forall a :: a in expired <==> Expired(old(State()), a, now)
      ensures State() == PoolRuns.Evict(old(State()), expired, now)
    {
      ghost var p := State();
      expired := [];
      EvictStart(p, now);
      hide Inv, PoolRuns.Evict, Evicting;
      var todo := queue.Keys;
      while todo != {}
        invariant Valid() && todo <= p.queue.Keys && Evicting(p, State(), expired, todo, now)
        decreases todo
      {
        var a :| a in todo;
        EvictStep(p, State(), expired, todo, a, now);
        if a !in accounts && now > beats[a] + cfg.lifetime {
          DropQueued(a, now);
          expired := expired + [a];
        }
        todo := todo - {a};
      }
      EvictEnd(p, State(), expired, now);
    }

    method RemoveEach(txs: seq<Tx>, now: Time)
      requires Valid()
      modifies this`pending, this`queue, this`beats, this`vnonces, all
      ensures Valid() && State() == RemoveAll(old(State()), txs, now)
    {
      hide Inv, PoolState.RemoveTx;
      var i := 0;
      while i < |txs|
        invariant i <= |txs| && Valid()
        invariant RemoveAll(State(), txs[i..], now) == RemoveAll(old(State()), txs, now)
      {
        assert txs[i..][0] == txs[i] && txs[i..][1..] == txs[i + 1..];
        var _ := RemoveTx(txs[i].hash, now);
        i := i + 1;
      }
    }

    /** Change the price threshold; raising it drops the remote transactions below. */
    method SetGasPrice(price: nat, now: Time) returns (ghost drop: seq<Tx>)
      requires Valid()
      modifies this, all
      ensures Valid() && BelowTip(old(State()), price, drop)
      ensures State() == PoolRuns.SetGasPrice(old(State()), price, drop, now)
    {
      InvIgnoresNonces(State(), State().(gasPrice := price));
      hide Inv;
      var older := gasPrice;
      gasPrice := price;
      var found := [];
      if price > older { found := all.RemotesBelowTip(price); }
      RemoveEach(found, now);
      drop := found;
    }

    // -------------------------------------------------------------- runReorg

    /** Switch to the new head, unless the walk between the heads gave up, and reinject. */
    method ResetTo(h: Head, now: Time)
      requires Valid() && HeadOk(h)
      modifies this, all
      ensures Valid() && State() == AfterReset(old(State()), h, now)
    {
      if h.NewHead? {
        InvIgnoresNonces(State(), State().(chain := h.chain, vnonces := map[]));
        hide Inv, AddAll;
        chain, vnonces := h.chain, map[];
        var _, _ := AddTxsLocked(h.reinject, false, h.victims, now);
      }
    }

    method Flatten(s: set<Address>) returns (order: seq<Address>)
      ensures Enumerates(order, s)
    {
      order := [];
      var todo := s;
      while todo != {}
        invariant todo <= s && Enumerates(order, s - todo)
        decreases todo
      {
        var a :| a in todo;
        order := order + [a];
        todo := todo - {a};
      }
    }

    /** After a reset, demote what is no longer executable and settle the virtual nonces. */
    method Demote(now: Time) returns (ghost order: seq<Address>)
      requires Valid()
      modifies this`pending, this`queue, this`beats, this`vnonces, all
      ensures Valid() && Enumerates(order, old(pending).Keys)
      ensures State() == SettleNonces(PoolState.DemoteUnexecutables(old(State()), order, now))
    {
      order := DemoteUnexecutables(now);
      InvIgnoresNonces(State(), SettleNonces(State()));
      hide Inv, PoolState.DemoteUnexecutables;
      SettleAllNonces();
    }

    /** Discard queued events below the virtual nonces, which a reset has started over. */
    method Discard(events: Events) returns (current: Events)
      ensures current == CurrentEvents(State(), events)
    {
      current := map[];
      var todo := events.Keys;
      while todo != {}
        invariant todo <= events.Keys
        invariant current == map k | k in events && k !in todo && k.1 >= Nonce(k.0) :: events[k]
        decreases todo
      {
        var k: (Address, nat) :| k in todo;
        if k.1 >= Nonce(k.0) { current := current[k := events[k]]; }
        todo := todo - {k};
      }
    }

    /** Promoted transactions join the events, each in the place of its sender and nonce. */
    static method Announce(events: Events, promoted: seq<Tx>, private: set<Hash>) returns (txs: set<Tx>)
      ensures txs == Announced(events, promoted, private)
    {
      var sent := events;
      for i := 0 to |promoted|
        invariant sent == WithPromoted(events, promoted[..i])
      {
        assert promoted[..i + 1][..i] == promoted[..i];
        sent := sent[Key(promoted[i]) := promoted[i]];
      }
      assert promoted[..|promoted|] == promoted;
      return set k | k in sent && sent[k].hash !in private :: sent[k];
    }

    /**
     One run: the reorg, and the announcement of its queued events and of what it promoted. A reset
     discards the events that have become stale; private transactions are not announced.
     */
    method RunReorg(h: Head, dirty: seq<Address>, events: Events, private: set<Hash>, now: Time)
      returns (announced: set<Tx>, ghost promoted: seq<Tx>, ghost plan: Plan)
      requires Valid() && HeadOk(h)
      modifies this, all
      ensures plan.head == h && (h.NoReset? ==> plan.promote == dirty) && PlanOk(old(State()), plan, now)
      ensures Valid() && State() == Reorg(old(State()), plan, now)
      ensures var q, r := AfterReset(old(State()), h, now), AfterPromote(old(State()), plan, now);
        && (forall t :: t in promoted <==> In(r.pending, t) && !In(q.pending, t))
        && announced == Announced(if h.NoReset? then events else CurrentEvents(q, events), promoted, private)
    {
      hide Inv, PoolState.PromoteExecutables, PoolState.DemoteUnexecutables, Enumerates, ByAge, QueueSize;
      hide AddAll, PoolTruncation.TruncatePending, PoolTruncation.TruncateQueue, SettleNonces, Reset;
      hide CurrentEvents, Announced, In;
      ghost var p := State();
      ResetTo(h, now);
      var promote, current := dirty, events;
      if !h.NoReset? {
        current := Discard(events);
        promote := Flatten(queue.Keys);
      }
      var added := PromoteExecutables(promote, now);
      promoted := added;
      ghost var demote := [];
      if !h.NoReset? { demote := Demote(now); }
      plan := Plan(h, promote, demote, []);
      ghost var q := State();
      assert q == AfterDemote(p, plan, now);
      TruncatePending();
      ghost var age := TruncateQueue(now);
      plan := plan.(age := age);
      assert AfterDemote(p, plan, now) == q;
      InvIgnoresNonces(State(), State().(changes := 0));
      changes := 0;
      announced := Announce(current, added, private);
    }
  }
}
