/**
 The background scheduler: one loop that takes reset and promotion requests and queued events over
 channels and runs at most one reorg at a time. The loop, the goroutines that call it, the running
 reorg and the shutdown interleave freely. Channels are numbered in the order they are made.
 */
module ReorgLoop {
  import opened Wrappers
  import opened Transactions
  import opened TxEvents

  datatype HeadChange = HeadChange(oldHead: Hash, newHead: Hash)

  datatype Request = ResetTo(change: HeadChange) | PromoteSet(accounts: set<Address>)

  datatype Run = Run(done: nat, reset: Option<HeadChange>, dirty: Option<set<Address>>, events: Events)

  /** The loop's local variables. */
  datatype Locals = Locals(
    curDone: Option<nat>, nextDone: nat, launchNextRun: bool,
    reset: Option<HeadChange>, dirtyAccounts: Option<set<Address>>, queuedEvents: Events)
  {
    predicate Launches() { curDone.None? && launchNextRun }

    function NextRun(): Run { Run(nextDone, reset, dirtyAccounts, queuedEvents) }

    function Launched(): Locals { Locals(Some(nextDone), nextDone + 1, false, None, None, map[]) }

    function TakeRequest(req: Request): Locals {
      match req
      case ResetTo(change) => this.(reset := Extend(reset, change), launchNextRun := true)
      case PromoteSet(accounts) => this.(dirtyAccounts := Merge(dirtyAccounts, accounts), launchNextRun := true)
    }

    function TakeEvent(tx: Tx): Locals { this.(queuedEvents := queuedEvents[Key(tx) := tx]) }
  }

  /** A pending reset keeps its old head and moves on to the new one. */
  function Extend(reset: Option<HeadChange>, change: HeadChange): Option<HeadChange> {
    match reset
    case None => Some(change)
    case Some(r) => Some(HeadChange(r.oldHead, change.newHead))
  }

  function Merge(dirty: Option<set<Address>>, accounts: set<Address>): Option<set<Address>> {
    match dirty
    case None => Some(accounts)
    case Some(d) => Some(d + accounts)
  }

  /** The loop body as the program keeps it: one method per branch of the select statement. */
  class Scheduler {
    var curDone: Option<nat>
    var nextDone: nat
    var launchNextRun: bool
    var reset: Option<HeadChange>
    var dirtyAccounts: Option<set<Address>>
    var queuedEvents: Events

    function State(): Locals
      reads this
    {
      Locals(curDone, nextDone, launchNextRun, reset, dirtyAccounts, queuedEvents)
    }

    constructor ()
      ensures State() == Locals(None, 0, false, None, None, map[])
    {
      curDone, nextDone, launchNextRun := None, 0, false;
      reset, dirtyAccounts, queuedEvents := None, None, map[];
    }

    /** The top of the loop: start the next run if one is wanted and none is active. */
    method LaunchIfNeeded() returns (run: Option<Run>)
      modifies this
      ensures if old(State()).Launches()
        then run == Some(old(State()).NextRun()) && State() == old(State()).Launched()
        else run == None && State() == old(State())
    {
      run := None;
      if curDone == None && launchNextRun {
        run := Some(Run(nextDone, reset, dirtyAccounts, queuedEvents));
        curDone, nextDone := Some(nextDone), nextDone + 1;
        launchNextRun := false;
        reset, dirtyAccounts := None, None;
        queuedEvents := map[];
      }
    }

    /** A request has arrived; the reply is the channel that the next run will close. */
    method Take(req: Request) returns (reply: nat)
      modifies this
      ensures State() == old(State()).TakeRequest(req) && reply == nextDone
    {
      match req
      case ResetTo(change) =>
        if reset == None { reset := Some(change); } else { reset := Some(reset.value.(newHead := change.newHead)); }
        launchNextRun := true;
        return nextDone;
      case PromoteSet(accounts) =>
        if dirtyAccounts == None { dirtyAccounts := Some(accounts); }
        else { dirtyAccounts := Some(dirtyAccounts.value + accounts); }
        launchNextRun := true;
        return nextDone;
    }

    method TakeEvent(tx: Tx)
      modifies this
      ensures State() == old(State()).TakeEvent(tx)
    {
      queuedEvents := queuedEvents[Key(tx) := tx];
    }

    method Collect()
      modifies this
      ensures State() == old(State()).(curDone := None)
    {
      curDone := None;
    }
  }

  // ---------------------------------------------------------------- the whole system

  datatype Phase = Top | Selecting | Replying | Stopping | Stopped

  /** A goroutine that makes requests. Client 0 is the pool's main loop, which announces new heads. */
  datatype Client = Idle | Asking(req: Request) | Sent(req: Request) | Got(req: Request, ch: nat)

  /** A request the loop has accepted, and the channel it answers with. */
  datatype Promise = Promise(client: nat, req: Request, ch: nat)

  /** A queued event and the run it is to be sent in. */
  datatype Queued = Queued(tx: Tx, batch: nat)

  /**
   The pool's mutex. Whoever has it adds transactions and has `left` events to queue before letting go;
   it waits for nothing else.
   */
  datatype Mutex = Free | ByUser(left: nat) | ByRun(left: nat)

  /** How far the active run is: waiting for the mutex, under the mutex, or past it. */
  datatype Stage = Waiting | Inside | Past

  /**
   `loop`, `phase`, `clients`, `head`, `shutdown`, `running`, `closed`, `mutex` and the `stage` of the
   active run are what the goroutines hold. The rest is history: `runs` that were launched, `heads` that
   were accepted, `promises` that were made, the `log` of events, and `spans[k]`, the number of head
   changes used up before run `k`.
   */
  datatype System = System(
    loop: Locals, phase: Phase, clients: seq<Client>, head: Hash, shutdown: bool,
    running: set<nat>, closed: set<nat>, mutex: Mutex, stage: Stage,
    runs: seq<Run>, heads: seq<Hash>, spans: seq<nat>, promises: seq<Promise>, log: seq<Queued>)

  datatype Action =
    | Ask(c: nat, req: Request) | GiveUp(c: nat) | Accept(c: nat) | Reply(c: nat)
    | Lock(left: nat) | RunLock(left: nat) | Event(tx: Tx) | SkipEvent | Unlock
    | Iterate | Collect | Finish(k: nat) | ShutDown | Stop | Exit

  predicate IsInitial(s: System) {
    && s.loop == Locals(None, 0, false, None, None, map[]) && s.phase == Top
    && |s.clients| >= 1 && (forall c :: 0 <= c < |s.clients| ==> s.clients[c] == Idle)
    && !s.shutdown && s.running == {} && s.closed == {} && s.mutex == Free
    && s.runs == [] && s.heads == [s.head] && s.spans == [0] && s.promises == [] && s.log == []
  }

  predicate Enabled(s: System, a: Action) {
    match a
    case Ask(c, req) =>
      && c < |s.clients| && (s.clients[c].Idle? || s.clients[c].Got?)
      && (if c == 0 then !s.shutdown && req.ResetTo? && req.change.oldHead == s.head else req.PromoteSet?)
    case GiveUp(c) => c < |s.clients| && s.clients[c].Asking? && s.shutdown
    case Accept(c) => c < |s.clients| && s.clients[c].Asking? && s.phase == Selecting
    case Reply(c) => c < |s.clients| && s.clients[c].Sent? && s.phase == Replying
    case Lock(_) => s.mutex == Free
    case RunLock(_) => s.mutex == Free && s.running != {} && s.stage == Waiting
    case Event(_) => s.phase == Selecting && s.mutex != Free && s.mutex.left > 0
    case SkipEvent => s.shutdown && s.mutex != Free && s.mutex.left > 0
    case Unlock => s.mutex != Free && s.mutex.left == 0
    case Iterate => s.phase == Top
    case Collect => s.phase == Selecting && s.loop.curDone.Some? && s.loop.curDone.value in s.closed
    case Finish(k) => k in s.running && s.stage == Past
    case ShutDown => |s.clients| > 0 && !s.shutdown && (s.clients[0].Idle? || s.clients[0].Got?)
    case Stop => s.phase == Selecting && s.shutdown
    case Exit => s.phase == Stopping && (s.loop.curDone.None? || s.loop.curDone.value in s.closed)
  }

  /** The position of the newest accepted head. */
  function Newest(s: System): nat { if s.heads == [] then 0 else |s.heads| - 1 }

  function Do(s: System, a: Action): System
    requires Enabled(s, a)
  {
    match a
    case Ask(c, req) => s.(clients := s.clients[c := Asking(req)])
    case GiveUp(c) => s.(clients := s.clients[c := Idle])
    case Accept(c) =>
      var req := s.clients[c].req;
      s.(loop := s.loop.TakeRequest(req), phase := Replying, clients := s.clients[c := Sent(req)],
         heads := if req.ResetTo? then s.heads + [req.change.newHead] else s.heads,
         promises := s.promises + [Promise(c, req, s.loop.nextDone)])
    case Reply(c) =>
      var req := s.clients[c].req;
      s.(phase := Top, clients := s.clients[c := Got(req, s.loop.nextDone)],
         head := if c == 0 && req.ResetTo? then req.change.newHead else s.head)
    case Lock(left) => s.(mutex := ByUser(left))
    case RunLock(left) => s.(mutex := ByRun(left), stage := Inside)
    case Event(tx) =>
      s.(loop := s.loop.TakeEvent(tx), phase := Top, log := s.log + [Queued(tx, s.loop.nextDone)],
         mutex := s.mutex.(left := s.mutex.left - 1))
    case SkipEvent => s.(mutex := s.mutex.(left := s.mutex.left - 1))
    case Unlock => s.(mutex := Free, stage := if s.mutex.ByRun? then Past else s.stage)
    case Iterate =>
      if s.loop.Launches() then
        s.(loop := s.loop.Launched(), phase := Selecting, running := s.running + {s.loop.nextDone}, stage := Waiting,
           runs := s.runs + [s.loop.NextRun()], spans := s.spans + [Newest(s)])
      else s.(phase := Selecting)
    case Collect => s.(loop := s.loop.(curDone := None), phase := Top)
    case Finish(k) => s.(running := s.running - {k}, closed := s.closed + {k})
    case ShutDown => s.(shutdown := true)
    case Stop => s.(phase := Stopping)
    case Exit => s.(phase := Stopped, closed := s.closed + {s.loop.nextDone})
  }

  ghost predicate IsTrace(states: seq<System>, actions: seq<Action>) {
    && |states| == |actions| + 1 && IsInitial(states[0])
    && (forall i :: 0 <= i < |actions| ==> Enabled(states[i], actions[i]) && states[i + 1] == Do(states[i], actions[i]))
  }

  // ---------------------------------------------------------------- the invariant

  /** The reset that carries the head changes from position `i` to position `j`. */
  function Span(heads: seq<Hash>, i: nat, j: nat): Option<HeadChange>
    requires i <= j < |heads|
  {
    if i == j then None else Some(HeadChange(heads[i], heads[j]))
  }

  /** The accounts that promotion requests answered with channel `k` have named. */
  function DirtyOf(ps: seq<Promise>, k: nat): Option<set<Address>> {
    if ps == [] then None
    else
      var d := DirtyOf(ps[..|ps| - 1], k);
      var p := ps[|ps| - 1];
      if p.ch == k && p.req.PromoteSet? then Merge(d, p.req.accounts) else d
  }

  /** The events of one batch; a later event replaces an earlier one of the same sender and nonce. */
  function BatchOf(log: seq<Queued>, k: nat): Events {
    if log == [] then map[]
    else
      var m := BatchOf(log[..|log| - 1], k);
      var q := log[|log| - 1];
      if q.batch == k then m[Key(q.tx) := q.tx] else m
  }

  /** Where the head changes used by run `k` end: at the next run's start, or at the newest head. */
  function SpanEnd(s: System, k: nat): nat
    requires |s.spans| == |s.runs| + 1 && k <= |s.runs|
  {
    if k < |s.runs| then s.spans[k + 1] else Newest(s)
  }

  ghost predicate ChannelsOk(s: System) {
    && s.loop.nextDone == |s.runs|
    && (forall k :: 0 <= k < |s.runs| ==> s.runs[k].done == k)
    && (forall k :: k in s.running ==> s.loop.curDone == Some(k) && k < |s.runs| && k !in s.closed)
    && (s.loop.curDone.Some? ==> s.loop.curDone.value < |s.runs|)
    && (forall k :: 0 <= k < |s.runs| ==> k in s.running || k in s.closed)
    && (forall k :: k in s.closed ==> k < |s.runs| || (s.phase == Stopped && k == |s.runs|))
    && (s.phase == Stopped ==> s.running == {} && |s.runs| in s.closed)
    && (s.phase == Stopping || s.phase == Stopped ==> s.shutdown)
    && (s.phase == Selecting && s.loop.launchNextRun ==> s.loop.curDone.Some?)
  }

  ghost predicate ClientsOk(s: System) {
    && |s.clients| >= 1
    && (s.phase == Replying ==>
          && s.promises != []
          && var p := s.promises[|s.promises| - 1];
             p.client < |s.clients| && s.clients[p.client] == Sent(p.req) && p.ch == s.loop.nextDone)
    && (forall c :: 0 <= c < |s.clients| && s.clients[c].Sent? ==>
          && s.phase == Replying && s.promises != []
          && s.promises[|s.promises| - 1].client == c)
    && (forall c :: 0 <= c < |s.clients| && s.clients[c].Got? ==>
          Promise(c, s.clients[c].req, s.clients[c].ch) in s.promises)
  }

  /** What belongs to run `k`, launched or still being collected, is what was asked and queued for it. */
  ghost predicate BatchOk(s: System, k: nat, reset: Option<HeadChange>, dirty: Option<set<Address>>, events: Events) {
    && k < |s.spans| == |s.runs| + 1 && k <= |s.runs|
    && s.spans[k] <= SpanEnd(s, k) < |s.heads|
    && reset == Span(s.heads, s.spans[k], SpanEnd(s, k))
    && dirty == DirtyOf(s.promises, k) && events == BatchOf(s.log, k)
  }

  ghost predicate RunOk(s: System, k: nat) {
    k < |s.runs| && BatchOk(s, k, s.runs[k].reset, s.runs[k].dirty, s.runs[k].events)
  }

  ghost predicate RunsOk(s: System) {
    && |s.spans| == |s.runs| + 1 && s.spans[0] == 0
    && (forall k :: 0 <= k < |s.runs| ==> RunOk(s, k))
    && BatchOk(s, |s.runs|, s.loop.reset, s.loop.dirtyAccounts, s.loop.queuedEvents)
  }

  /** A reset request is one head change, and it lies in the span of the run it waits for. */
  ghost predicate InSpan(s: System, change: HeadChange, k: nat) {
    && |s.spans| == |s.runs| + 1 && k <= |s.runs|
    && exists i: nat :: s.spans[k] <= i < SpanEnd(s, k) < |s.heads| && change == Step(s.heads, i)
  }

  function Step(heads: seq<Hash>, i: nat): HeadChange
    requires i + 1 < |heads|
  {
    HeadChange(heads[i], heads[i + 1])
  }

  ghost predicate Asked(promises: seq<Promise>, k: nat) { exists p :: p in promises && p.ch == k }

  ghost predicate PromisesOk(s: System) {
    && (forall p :: p in s.promises ==> p.ch <= |s.runs|)
    && (forall p :: p in s.promises && p.req.ResetTo? ==> InSpan(s, p.req.change, p.ch))
    && (forall q :: q in s.log ==> q.batch <= |s.runs|)
    && (s.loop.launchNextRun <==> Asked(s.promises, |s.runs|))
    && (forall k :: 0 <= k < |s.runs| ==> Asked(s.promises, k))
  }

  /** The main loop always asks for the step from the head it knows, which is the newest accepted one. */
  ghost predicate HeadOk(s: System)
    requires |s.clients| >= 1 && |s.heads| > 0
  {
    var newest := s.heads[|s.heads| - 1];
    && (s.clients[0].Sent? ==> s.clients[0].req.ResetTo? && s.clients[0].req.change.newHead == newest)
    && (!s.clients[0].Sent? ==> s.head == newest)
    && (s.clients[0].Asking? ==> s.clients[0].req.ResetTo? && s.clients[0].req.change.oldHead == s.head)
    && (forall c :: 0 < c < |s.clients| && (s.clients[c].Asking? || s.clients[c].Sent?)
          ==> s.clients[c].req.PromoteSet?)
  }

  /** The run that is under the mutex is the active one. */
  ghost predicate MutexOk(s: System) { s.mutex.ByRun? <==> s.running != {} && s.stage == Inside }

  ghost predicate Inv(s: System) {
    ChannelsOk(s) && ClientsOk(s) && RunsOk(s) && PromisesOk(s) && HeadOk(s) && MutexOk(s)
  }

  lemma InitialInv(s: System)
    requires IsInitial(s)
    ensures Inv(s)
  {
  }

  lemma DirtySnoc(ps: seq<Promise>, p: Promise, k: nat)
    ensures DirtyOf(ps + [p], k) ==
      if p.ch == k && p.req.PromoteSet? then Merge(DirtyOf(ps, k), p.req.accounts) else DirtyOf(ps, k)
  {
    assert (ps + [p])[..|ps|] == ps;
  }

  lemma BatchSnoc(log: seq<Queued>, q: Queued, k: nat)
    ensures BatchOf(log + [q], k) == if q.batch == k then BatchOf(log, k)[Key(q.tx) := q.tx] else BatchOf(log, k)
  {
    assert (log + [q])[..|log|] == log;
  }

  lemma {:induction false} NoDirtyYet(ps: seq<Promise>, k: nat)
    requires forall p :: p in ps ==> p.ch < k
    ensures DirtyOf(ps, k) == None
    decreases |ps|
  {
    if ps != [] { NoDirtyYet(ps[..|ps| - 1], k); }
  }

  lemma {:induction false} NoBatchYet(log: seq<Queued>, k: nat)
    requires forall q :: q in log ==> q.batch < k
    ensures BatchOf(log, k) == map[]
    decreases |log|
  {
    if log != [] { NoBatchYet(log[..|log| - 1], k); }
  }

  lemma AcceptKeepsBatch(s: System, c: nat, k: nat)
    requires Inv(s) && Enabled(s, Accept(c)) && k < |s.runs|
    ensures RunOk(Do(s, Accept(c)), k)
  {
    assert RunOk(s, k);
    DirtySnoc(s.promises, Promise(c, s.clients[c].req, s.loop.nextDone), k);
  }

  lemma AcceptKeepsRuns(s: System, c: nat)
    requires Inv(s) && Enabled(s, Accept(c))
    ensures RunsOk(Do(s, Accept(c)))
  {
    forall k | 0 <= k < |s.runs| ensures RunOk(Do(s, Accept(c)), k) { AcceptKeepsBatch(s, c, k); }
    hide RunOk;
    var req := s.clients[c].req;
    DirtySnoc(s.promises, Promise(c, req, s.loop.nextDone), |s.runs|);
    if req.ResetTo? { assert req.change.oldHead == s.heads[|s.heads| - 1]; }
  }

  lemma AcceptKeepsPromises(s: System, c: nat)
    requires Inv(s) && Enabled(s, Accept(c))
    ensures PromisesOk(Do(s, Accept(c)))
  {
    Sizes(s);
    forall p | p in s.promises && p.req.ResetTo? ensures InSpan(Do(s, Accept(c)), p.req.change, p.ch) {
      AcceptKeepsSpan(s, c, p);
    }
    if s.clients[c].req.ResetTo? { AcceptAddsSpan(s, c); }
    AcceptKeepsAsked(s, c);
    hide RunOk, InSpan, Asked, ClientsOk, HeadOk;
  }

  lemma AcceptKeepsSpan(s: System, c: nat, p: Promise)
    requires PromisesOk(s) && Enabled(s, Accept(c)) && p in s.promises && p.req.ResetTo?
    ensures InSpan(Do(s, Accept(c)), p.req.change, p.ch)
  {
    var t := Do(s, Accept(c));
    assert InSpan(s, p.req.change, p.ch);
    hide PromisesOk;
    var i: nat :| s.spans[p.ch] <= i < SpanEnd(s, p.ch) < |s.heads| && p.req.change == Step(s.heads, i);
    assert Step(t.heads, i) == Step(s.heads, i);
  }

  /** The head change that is accepted is the last one of the pending span. */
  lemma AcceptAddsSpan(s: System, c: nat)
    requires Inv(s) && Enabled(s, Accept(c)) && s.clients[c].req.ResetTo?
    ensures InSpan(Do(s, Accept(c)), s.clients[c].req.change, |s.runs|)
  {
    Sizes(s);
    hide RunOk, PromisesOk;
    var t := Do(s, Accept(c));
    assert s.clients[c].req.change == Step(t.heads, |s.heads| - 1);
  }

  lemma AcceptKeepsAsked(s: System, c: nat)
    requires ChannelsOk(s) && PromisesOk(s) && Enabled(s, Accept(c))
    ensures var t := Do(s, Accept(c)); forall k :: 0 <= k <= |t.runs| ==> Asked(t.promises, k)
  {
    hide InSpan;
    var t := Do(s, Accept(c));
    var last := t.promises[|s.promises|];
    assert last in t.promises && last.ch == |t.runs|;
    forall k | 0 <= k < |t.runs| ensures Asked(t.promises, k) {
      assert Asked(s.promises, k);
      var p :| p in s.promises && p.ch == k;
      assert p in t.promises;
    }
  }

  lemma AcceptKeepsClients(s: System, c: nat)
    requires Inv(s) && Enabled(s, Accept(c))
    ensures ClientsOk(Do(s, Accept(c))) && ChannelsOk(Do(s, Accept(c))) && HeadOk(Do(s, Accept(c)))
  {
    var t := Do(s, Accept(c));
    hide RunsOk, PromisesOk;
    forall d | 0 <= d < |t.clients| && t.clients[d].Got?
      ensures Promise(d, t.clients[d].req, t.clients[d].ch) in t.promises
    {
      assert Promise(d, s.clients[d].req, s.clients[d].ch) in s.promises;
    }
  }

  /** Runs and promises depend only on the history and on what the loop has collected. */
  lemma SameHistory(s: System, t: System)
    requires RunsOk(s) && PromisesOk(s)
    requires t.runs == s.runs && t.heads == s.heads && t.spans == s.spans && t.promises == s.promises && t.log == s.log
    requires t.loop == s.loop.(curDone := t.loop.curDone)
    ensures RunsOk(t) && PromisesOk(t)
  {
    forall k | 0 <= k < |s.runs| ensures RunOk(t, k) { assert RunOk(s, k); }
    forall p | p in s.promises && p.req.ResetTo? ensures InSpan(t, p.req.change, p.ch) {
      assert InSpan(s, p.req.change, p.ch);
    }
  }

  lemma ReplyKeepsInv(s: System, c: nat)
    requires Inv(s) && Enabled(s, Reply(c))
    ensures Inv(Do(s, Reply(c)))
  {
    SameHistory(s, Do(s, Reply(c)));
    hide RunsOk, PromisesOk;
    var p := s.promises[|s.promises| - 1];
    assert p in s.promises && p == Promise(c, s.clients[c].req, s.loop.nextDone);
  }

  lemma Sizes(s: System)
    requires RunsOk(s)
    ensures |s.heads| > 0 && |s.spans| == |s.runs| + 1
  {
    hide BatchOf, DirtyOf, Span, RunOk;
  }

  lemma EventKeepsInv(s: System, tx: Tx)
    requires Inv(s) && Enabled(s, Event(tx))
    ensures Inv(Do(s, Event(tx)))
  {
    Sizes(s);
    hide ChannelsOk, ClientsOk, RunsOk, PromisesOk, HeadOk, Enabled, Do;
    EventKeepsRuns(s, tx);
    EventKeepsPromises(s, tx);
    EventKeepsClients(s, tx);
  }

  lemma EventKeepsRuns(s: System, tx: Tx)
    requires ChannelsOk(s) && RunsOk(s) && Enabled(s, Event(tx))
    ensures RunsOk(Do(s, Event(tx)))
  {
    var t := Do(s, Event(tx));
    forall k | 0 <= k < |s.runs| ensures RunOk(t, k) {
      assert RunOk(s, k);
      BatchSnoc(s.log, Queued(tx, |s.runs|), k);
    }
    BatchSnoc(s.log, Queued(tx, |s.runs|), |s.runs|);
    hide RunOk;
  }

  lemma EventKeepsPromises(s: System, tx: Tx)
    requires ChannelsOk(s) && PromisesOk(s) && Enabled(s, Event(tx))
    ensures PromisesOk(Do(s, Event(tx)))
  {
    var t := Do(s, Event(tx));
    forall p | p in s.promises && p.req.ResetTo? ensures InSpan(t, p.req.change, p.ch) {
      assert InSpan(s, p.req.change, p.ch);
    }
  }

  lemma EventKeepsClients(s: System, tx: Tx)
    requires ChannelsOk(s) && ClientsOk(s) && |s.heads| > 0 && HeadOk(s) && Enabled(s, Event(tx))
    ensures ChannelsOk(Do(s, Event(tx))) && ClientsOk(Do(s, Event(tx))) && HeadOk(Do(s, Event(tx)))
  {
  }

  /** A launch does not move what earlier runs, or the one launched, have used. */
  lemma LaunchKeepsSpans(s: System, k: nat)
    requires ChannelsOk(s) && |s.spans| == |s.runs| + 1 && Enabled(s, Iterate) && s.loop.Launches() && k <= |s.runs|
    ensures var t := Do(s, Iterate);
      && |t.runs| == |s.runs| + 1 == |t.spans| - 1 && t.spans[k] == s.spans[k] && SpanEnd(t, k) == SpanEnd(s, k)
  {
  }

  lemma LaunchKeepsRuns(s: System)
    requires ChannelsOk(s) && RunsOk(s) && PromisesOk(s) && Enabled(s, Iterate) && s.loop.Launches()
    ensures RunsOk(Do(s, Iterate))
  {
    hide Asked, InSpan;
    var t := Do(s, Iterate);
    NoDirtyYet(s.promises, |t.runs|);
    NoBatchYet(s.log, |t.runs|);
    forall k | 0 <= k < |t.runs| ensures RunOk(t, k) {
      LaunchKeepsSpans(s, k);
      if k < |s.runs| { assert RunOk(s, k); }
    }
    hide RunOk, PromisesOk, ChannelsOk;
  }

  lemma LaunchKeepsPromises(s: System)
    requires ChannelsOk(s) && |s.spans| == |s.runs| + 1 && PromisesOk(s) && Enabled(s, Iterate) && s.loop.Launches()
    ensures PromisesOk(Do(s, Iterate))
  {
    var t := Do(s, Iterate);
    forall p | p in s.promises && p.req.ResetTo? ensures InSpan(t, p.req.change, p.ch) {
      assert InSpan(s, p.req.change, p.ch);
      LaunchKeepsSpans(s, p.ch);
    }
  }

  lemma LaunchKeepsClients(s: System)
    requires Inv(s) && Enabled(s, Iterate) && s.loop.Launches()
    ensures ChannelsOk(Do(s, Iterate)) && ClientsOk(Do(s, Iterate)) && HeadOk(Do(s, Iterate))
  {
    hide RunsOk, PromisesOk;
  }

  ghost predicate Quiet(s: System, a: Action) {
    Enabled(s, a) && !a.Accept? && !a.Reply? && !a.Event? && (a.Iterate? ==> !s.loop.Launches())
  }

  lemma QuietIsEnabled(s: System, a: Action)
    requires Quiet(s, a)
    ensures Enabled(s, a)
  {
    hide Enabled;
  }

  lemma QuietKeepsChannels(s: System, a: Action)
    requires ChannelsOk(s) && Quiet(s, a)
    ensures ChannelsOk(Do(s, a))
  {
  }

  lemma QuietKeepsClients(s: System, a: Action)
    requires ClientsOk(s) && |s.heads| > 0 && HeadOk(s) && Quiet(s, a)
    ensures ClientsOk(Do(s, a)) && HeadOk(Do(s, a))
  {
  }

  lemma QuietKeepsHistory(s: System, a: Action)
    requires RunsOk(s) && PromisesOk(s) && Quiet(s, a)
    ensures RunsOk(Do(s, a)) && PromisesOk(Do(s, a))
  {
    hide RunsOk, PromisesOk;
    SameHistory(s, Do(s, a));
  }

  /** Everything else leaves the history alone. */
  lemma QuietKeepsInv(s: System, a: Action)
    requires Inv(s) && Quiet(s, a)
    ensures Inv(Do(s, a))
  {
    Sizes(s);
    QuietIsEnabled(s, a);
    hide ChannelsOk, ClientsOk, RunsOk, PromisesOk, HeadOk, Enabled, Do, Quiet;
    QuietKeepsChannels(s, a);
    QuietKeepsClients(s, a);
    QuietKeepsHistory(s, a);
  }

  lemma DoKeepsMutex(s: System, a: Action)
    requires ChannelsOk(s) && MutexOk(s) && Enabled(s, a)
    ensures MutexOk(Do(s, a))
  {
    if a.Finish? { assert s.running - {a.k} == {}; }
  }

  lemma DoKeepsInv(s: System, a: Action)
    requires Inv(s) && Enabled(s, a)
    ensures Inv(Do(s, a))
  {
    Sizes(s);
    DoKeepsMutex(s, a);
    hide ChannelsOk, ClientsOk, RunsOk, PromisesOk, HeadOk, MutexOk;
    match a
    case Accept(c) =>
      AcceptKeepsRuns(s, c);
      AcceptKeepsPromises(s, c);
      AcceptKeepsClients(s, c);
    case Reply(c) => ReplyKeepsInv(s, c);
    case Event(tx) => EventKeepsInv(s, tx);
    case Iterate =>
      if s.loop.Launches() {
        LaunchKeepsRuns(s);
        LaunchKeepsPromises(s);
        LaunchKeepsClients(s);
      } else {
        QuietKeepsInv(s, a);
      }
    case _ => QuietKeepsInv(s, a);
  }

  lemma {:induction false} InvInEveryTrace(states: seq<System>, actions: seq<Action>, i: nat)
    requires IsTrace(states, actions) && i < |states|
    ensures Inv(states[i])
    decreases i
  {
    if i == 0 {
      InitialInv(states[0]);
    } else {
      InvInEveryTrace(states, actions, i - 1);
      DoKeepsInv(states[i - 1], actions[i - 1]);
    }
  }

  // ---------------------------------------------------------------- what the invariant means

  lemma OneRunAtATime(states: seq<System>, actions: seq<Action>, i: nat)
    requires IsTrace(states, actions) && i < |states|
    ensures |states[i].running| <= 1
    ensures states[i].phase == Stopped ==> states[i].running == {}
  {
    InvInEveryTrace(states, actions, i);
    var s := states[i];
    if s.running != {} {
      var k :| k in s.running;
      assert s.running == {k};
    }
  }

  /** What a run owes a request: promotion of its accounts, or a reset across its head change. */
  ghost predicate Covers(run: Run, req: Request, heads: seq<Hash>) {
    match req
    case PromoteSet(accounts) => run.dirty.Some? && accounts <= run.dirty.value
    case ResetTo(change) =>
      exists i: nat, j: nat, k: nat ::
        i <= j < k < |heads| && run.reset == Span(heads, i, k) && change == Step(heads, j)
  }

  lemma {:induction false} DirtyIncludes(ps: seq<Promise>, p: Promise)
    requires p in ps && p.req.PromoteSet?
    ensures DirtyOf(ps, p.ch).Some? && p.req.accounts <= DirtyOf(ps, p.ch).value
    decreases |ps|
  {
    var most, last := ps[..|ps| - 1], ps[|ps| - 1];
    assert ps == most + [last];
    if p in most { DirtyIncludes(most, p); }
  }

  /**
   Whoever holds a channel that was returned for a request finds it closed only after a run that
   covers the request, one launched after the request was accepted, has finished. The one exception
   is the channel that shutdown closes.
   */
  lemma DoneMeansCovered(states: seq<System>, actions: seq<Action>, i: nat, c: nat)
    requires IsTrace(states, actions) && i < |states| && c < |states[i].clients|
    requires states[i].clients[c].Got? && states[i].clients[c].ch in states[i].closed
    ensures var s := states[i];
      var ch := s.clients[c].ch;
      || (ch < |s.runs| && s.runs[ch].done == ch && ch !in s.running && Covers(s.runs[ch], s.clients[c].req, s.heads))
      || (s.phase == Stopped && ch == |s.runs|)
  {
    InvInEveryTrace(states, actions, i);
    var s := states[i];
    var p := Promise(c, s.clients[c].req, s.clients[c].ch);
    assert p in s.promises;
    if p.ch < |s.runs| {
      if p.req.PromoteSet? {
        DirtyIncludes(s.promises, p);
        assert RunOk(s, p.ch);
      } else {
        assert RunOk(s, p.ch) && InSpan(s, p.req.change, p.ch);
        var j: nat :| s.spans[p.ch] <= j < SpanEnd(s, p.ch) < |s.heads| && p.req.change == Step(s.heads, j);
        assert s.runs[p.ch].reset == Span(s.heads, s.spans[p.ch], SpanEnd(s, p.ch));
      }
    }
  }

  /** The run a request waits for has not been launched when the request is accepted. */
  lemma CoveredByALaterRun(states: seq<System>, actions: seq<Action>, i: nat, c: nat)
    requires IsTrace(states, actions) && i < |actions| && actions[i] == Accept(c)
    ensures c < |states[i].clients| && states[i].clients[c].Asking?
    ensures var p := Promise(c, states[i].clients[c].req, |states[i].runs|);
      states[i + 1].promises == states[i].promises + [p] && p.ch !in states[i].running + states[i].closed
  {
    InvInEveryTrace(states, actions, i);
  }

  /** A reply always reaches the goroutine whose request it answers: no one else can be waiting. */
  lemma ReplyReachesItsClient(states: seq<System>, actions: seq<Action>, i: nat, c: nat)
    requires IsTrace(states, actions) && i < |states| && c < |states[i].clients|
    ensures Enabled(states[i], Reply(c)) <==>
      var s := states[i];
      s.phase == Replying && s.promises != [] && s.promises[|s.promises| - 1].client == c
    ensures states[i].phase == Replying ==> exists d :: Enabled(states[i], Reply(d))
  {
    InvInEveryTrace(states, actions, i);
    var s := states[i];
    if s.phase == Replying { assert Enabled(s, Reply(s.promises[|s.promises| - 1].client)); }
  }

  /**
   The resets of the launched runs, in order, tile the accepted heads: each starts where the one
   before ended, and the pending reset carries the rest.
   */
  lemma ResetsTileTheHeads(states: seq<System>, actions: seq<Action>, i: nat)
    requires IsTrace(states, actions) && i < |states|
    ensures var s := states[i];
      && |s.spans| == |s.runs| + 1 && s.spans[0] == 0
      && (forall k :: 0 <= k < |s.runs| ==> s.spans[k] <= SpanEnd(s, k) < |s.heads|)
      && (forall k :: 0 <= k < |s.runs| ==> s.runs[k].reset == Span(s.heads, s.spans[k], SpanEnd(s, k)))
      && s.spans[|s.runs|] < |s.heads| && s.loop.reset == Span(s.heads, s.spans[|s.runs|], |s.heads| - 1)
  {
    hide *;
    InvInEveryTrace(states, actions, i);
    RunsTile(states[i]);
  }

  lemma RunsTile(s: System)
    requires Inv(s)
    ensures |s.spans| == |s.runs| + 1 && s.spans[0] == 0 && |s.heads| > 0
    ensures forall k :: 0 <= k < |s.runs| ==> s.spans[k] <= SpanEnd(s, k) < |s.heads|
    ensures forall k :: 0 <= k < |s.runs| ==> s.runs[k].reset == Span(s.heads, s.spans[k], SpanEnd(s, k))
    ensures s.spans[|s.runs|] < |s.heads| && s.loop.reset == Span(s.heads, s.spans[|s.runs|], |s.heads| - 1)
  {
    hide ChannelsOk, ClientsOk, PromisesOk, HeadOk, Span, DirtyOf, BatchOf;
    forall k | 0 <= k < |s.runs|
      ensures s.spans[k] <= SpanEnd(s, k) < |s.heads|
      ensures s.runs[k].reset == Span(s.heads, s.spans[k], SpanEnd(s, k))
    {
      assert RunOk(s, k);
    }
  }

  /** A promotion request that waits for run `k` and names the account. */
  ghost predicate Names(ps: seq<Promise>, k: nat, a: Address) {
    exists p :: p in ps && p.ch == k && p.req.PromoteSet? && a in p.req.accounts
  }

  ghost predicate AsksToPromote(ps: seq<Promise>, k: nat) { exists p :: p in ps && p.ch == k && p.req.PromoteSet? }

  lemma {:induction false} DirtyExactly(ps: seq<Promise>, k: nat)
    ensures DirtyOf(ps, k).Some? <==> AsksToPromote(ps, k)
    ensures DirtyOf(ps, k).Some? ==> forall a :: a in DirtyOf(ps, k).value <==> Names(ps, k, a)
    decreases |ps|
  {
    if ps != [] {
      var most, last := ps[..|ps| - 1], ps[|ps| - 1];
      assert ps == most + [last];
      DirtyExactly(most, k);
      assert AsksToPromote(ps, k) <==> AsksToPromote(most, k) || (last.ch == k && last.req.PromoteSet?);
      forall a ensures Names(ps, k, a) <==>
        Names(most, k, a) || (last.ch == k && last.req.PromoteSet? && a in last.req.accounts) { }
      if last.ch == k && last.req.PromoteSet? && !AsksToPromote(most, k) {
        forall a ensures !Names(most, k, a) { }
      }
      hide AsksToPromote, Names;
    }
  }

  /** Runs happen only on request, and a run promotes exactly the accounts named by its requests. */
  lemma RunsAreRequested(states: seq<System>, actions: seq<Action>, i: nat, k: nat)
    requires IsTrace(states, actions) && i < |states| && k < |states[i].runs|
    ensures var s := states[i];
      && (exists p :: p in s.promises && p.ch == k)
      && (s.runs[k].dirty.Some? <==> exists p :: p in s.promises && p.ch == k && p.req.PromoteSet?)
      && (s.runs[k].dirty.Some? ==> forall a :: a in s.runs[k].dirty.value <==> Names(s.promises, k, a))
  {
    InvInEveryTrace(states, actions, i);
    assert RunOk(states[i], k) && Asked(states[i].promises, k);
    DirtyExactly(states[i].promises, k);
    hide DirtyOf, BatchOf, ClientsOk, ChannelsOk, HeadOk, Names;
  }

  lemma {:induction false} BatchHolds(log: seq<Queued>, i: nat)
    requires i < |log|
    requires forall j :: i < j < |log| && log[j].batch == log[i].batch ==> Key(log[j].tx) != Key(log[i].tx)
    ensures Key(log[i].tx) in BatchOf(log, log[i].batch) && BatchOf(log, log[i].batch)[Key(log[i].tx)] == log[i].tx
    decreases |log|
  {
    var most := log[..|log| - 1];
    if i < |most| {
      assert most[i] == log[i] && log[|log| - 1].batch == log[i].batch ==> Key(log[|log| - 1].tx) != Key(log[i].tx);
      BatchHolds(most, i);
    }
  }

  lemma {:induction false} BatchOnlyHolds(log: seq<Queued>, k: nat, key: (Address, nat))
    requires key in BatchOf(log, k)
    ensures exists e :: LatestFor(log, k, e) && log[e].tx == BatchOf(log, k)[key] && Key(log[e].tx) == key
    decreases |log|
  {
    var most, last := log[..|log| - 1], log[|log| - 1];
    if last.batch == k && Key(last.tx) == key {
      assert LatestFor(log, k, |log| - 1);
    } else {
      BatchOnlyHolds(most, k, key);
      var e :| LatestFor(most, k, e) && most[e].tx == BatchOf(most, k)[key] && Key(most[e].tx) == key;
      assert LatestFor(log, k, e);
    }
  }

  lemma {:induction false} BatchKeyed(log: seq<Queued>, k: nat)
    ensures Keyed(BatchOf(log, k))
    decreases |log|
  {
    if log != [] { BatchKeyed(log[..|log| - 1], k); }
  }

  /** The events that a run is handed are stored under their own senders and nonces. */
  lemma EventsAreKeyed(states: seq<System>, actions: seq<Action>, i: nat, k: nat)
    requires IsTrace(states, actions) && i < |states| && k < |states[i].runs|
    ensures Keyed(states[i].runs[k].events)
  {
    InvInEveryTrace(states, actions, i);
    assert RunOk(states[i], k);
    BatchKeyed(states[i].log, k);
    hide Keyed, BatchOf;
  }

  /** The latest event of its sender and nonce that was queued for run `k`. */
  ghost predicate LatestFor(log: seq<Queued>, k: nat, e: int) {
    && 0 <= e < |log| && log[e].batch == k
    && forall f :: e < f < |log| && log[f].batch == k ==> !SameSlot(log[f].tx, log[e].tx)
  }

  /**
   Every queued event is handed to exactly one run, the first one launched after it was queued,
   unless a later event of the same sender and nonce took its place before that; and a run is handed
   nothing else.
   */
  lemma EventsDeliveredOnce(states: seq<System>, actions: seq<Action>, i: nat, k: nat)
    requires IsTrace(states, actions) && i < |states| && k < |states[i].runs|
    ensures var s := states[i];
      && (forall e :: LatestFor(s.log, k, e) ==> s.log[e].tx in s.runs[k].events.Values)
      && (forall tx :: tx in s.runs[k].events.Values ==> exists e :: LatestFor(s.log, k, e) && s.log[e].tx == tx)
  {
    InvInEveryTrace(states, actions, i);
    var s := states[i];
    assert RunOk(s, k);
    hide BatchOf, ChannelsOk, ClientsOk, PromisesOk, HeadOk, DirtyOf;
    forall e | LatestFor(s.log, k, e) ensures s.log[e].tx in s.runs[k].events.Values {
      BatchHolds(s.log, e);
      assert s.runs[k].events[Key(s.log[e].tx)] == s.log[e].tx;
    }
    forall tx | tx in s.runs[k].events.Values ensures exists e :: LatestFor(s.log, k, e) && s.log[e].tx == tx {
      var key :| key in s.runs[k].events && s.runs[k].events[key] == tx;
      BatchOnlyHolds(s.log, k, key);
    }
  }

  // ---------------------------------------------------------------- no request is stuck

  /**
   The steps of the scheduler, of the active run, and of whoever has the mutex, including the events
   they send to the scheduler.
   */
  predicate Own(a: Action) {
    || a.Reply? || a.Iterate? || a.Collect? || a.Finish? || a.Stop? || a.Exit?
    || a.RunLock? || a.Event? || a.SkipEvent? || a.Unlock?
  }

  predicate Busy(s: System) { s.loop.curDone.Some? && s.loop.curDone.value in s.running }

  /** One of them that is possible; `tx` is what the holder of the mutex has an event for. */
  function OwnStep(s: System, tx: Tx): Action {
    match s.phase
    case Replying => Reply(if s.promises == [] then 0 else s.promises[|s.promises| - 1].client)
    case Top => Iterate
    case _ =>
      if !Busy(s) then if s.phase == Selecting then Collect else Exit
      else if s.stage == Past then Finish(s.loop.curDone.value)
      else if s.mutex == Free then RunLock(0)
      else if s.mutex.left == 0 then Unlock
      else if s.phase == Selecting then Event(tx)
      else SkipEvent
  }

  /** What is left to do: launches, stages of the active run, events, and steps of the scheduler. */
  datatype Work = Work(launches: nat, stages: nat, events: nat, steps: nat)
  {
    predicate Below(w: Work) {
      || launches < w.launches
      || (launches == w.launches && stages < w.stages)
      || (launches == w.launches && stages == w.stages && events < w.events)
      || (launches == w.launches && stages == w.stages && events == w.events && steps < w.steps)
    }
  }

  /** The work that is left before an outstanding channel is closed. */
  function WorkLeft(s: System, ch: nat): Work {
    Work(
      if ch < |s.runs| then 0 else 1,
      if Busy(s) then (match s.stage case Waiting => 4 case Inside => 3 case Past => 2)
      else if s.loop.curDone.Some? then 1 else 0,
      if s.mutex == Free then 0 else s.mutex.left + 1,
      match s.phase case Replying => 4 case Top => 3 case Selecting => 2 case Stopping => 1 case Stopped => 0)
  }

  /**
   As long as an accepted request is unanswered the scheduler, the active run and the holder of the
   mutex can move without anybody else's help, although the run and the holder send events that the
   scheduler must receive; and whichever such move they make leaves less work before the channel is
   closed. There is no infinite descent in this order.
   */
  lemma NoRequestIsStuck(states: seq<System>, actions: seq<Action>, i: nat, p: Promise, tx: Tx)
    requires IsTrace(states, actions) && i < |states|
    requires p in states[i].promises && p.ch !in states[i].closed
    ensures var s := states[i];
      && Own(OwnStep(s, tx)) && Enabled(s, OwnStep(s, tx))
      && forall a :: Own(a) && Enabled(s, a) ==>
           p.ch in Do(s, a).closed || WorkLeft(Do(s, a), p.ch).Below(WorkLeft(s, p.ch))
  {
    InvInEveryTrace(states, actions, i);
    var s := states[i];
    hide RunsOk, HeadOk;
    assert p.ch <= |s.runs|;
    Wanted(s, p);
    hide PromisesOk, WorkLeft, Do, Own, Enabled, OwnStep, ChannelsOk, ClientsOk, MutexOk;
    OwnStepPossible(s, p.ch, tx);
    forall a | Own(a) && Enabled(s, a)
      ensures p.ch in Do(s, a).closed || WorkLeft(Do(s, a), p.ch).Below(WorkLeft(s, p.ch))
    {
      OwnStepNearer(s, a, p.ch);
    }
  }

  lemma Wanted(s: System, p: Promise)
    requires PromisesOk(s) && p in s.promises
    ensures p.ch == |s.runs| ==> s.loop.launchNextRun
  {
    assert Asked(s.promises, p.ch);
  }

  lemma OwnStepPossible(s: System, ch: nat, tx: Tx)
    requires ChannelsOk(s) && ClientsOk(s) && MutexOk(s) && ch <= |s.runs| && ch !in s.closed
    requires ch == |s.runs| ==> s.loop.launchNextRun
    ensures Own(OwnStep(s, tx)) && Enabled(s, OwnStep(s, tx))
  {
  }

  lemma OwnStepNearer(s: System, a: Action, ch: nat)
    requires ChannelsOk(s) && ClientsOk(s) && MutexOk(s) && ch <= |s.runs| && ch !in s.closed && Own(a) && Enabled(s, a)
    requires ch == |s.runs| ==> s.loop.launchNextRun
    ensures ch in Do(s, a).closed || WorkLeft(Do(s, a), ch).Below(WorkLeft(s, ch))
  {
  }

  /** No descent in this order goes on forever: it is bounded in each component in turn. */
  lemma {:induction false} WorkEnds(w: nat -> Work, n: nat)
    requires forall i: nat :: w(i + 1).Below(w(i))
    ensures false
    decreases w(n).launches, w(n).stages, w(n).events, w(n).steps
  {
    assert w(n + 1).Below(w(n));
    WorkEnds(w, n + 1);
  }

  /** Whoever waits for the scheduler is served as soon as it listens, and it can always get there. */
  lemma NobodyWaitsInVain(states: seq<System>, actions: seq<Action>, i: nat, c: nat, tx: Tx)
    requires IsTrace(states, actions) && i < |states| && c < |states[i].clients|
    requires states[i].clients[c].Asking? || states[i].clients[c].Sent?
    ensures var s := states[i];
      Enabled(s, Accept(c)) || Enabled(s, Reply(c)) || Enabled(s, GiveUp(c)) || Enabled(s, OwnStep(s, tx))
  {
    InvInEveryTrace(states, actions, i);
    hide RunsOk, HeadOk, PromisesOk;
  }
}
