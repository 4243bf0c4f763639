/** What the walk between two heads decides, said of the blocks of the two branches. */
module ReorgBranches {
  import opened Wrappers
  import opened Transactions
  import opened Selections
  import opened ReorgWalk

  /** Each block names the next one as its parent, one number below, and the chain knows that. */
  ghost predicate IsPath(s: Store, path: seq<Block>) {
    && path != []
    && forall i :: 0 <= i < |path| - 1 ==> Follows(s, path[i], path[i + 1])
  }

  predicate Follows(s: Store, b: Block, p: Block) {
    b.number > 0 && (b.parent, b.number - 1) in s && s[(b.parent, b.number - 1)] == p
  }

  /** `b` is `x` or one of its ancestors. */
  ghost predicate Reaches(s: Store, x: Block, b: Block) {
    exists path :: IsPath(s, path) && path[0] == x && path[|path| - 1] == b
  }

  lemma ParentIs(s: Store, b: Block, p: Block)
    requires StoreOk(s)
    ensures Parent(s, b) == Some(p) <==> Follows(s, b, p)
  {
  }

  lemma {:induction false} PathClimbs(s: Store, path: seq<Block>)
    requires StoreOk(s) && IsPath(s, path)
    ensures Climb(s, path[0], path[|path| - 1].number) == Some(path[|path| - 1])
    decreases |path|
  {
    if |path| > 1 {
      var rest := path[1..];
      assert Follows(s, path[0], path[1]);
      ParentIs(s, path[0], path[1]);
      forall i | 0 <= i < |rest| - 1 ensures Follows(s, rest[i], rest[i + 1]) {
        assert Follows(s, path[i + 1], path[i + 2]);
      }
      PathClimbs(s, rest);
    }
  }

  lemma {:induction false} ClimbPath(s: Store, x: Block, m: nat) returns (path: seq<Block>)
    requires StoreOk(s) && Climb(s, x, m).Some?
    ensures IsPath(s, path) && path[0] == x && path[|path| - 1] == Climb(s, x, m).value
    decreases x.number
  {
    if x.number == m {
      path := [x];
    } else {
      var p := Parent(s, x).value;
      ParentIs(s, x, p);
      var rest := ClimbPath(s, p, m);
      path := [x] + rest;
      forall i | 0 <= i < |path| - 1 ensures Follows(s, path[i], path[i + 1]) {
        if i > 0 { assert Follows(s, rest[i - 1], rest[i]); }
      }
    }
  }

  lemma ReachesIs(s: Store, x: Block, b: Block)
    requires StoreOk(s)
    ensures Reaches(s, x, b) <==> Climb(s, x, b.number) == Some(b)
  {
    if Reaches(s, x, b) {
      var path :| IsPath(s, path) && path[0] == x && path[|path| - 1] == b;
      PathClimbs(s, path);
    }
    if Climb(s, x, b.number) == Some(b) {
      var path := ClimbPath(s, x, b.number);
    }
  }

  /** On the branch of `x` and not on that of `y`. */
  ghost predicate Only(s: Store, x: Block, y: Block, b: Block) { Reaches(s, x, b) && !Reaches(s, y, b) }

  /** A transaction of a block on the branch of `x` alone. */
  ghost predicate TxOnly(s: Store, x: Block, y: Block, t: Tx) { exists b :: Only(s, x, y, b) && t in b.txs }

  lemma OnlyAbove(s: Store, x: Block, y: Block, m: nat, b: Block)
    requires StoreOk(s) && HighestMeeting(s, x, y, m)
    ensures Only(s, x, y, b) <==> b.number > m && Climb(s, x, b.number) == Some(b)
  {
    ReachesIs(s, x, b);
    ReachesIs(s, y, b);
    if Climb(s, x, b.number) == Some(b) { SharedBelow(s, x, y, m, b.number); }
    hide Climb, MeetsAt, Reaches;
  }

  lemma OnlyOn(s: Store, x: Block, y: Block, m: nat, t: Tx)
    requires StoreOk(s) && HighestMeeting(s, x, y, m)
    ensures TxOnly(s, x, y, t) <==> OnBranch(s, x, m, t)
  {
    forall b ensures Only(s, x, y, b) <==> b.number > m && Climb(s, x, b.number) == Some(b) {
      OnlyAbove(s, x, y, m, b);
    }
    hide HighestMeeting, Only;
    if OnBranch(s, x, m, t) {
      var k :| k > m && Climb(s, x, k).Some? && t in Climb(s, x, k).value.txs;
      assert Only(s, x, y, Climb(s, x, k).value);
    }
  }

  lemma MeetingSwaps(s: Store, x: Block, y: Block, m: nat)
    requires StoreOk(s) && HighestMeeting(s, x, y, m)
    ensures HighestMeeting(s, y, x, m)
  {
    hide Climb;
    forall k | k > m ensures !MeetsAt(s, y, x, k) { assert !MeetsAt(s, x, y, k); }
  }

  /** A common ancestor is a height at which the branches meet. */
  lemma MeetingIs(s: Store, x: Block, y: Block)
    requires StoreOk(s)
    ensures (exists m :: MeetsAt(s, x, y, m)) <==> exists b :: Reaches(s, x, b) && Reaches(s, y, b)
  {
    forall b ensures (Reaches(s, x, b) <==> Climb(s, x, b.number) == Some(b))
      && (Reaches(s, y, b) <==> Climb(s, y, b.number) == Some(b))
    {
      ReachesIs(s, x, b);
      ReachesIs(s, y, b);
    }
    hide Reaches;
    if m :| MeetsAt(s, x, y, m) {
      var b := Climb(s, x, m).value;
      assert Reaches(s, x, b) && Reaches(s, y, b);
    }
    if b :| Reaches(s, x, b) && Reaches(s, y, b) { assert MeetsAt(s, x, y, b.number); }
  }

  /** The new head is no child of the old one, and at most 64 blocks away from it. */
  predicate Near(oldHead: Option<Header>, newHead: Header) {
    && oldHead.Some? && newHead.parent != oldHead.value.hash
    && -64 <= newHead.number - oldHead.value.number <= 64
  }

  predicate Stored(s: Store, h: Header) { (h.hash, h.number) in s }

  function At(s: Store, h: Header): Block
    requires Stored(s, h)
  {
    s[(h.hash, h.number)]
  }

  /**
   What is put back, transaction by transaction: what is in a block of the old branch that is not on the
   new one, unless a block of the new branch that is not on the old one has it too.
   */
  lemma PutBackExactly(s: Store, oldHead: Option<Header>, newHead: Header, o: Outcome, t: Tx)
    requires StoreOk(s) && IsOutcome(s, oldHead, newHead, o)
    ensures o.Proceed? && t in o.reinject <==>
      && Near(oldHead, newHead) && Stored(s, oldHead.value) && Stored(s, newHead)
      && var x, y := At(s, oldHead.value), At(s, newHead);
        && (exists b :: Reaches(s, x, b) && Reaches(s, y, b))
        && TxOnly(s, x, y, t) && !exists u :: TxOnly(s, y, x, u) && u.hash == t.hash
  {
    if Near(oldHead, newHead) && Stored(s, oldHead.value) && Stored(s, newHead) {
      var x, y := At(s, oldHead.value), At(s, newHead);
      MeetingIs(s, x, y);
      if exists m :: MeetsAt(s, x, y, m) {
        hide Reaches, MeetsAt, OnBranch, TxOnly, HighestMeeting;
        var m :| HighestMeeting(s, x, y, m) && forall t ::
          t in o.reinject <==> OnBranch(s, x, m, t) && !exists u :: OnBranch(s, y, m, u) && u.hash == t.hash;
        MeetingSwaps(s, x, y, m);
        forall u
          ensures (TxOnly(s, x, y, u) <==> OnBranch(s, x, m, u)) && (TxOnly(s, y, x, u) <==> OnBranch(s, y, m, u))
        {
          OnlyOn(s, x, y, m, u);
          OnlyOn(s, y, x, m, u);
        }
      }
    }
  }

  /** When the reset gives up, and when it meets a block that is not there. */
  lemma RefusesExactly(s: Store, oldHead: Option<Header>, newHead: Header, o: Outcome)
    requires StoreOk(s) && IsOutcome(s, oldHead, newHead, o)
    ensures o.GiveUp? <==>
      && Near(oldHead, newHead)
      && if !Stored(s, oldHead.value) then newHead.number >= oldHead.value.number
         else Stored(s, newHead) && !exists b :: Reaches(s, At(s, oldHead.value), b) && Reaches(s, At(s, newHead), b)
    ensures o.Crash? <==> Near(oldHead, newHead) && Stored(s, oldHead.value) && !Stored(s, newHead)
  {
    if Near(oldHead, newHead) && Stored(s, oldHead.value) && Stored(s, newHead) {
      MeetingIs(s, At(s, oldHead.value), At(s, newHead));
    }
    hide Reaches, MeetsAt, PutBack;
  }

  /** What is put back comes in the order in which the walk met it, each as often as it was met. */
  lemma {:induction false} DifferencePicks(a: seq<Tx>, b: seq<Tx>) returns (at: seq<nat>)
    ensures PicksAt(a, Difference(a, b), (t: Tx) => t.hash !in HashesOf(b), at)
    decreases |a|
  {
    var want := (t: Tx) => t.hash !in HashesOf(b);
    hide PicksAt, HashesOf;
    if a == [] {
      at := [];
      NonePicked(want);
    } else {
      var most, t := a[..|a| - 1], a[|a| - 1];
      var before := DifferencePicks(most, b);
      assert a == most + [t];
      OneMorePicked(most, t, Difference(most, b), want, before);
      at := if want(t) then before + [|most|] else before;
    }
  }
}
