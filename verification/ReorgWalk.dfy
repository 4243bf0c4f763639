/**
 The walk between two chain heads by which a reset finds the transactions to put back: both branches
 are followed down to where they meet.
 */
module ReorgWalk {
  import opened Wrappers
  import opened Transactions

  datatype Header = Header(hash: Hash, number: nat, parent: Hash)

  datatype Block = Block(hash: Hash, number: nat, parent: Hash, txs: seq<Tx>)

  /** The blocks the chain can look up, by hash and number. */
  type Store = map<(Hash, nat), Block>

  /** What subtracting one from block number zero yields in 64 bits; no block has this number. */
  const NO_NUMBER: nat := 0xFFFF_FFFF_FFFF_FFFF

  ghost predicate StoreOk(s: Store) {
    forall k :: k in s ==> s[k].hash == k.0 && s[k].number == k.1 && k.1 < NO_NUMBER
  }

  function GetBlock(s: Store, hash: Hash, number: nat): Option<Block> {
    if (hash, number) in s then Some(s[(hash, number)]) else None
  }

  function Parent(s: Store, b: Block): (p: Option<Block>)
    ensures StoreOk(s) && p.Some? ==> p.value.number + 1 == b.number
  {
    GetBlock(s, b.parent, if b.number == 0 then NO_NUMBER else b.number - 1)
  }

  /** `b` is the block the chain has under its hash and number. */
  predicate Known(s: Store, b: Block) { GetBlock(s, b.hash, b.number) == Some(b) }

  /** The ancestor of `b` at height `m`, if the chain still knows every block down to it. */
  ghost function Climb(s: Store, b: Block, m: nat): (c: Option<Block>)
    requires StoreOk(s)
    ensures c.Some? ==> c.value.number == m <= b.number
    ensures c.Some? && Known(s, b) ==> Known(s, c.value)
    decreases b.number
  {
    if b.number == m then Some(b)
    else if b.number < m || Parent(s, b).None? then None
    else Climb(s, Parent(s, b).value, m)
  }

  /** The transactions of `b` and its ancestors above height `m`, newest block first. */
  ghost function TxsAbove(s: Store, b: Block, m: nat): seq<Tx>
    requires StoreOk(s) && Climb(s, b, m).Some?
    decreases b.number
  {
    if b.number == m then [] else b.txs + TxsAbove(s, Parent(s, b).value, m)
  }

  /** Both branches pass through the same block at height `m`. */
  ghost predicate MeetsAt(s: Store, x: Block, y: Block, m: nat)
    requires StoreOk(s)
  {
    Climb(s, x, m).Some? && Climb(s, x, m) == Climb(s, y, m)
  }

  ghost predicate HighestMeeting(s: Store, x: Block, y: Block, m: nat)
    requires StoreOk(s)
  {
    MeetsAt(s, x, y, m) && forall k :: k > m ==> !MeetsAt(s, x, y, k)
  }

  /** `cur` is an ancestor of `start`, and `txs` are the transactions from `start` down to it. */
  ghost predicate Descended(s: Store, start: Block, cur: Block, txs: seq<Tx>)
    requires StoreOk(s)
  {
    && Climb(s, start, cur.number) == Some(cur) && TxsAbove(s, start, cur.number) == txs
    && (forall m: nat :: m < cur.number ==> Climb(s, start, m) == Climb(s, cur, m))
  }

  lemma {:induction false} ClimbOn(s: Store, start: Block, m: nat)
    requires StoreOk(s) && Climb(s, start, m).Some?
    ensures var cur := Climb(s, start, m).value;
      match Parent(s, cur)
      case None => forall k: nat :: k < m ==> Climb(s, start, k).None?
      case Some(p) =>
        && Climb(s, start, p.number) == Some(p)
        && TxsAbove(s, start, p.number) == TxsAbove(s, start, m) + cur.txs
        && forall k: nat :: k < m ==> Climb(s, start, k) == Climb(s, p, k)
    decreases start.number
  {
    if start.number > m { ClimbOn(s, Parent(s, start).value, m); }
  }

  /** One step down, or proof that the branch ends here. */
  lemma DescendStep(s: Store, start: Block, cur: Block, txs: seq<Tx>)
    requires StoreOk(s) && Descended(s, start, cur, txs)
    ensures Parent(s, cur).None? ==> forall k: nat :: k < cur.number ==> Climb(s, start, k).None?
    ensures Parent(s, cur).Some? ==> Descended(s, start, Parent(s, cur).value, txs + cur.txs)
  {
    ClimbOn(s, start, cur.number);
  }

  /** From height `n` upwards the branches do not meet. */
  ghost predicate NoneFrom(s: Store, x: Block, y: Block, n: nat)
    requires StoreOk(s)
  {
    forall m: nat :: m >= n ==> !MeetsAt(s, x, y, m)
  }

  lemma NoneAboveTop(s: Store, x: Block, y: Block)
    requires StoreOk(s)
    ensures NoneFrom(s, x, y, x.number + 1) && NoneFrom(s, x, y, y.number + 1)
  {
  }

  /** When one branch ends, and nothing met down to there, nothing meets. */
  lemma BranchEnds(s: Store, x: Block, y: Block, n: nat, end: nat)
    requires StoreOk(s) && NoneFrom(s, x, y, n) && n <= end
    requires (forall k: nat :: k < end ==> Climb(s, x, k).None?) || (forall k: nat :: k < end ==> Climb(s, y, k).None?)
    ensures NoneFrom(s, x, y, 0)
  {
    forall m: nat ensures !MeetsAt(s, x, y, m) {
      if m < end { assert Climb(s, x, m).None? || Climb(s, y, m).None?; } else { assert m >= n; }
    }
  }

  lemma Start(s: Store, b: Block)
    requires StoreOk(s)
    ensures Descended(s, b, b, [])
  {
  }

  /** Two ancestors of one height are the meeting point, or there is none at that height. */
  lemma SameHeight(s: Store, x: Block, y: Block, rem: Block, out: seq<Tx>, add: Block, inn: seq<Tx>)
    requires StoreOk(s) && Known(s, x) && Known(s, y) && rem.number == add.number
    requires Descended(s, x, rem, out) && Descended(s, y, add, inn) && NoneFrom(s, x, y, rem.number + 1)
    ensures rem.hash == add.hash ==> rem == add && HighestMeeting(s, x, y, rem.number)
    ensures rem.hash != add.hash ==> NoneFrom(s, x, y, rem.number)
  {
    assert Known(s, rem) && Known(s, add);
    assert MeetsAt(s, x, y, rem.number) <==> rem == add;
  }

  lemma WalkEnds(s: Store, x: Block, y: Block, at: Block, out: seq<Tx>, inn: seq<Tx>)
    requires StoreOk(s) && HighestMeeting(s, x, y, at.number)
    requires Descended(s, x, at, out) && Descended(s, y, at, inn)
    ensures !NoneFrom(s, x, y, 0)
    ensures Climb(s, x, at.number) == Some(at) && Climb(s, y, at.number) == Some(at)
    ensures out == TxsAbove(s, x, at.number) && inn == TxsAbove(s, y, at.number)
  {
    assert MeetsAt(s, x, y, at.number);
  }

  datatype Walk = Met(at: Block, discarded: seq<Tx>, included: seq<Tx>) | Unrooted

  /**
   Walk both branches down to where they meet. The walk ends at the highest common ancestor with
   exactly the transactions above it, or reports an unrooted chain when there is none.
   */
  method FindMeeting(s: Store, oldBlock: Block, newBlock: Block) returns (w: Walk)
    requires StoreOk(s) && Known(s, oldBlock) && Known(s, newBlock)
    ensures w.Unrooted? <==> NoneFrom(s, oldBlock, newBlock, 0)
    ensures w.Met? ==>
      && HighestMeeting(s, oldBlock, newBlock, w.at.number) && Climb(s, oldBlock, w.at.number) == Some(w.at)
      && w.discarded == TxsAbove(s, oldBlock, w.at.number) && w.included == TxsAbove(s, newBlock, w.at.number)
  {
    hide *;
    var rem, add := oldBlock, newBlock;
    var discarded, included := [], [];
    Start(s, oldBlock);
    Start(s, newBlock);
    NoneAboveTop(s, oldBlock, newBlock);
    while rem.number > add.number
      invariant Descended(s, oldBlock, rem, discarded) && NoneFrom(s, oldBlock, newBlock, add.number + 1)
      invariant rem.number >= add.number || rem == oldBlock
      decreases rem.number
    {
      DescendStep(s, oldBlock, rem, discarded);
      discarded := discarded + rem.txs;
      match Parent(s, rem) {
        case None =>
          BranchEnds(s, oldBlock, newBlock, add.number + 1, rem.number);
          return Unrooted;
        case Some(p) => rem := p;
      }
    }
    assert NoneFrom(s, oldBlock, newBlock, rem.number + 1);
    while add.number > rem.number
      invariant Descended(s, newBlock, add, included) && add.number >= rem.number
      decreases add.number
    {
      DescendStep(s, newBlock, add, included);
      included := included + add.txs;
      match Parent(s, add) {
        case None =>
          BranchEnds(s, oldBlock, newBlock, rem.number + 1, add.number);
          return Unrooted;
        case Some(p) => add := p;
      }
    }
    SameHeight(s, oldBlock, newBlock, rem, discarded, add, included);
    while rem.hash != add.hash
      invariant Descended(s, oldBlock, rem, discarded) && Descended(s, newBlock, add, included)
      invariant rem.number == add.number && NoneFrom(s, oldBlock, newBlock, rem.number + 1)
      invariant rem.hash != add.hash ==> NoneFrom(s, oldBlock, newBlock, rem.number)
      decreases rem.number
    {
      DescendStep(s, oldBlock, rem, discarded);
      DescendStep(s, newBlock, add, included);
      discarded := discarded + rem.txs;
      match Parent(s, rem) {
        case None =>
          BranchEnds(s, oldBlock, newBlock, rem.number, rem.number);
          return Unrooted;
        case Some(p) => rem := p;
      }
      included := included + add.txs;
      match Parent(s, add) {
        case None =>
          BranchEnds(s, oldBlock, newBlock, add.number, add.number);
          return Unrooted;
        case Some(p) => add := p;
      }
      SameHeight(s, oldBlock, newBlock, rem, discarded, add, included);
    }
    SameHeight(s, oldBlock, newBlock, rem, discarded, add, included);
    WalkEnds(s, oldBlock, newBlock, rem, discarded, included);
    return Met(rem, discarded, included);
  }

  /** Below the meeting point the branches are one, above it they share nothing. */
  lemma SharedBelow(s: Store, x: Block, y: Block, m: nat, k: nat)
    requires StoreOk(s) && HighestMeeting(s, x, y, m) && Climb(s, x, k).Some?
    ensures Climb(s, x, k) == Climb(s, y, k) <==> k <= m
  {
    if k <= m {
      ClimbThrough(s, x, m, k);
      ClimbThrough(s, y, m, k);
    } else {
      assert !MeetsAt(s, x, y, k);
    }
  }

  lemma {:induction false} ClimbThrough(s: Store, b: Block, m: nat, k: nat)
    requires StoreOk(s) && k <= m && Climb(s, b, m).Some?
    ensures Climb(s, b, k) == Climb(s, Climb(s, b, m).value, k)
    decreases b.number
  {
    if b.number > m { ClimbThrough(s, Parent(s, b).value, m, k); }
  }

  /** `t` is in a block of the branch of `b` that lies above height `m`. */
  ghost predicate OnBranch(s: Store, b: Block, m: nat, t: Tx)
    requires StoreOk(s)
  {
    exists k :: k > m && Climb(s, b, k).Some? && t in Climb(s, b, k).value.txs
  }

  lemma {:induction false} TxsAboveAre(s: Store, b: Block, m: nat, t: Tx)
    requires StoreOk(s) && Climb(s, b, m).Some?
    ensures t in TxsAbove(s, b, m) <==> OnBranch(s, b, m, t)
    decreases b.number
  {
    if b.number > m {
      var p := Parent(s, b).value;
      TxsAboveAre(s, p, m, t);
      if t in b.txs { assert Climb(s, b, b.number) == Some(b); }
      if OnBranch(s, p, m, t) {
        var k :| k > m && Climb(s, p, k).Some? && t in Climb(s, p, k).value.txs;
        assert Climb(s, b, k) == Climb(s, p, k);
      }
      if OnBranch(s, b, m, t) && t !in b.txs {
        var k :| k > m && Climb(s, b, k).Some? && t in Climb(s, b, k).value.txs;
        assert k != b.number && Climb(s, b, k) == Climb(s, p, k);
      }
    }
  }

  // ---------------------------------------------------------------- what is put back

  function HashesOf(txs: seq<Tx>): set<Hash> { set t | t in txs :: t.hash }

  /** The transactions of `a` whose hash does not occur in `b`, in their order. */
  function Difference(a: seq<Tx>, b: seq<Tx>): (r: seq<Tx>)
    ensures forall t :: t in r <==> t in a && t.hash !in HashesOf(b)
    ensures |r| <= |a|
  {
    if a == [] then []
    else
      var r := Difference(a[..|a| - 1], b);
      var t := a[|a| - 1];
      assert a == a[..|a| - 1] + [t];
      if t.hash in HashesOf(b) then r else r + [t]
  }

  method TxDifference(a: seq<Tx>, b: seq<Tx>) returns (keep: seq<Tx>)
    ensures keep == Difference(a, b)
  {
    keep := [];
    var remove: set<Hash> := {};
    for i := 0 to |b|
      invariant remove == HashesOf(b[..i])
    {
      assert b[..i + 1] == b[..i] + [b[i]];
      remove := remove + {b[i].hash};
    }
    assert b[..|b|] == b;
    for i := 0 to |a|
      invariant keep == Difference(a[..i], b)
    {
      assert a[..i + 1][..i] == a[..i] && a[..i + 1][i] == a[i];
      if a[i].hash !in remove { keep := keep + [a[i]]; }
    }
    assert a[..|a|] == a;
  }

  /** How a reset from one head to the next starts. */
  datatype Outcome =
    | Proceed(reinject: seq<Tx>)   // install the new head and put these back
    | GiveUp                       // leave the pool as it is
    | Crash                        // the new head is not in the chain: a nil block is dereferenced

  function Depth(x: nat, y: nat): nat { if x <= y then y - x else x - y }

  /** Whether the walk is needed at all: not for a child block, nor across more than 64 blocks. */
  predicate Walks(oldHead: Option<Header>, newHead: Header) {
    && oldHead.Some? && oldHead.value.hash != newHead.parent
    && Depth(oldHead.value.number, newHead.number) <= 64
  }

  /**
   The transactions put back are exactly those of the abandoned branch that the adopted branch does
   not contain; both branches start right above the highest common ancestor.
   */
  ghost predicate PutBack(s: Store, x: Block, y: Block, reinject: seq<Tx>)
    requires StoreOk(s)
  {
    exists m :: HighestMeeting(s, x, y, m) && forall t ::
      t in reinject <==> OnBranch(s, x, m, t) && !exists u :: OnBranch(s, y, m, u) && u.hash == t.hash
  }

  /** What the walk between two heads has to come to. */
  ghost predicate IsOutcome(s: Store, oldHead: Option<Header>, newHead: Header, o: Outcome)
    requires StoreOk(s)
  {
    if !Walks(oldHead, newHead) then o == Proceed([])
    else
      match (GetBlock(s, oldHead.value.hash, oldHead.value.number), GetBlock(s, newHead.hash, newHead.number))
      case (None, _) => o == if newHead.number >= oldHead.value.number then GiveUp else Proceed([])
      case (Some(_), None) => o == Crash
      case (Some(x), Some(y)) =>
        if exists m :: MeetsAt(s, x, y, m) then o.Proceed? && PutBack(s, x, y, o.reinject) else o == GiveUp
  }

  method Reinjection(s: Store, oldHead: Option<Header>, newHead: Header) returns (o: Outcome)
    requires StoreOk(s)
    ensures IsOutcome(s, oldHead, newHead, o)
  {
    if !(oldHead.Some? && oldHead.value.hash != newHead.parent) { return Proceed([]); }
    var oldNum, newNum := oldHead.value.number, newHead.number;
    if Depth(oldNum, newNum) > 64 { return Proceed([]); }
    var rem := GetBlock(s, oldHead.value.hash, oldNum);
    var add := GetBlock(s, newHead.hash, newNum);
    if rem.None? {
      if newNum >= oldNum { return GiveUp; }
      return Proceed([]);
    }
    if add.None? { return Crash; }
    var w := FindMeeting(s, rem.value, add.value);
    if w.Unrooted? { return GiveUp; }
    var reinject := TxDifference(w.discarded, w.included);
    PutBackHolds(s, rem.value, add.value, w.at.number, reinject);
    return Proceed(reinject);
  }

  lemma PutBackHolds(s: Store, x: Block, y: Block, m: nat, reinject: seq<Tx>)
    requires StoreOk(s) && HighestMeeting(s, x, y, m)
    requires reinject == Difference(TxsAbove(s, x, m), TxsAbove(s, y, m))
    ensures MeetsAt(s, x, y, m) && PutBack(s, x, y, reinject)
  {
    forall t ensures
      t in reinject <==> OnBranch(s, x, m, t) && !exists u :: OnBranch(s, y, m, u) && u.hash == t.hash
    {
      TxsAboveAre(s, x, m, t);
      forall u ensures u in TxsAbove(s, y, m) <==> OnBranch(s, y, m, u) { TxsAboveAre(s, y, m, u); }
    }
  }
}
