/**
 What the verifier answers for any stack of nodes whatever, as a walk: the nodes that are named one after
 the other by their hashes, what is left of the key at each, and how the last one ends it.
 */
module ProofWalks {
  import opened ByteStrings
  import opened Rlp
  import opened Tries
  import opened TrieProofs
  import opened TrieFormats

  /** Where a walk is: the reference, the rest of the key, and whether more was taken off the key than it had. */
  datatype Place = Place(target: Item, rest: seq<nat>, over: bool)

  /** One of the two continues the other. */
  predicate Agree(rest: seq<nat>, path: seq<nat>) { rest <= path || path <= rest }

  /** A branch continues at the child that the next nibble selects, if there is one. */
  predicate Selects(xs: seq<Item>, p: Place, q: Place) {
    && |xs| == 17 && !p.over && p.rest != [] && p.rest[0] <= 16 && Width(xs[p.rest[0]]) > 0
    && q == Place(xs[p.rest[0]], p.rest[1..], false)
  }

  /** An extension takes its path off the key; all of it, even if the key is shorter. */
  predicate Extends(xs: seq<Item>, p: Place, q: Place, path: Path)
    requires |xs| == 2 && Small(xs[0])
  {
    && LaidOut(Encode(xs[0]), false, path) && Agree(p.rest, path)
    && q.target == xs[1] && q.rest == (if |path| <= |p.rest| then p.rest[|path|..] else [])
    && (q.over <==> p.over || |p.rest| < |path|)
  }

  ghost predicate Leads(node: Item, p: Place, q: Place)
    requires Small(node)
  {
    && node.List?
    && (Selects(node.xs, p, q)
        || (|node.xs| == 2 && Small(node.xs[0]) && exists path :: Extends(node.xs, p, q, path)))
  }

  /** A leaf's path that the rest of the key does not leave. */
  predicate EndsIn(b: Bytes, rest: seq<nat>, path: Path) { LaidOut(b, true, path) && rest <= path }

  ghost predicate Ends(b: Bytes, rest: seq<nat>) { exists path :: EndsIn(b, rest, path) }

  /** The key ends at a branch, or runs out within the path of a leaf whose value is the item's encoding. */
  ghost predicate Answers(node: Item, p: Place, item: Item)
    requires Small(node)
  {
    && node.List?
    && ((|node.xs| == 17 && !p.over && p.rest == [] && item == node.xs[16])
        || (|node.xs| == 2 && Small(node.xs[0]) && Small(item) && node.xs[1] == Str(Encode(item))
            && Ends(Encode(node.xs[0]), p.rest)))
  }

  // ---------------------------------------------------------------- one node

  lemma SharedAll(rest: seq<nat>, path: seq<nat>)
    ensures Shared(rest, path) == |path| <==> Agree(rest, path)
  {
  }

  /** What becomes of a node of two items once its path is read. */
  lemma PathCases(xs: seq<Item>, p: Place, last: bool)
    requires |xs| == 2 && SmallAll(xs) && Small(xs[0])
    ensures var s := VisitPath(xs, p.rest, p.over, last);
      match CompactOf(Encode(xs[0]))
      case None => s == Stop(Failed)
      case Some(c) =>
        if !Agree(p.rest, c.path) then s == Stop(Failed)
        else if !c.leaf then
          s == if last then Stop(Failed)
               else Go(xs[1], if |c.path| <= |p.rest| then p.rest[|c.path|..] else [], p.over || |p.rest| < |c.path|)
        else if !last || |p.rest| > |c.path| || xs[1].List? then s == Stop(Failed)
        else s == match Decode(xs[1].s)
          case None => Stop(Failed)
          case Some(item) => Stop(Answer(item))
  {
    hide CompactOf, Encode, Small, SmallAll, Decode, Agree;
    if CompactOf(Encode(xs[0])).Some? {
      var path := CompactOf(Encode(xs[0])).value.path;
      SharedAll(p.rest, path);
    }
    hide Shared;
  }

  lemma PairGoes(xs: seq<Item>, p: Place, last: bool, q: Place)
    requires |xs| == 2 && SmallAll(xs) && Small(xs[0])
    ensures VisitPath(xs, p.rest, p.over, last) == Go(q.target, q.rest, q.over) <==>
      !last && exists path :: Extends(xs, p, q, path)
  {
    var b := Encode(xs[0]);
    PathCases(xs, p, last);
    hide VisitPath, CompactOf, LaidOut, Encode, Small, SmallAll, Agree, Decode;
    if path :| Extends(xs, p, q, path) { CompactExactly(b, false, path); }
    if CompactOf(b).Some? && !CompactOf(b).value.leaf {
      var path := CompactOf(b).value.path;
      CompactExactly(b, false, path);
      if VisitPath(xs, p.rest, p.over, last) == Go(q.target, q.rest, q.over) { assert Extends(xs, p, q, path); }
    }
  }

  lemma PairAnswers(xs: seq<Item>, p: Place, last: bool, item: Item)
    requires |xs| == 2 && SmallAll(xs) && Small(xs[0])
    ensures VisitPath(xs, p.rest, p.over, last) == Stop(Answer(item)) <==>
      && last && Small(item) && xs[1] == Str(Encode(item))
      && Ends(Encode(xs[0]), p.rest)
  {
    var b := Encode(xs[0]);
    PathCases(xs, p, last);
    if xs[1].Str? { DecodeExact(xs[1].s, item); }
    hide VisitPath, CompactOf, LaidOut, Encode, Small, SmallAll, Decode;
    if path :| EndsIn(b, p.rest, path) { CompactExactly(b, true, path); }
    if CompactOf(b).Some? && CompactOf(b).value.leaf {
      var path := CompactOf(b).value.path;
      CompactExactly(b, true, path);
      if p.rest <= path { assert EndsIn(b, p.rest, path); }
    }
  }

  lemma PairQuiet(xs: seq<Item>, p: Place, last: bool)
    requires |xs| == 2 && SmallAll(xs)
    ensures var s := VisitPath(xs, p.rest, p.over, last);
      s != Stop(NoAnswer) && forall b :: s != Stop(RawByte(b))
  {
    hide CompactOf, Encode, Small, SmallAll, Shared, Decode;
  }

  lemma VisitGoes(node: Item, p: Place, last: bool, q: Place)
    requires Small(node)
    ensures Visit(node, p.rest, p.over, last) == Go(q.target, q.rest, q.over) <==>
      Leads(node, p, q) && (last ==> node.List? && |node.xs| == 17)
  {
    if node.List? && |node.xs| == 2 {
      SmallPair(node.xs);
      PairGoes(node.xs, p, last, q);
    }
    hide VisitPath, Extends, Small;
  }

  lemma VisitAnswers(node: Item, p: Place, last: bool, item: Item)
    requires Small(node)
    ensures Visit(node, p.rest, p.over, last) == Stop(Answer(item)) <==> last && Answers(node, p, item)
  {
    if node.List? && |node.xs| == 2 {
      SmallPair(node.xs);
      PairAnswers(node.xs, p, last, item);
    }
    hide VisitPath, Ends, Small, Encode;
  }

  /** A branch at which the key goes on. */
  predicate Silent(node: Item, p: Place) {
    node.List? && |node.xs| == 17 && !p.over && p.rest != [] && p.rest[0] <= 16
  }

  /** A string that is as long as a branch, at which the key ends. */
  predicate Raw(node: Item, p: Place, b: Byte) {
    node.Str? && |node.s| == 17 && !p.over && p.rest == [] && b == node.s[16]
  }

  /** How a walk ends at its last node. */
  ghost predicate EndsAt(node: Item, p: Place, o: Outcome)
    requires Small(node)
  {
    match o
    case Failed => false
    case NoAnswer => Silent(node, p)
    case Answer(item) => Answers(node, p, item)
    case RawByte(b) => Raw(node, p, b)
  }

  /** Where the last node leaves the verifier: behind the end of the stack there is silence. */
  function Ended(s: Step): Outcome { if s.Stop? then s.o else NoAnswer }

  lemma LastVisit(h: Hasher, node: Item, p: Place, o: Outcome)
    requires Small(node) && !o.Failed?
    ensures Ended(Visit(node, p.rest, p.over, true)) == o <==> EndsAt(node, p, o)
  {
    if o.Answer? { VisitAnswers(node, p, true, o.item); }
    if node.List? && |node.xs| == 2 {
      SmallPair(node.xs);
      PairQuiet(node.xs, p, true);
      PairStays(node.xs, p);
    }
    hide VisitPath, Answers, Small;
  }

  lemma PairStays(xs: seq<Item>, p: Place)
    requires |xs| == 2 && SmallAll(xs) && Small(xs[0])
    ensures !VisitPath(xs, p.rest, p.over, true).Go?
  {
    PathCases(xs, p, true);
    hide VisitPath, CompactOf, Encode, Small, SmallAll, Agree, Decode;
  }

  lemma EarlyVisit(node: Item, p: Place)
    requires Small(node)
    ensures var s := Visit(node, p.rest, p.over, false); s.Go? || s == Stop(Failed)
  {
    if node.List? && |node.xs| == 2 {
      SmallPair(node.xs);
      PathCases(node.xs, p, false);
    }
    hide VisitPath, CompactOf, Encode, Small, SmallAll, Agree, Decode;
  }

  // ---------------------------------------------------------------- the whole stack

  /** Each node has the hash that its place names, and leads to the next place. */
  ghost predicate IsWalk(h: Hasher, start: Place, stack: seq<Item>, places: seq<Place>)
    requires forall x :: x in stack ==> Small(x)
  {
    && |places| == |stack| > 0 && places[0] == start
    && (forall i :: 0 <= i < |stack| ==> places[i].target == Str(h(Encode(stack[i]))))
    && (forall i :: 0 <= i < |stack| - 1 ==> Leads(stack[i], places[i], places[i + 1]))
  }

  ghost predicate WalkEnds(h: Hasher, start: Place, stack: seq<Item>, places: seq<Place>, o: Outcome)
    requires forall x :: x in stack ==> Small(x)
  {
    IsWalk(h, start, stack, places) && EndsAt(stack[|stack| - 1], places[|places| - 1], o)
  }

  lemma FollowStep(h: Hasher, p: Place, stack: seq<Item>)
    requires stack != [] && forall x :: x in stack ==> Small(x)
    ensures Follow(h, p.target, p.rest, p.over, stack) ==
      if p.target != Str(h(Encode(stack[0]))) then Failed
      else
        match Visit(stack[0], p.rest, p.over, |stack| == 1)
        case Stop(o) => o
        case Go(next, rest', over') => Follow(h, next, rest', over', stack[1..])
  {
    hide Visit, Encode, Small;
  }

  lemma WalkFirst(h: Hasher, p: Place, stack: seq<Item>, q: Place, places: seq<Place>, o: Outcome)
    requires |stack| > 1 && (forall x :: x in stack ==> Small(x))
    requires p.target == Str(h(Encode(stack[0]))) && Leads(stack[0], p, q)
    requires WalkEnds(h, q, stack[1..], places, o)
    ensures WalkEnds(h, p, stack, [p] + places, o)
  {
    hide Leads, EndsAt, Encode, Small;
    var more := [p] + places;
    forall i | 0 <= i < |stack| ensures more[i].target == Str(h(Encode(stack[i]))) {
      if i > 0 { assert more[i] == places[i - 1] && stack[i] == stack[1..][i - 1]; }
    }
    forall i | 0 <= i < |stack| - 1 ensures Leads(stack[i], more[i], more[i + 1]) {
      if i > 0 { assert Leads(stack[1..][i - 1], places[i - 1], places[i]); }
    }
  }

  lemma WalkRest(h: Hasher, p: Place, stack: seq<Item>, places: seq<Place>, o: Outcome)
    requires |stack| > 1 && (forall x :: x in stack ==> Small(x)) && WalkEnds(h, p, stack, places, o)
    ensures |places| > 1 && p.target == Str(h(Encode(stack[0]))) && Leads(stack[0], p, places[1])
    ensures WalkEnds(h, places[1], stack[1..], places[1..], o)
  {
    hide Leads, EndsAt, Encode, Small;
    var rest, more := stack[1..], places[1..];
    forall i | 0 <= i < |rest| ensures more[i].target == Str(h(Encode(rest[i]))) {
      assert more[i] == places[i + 1] && rest[i] == stack[i + 1];
    }
    forall i | 0 <= i < |rest| - 1 ensures Leads(rest[i], more[i], more[i + 1]) {
      assert Leads(stack[i + 1], places[i + 1], places[i + 2]);
    }
  }

  lemma WalkOne(h: Hasher, p: Place, stack: seq<Item>, o: Outcome)
    requires |stack| == 1 && (forall x :: x in stack ==> Small(x))
    ensures (exists places :: WalkEnds(h, p, stack, places, o)) <==>
      p.target == Str(h(Encode(stack[0]))) && EndsAt(stack[0], p, o)
  {
    hide Leads, EndsAt, Encode, Small;
    if p.target == Str(h(Encode(stack[0]))) && EndsAt(stack[0], p, o) { assert WalkEnds(h, p, stack, [p], o); }
  }

  /** An answer of any kind, for any key and any stack, is given exactly if a walk ends with it. */
  lemma {:induction false} FollowExactly(h: Hasher, p: Place, stack: seq<Item>, o: Outcome)
    requires (forall x :: x in stack ==> Small(x)) && !o.Failed?
    ensures Follow(h, p.target, p.rest, p.over, stack) == o <==>
      (stack == [] && o == NoAnswer) || exists places :: WalkEnds(h, p, stack, places, o)
    decreases |stack|
  {
    if stack == [] {
      NoWalk(h, p, stack, o);
    } else {
      FollowStep(h, p, stack);
      if |stack| == 1 {
        WalkOne(h, p, stack, o);
        LastVisit(h, stack[0], p, o);
        Nothing(h, stack[1..]);
      } else {
        MoreToFollow(h, p, stack, o);
      }
      hide *;
    }
  }

  lemma NoWalk(h: Hasher, p: Place, stack: seq<Item>, o: Outcome)
    requires stack == []
    ensures !exists places :: WalkEnds(h, p, stack, places, o)
    ensures Follow(h, p.target, p.rest, p.over, stack) == NoAnswer
  {
  }

  lemma Nothing(h: Hasher, stack: seq<Item>)
    requires stack == []
    ensures forall target, rest, over :: Follow(h, target, rest, over, stack) == NoAnswer
  {
  }

  lemma {:induction false} MoreToFollow(h: Hasher, p: Place, stack: seq<Item>, o: Outcome)
    requires |stack| > 1 && (forall x :: x in stack ==> Small(x)) && !o.Failed?
    ensures Follow(h, p.target, p.rest, p.over, stack) == o <==> exists places :: WalkEnds(h, p, stack, places, o)
    decreases |stack|, 0
  {
    hide *;
    FollowStep(h, p, stack);
    EarlyVisit(stack[0], p);
    var s := Visit(stack[0], p.rest, p.over, false);
    if p.target == Str(h(Encode(stack[0]))) && s.Go? {
      var q := Place(s.target, s.rest, s.over);
      VisitGoes(stack[0], p, false, q);
      FollowExactly(h, q, stack[1..], o);
      if places :| WalkEnds(h, q, stack[1..], places, o) { WalkFirst(h, p, stack, q, places, o); }
    }
    if places :| WalkEnds(h, p, stack, places, o) {
      WalkRest(h, p, stack, places, o);
      VisitGoes(stack[0], p, false, places[1]);
    }
  }
}
