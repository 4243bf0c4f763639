/** What the verifier makes of generated proofs, of truncated ones, and of keys the trie does not hold. */
module ProofCompleteness {
  import opened Wrappers
  import opened Rlp
  import opened Tries
  import opened TrieProofs
  import opened ProofSoundness

  /** A child that its parent refers to by hash. */
  predicate Hashed(h: Hasher, t: Trie)
    requires Storable(t)
  {
    t != Blank && |Encode(NodeItem(h, t))| >= 32
  }

  /** The route to `key` passes only hashed children and paths of at most one nibble. */
  predicate Checkable(h: Hasher, t: Trie, key: Path)
    requires Formed(t) && Storable(t)
    decreases t
  {
    match t
    case Blank => false
    case Leaf(path, _) => |path| <= 1
    case Extension(path, child) => |path| <= 1 && path <= key && Hashed(h, child) && Checkable(h, child, key[|path|..])
    case Branch(children, _) => key == [] || (Hashed(h, children[key[0]]) && Checkable(h, children[key[0]], key[1..]))
  }

  /** What the verifier hands out for a stored value: a leaf's is decoded. */
  function Decoded(value: Bytes): Outcome {
    match Decode(value)
    case None => Failed
    case Some(item) => Answer(item)
  }

  /** What the value at the end of a route is handed out as: a branch's is left as it is. */
  function Delivered(t: Trie, key: Path): Outcome
    requires Formed(t)
    decreases t
  {
    match t
    case Blank => Failed
    case Leaf(_, value) => Decoded(value)
    case Extension(path, child) => if path <= key then Delivered(child, key[|path|..]) else Failed
    case Branch(children, value) => if key == [] then Answer(Str(value)) else Delivered(children[key[0]], key[1..])
  }

  /** What the verifier makes of the proof that is generated for a key. */
  function Verdict(h: Hasher, t: Trie, key: Path): Outcome
    requires Formed(t) && Storable(t)
    decreases t
  {
    match t
    case Blank => NoAnswer
    case Leaf(path, value) => if |path| <= 1 && key <= path then Decoded(value) else Failed
    case Extension(path, child) =>
      if |path| <= 1 && path <= key && Hashed(h, child) then Verdict(h, child, key[|path|..]) else Failed
    case Branch(children, value) =>
      if key == [] then Answer(Str(value))
      else if children[key[0]] == Blank || Hashed(h, children[key[0]]) then Verdict(h, children[key[0]], key[1..])
      else Failed
  }

  lemma {:induction false} RouteSmall(h: Hasher, t: Trie, key: Path)
    requires Formed(t) && Storable(t)
    ensures forall x :: x in Route(h, t, key) ==> Small(x)
    ensures t != Blank ==> Route(h, t, key) != [] && Route(h, t, key)[0] == NodeItem(h, t)
    ensures t == Blank ==> Route(h, t, key) == []
    decreases t
  {
    RouteStep(h, t, key);
    match t
    case Extension(path, child) => if path <= key { RouteSmall(h, child, key[|path|..]); }
    case Branch(children, _) => if key != [] { RouteSmall(h, children[key[0]], key[1..]); }
    case _ =>
    hide NodeItem, Small, Route;
  }

  lemma ReferenceKind(h: Hasher, t: Trie)
    requires Storable(t) && t != Blank
    ensures if Hashed(h, t) then Reference(h, t) == Str(RootOf(h, t)) else Reference(h, t).List?
  {
    hide Encode, Small;
  }

  /** The outcome for a generated proof is decided by the trie alone, whether it holds the key or not. */
  lemma {:induction false} GeneratedExactly(h: Hasher, t: Trie, key: Path)
    requires Formed(t) && Storable(t)
    ensures forall x :: x in Route(h, t, key) ==> Small(x)
    ensures Follow(h, Str(RootOf(h, t)), key, false, Route(h, t, key)) == Verdict(h, t, key)
    decreases t, 1
  {
    RouteSmall(h, t, key);
    RouteStep(h, t, key);
    var stack := Route(h, t, key);
    hide Visit, Encode, NodeItem, Decoded, Decode, Reference, Route, Hashed;
    match t
    case Blank =>
    case Leaf(path, value) =>
      VisitLeaf(h, t, key, true);
      DecodedIs(value);
    case Extension(path, child) =>
      VisitExtension(h, t, key, |stack| == 1);
      if path <= key {
        RouteSmall(h, child, key[|path|..]);
        assert stack[1..] == Route(h, child, key[|path|..]);
        GeneratedChild(h, child, key[|path|..]);
      }
    case Branch(children, _) =>
      VisitBranch(h, t, key, |stack| == 1);
      if key != [] {
        var child, rest := children[key[0]], key[1..];
        RouteSmall(h, child, rest);
        assert stack[1..] == Route(h, child, rest);
        if child != Blank { GeneratedChild(h, child, rest); }
      }
  }

  lemma DecodedIs(value: Bytes)
    ensures Decoded(value) == match Decode(value) case None => Failed case Some(item) => Answer(item)
  {
    hide Decode;
  }

  lemma {:induction false} GeneratedChild(h: Hasher, c: Trie, rest: Path)
    requires Formed(c) && Storable(c) && c != Blank
    ensures forall x :: x in Route(h, c, rest) ==> Small(x)
    ensures Follow(h, Reference(h, c), rest, false, Route(h, c, rest))
      == if Hashed(h, c) then Verdict(h, c, rest) else Failed
    decreases c, 2
  {
    RouteSmall(h, c, rest);
    GeneratedExactly(h, c, rest);
    ReferenceKind(h, c);
    hide Visit, Encode, NodeItem, Reference, Route, Hashed, Verdict;
  }

  // ---------------------------------------------------------------- keys that are held

  lemma {:induction false} VerdictHeld(h: Hasher, t: Trie, key: Path)
    requires Formed(t) && Storable(t) && Get(t, key).Some?
    ensures Verdict(h, t, key) == if Checkable(h, t, key) then Delivered(t, key) else Failed
    decreases t
  {
    hide Hashed, Decoded;
    match t
    case Extension(path, child) => if path <= key { VerdictHeld(h, child, key[|path|..]); }
    case Branch(children, _) =>
      if key != [] {
        assert children[key[0]] in children;
        VerdictHeld(h, children[key[0]], key[1..]);
      }
    case _ =>
  }

  /**
   For a key that the trie holds, the generated proof is accepted, with the key's value, exactly when
   the route is checkable; otherwise the verifier fails.
   */
  lemma AcceptedExactly(h: Hasher, t: Trie, key: Path)
    requires Formed(t) && Storable(t) && Get(t, key).Some?
    ensures forall x :: x in Route(h, t, key) ==> Small(x)
    ensures Follow(h, Str(RootOf(h, t)), key, false, Route(h, t, key))
      == if Checkable(h, t, key) then Delivered(t, key) else Failed
  {
    hide *;
    GeneratedExactly(h, t, key);
    VerdictHeld(h, t, key);
  }

  // ---------------------------------------------------------------- keys that are not held

  /** A route that ends at an empty slot, all of it hashed and on paths of at most one nibble. */
  predicate Excludable(h: Hasher, t: Trie, key: Path)
    requires Formed(t) && Storable(t)
    decreases t
  {
    match t
    case Blank => true
    case Leaf(_, _) => false
    case Extension(path, child) => |path| <= 1 && path <= key && Hashed(h, child) && Excludable(h, child, key[|path|..])
    case Branch(children, _) =>
      && key != [] && (children[key[0]] == Blank || Hashed(h, children[key[0]]))
      && Excludable(h, children[key[0]], key[1..])
  }

  /** What the wrong acceptances come from: the key ends at an empty branch, or one nibble short of a leaf. */
  predicate EndsShort(l: Landing) {
    match l
    case AtLeaf(rest, path, value) => rest == [] && |path| == 1 && Decode(value).Some?
    case AtBranch(value) => value == []
    case Astray => false
  }

  lemma {:induction false} VerdictNotHeld(h: Hasher, t: Trie, key: Path)
    requires Formed(t) && Storable(t) && Get(t, key).None?
    ensures Verdict(h, t, key) == NoAnswer <==> Excludable(h, t, key)
    ensures Verdict(h, t, key).Answer? <==> Checkable(h, t, key) && EndsShort(Land(t, key))
    decreases t
  {
    hide Hashed, Decode;
    match t
    case Extension(path, child) => if path <= key { VerdictNotHeld(h, child, key[|path|..]); }
    case Branch(children, _) =>
      if key != [] {
        assert children[key[0]] in children;
        var c := children[key[0]];
        VerdictNotHeld(h, c, key[1..]);
        if c == Blank { NotHashed(h, c); }
      }
    case Leaf(path, value) =>
      if key <= path && |path| <= 1 && key != path { assert key == []; }
    case Blank =>
  }

  lemma NotHashed(h: Hasher, t: Trie)
    requires t == Blank
    ensures !Hashed(h, t)
  {
  }

  /**
   For a key that the trie does not hold, the generated proof is silent exactly when its route ends at
   an empty slot, and is wrongly accepted exactly when a checkable route ends at a branch without a
   value or one nibble short of a leaf.
   */
  lemma RefusedExactly(h: Hasher, t: Trie, key: Path)
    requires Formed(t) && Storable(t) && Get(t, key).None?
    ensures forall x :: x in Route(h, t, key) ==> Small(x)
    ensures var o := Follow(h, Str(RootOf(h, t)), key, false, Route(h, t, key));
      && (o == NoAnswer <==> Excludable(h, t, key))
      && (o.Answer? <==> Checkable(h, t, key) && EndsShort(Land(t, key)))
  {
    hide *;
    GeneratedExactly(h, t, key);
    VerdictNotHeld(h, t, key);
  }

  /** The empty key is answered with the value of a leaf under any one nibble. */
  lemma ShortKeyAccepted(h: Hasher, nibble: Nibble, value: Bytes)
    requires value != [] && |value| < SIZE && Decode(value).Some?
    ensures var t := Leaf([nibble], value);
      && Formed(t) && Storable(t) && Get(t, []) == None && (forall x :: x in Route(h, t, []) ==> Small(x))
      && Follow(h, Str(RootOf(h, t)), [], false, Route(h, t, [])) == Answer(Decode(value).value)
  {
    GeneratedExactly(h, Leaf([nibble], value), []);
    hide Route, Follow, Decode, RootOf, Small;
  }

  // ---------------------------------------------------------------- truncated proofs

  /** The first `i` nodes of the route each hand on to a hashed child. */
  predicate HandsOn(h: Hasher, t: Trie, key: Path, i: nat)
    requires Formed(t) && Storable(t)
    decreases t
  {
    i == 0 ||
    match t
    case Extension(path, child) =>
      |path| <= 1 && path <= key && Hashed(h, child) && HandsOn(h, child, key[|path|..], i - 1)
    case Branch(children, _) =>
      && key != [] && children[key[0]] != Blank && Hashed(h, children[key[0]])
      && HandsOn(h, children[key[0]], key[1..], i - 1)
    case _ => false
  }

  /** Whether the `i`-th node of the route is an extension. */
  predicate ExtensionAt(t: Trie, key: Path, i: nat)
    requires Formed(t)
    decreases t
  {
    match t
    case Extension(path, child) => i == 1 || (i > 1 && path <= key && ExtensionAt(child, key[|path|..], i - 1))
    case Branch(children, _) => i > 1 && key != [] && ExtensionAt(children[key[0]], key[1..], i - 1)
    case _ => false
  }

  /**
   A proof that is cut off early is silent, or fails if its last node is an extension, whether the trie
   holds the key or not; and its silence is never the kind that excludes a key.
   */
  lemma {:induction false} TruncatedExactly(h: Hasher, t: Trie, key: Path, i: nat)
    requires Formed(t) && Storable(t) && HandsOn(h, t, key, i) && i < |Route(h, t, key)|
    ensures var stack := Route(h, t, key)[..i];
      && (forall x :: x in stack ==> Small(x))
      && Follow(h, Str(RootOf(h, t)), key, false, stack) == (if ExtensionAt(t, key, i) then Failed else NoAnswer)
      && !StopsAtEmptySlot(key, false, stack)
    decreases t, 1
  {
    var route := Route(h, t, key);
    var stack := route[..i];
    if i == 0 { return; }
    hide Visit, Encode, NodeItem, Reference, Route, Hashed, HandsOn, Follow, ExtensionAt, StopsAtEmptySlot, Small;
    RouteSmall(h, t, key);
    forall x | x in stack ensures Small(x) { assert x in route; }
    RouteStep(h, t, key);
    HandsOnIs(h, t, key, i);
    FirstStep(h, t, key, stack);
    ExtensionAtStep(t, key, i);
    match t
    case Extension(path, child) =>
      VisitExtension(h, t, key, i == 1);
      TruncatedChild(h, child, key[|path|..], i, stack, route);
    case Branch(children, _) =>
      VisitBranch(h, t, key, i == 1);
      TruncatedChild(h, children[key[0]], key[1..], i, stack, route);
  }

  /** What following the references makes of the node at the top of a trie. */
  lemma FirstStep(h: Hasher, t: Trie, key: Path, stack: seq<Item>)
    requires Storable(t) && stack != [] && stack[0] == NodeItem(h, t) && forall x :: x in stack ==> Small(x)
    ensures match Visit(NodeItem(h, t), key, false, |stack| == 1)
      case Stop(o) =>
        Follow(h, Str(RootOf(h, t)), key, false, stack) == o && (StopsAtEmptySlot(key, false, stack) <==> o == NoAnswer)
      case Go(next, rest, over) =>
        && Follow(h, Str(RootOf(h, t)), key, false, stack) == Follow(h, next, rest, over, stack[1..])
        && (StopsAtEmptySlot(key, false, stack) <==> StopsAtEmptySlot(rest, over, stack[1..]))
  {
    hide Visit, Encode, NodeItem, Small;
  }

  lemma ExtensionAtStep(t: Trie, key: Path, i: nat)
    requires Formed(t) && i > 0
    ensures t.Extension? && t.path <= key ==>
      (ExtensionAt(t, key, i) <==> i == 1 || ExtensionAt(t.child, key[|t.path|..], i - 1))
    ensures t.Branch? && key != [] ==>
      (ExtensionAt(t, key, i) <==> i > 1 && ExtensionAt(t.children[key[0]], key[1..], i - 1))
  {
  }

  lemma HandsOnIs(h: Hasher, t: Trie, key: Path, i: nat)
    requires Formed(t) && Storable(t) && HandsOn(h, t, key, i) && i > 0
    ensures t.Extension? || (t.Branch? && key != [])
    ensures t.Extension? ==>
      |t.path| <= 1 && t.path <= key && Hashed(h, t.child) && HandsOn(h, t.child, key[|t.path|..], i - 1)
    ensures t.Branch? ==>
      var c := t.children[key[0]];
      c != Blank && Storable(c) && Hashed(h, c) && HandsOn(h, c, key[1..], i - 1)
  {
    hide Hashed;
  }

  lemma {:induction false} TruncatedChild(h: Hasher, c: Trie, rest: Path, i: nat, stack: seq<Item>, route: seq<Item>)
    requires 0 < i < |route| && Formed(c) && Storable(c) && Hashed(h, c) && HandsOn(h, c, rest, i - 1)
    requires route[1..] == Route(h, c, rest) && stack == route[..i]
    ensures forall x :: x in stack[1..] ==> Small(x)
    ensures Follow(h, Reference(h, c), rest, false, stack[1..])
      == (if ExtensionAt(c, rest, i - 1) then Failed else NoAnswer)
    ensures !StopsAtEmptySlot(rest, false, stack[1..])
    decreases c, 2
  {
    if c == Blank { NotHashed(h, c); }
    HashedReference(h, c);
    hide Visit, Encode, NodeItem, Reference, Route, Hashed, HandsOn, ExtensionAt, StopsAtEmptySlot;
    hide Follow, RootOf, Small;
    assert stack[1..] == Route(h, c, rest)[..i - 1];
    TruncatedExactly(h, c, rest, i - 1);
  }

  lemma HashedReference(h: Hasher, c: Trie)
    requires Storable(c) && c != Blank && Hashed(h, c)
    ensures Reference(h, c) == Str(RootOf(h, c))
  {
    ReferenceKind(h, c);
    hide Encode, NodeItem;
  }
}
