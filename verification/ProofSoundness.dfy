/**
 What an accepted proof means. Nothing is assumed of the hash function: a wrong answer comes with two
 different node encodings that have the same hash.
 */
module ProofSoundness {
  import opened Wrappers
  import opened Rlp
  import opened Tries
  import opened TrieProofs

  /** The reference to a trie's root: always its hash. */
  function RootOf(h: Hasher, t: Trie): Bytes
    requires Storable(t)
  {
    h(Encode(NodeItem(h, t)))
  }

  /** No other key of the trie continues `key` or is continued by it. */
  ghost predicate Apart(t: Trie, key: Path)
    requires Formed(t)
  {
    forall k: Path :: Get(t, k).Some? ==> k == key || (!(k <= key) && !(key <= k))
  }

  /** `u` is a node of `t`. */
  ghost predicate Occurs(u: Trie, t: Trie)
    decreases t
  {
    || u == t
    || (t.Extension? && Occurs(u, t.child))
    || (t.Branch? && exists c :: c in t.children && Occurs(u, c))
  }

  /** Two different encodings with the same hash, one from the proof and one of a node of the trie. */
  ghost predicate Collision(h: Hasher, t: Trie, stack: seq<Item>)
    requires Storable(t)
  {
    exists x, u ::
      x in stack && Small(x) && Occurs(u, t) && Storable(u) && SameHash(h, Encode(x), Encode(NodeItem(h, u)))
  }

  ghost predicate SameHash(h: Hasher, a: Bytes, b: Bytes) { a != b && h(a) == h(b) }

  lemma CollisionBelow(h: Hasher, t: Trie, c: Trie, stack: seq<Item>)
    requires Storable(t) && Storable(c) && stack != []
    requires (t.Extension? && c == t.child) || (t.Branch? && c in t.children)
    requires Collision(h, c, stack[1..])
    ensures Collision(h, t, stack)
  {
    var x, u :|
      x in stack[1..] && Small(x) && Occurs(u, c) && Storable(u) && SameHash(h, Encode(x), Encode(NodeItem(h, u)));
    assert Occurs(u, t);
  }

  // ---------------------------------------------------------------- one node

  /** A path is recognised exactly when its compact form is a single byte. */
  lemma PathRecognised(p: Path, leaf: bool)
    requires |p| < SIZE
    ensures Small(Str(HexPrefix(p, leaf)))
    ensures CompactOf(Encode(Str(HexPrefix(p, leaf)))) == if |p| <= 1 then Some(Compact(leaf, p)) else None
  {
    CompactRoundTrip(p, leaf);
    var b := HexPrefix(p, leaf);
    StringSmall(b);
    FirstByte(Str(b));
    hide HexPrefix;
    if |p| <= 1 { assert |b| == 1 && Encode(Str(b)) == b; }
  }

  lemma VisitLeaf(h: Hasher, t: Trie, rest: Path, last: bool)
    requires Storable(t) && t.Leaf?
    ensures Visit(NodeItem(h, t), rest, false, last) ==
      if |t.path| <= 1 && last && rest <= t.path
        then match Decode(t.value) case None => Stop(Failed) case Some(item) => Stop(Answer(item))
        else Stop(Failed)
  {
    PathRecognised(t.path, true);
    SharedCases(rest, t.path);
    hide CompactOf, Encode, Decode, Shared, HexPrefix;
  }

  lemma SharedCases(rest: Path, path: Path)
    ensures Shared(rest, path) == |path| && Off(rest, |path|) == [] <==> rest <= path
    ensures path <= rest ==> Shared(rest, path) == |path| && Off(rest, |path|) == rest[|path|..]
    ensures !(path <= rest) && !(rest <= path) ==> Shared(rest, path) < |path|
  {
    if Shared(rest, path) == |path| && Off(rest, |path|) == [] && path <= rest { assert rest == path; }
    hide Shared;
  }

  lemma VisitExtension(h: Hasher, t: Trie, rest: Path, last: bool)
    requires Storable(t) && t.Extension?
    ensures var s := Visit(NodeItem(h, t), rest, false, last);
      && (|t.path| > 1 || last || (!(t.path <= rest) && !(rest <= t.path)) ==> s == Stop(Failed))
      && (|t.path| <= 1 && !last && t.path <= rest ==> s == Go(Reference(h, t.child), rest[|t.path|..], false))
      && (|t.path| <= 1 && !last && rest <= t.path && rest != t.path ==> s == Go(Reference(h, t.child), [], true))
  {
    PathRecognised(t.path, false);
    SharedCases(rest, t.path);
    hide CompactOf, Encode, Shared, HexPrefix;
  }

  lemma VisitBranch(h: Hasher, t: Trie, rest: Path, last: bool)
    requires Storable(t) && t.Branch?
    ensures var s := Visit(NodeItem(h, t), rest, false, last);
      if rest == [] then s == if last then Stop(Answer(Str(t.value))) else Stop(Failed)
      else if t.children[rest[0]] == Blank then s == if last then Stop(NoAnswer) else Stop(Failed)
      else s == Go(Reference(h, t.children[rest[0]]), rest[1..], false)
  {
    if rest != [] {
      assert t.children[rest[0]] in t.children;
      ReferenceWidth(h, t.children[rest[0]]);
    }
    hide Encode, Reference;
  }

  lemma ReferenceWidth(h: Hasher, t: Trie)
    requires Storable(t)
    ensures Width(Reference(h, t)) == 0 <==> t == Blank
    ensures Reference(h, t).Str? && t != Blank ==> Reference(h, t) == Str(RootOf(h, t))
  {
    hide Encode, Small;
  }

  // ---------------------------------------------------------------- where a key ends in a trie

  /** Where following a key ends: at a leaf with the part of the key that is left, at a branch, or nowhere. */
  datatype Landing = AtLeaf(rest: Path, path: Path, value: Bytes) | AtBranch(value: Bytes) | Astray

  function Land(t: Trie, key: Path): Landing
    requires Formed(t)
    decreases t
  {
    match t
    case Blank => Astray
    case Leaf(path, value) => AtLeaf(key, path, value)
    case Extension(path, child) => if path <= key then Land(child, key[|path|..]) else Astray
    case Branch(children, value) => if key == [] then AtBranch(value) else Land(children[key[0]], key[1..])
  }

  /** What the trie holds at a key, told from where it ends. */
  lemma {:induction false} LandGet(t: Trie, key: Path)
    requires Formed(t)
    ensures Get(t, key) == match Land(t, key)
      case AtLeaf(rest, path, value) => if rest == path then Some(value) else None
      case AtBranch(value) => if value == [] then None else Some(value)
      case Astray => None
    decreases t
  {
    match t
    case Extension(path, child) => if path <= key { LandGet(child, key[|path|..]); }
    case Branch(children, _) => if key != [] { LandGet(children[key[0]], key[1..]); }
    case _ =>
  }

  /**
   The three things an answer can be: the decoded value of a leaf that the key reaches, the raw value
   of a branch where the key ends, or the decoded value of a leaf whose one nibble the key lacks.
   */
  predicate Explains(l: Landing, item: Item) {
    match l
    case AtLeaf(rest, path, value) => |path| <= 1 && rest <= path && Decode(value) == Some(item)
    case AtBranch(value) => item == Str(value)
    case Astray => false
  }

  /** An answer is explained by where the key ends, or a collision has been found. */
  ghost predicate Explained(h: Hasher, t: Trie, key: Path, stack: seq<Item>, o: Outcome)
    requires Formed(t) && Storable(t)
  {
    Collision(h, t, stack) || (o.Answer? && Explains(Land(t, key), o.item))
  }

  // ---------------------------------------------------------------- answers, for every key

  /** After more nibbles were taken off the key than it had, a branch fails. */
  lemma OverrunFails(h: Hasher, t: Trie, stack: seq<Item>)
    requires Formed(t) && Storable(t) && t.Branch? && forall x :: x in stack ==> Small(x)
    requires var o := Follow(h, Reference(h, t), [], true, stack); o.Answer? || o.RawByte?
    ensures Collision(h, t, stack)
  {
    ReferenceWidth(h, t);
    var node := stack[0];
    if Encode(node) != Encode(NodeItem(h, t)) {
      assert Occurs(t, t) && SameHash(h, Encode(node), Encode(NodeItem(h, t)));
    } else {
      EncodeInjective(node, NodeItem(h, t));
    }
  }

  /** Every answer to every key is explained. No condition on the keys is needed. */
  lemma {:induction false} AnswersExplained(h: Hasher, t: Trie, key: Path, stack: seq<Item>)
    requires Formed(t) && Storable(t) && forall x :: x in stack ==> Small(x)
    requires var o := Follow(h, Str(RootOf(h, t)), key, false, stack); o.Answer? || o.RawByte?
    ensures Explained(h, t, key, stack, Follow(h, Str(RootOf(h, t)), key, false, stack))
    decreases |stack|, 2
  {
    var node := stack[0];
    if Encode(node) != Encode(NodeItem(h, t)) {
      assert Occurs(t, t) && SameHash(h, Encode(node), Encode(NodeItem(h, t)));
    } else {
      EncodeInjective(node, NodeItem(h, t));
      NodeExplained(h, t, key, stack);
    }
  }

  lemma {:induction false} NodeExplained(h: Hasher, t: Trie, key: Path, stack: seq<Item>)
    requires Formed(t) && Storable(t) && (forall x :: x in stack ==> Small(x))
    requires stack != [] && stack[0] == NodeItem(h, t)
    requires var o := Follow(h, Str(RootOf(h, t)), key, false, stack); o.Answer? || o.RawByte?
    ensures Explained(h, t, key, stack, Follow(h, Str(RootOf(h, t)), key, false, stack))
    decreases |stack|, 1
  {
    var last := |stack| == 1;
    hide Visit, Encode, Collision, Decode, Reference;
    match t
    case Blank => VisitBlank(h, key, last);
    case Leaf(_, _) => VisitLeaf(h, t, key, last);
    case Extension(path, child) =>
      VisitExtension(h, t, key, last);
      if path <= key {
        ChildExplained(h, t, child, key[|path|..], key, stack);
      } else {
        OverrunFails(h, child, stack[1..]);
        CollisionBelow(h, t, child, stack);
      }
    case Branch(children, _) =>
      VisitBranch(h, t, key, last);
      if key != [] {
        assert children[key[0]] in children;
        ChildExplained(h, t, children[key[0]], key[1..], key, stack);
      }
  }

  lemma VisitBlank(h: Hasher, rest: Path, last: bool)
    ensures Visit(NodeItem(h, Blank), rest, false, last) == Stop(Failed)
  {
  }

  lemma {:induction false} ChildExplained(h: Hasher, t: Trie, c: Trie, rest: Path, key: Path, stack: seq<Item>)
    requires Formed(t) && Storable(t) && Formed(c) && Storable(c) && c != Blank
    requires (t.Extension? && c == t.child) || (t.Branch? && c in t.children)
    requires Land(t, key) == Land(c, rest)
    requires stack != [] && forall x :: x in stack ==> Small(x)
    requires var o := Follow(h, Reference(h, c), rest, false, stack[1..]); o.Answer? || o.RawByte?
    ensures Explained(h, t, key, stack, Follow(h, Reference(h, c), rest, false, stack[1..]))
    decreases |stack|, 0
  {
    ReferenceWidth(h, c);
    hide Visit, Encode, Collision, Decode, Reference;
    assert Reference(h, c).Str?;
    AnswersExplained(h, c, rest, stack[1..]);
    if Collision(h, c, stack[1..]) { CollisionBelow(h, t, c, stack); }
  }

  // ---------------------------------------------------------------- answers, for prefix-free keys

  lemma ApartChild(t: Trie, rest: Path)
    requires Formed(t) && t.Branch? && Apart(t, rest)
    ensures rest != [] && Formed(t.children[rest[0]]) && Apart(t.children[rest[0]], rest[1..])
  {
    var c :| c in t.children && c != Blank;
    var i: nat :| i < 16 && t.children[i] == c;
    var k := SomeKey(c);
    var longer: Path := [i] + k;
    assert longer[1..] == k && Get(t, longer).Some?;
    assert rest != [];
    forall k: Path | Get(t.children[rest[0]], k).Some?
      ensures k == rest[1..] || (!(k <= rest[1..]) && !(rest[1..] <= k))
    {
      var l := [rest[0]] + k;
      assert l[1..] == k && Get(t, l).Some?;
      assert rest == [rest[0]] + rest[1..];
    }
  }

  lemma ApartExtension(t: Trie, rest: Path)
    requires Formed(t) && t.Extension? && Apart(t, rest) && t.path <= rest
    ensures Apart(t.child, rest[|t.path|..])
  {
    forall k: Path | Get(t.child, k).Some?
      ensures k == rest[|t.path|..] || (!(k <= rest[|t.path|..]) && !(rest[|t.path|..] <= k))
    {
      var l := t.path + k;
      assert l[|t.path|..] == k && Get(t, l).Some?;
      assert rest == t.path + rest[|t.path|..];
    }
  }

  /** A key that stays prefix-free never ends at a branch, nor short of a leaf. */
  lemma {:induction false} ApartLands(t: Trie, key: Path)
    requires Formed(t) && Apart(t, key)
    ensures match Land(t, key)
      case AtLeaf(rest, path, _) => rest <= path ==> rest == path
      case AtBranch(_) => false
      case Astray => true
    decreases t
  {
    match t
    case Leaf(path, _) => assert Get(t, path).Some?;
    case Extension(path, child) =>
      if path <= key {
        ApartExtension(t, key);
        ApartLands(child, key[|path|..]);
      }
    case Branch(children, _) =>
      ApartChild(t, key);
      ApartLands(children[key[0]], key[1..]);
    case Blank =>
  }

  /** The answer is right, or a collision has been found. */
  ghost predicate Vindicated(h: Hasher, t: Trie, key: Path, stack: seq<Item>, o: Outcome)
    requires Formed(t) && Storable(t)
  {
    || Collision(h, t, stack)
    || (o.Answer? && Get(t, key).Some? && Decode(Get(t, key).value) == Some(o.item))
  }

  /**
   An explained answer is the decoded value at the key exactly unless the key ends at a branch, or
   lacks the one nibble of a leaf.
   */
  lemma RightExactly(t: Trie, key: Path, item: Item)
    requires Formed(t) && Explains(Land(t, key), item)
    ensures Get(t, key).Some? && Decode(Get(t, key).value) == Some(item) <==>
      match Land(t, key)
      case AtLeaf(rest, path, _) => rest == path
      case AtBranch(value) => value != [] && Decode(value) == Some(Str(value))
      case Astray => false
  {
    LandGet(t, key);
    hide Decode;
  }

  /**
   For a key that stays prefix-free with the trie's keys, an accepted proof gives the decoded value
   that the trie holds at the key, or a collision. Short children that are not hashed are no exception.
   */
  lemma Soundness(h: Hasher, t: Trie, key: Path, stack: seq<Item>)
    requires Formed(t) && Storable(t) && Apart(t, key) && forall x :: x in stack ==> Small(x)
    requires var o := Follow(h, Str(RootOf(h, t)), key, false, stack); o.Answer? || o.RawByte?
    ensures Vindicated(h, t, key, stack, Follow(h, Str(RootOf(h, t)), key, false, stack))
  {
    AnswersExplained(h, t, key, stack);
    ApartLands(t, key);
    LandGet(t, key);
    hide Follow, Collision, Decode, Apart;
  }

  // ---------------------------------------------------------------- silence, for every key

  /** Whether the walk ends at a branch whose slot at the next nibble is empty; no hash is looked at. */
  function StopsAtEmptySlot(rest: seq<nat>, over: bool, stack: seq<Item>): bool
    requires forall x :: x in stack ==> Small(x)
    decreases |stack|
  {
    stack != [] &&
    match Visit(stack[0], rest, over, |stack| == 1)
    case Stop(o) => o == NoAnswer
    case Go(_, rest', over') => StopsAtEmptySlot(rest', over', stack[1..])
  }

  lemma OverrunNeverStops(h: Hasher, t: Trie, stack: seq<Item>)
    requires Formed(t) && Storable(t) && t.Branch? && forall x :: x in stack ==> Small(x)
    requires Follow(h, Reference(h, t), [], true, stack) == NoAnswer && StopsAtEmptySlot([], true, stack)
    ensures Collision(h, t, stack)
  {
    ReferenceWidth(h, t);
    var node := stack[0];
    if Encode(node) != Encode(NodeItem(h, t)) {
      assert Occurs(t, t) && SameHash(h, Encode(node), Encode(NodeItem(h, t)));
    } else {
      EncodeInjective(node, NodeItem(h, t));
    }
  }

  /**
   Silence at an empty slot is evidence of absence, for every key: the trie holds nothing there, or a
   collision has been found.
   */
  lemma {:induction false} SilenceSound(h: Hasher, t: Trie, key: Path, stack: seq<Item>)
    requires Formed(t) && Storable(t) && forall x :: x in stack ==> Small(x)
    requires Follow(h, Str(RootOf(h, t)), key, false, stack) == NoAnswer && StopsAtEmptySlot(key, false, stack)
    ensures Collision(h, t, stack) || Get(t, key) == None
    decreases |stack|, 2
  {
    var node := stack[0];
    if Encode(node) != Encode(NodeItem(h, t)) {
      assert Occurs(t, t) && SameHash(h, Encode(node), Encode(NodeItem(h, t)));
    } else {
      EncodeInjective(node, NodeItem(h, t));
      SilentNode(h, t, key, stack);
    }
  }

  lemma {:induction false} SilentNode(h: Hasher, t: Trie, key: Path, stack: seq<Item>)
    requires Formed(t) && Storable(t) && (forall x :: x in stack ==> Small(x))
    requires stack != [] && stack[0] == NodeItem(h, t)
    requires Follow(h, Str(RootOf(h, t)), key, false, stack) == NoAnswer && StopsAtEmptySlot(key, false, stack)
    ensures Collision(h, t, stack) || Get(t, key) == None
    decreases |stack|, 1
  {
    var last := |stack| == 1;
    hide Visit, Encode, Collision, Decode, Reference;
    match t
    case Blank => VisitBlank(h, key, last);
    case Leaf(_, _) => VisitLeaf(h, t, key, last);
    case Extension(path, child) =>
      VisitExtension(h, t, key, last);
      if path <= key {
        SilentChild(h, t, child, key[|path|..], key, stack);
      } else {
        OverrunNeverStops(h, child, stack[1..]);
        CollisionBelow(h, t, child, stack);
      }
    case Branch(children, _) =>
      VisitBranch(h, t, key, last);
      if key != [] && children[key[0]] != Blank {
        assert children[key[0]] in children;
        SilentChild(h, t, children[key[0]], key[1..], key, stack);
      }
  }

  lemma {:induction false} SilentChild(h: Hasher, t: Trie, c: Trie, rest: Path, key: Path, stack: seq<Item>)
    requires Formed(t) && Storable(t) && Formed(c) && Storable(c) && c != Blank
    requires (t.Extension? && c == t.child) || (t.Branch? && c in t.children)
    requires Get(t, key) == Get(c, rest)
    requires stack != [] && forall x :: x in stack ==> Small(x)
    requires Follow(h, Reference(h, c), rest, false, stack[1..]) == NoAnswer
    requires StopsAtEmptySlot(rest, false, stack[1..])
    ensures Collision(h, t, stack) || Get(t, key) == None
    decreases |stack|, 0
  {
    ReferenceWidth(h, c);
    hide Visit, Encode, Collision, Decode, Reference;
    assert Reference(h, c).Str?;
    SilenceSound(h, c, rest, stack[1..]);
    if Collision(h, c, stack[1..]) { CollisionBelow(h, t, c, stack); }
  }
}
