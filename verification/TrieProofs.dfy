/** Merkle-Patricia proofs: the generator that collects a route, and the verifier that follows it by hash. */
module TrieProofs {
  import opened Wrappers
  import opened ByteStrings
  import opened Rlp
  import opened Tries

  // ---------------------------------------------------------------- compact paths

  datatype Compact = Compact(leaf: bool, path: Path)

  /** Flags and nibbles of a compact path; a first nibble above three fails an assertion. */
  function CompactOf(b: Bytes): Option<Compact> {
    if b == [] || b[0] / 16 > 3 then None
    else
      var skip := if (b[0] / 16) % 2 == 0 then 2 else 1;
      Some(Compact(b[0] / 16 >= 2, Nibbles(b)[skip..]))
  }

  method DecodeCompact(compact: Bytes) returns (r: Option<Compact>)
    ensures r == CompactOf(compact)
  {
    if |compact| == 0 { return None; }
    var first := compact[0] / 16;
    var skip, leaf;
    if first == 0 {
      skip, leaf := 2, false;
    } else if first == 1 {
      skip, leaf := 1, false;
    } else if first == 2 {
      skip, leaf := 2, true;
    } else if first == 3 {
      skip, leaf := 1, true;
    } else {
      return None;
    }
    var nibbles := NibblesFrom(compact, skip);
    return Some(Compact(leaf, nibbles));
  }

  lemma NibbleAt(b: Bytes, i: nat)
    requires i < 2 * |b|
    ensures Nibbles(b)[i] == if i % 2 == 0 then b[i / 2] / 16 else b[i / 2] % 16
  {
    assert i == 2 * (i / 2) || i == 2 * (i / 2) + 1;
    var k := i / 2;
    assert Nibbles(b)[2 * k] == b[k] / 16 && Nibbles(b)[2 * k + 1] == b[k] % 16;
  }

  method NibblesFrom(compact: Bytes, skip: nat) returns (nibbles: Path)
    requires skip <= 2 * |compact|
    ensures nibbles == Nibbles(compact)[skip..]
  {
    hide Nibbles;
    nibbles := [];
    for i := skip to 2 * |compact|
      invariant nibbles == Nibbles(compact)[skip..i]
    {
      NibbleAt(compact, i);
      assert Nibbles(compact)[skip..i + 1] == Nibbles(compact)[skip..i] + [Nibbles(compact)[i]];
      if i % 2 == 0 {
        nibbles := nibbles + [compact[i / 2] / 16];
      } else {
        nibbles := nibbles + [compact[i / 2] % 16];
      }
    }
    assert Nibbles(compact)[skip..2 * |compact|] == Nibbles(compact)[skip..];
  }

  /** The compact form of a path is decoded to it. */
  lemma CompactRoundTrip(p: Path, leaf: bool)
    ensures CompactOf(HexPrefix(p, leaf)) == Some(Compact(leaf, p))
    ensures HexPrefix(p, leaf)[0] < 0x40
  {
    if |p| % 2 == 0 { EvenRoundTrip(p, leaf); } else { OddRoundTrip(p, leaf); }
  }

  lemma EvenRoundTrip(p: Path, leaf: bool)
    requires |p| % 2 == 0
    ensures CompactOf(HexPrefix(p, leaf)) == Some(Compact(leaf, p)) && HexPrefix(p, leaf)[0] < 0x40
  {
    var flag := if leaf then 2 else 0;
    var b := HexPrefix(p, leaf);
    PairNibbles(p);
    NibblesOfPair(flag, 0, Pairs(p));
    hide Nibbles, Pairs;
    assert b == [Joined(flag, 0)] + Pairs(p);
    assert Nibbles(b) == [flag, 0] + p && Nibbles(b)[2..] == p;
  }

  lemma OddRoundTrip(p: Path, leaf: bool)
    requires |p| % 2 == 1
    ensures CompactOf(HexPrefix(p, leaf)) == Some(Compact(leaf, p)) && HexPrefix(p, leaf)[0] < 0x40
  {
    var flag := if leaf then 3 else 1;
    var b := HexPrefix(p, leaf);
    PairNibbles(p[1..]);
    NibblesOfPair(flag, p[0], Pairs(p[1..]));
    hide Nibbles, Pairs;
    assert b == [Joined(flag, p[0])] + Pairs(p[1..]);
    assert Nibbles(b) == [flag, p[0]] + p[1..] && Nibbles(b)[1..] == p;
  }

  // ---------------------------------------------------------------- the generator

  /** The nodes met on the way down, ending where the key ends or leaves the trie. */
  function Route(h: Hasher, t: Trie, key: Path): seq<Item>
    requires Formed(t) && Storable(t)
    decreases t
  {
    match t
    case Blank => []
    case Leaf(_, _) => [NodeItem(h, t)]
    case Extension(path, child) => [NodeItem(h, t)] + if path <= key then Route(h, child, key[|path|..]) else []
    case Branch(children, _) => [NodeItem(h, t)] + if key != [] then Route(h, children[key[0]], key[1..]) else []
  }

  /** The length of the common prefix of two paths. */
  method CommonPrefix(a: Path, b: Path) returns (n: nat)
    ensures n <= |a| && n <= |b| && a[..n] == b[..n] && (n < |a| && n < |b| ==> a[n] != b[n])
    ensures n == |a| <==> a <= b
  {
    n := 0;
    if a <= b { assert forall i :: 0 <= i < |a| ==> a[i] == b[i]; }
    while n < |a| && n < |b| && a[n] == b[n]
      invariant n <= |a| && n <= |b| && a[..n] == b[..n]
    {
      n := n + 1;
    }
    if n == |a| { assert a[..n] == a; }
  }

  /** The generator appends to one stack while it descends. */
  class Generator {
    var stack: seq<Item>

    constructor ()
      ensures stack == []
    {
      stack := [];
    }

    method Descend(h: Hasher, t: Trie, key: Path)
      requires Formed(t) && Storable(t)
      modifies this
      ensures stack == old(stack) + Route(h, t, key)
      decreases t
    {
      hide *;
      RouteStep(h, t, key);
      if t == Blank { return; }
      stack := stack + [NodeItem(h, t)];
      match t
      case Branch(children, _) =>
        if key != [] { Descend(h, children[key[0]], key[1..]); }
      case Extension(path, child) =>
        var n := CommonPrefix(path, key);
        if n == |path| { Descend(h, child, key[n..]); }
      case Leaf(_, _) =>
    }
  }

  /** What the node at the top of a route continues with. */
  lemma RouteStep(h: Hasher, t: Trie, key: Path)
    requires Formed(t) && Storable(t)
    ensures t == Blank ==> Route(h, t, key) == []
    ensures t.Leaf? ==> Route(h, t, key) == [NodeItem(h, t)]
    ensures t.Extension? ==> Formed(t.child) && Storable(t.child)
    ensures t.Extension? && t.path <= key ==> Route(h, t, key) == [NodeItem(h, t)] + Route(h, t.child, key[|t.path|..])
    ensures t.Extension? && !(t.path <= key) ==> Route(h, t, key) == [NodeItem(h, t)]
    ensures t.Branch? ==> |t.children| == 16
    ensures t.Branch? && key != [] ==> Formed(t.children[key[0]]) && Storable(t.children[key[0]])
    ensures t.Branch? && key != [] ==> Route(h, t, key) == [NodeItem(h, t)] + Route(h, t.children[key[0]], key[1..])
    ensures t.Branch? && key == [] ==> Route(h, t, key) == [NodeItem(h, t)]
  {
    hide NodeItem;
    if t.Branch? && key != [] { assert t.children[key[0]] in t.children; }
  }

  method GenerateProof(h: Hasher, t: Trie, nibbles: seq<nat>) returns (r: Option<seq<Item>>)
    requires Formed(t) && Storable(t)
    ensures r.None? <==> exists i :: 0 <= i < |nibbles| && nibbles[i] >= 16
    ensures r.Some? ==> var key: Path := nibbles; r.value == Route(h, t, key)
  {
    if exists i :: 0 <= i < |nibbles| && nibbles[i] >= 16 { return None; }
    var key: Path := nibbles;
    var g := new Generator();
    g.Descend(h, t, key);
    return Some(g.stack);
  }

  // ---------------------------------------------------------------- the verifier

  /**
   How a verification ends: a failed assertion or an exception, the end of the stack without an
   answer, a value, or the byte at position sixteen when the node is a string of length seventeen.
   */
  datatype Outcome = Failed | NoAnswer | Answer(item: Item) | RawByte(b: Byte)

  /** How many nibbles the key and the node's path share; all of the path when the key runs out first. */
  function Shared(rest: seq<nat>, path: seq<nat>): (n: nat)
    ensures n <= |path|
    ensures n == |path| <==> rest <= path || path <= rest
  {
    if path == [] || rest == [] then |path|
    else if rest[0] != path[0] then 0
    else
      assert rest == [rest[0]] + rest[1..] && path == [path[0]] + path[1..];
      assert rest[1..] <= path[1..] || path[1..] <= rest[1..] <==> rest <= path || path <= rest;
      1 + Shared(rest[1..], path[1..])
  }

  method SharedPrefixLength(offset: nat, xs: seq<nat>, ys: seq<nat>) returns (n: nat)
    ensures n == Shared(if offset <= |xs| then xs[offset..] else [], ys)
  {
    for i := 0 to |ys|
      invariant i == 0 || offset + i <= |xs|
      invariant Shared(if offset <= |xs| then xs[offset..] else [], ys)
        == i + Shared(if offset + i <= |xs| then xs[offset + i..] else [], ys[i..])
    {
      if i + offset >= |xs| { return |ys|; }
      if xs[i + offset] != ys[i] { return i; }
      assert xs[offset + i..][1..] == xs[offset + i + 1..] && ys[i..][1..] == ys[i + 1..];
    }
    return |ys|;
  }

  function Width(x: Item): nat {
    match x
    case Str(s) => |s|
    case List(xs) => |xs|
  }

  /** What a node whose hash was right leads to: an end, or a reference to go on with. */
  datatype Step = Stop(o: Outcome) | Go(target: Item, rest: seq<nat>, over: bool)

  /**
   `rest` is the part of the key that has not been matched, and `over` says that more nibbles have
   been taken off the key than it had.
   */
  function Visit(node: Item, rest: seq<nat>, over: bool, last: bool): Step
    requires Small(node)
  {
    match node
    case Str(s) => if |s| == 17 && rest == [] && !over && last then Stop(RawByte(s[16])) else Stop(Failed)
    case List(xs) =>
      if |xs| == 17 then
        if over then Stop(Failed)
        else if rest == [] then if last then Stop(Answer(xs[16])) else Stop(Failed)
        else if rest[0] > 16 then Stop(Failed)
        else if Width(xs[rest[0]]) == 0 then if last then Stop(NoAnswer) else Stop(Failed)
        else Go(xs[rest[0]], rest[1..], false)
      else if |xs| == 2 then VisitPath(xs, rest, over, last)
      else Stop(Failed)
  }

  function VisitPath(xs: seq<Item>, rest: seq<nat>, over: bool, last: bool): Step
    requires |xs| == 2 && SmallAll(xs)
  {
    match CompactOf(Encode(xs[0]))
    case None => Stop(Failed)
    case Some(c) =>
      var n := Shared(rest, c.path);
      if n < |c.path| then Stop(Failed)
      else if !c.leaf then
        if last then Stop(Failed) else Go(xs[1], Off(rest, n), over || |rest| < n)
      else if !last || Off(rest, n) != [] || xs[1].List? then Stop(Failed)
      else
        match Decode(xs[1].s)
        case None => Stop(Failed)
        case Some(item) => Stop(Answer(item))
  }

  function Off(rest: seq<nat>, n: nat): seq<nat> { if |rest| < n then [] else rest[n..] }

  /** Following a stack from a reference: each node must have the hash that refers to it. */
  function Follow(h: Hasher, target: Item, rest: seq<nat>, over: bool, stack: seq<Item>): Outcome
    requires forall x :: x in stack ==> Small(x)
    decreases |stack|
  {
    if stack == [] then NoAnswer
    else if target != Str(h(Encode(stack[0]))) then Failed
    else
      match Visit(stack[0], rest, over, |stack| == 1)
      case Stop(o) => o
      case Go(next, rest', over') => Follow(h, next, rest', over', stack[1..])
  }

  /** The part of the key behind an offset that may have run past its end. */
  function Behind(key: seq<nat>, offset: nat): seq<nat> { if offset <= |key| then key[offset..] else [] }

  lemma TakenOff(key: seq<nat>, offset: nat, n: nat)
    ensures var rest := Behind(key, offset);
      Behind(key, offset + n) == Off(rest, n) && (offset + n > |key| <==> offset > |key| || |rest| < n)
  {
  }

  lemma SmallPair(xs: seq<Item>)
    requires |xs| == 2 && Small(List(xs))
    ensures SmallAll(xs) && Small(xs[0]) && Small(xs[1])
  {
    assert SmallAll(xs[1..]) && xs[1..][0] == xs[1];
  }

  /** A leaf or extension node: take its path off the key and look at what is behind it. */
  method VisitPathNode(xs: seq<Item>, key: seq<nat>, offset: nat, last: bool) returns (s: Step, after: nat)
    requires |xs| == 2 && SmallAll(xs)
    ensures s == VisitPath(xs, Behind(key, offset), offset > |key|, last)
    ensures s.Go? ==> s.rest == Behind(key, after) && s.over == (after > |key|)
  {
    hide CompactOf, Decode, Encode, Shared;
    var c := DecodeCompact(Encode(xs[0]));
    if c.None? { return Stop(Failed), offset; }
    var n := SharedPrefixLength(offset, key, c.value.path);
    after := offset + n;
    TakenOff(key, offset, n);
    if n < |c.value.path| { return Stop(Failed), after; }
    if c.value.leaf {
      if !last || after < |key| { return Stop(Failed), after; }
      if xs[1].List? { return Stop(Failed), after; }
      var tx := Decode(xs[1].s);
      if tx.None? { return Stop(Failed), after; }
      return Stop(Answer(tx.value)), after;
    }
    if last { return Stop(Failed), after; }
    return Go(xs[1], Behind(key, after), after > |key|), after;
  }

  method VisitNode(node: Item, key: seq<nat>, offset: nat, last: bool) returns (s: Step, after: nat)
    requires Small(node)
    ensures s == Visit(node, Behind(key, offset), offset > |key|, last)
    ensures s.Go? ==> s.rest == Behind(key, after) && s.over == (after > |key|)
  {
    hide VisitPath, Small;
    match node {
      case Str(b) =>
        if |b| == 17 && offset == |key| && last { return Stop(RawByte(b[16])), offset; }
        return Stop(Failed), offset;
      case List(xs) =>
        if |xs| == 17 {
          if offset > |key| { return Stop(Failed), offset; }
          if offset != |key| {
            var nibble := key[offset];
            after := offset + 1;
            if nibble > 16 { return Stop(Failed), after; }
            if Width(xs[nibble]) == 0 {
              if !last { return Stop(Failed), after; }
              return Stop(NoAnswer), after;
            }
            return Go(xs[nibble], key[after..], false), after;
          }
          if !last { return Stop(Failed), offset; }
          return Stop(Answer(xs[16])), offset;
        }
        if |xs| == 2 {
          SmallPair(xs);
          s, after := VisitPathNode(xs, key, offset, last);
          return;
        }
        return Stop(Failed), offset;
    }
  }

  method VerifyMptProof(h: Hasher, root: Item, key: seq<nat>, stack: seq<Item>) returns (o: Outcome)
    requires forall x :: x in stack ==> Small(x)
    ensures o == Follow(h, root, key, false, stack)
  {
    hide Visit, Encode, Small;
    var offset: nat := 0;
    var target := root;
    for i := 0 to |stack|
      invariant Follow(h, target, Behind(key, offset), offset > |key|, stack[i..])
        == Follow(h, root, key, false, stack)
    {
      assert stack[i..][0] == stack[i] && stack[i..][1..] == stack[i + 1..];
      if target != Str(h(Encode(stack[i]))) { return Failed; }
      var s, after := VisitNode(stack[i], key, offset, i == |stack| - 1);
      if s.Stop? { return s.o; }
      target, offset := s.target, after;
    }
    return NoAnswer;
  }
}
