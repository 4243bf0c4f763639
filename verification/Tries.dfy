/** The hexary trie as a value: lookup, canonical construction, and its nodes as RLP items. */
module Tries {
  import opened Wrappers
  import opened ByteStrings
  import opened Rlp

  type Nibble = n: nat | n < 16
  type Path = seq<Nibble>

  /** What a 32-byte hash function returns. */
  type Digest = b: Bytes | |b| == 32 witness seq(32, _ => 0)
  type Hasher = Bytes -> Digest

  datatype Trie =
    | Blank
    | Leaf(path: Path, value: Bytes)
    | Extension(path: Path, child: Trie)
    | Branch(children: seq<Trie>, value: Bytes)

  /** The value at a key; an empty value in a branch means there is none. */
  function Get(t: Trie, key: Path): Option<Bytes>
    requires Formed(t)
    decreases t
  {
    match t
    case Blank => None
    case Leaf(path, value) => if path == key then Some(value) else None
    case Extension(path, child) => if path <= key then Get(child, key[|path|..]) else None
    case Branch(children, value) =>
      if key != [] then Get(children[key[0]], key[1..])
      else if value == [] then None else Some(value)
  }

  /** Branches have sixteen children, of which at least one is in use; extensions lead to branches. */
  predicate Formed(t: Trie)
    decreases t
  {
    match t
    case Blank => true
    case Leaf(_, value) => value != []
    case Extension(path, child) => path != [] && child.Branch? && Formed(child)
    case Branch(children, _) =>
      |children| == 16 && (forall c :: c in children ==> Formed(c)) && (exists c :: c in children && c != Blank)
  }

  /** A trie that is not blank holds a key. */
  lemma {:induction false} SomeKey(t: Trie) returns (key: Path)
    requires Formed(t) && t != Blank
    ensures Get(t, key).Some?
    decreases t
  {
    match t
    case Leaf(path, _) => key := path;
    case Extension(path, child) =>
      var rest := SomeKey(child);
      key := path + rest;
      assert key[|path|..] == rest && path <= key;
    case Branch(children, _) =>
      var c :| c in children && c != Blank;
      var i: nat :| i < |children| && children[i] == c;
      var rest := SomeKey(c);
      key := [i] + rest;
      assert key[1..] == rest && key[0] == i;
  }

  // ---------------------------------------------------------------- canonical construction

  /** The entries whose key starts with `i`, without that nibble. */
  function Sub(m: map<Path, Bytes>, i: Nibble): (r: map<Path, Bytes>)
    ensures forall k: Path :: k in r <==> [i] + k in m
    ensures forall k :: k in r ==> r[k] == m[[i] + k]
  {
    var tails := set k | k in m && k != [] && k[0] == i :: k[1..];
    assert forall k: Path :: k in tails <==> [i] + k in m by {
      forall k: Path ensures k in tails <==> [i] + k in m {
        if [i] + k in m { assert ([i] + k)[1..] == k && ([i] + k)[0] == i; }
        if k in tails {
          var l :| l in m && l != [] && l[0] == i && l[1..] == k;
          assert l == [i] + k;
        }
      }
    }
    map k | k in tails :: m[[i] + k]
  }

  predicate AllStartWith(m: map<Path, Bytes>, i: Nibble) {
    forall k :: k in m ==> k != [] && k[0] == i && k == [i] + k[1..]
  }

  ghost predicate CommonStart(m: map<Path, Bytes>) { exists i: Nibble :: AllStartWith(m, i) }

  /** Put a nibble in front of every key of a trie. */
  function Prepend(i: Nibble, t: Trie): Trie {
    match t
    case Blank => Blank
    case Leaf(path, value) => Leaf([i] + path, value)
    case Extension(path, child) => Extension([i] + path, child)
    case Branch(_, _) => Extension([i], t)
  }

  /** The one trie for a set of entries, whose keys have at most `n` nibbles. */
  ghost function Build(m: map<Path, Bytes>, n: nat): Trie
    requires forall k :: k in m ==> |k| <= n
    decreases n
  {
    if m == map[] then Blank
    else if |m| == 1 then
      var k :| k in m;
      Leaf(k, m[k])
    else if n == 0 then Blank
    else if CommonStart(m) then
      var i: Nibble :| AllStartWith(m, i);
      Prepend(i, Build(Sub(m, i), n - 1))
    else
      Branch(seq(16, i requires 0 <= i < 16 => Build(Sub(m, i), n - 1)), if [] in m then m[[]] else [])
  }

  lemma PrependGet(i: Nibble, t: Trie, key: Path)
    requires Formed(t)
    ensures Formed(Prepend(i, t))
    ensures Get(Prepend(i, t), key) == if key != [] && key[0] == i then Get(t, key[1..]) else None
  {
    match t
    case Blank =>
    case Leaf(path, _) =>
      if key != [] && key[0] == i { assert key == [i] + key[1..]; }
      assert ([i] + path)[1..] == path;
    case Extension(path, child) =>
      var p := [i] + path;
      assert p[0] == i && p[1..] == path;
      if p <= key { assert key[|p|..] == key[1..][|path|..] && path <= key[1..]; }
      if key != [] && key[0] == i && path <= key[1..] {
        assert key == [i] + key[1..];
        assert p <= key;
      }
    case Branch(_, _) =>
      if key != [] && key[0] == i { assert [i] <= key; }
  }

  lemma SubSize(m: map<Path, Bytes>, i: Nibble)
    requires AllStartWith(m, i)
    ensures |Sub(m, i)| == |m|
  {
    SameSize(Sub(m, i).Keys, m.Keys, i);
  }

  lemma HeadTail(i: Nibble, k: Path)
    ensures ([i] + k)[0] == i && ([i] + k)[1..] == k
  {
  }

  lemma {:induction false} SameSize(s: set<Path>, t: set<Path>, i: Nibble)
    requires forall k: Path :: k in s <==> [i] + k in t
    requires forall k :: k in t ==> k != [] && k[0] == i && k == [i] + k[1..]
    ensures |s| == |t|
    decreases |s|
  {
    assert forall k :: k in t ==> k[1..] in s;
    if s == {} {
      assert t == {};
    } else {
      var k :| k in s;
      var l := [i] + k;
      forall j: Path ensures j in s - {k} <==> [i] + j in t - {l} {
        HeadTail(i, j);
        HeadTail(i, k);
      }
      SameSize(s - {k}, t - {l}, i);
    }
  }

  /** Two different keys that do not all start alike leave a branch with a child in use. */
  lemma BranchInUse(m: map<Path, Bytes>) returns (i: Nibble)
    requires |m| > 1
    ensures Sub(m, i) != map[]
  {
    var k :| k in m && k != [] by {
      if forall k :: k in m ==> k == [] {
        assert m.Keys <= {[]};
        SmallSet(m.Keys, {[]});
      }
    }
    i := k[0];
    assert k == [i] + k[1..];
    assert k[1..] in Sub(m, i);
  }

  lemma SmallSet(s: set<Path>, t: set<Path>)
    requires s <= t
    ensures |s| <= |t|
  {
    if s != t {
      assert t == s + (t - s);
    }
  }

  lemma BuildSingle(m: map<Path, Bytes>, n: nat) returns (k: Path)
    requires (forall k :: k in m ==> |k| <= n) && |m| == 1
    ensures m.Keys == {k} && Build(m, n) == Leaf(k, m[k])
  {
    k :| k in m && Build(m, n) == Leaf(k, m[k]);
    SingleKey(m.Keys, k);
  }

  lemma SingleKey(s: set<Path>, k: Path)
    requires |s| == 1 && k in s
    ensures s == {k}
  {
    assert |s - {k}| == 0;
  }

  lemma BuildPrepended(m: map<Path, Bytes>, n: nat) returns (i: Nibble)
    requires (forall k :: k in m ==> |k| <= n) && |m| > 1 && n > 0 && CommonStart(m)
    ensures AllStartWith(m, i) && (forall k :: k in Sub(m, i) ==> |k| <= n - 1)
    ensures Build(m, n) == Prepend(i, Build(Sub(m, i), n - 1))
  {
    i :| AllStartWith(m, i) && Build(m, n) == Prepend(i, Build(Sub(m, i), n - 1));
  }

  lemma BuildBranched(m: map<Path, Bytes>, n: nat, i: Nibble)
    requires (forall k :: k in m ==> |k| <= n) && |m| > 1 && n > 0 && !CommonStart(m)
    ensures forall k :: k in Sub(m, i) ==> |k| <= n - 1
    ensures var t := Build(m, n);
      t.Branch? && |t.children| == 16 && t.children[i] == Build(Sub(m, i), n - 1)
      && t.value == if [] in m then m[[]] else []
  {
  }

  lemma NonEmptyKeys(m: map<Path, Bytes>)
    requires |m| > 1
    ensures exists k :: k in m && |k| > 0
  {
    if forall k :: k in m ==> k == [] {
      assert m.Keys <= {[]};
      SmallSet(m.Keys, {[]});
    }
  }

  predicate ValuesPresent(m: map<Path, Bytes>) { forall k :: k in m ==> m[k] != [] }

  /** What a trie must be to hold exactly the entries of `m`, as far as `key` can tell. */
  ghost predicate Holds(t: Trie, m: map<Path, Bytes>, key: Path) {
    && Formed(t) && (m != map[] ==> t != Blank) && (|m| > 1 ==> t.Extension? || t.Branch?)
    && Get(t, key) == if key in m then Some(m[key]) else None
  }

  lemma HoldsLeaf(m: map<Path, Bytes>, k: Path, key: Path)
    requires m.Keys == {k} && ValuesPresent(m)
    ensures Holds(Leaf(k, m[k]), m, key)
  {
    assert key in m <==> key == k;
    assert |m.Keys| == 1;
  }

  lemma HoldsPrepended(m: map<Path, Bytes>, i: Nibble, t: Trie, key: Path)
    requires |m| > 1 && AllStartWith(m, i) && Holds(t, Sub(m, i), if key != [] then key[1..] else [])
    ensures Holds(Prepend(i, t), m, key)
  {
    SubSize(m, i);
    PrependGet(i, t, key);
    if key != [] && key[0] == i { assert key == [i] + key[1..]; }
    hide Sub, Formed;
  }

  lemma HoldsBranch(m: map<Path, Bytes>, j: Nibble, t: Trie, key: Path)
    requires ValuesPresent(m) && t.Branch? && |t.children| == 16 && t.value == if [] in m then m[[]] else []
    requires Sub(m, j) != map[]
    requires forall i: Nibble :: Holds(t.children[i], Sub(m, i), if key != [] then key[1..] else [])
    ensures Holds(t, m, key)
  {
    hide Sub;
    assert Holds(t.children[j], Sub(m, j), if key != [] then key[1..] else []);
    forall i: Nibble ensures Formed(t.children[i]) {
      assert Holds(t.children[i], Sub(m, i), if key != [] then key[1..] else []);
    }
    BranchFormed(t, j);
    BranchGet(t, key);
    if key != [] {
      assert Holds(t.children[key[0]], Sub(m, key[0]), key[1..]);
      assert key == [key[0]] + key[1..];
    }
    hide Formed, Get;
  }

  lemma HoldsNothing(m: map<Path, Bytes>, n: nat, key: Path)
    requires (forall k :: k in m ==> |k| <= n) && |m| == 0
    ensures Holds(Build(m, n), m, key)
  {
    assert m == map[];
  }

  /** The trie that is built holds exactly the entries. */
  lemma {:induction false} BuildGet(m: map<Path, Bytes>, n: nat, key: Path)
    requires (forall k :: k in m ==> |k| <= n) && ValuesPresent(m)
    ensures Holds(Build(m, n), m, key)
    decreases n, 1
  {
    hide *;
    if |m| == 0 {
      HoldsNothing(m, n, key);
    } else if |m| == 1 {
      var k := BuildSingle(m, n);
      HoldsLeaf(m, k, key);
    } else {
      NonEmptyKeys(m);
      if CommonStart(m) {
        var i := BuildPrepended(m, n);
        SubPresent(m, i);
        BuildGet(Sub(m, i), n - 1, if key != [] then key[1..] else []);
        HoldsPrepended(m, i, Build(Sub(m, i), n - 1), key);
      } else {
        BuildGetBranch(m, n, key);
      }
    }
  }

  lemma {:induction false} BuildGetBranch(m: map<Path, Bytes>, n: nat, key: Path)
    requires (forall k :: k in m ==> |k| <= n) && ValuesPresent(m) && |m| > 1 && n > 0 && !CommonStart(m)
    ensures Holds(Build(m, n), m, key)
    decreases n, 0
  {
    hide *;
    var j := BranchInUse(m);
    BuildBranched(m, n, j);
    var t := Build(m, n);
    forall i: Nibble ensures Holds(t.children[i], Sub(m, i), if key != [] then key[1..] else []) {
      BuildGetChild(m, n, i, if key != [] then key[1..] else []);
    }
    HoldsBranch(m, j, t, key);
  }

  lemma {:induction false} BuildGetChild(m: map<Path, Bytes>, n: nat, i: Nibble, rest: Path)
    requires (forall k :: k in m ==> |k| <= n) && ValuesPresent(m) && |m| > 1 && n > 0 && !CommonStart(m)
    ensures Build(m, n).Branch? && |Build(m, n).children| == 16
    ensures Holds(Build(m, n).children[i], Sub(m, i), rest)
    decreases n - 1, 2
  {
    hide *;
    BuildBranched(m, n, i);
    SubPresent(m, i);
    BuildGet(Sub(m, i), n - 1, rest);
  }

  lemma SubPresent(m: map<Path, Bytes>, i: Nibble)
    requires ValuesPresent(m)
    ensures ValuesPresent(Sub(m, i))
  {
  }

  lemma BranchFormed(t: Trie, j: Nibble)
    requires t.Branch? && |t.children| == 16 && t.children[j] != Blank && forall i: Nibble :: Formed(t.children[i])
    ensures Formed(t)
  {
    assert t.children[j] in t.children;
    forall c | c in t.children ensures Formed(c) {
      var i: nat :| i < 16 && t.children[i] == c;
      var k: Nibble := i;
      assert Formed(t.children[k]);
    }
  }

  lemma BranchGet(t: Trie, key: Path)
    requires t.Branch? && Formed(t)
    ensures Get(t, key) ==
      if key != [] then Get(t.children[key[0]], key[1..]) else if t.value == [] then None else Some(t.value)
  {
  }

  // ---------------------------------------------------------------- nodes as items

  /** The nibbles of bytes, high half first. */
  function Nibbles(b: Bytes): (r: Path)
    ensures |r| == 2 * |b|
    ensures forall i :: 0 <= i < |b| ==> r[2 * i] == b[i] / 16 && r[2 * i + 1] == b[i] % 16
  {
    if b == [] then [] else [b[0] / 16, b[0] % 16] + Nibbles(b[1..])
  }

  function Joined(hi: nat, lo: nat): Byte
    requires hi < 16 && lo < 16
  {
    16 * hi + lo
  }

  function Pairs(p: Path): (r: Bytes)
    requires |p| % 2 == 0
    ensures |r| == |p| / 2
  {
    if p == [] then [] else [Joined(p[0], p[1])] + Pairs(p[2..])
  }

  lemma {:induction false} PairNibbles(p: Path)
    requires |p| % 2 == 0
    ensures Nibbles(Pairs(p)) == p
    decreases |p|
  {
    if p != [] {
      PairNibbles(p[2..]);
      NibblesOfPair(p[0], p[1], Pairs(p[2..]));
      assert p == [p[0], p[1]] + p[2..];
    }
  }

  lemma NibblesOfPair(hi: Nibble, lo: Nibble, rest: Bytes)
    ensures Nibbles([Joined(hi, lo)] + rest) == [hi, lo] + Nibbles(rest)
  {
    var b := [Joined(hi, lo)] + rest;
    assert b[1..] == rest && b[0] / 16 == hi && b[0] % 16 == lo;
  }

  /** The compact form of a path: flags, and the first nibble if their number is odd. */
  function HexPrefix(p: Path, leaf: bool): (r: Bytes)
    ensures |r| == |p| / 2 + 1
  {
    var flag := if leaf then 2 else 0;
    if |p| % 2 == 0 then [Joined(flag, 0)] + Pairs(p) else [Joined(flag + 1, p[0])] + Pairs(p[1..])
  }

  const SIZE: nat := 0x1_0000_0000

  /** Paths and values of a size that a node can carry. */
  predicate Storable(t: Trie)
    decreases t
  {
    match t
    case Blank => true
    case Leaf(path, value) => |path| < SIZE && |value| < SIZE
    case Extension(path, child) => |path| < SIZE && Storable(child)
    case Branch(children, value) => |children| == 16 && |value| < SIZE && forall c :: c in children ==> Storable(c)
  }

  lemma HeaderSize(base: nat, n: nat)
    requires (base == 0x80 || base == 0xc0) && n < LIMIT
    ensures |Header(base, n)| <= 9 && (n <= 55 ==> |Header(base, n)| == 1)
  {
    LimitIs();
    ShortestLength(n, 8);
  }

  lemma {:induction false} PayloadSize(xs: seq<Item>, k: nat)
    requires forall x :: x in xs ==> Small(x) && |Encode(x)| <= k
    ensures SmallAll(xs) && |Payload(xs)| <= |xs| * k
    decreases |xs|
  {
    hide Encode, Small;
    if xs != [] {
      assert Small(xs[0]) && |Encode(xs[0])| <= k;
      PayloadSize(xs[1..], k);
      assert |Payload(xs)| == |Encode(xs[0])| + |Payload(xs[1..])|;
      hide Payload, SmallAll;
      assert |xs| * k == |xs[1..]| * k + k;
    }
  }

  /** A list of items with short encodings is an item that can be encoded. */
  lemma ShortListSmall(xs: seq<Item>)
    requires |xs| <= 17 && forall x :: x in xs ==> Small(x) && |Encode(x)| <= 2 * SIZE
    ensures Small(List(xs))
  {
    PayloadSize(xs, 2 * SIZE);
    hide Encode, Payload, SmallAll;
  }

  lemma StringSmall(s: Bytes)
    requires |s| <= SIZE
    ensures Small(Str(s)) && |Encode(Str(s))| <= |s| + 9
    ensures |s| <= 55 ==> |Encode(Str(s))| <= |s| + 1
  {
    HeaderSize(0x80, |s|);
  }

  function NodeItem(h: Hasher, t: Trie): (x: Item)
    requires Storable(t)
    ensures Small(x)
    decreases t, 1
  {
    match t
    case Blank => Str([])
    case Leaf(path, value) =>
      PairSmall(Str(HexPrefix(path, true)), Str(value));
      List([Str(HexPrefix(path, true)), Str(value)])
    case Extension(path, child) =>
      PairSmall(Str(HexPrefix(path, false)), Reference(h, child));
      List([Str(HexPrefix(path, false)), Reference(h, child)])
    case Branch(children, value) =>
      var refs := seq(16, i requires 0 <= i < 16 => Reference(h, children[i]));
      BranchSmall(refs, value);
      List(refs + [Str(value)])
  }

  lemma PairSmall(x: Item, y: Item)
    requires x.Str? && |x.s| <= SIZE && ((y.Str? && |y.s| <= SIZE) || (Small(y) && |Encode(y)| <= 33))
    ensures Small(List([x, y]))
  {
    StringSmall(x.s);
    if y.Str? && |y.s| <= SIZE { StringSmall(y.s); }
    ShortListSmall([x, y]);
  }

  lemma BranchSmall(refs: seq<Item>, value: Bytes)
    requires |refs| == 16 && |value| < SIZE && forall r :: r in refs ==> Small(r) && |Encode(r)| <= 33
    ensures Small(List(refs + [Str(value)]))
  {
    StringSmall(value);
    ShortListSmall(refs + [Str(value)]);
  }

  /** How a parent refers to a child: by hash, unless the child is shorter than a hash. */
  function Reference(h: Hasher, t: Trie): (x: Item)
    requires Storable(t)
    ensures Small(x) && |Encode(x)| <= 33
    decreases t, 2
  {
    if t == Blank then Str([])
    else if |Encode(NodeItem(h, t))| < 32 then NodeItem(h, t)
    else
      StringSmall(h(Encode(NodeItem(h, t))));
      Str(h(Encode(NodeItem(h, t))))
  }
}
