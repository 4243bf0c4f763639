/**
 Setting entries one after the other: every update of a canonical trie gives the canonical trie of the
 updated entries, so that the order of the updates does not matter.
 */
module TrieUpdates {
  import opened Rlp
  import opened Tries

  /** The children of a new branch. */
  function NoChildren(): (r: seq<Trie>)
    ensures |r| == 16 && forall i :: 0 <= i < 16 ==> r[i] == Blank
  {
    seq(16, i => Blank)
  }

  /** What is left of an extension once its path has been shortened. */
  function Rest(path: Path, child: Trie): Trie { if path == [] then child else Extension(path, child) }

  /** Put an entry into an empty place of a branch. */
  function Place(b: Trie, key: Path, value: Bytes): (r: Trie)
    requires b.Branch? && |b.children| == 16
    ensures r.Branch? && |r.children| == 16
  {
    if key == [] then Branch(b.children, value)
    else Branch(b.children[key[0] := Leaf(key[1..], value)], b.value)
  }

  /** The trie with the value set at the key. */
  function Set(t: Trie, key: Path, value: Bytes): Trie
    requires Formed(t)
    decreases |key|
  {
    match t
    case Blank => Leaf(key, value)
    case Leaf(path, was) =>
      if path == key then Leaf(key, value)
      else if path != [] && key != [] && path[0] == key[0] then
        Prepend(key[0], Set(Leaf(path[1..], was), key[1..], value))
      else Place(Place(Branch(NoChildren(), []), path, was), key, value)
    case Extension(path, child) =>
      if key != [] && path[0] == key[0] then Prepend(key[0], Set(Rest(path[1..], child), key[1..], value))
      else Place(Branch(NoChildren()[path[0] := Rest(path[1..], child)], []), key, value)
    case Branch(children, was) =>
      if key == [] then Branch(children, value)
      else Branch(children[key[0] := Set(children[key[0]], key[1..], value)], was)
  }

  // ---------------------------------------------------------------- entries

  lemma SubUpdate(m: map<Path, Bytes>, key: Path, value: Bytes, i: Nibble)
    ensures Sub(m[key := value], i) ==
      if key != [] && key[0] == i then Sub(m, i)[key[1..] := value] else Sub(m, i)
  {
    var r := Sub(m[key := value], i);
    var s := if key != [] && key[0] == i then Sub(m, i)[key[1..] := value] else Sub(m, i);
    SubIs(m, i);
    SubIs(m[key := value], i);
    hide *;
    forall k: Path ensures k in r <==> k in s { Under(i, k, key); }
    forall k | k in r ensures r[k] == s[k] { Under(i, k, key); }
  }

  lemma SubIs(m: map<Path, Bytes>, i: Nibble)
    ensures forall k: Path :: k in Sub(m, i) <==> [i] + k in m
    ensures forall k: Path :: k in Sub(m, i) ==> Sub(m, i)[k] == m[[i] + k]
  {
    hide Sub;
  }

  lemma Under(i: Nibble, k: Path, key: Path)
    ensures [i] + k == key <==> key != [] && key[0] == i && k == key[1..]
  {
    HeadTail(i, k);
    if key != [] && key[0] == i && k == key[1..] { assert key == [i] + key[1..]; }
  }

  /** A branch is determined by its children and its value. */
  lemma BuildIsBranch(m: map<Path, Bytes>, n: nat, children: seq<Trie>, value: Bytes)
    requires (forall k :: k in m ==> |k| <= n) && |m| > 1 && n > 0 && !CommonStart(m) && |children| == 16
    requires forall i: Nibble :: (forall k :: k in Sub(m, i) ==> |k| <= n - 1) && children[i] == Build(Sub(m, i), n - 1)
    requires value == if [] in m then m[[]] else []
    ensures Build(m, n) == Branch(children, value)
  {
    var i: Nibble := 0;
    BuildBranched(m, n, i);
    var t := Build(m, n);
    forall j: nat | j < 16 ensures t.children[j] == children[j] {
      var i: Nibble := j;
      BuildBranched(m, n, i);
    }
    hide Build, Sub;
    assert t.children == children;
  }

  lemma SubShort(m: map<Path, Bytes>, i: Nibble, n: nat)
    requires n > 0 && forall k :: k in m ==> |k| <= n
    ensures forall k :: k in Sub(m, i) ==> |k| <= n - 1
  {
    forall k | k in Sub(m, i) ensures |k| <= n - 1 { assert [i] + k in m; }
    hide Sub;
  }

  lemma OnlyStart(m: map<Path, Bytes>, i: Nibble, j: Nibble)
    requires m != map[] && AllStartWith(m, i) && AllStartWith(m, j)
    ensures i == j
  {
    var k :| k in m;
  }

  lemma BuildOfPrefixed(m: map<Path, Bytes>, n: nat, i: Nibble)
    requires (forall k :: k in m ==> |k| <= n) && |m| > 1 && n > 0 && AllStartWith(m, i)
    ensures forall k :: k in Sub(m, i) ==> |k| <= n - 1
    ensures Build(m, n) == Prepend(i, Build(Sub(m, i), n - 1))
  {
    var j := BuildPrepended(m, n);
    OnlyStart(m, i, j);
    hide Build, Sub, AllStartWith;
  }

  lemma BuildOne(m: map<Path, Bytes>, n: nat, k: Path)
    requires (forall k :: k in m ==> |k| <= n) && m.Keys == {k}
    ensures Build(m, n) == Leaf(k, m[k])
  {
    assert |m.Keys| == 1;
    var l := BuildSingle(m, n);
    assert l in m.Keys;
  }

  lemma BuildNone(n: nat)
    ensures Build(map[], n) == Blank
  {
  }

  // ---------------------------------------------------------------- one update

  /** The update of a trie and of the entries it was built from come to the same. */
  ghost predicate Agrees(m: map<Path, Bytes>, n: nat, key: Path, value: Bytes)
    requires forall k :: k in m ==> |k| <= n
  {
    && |key| <= n && Formed(Build(m, n))
    && Set(Build(m, n), key, value) == Build(m[key := value], n)
  }

  ghost predicate AgreesBelow(m: map<Path, Bytes>, n: nat, key: Path, value: Bytes)
    requires n > 0 && key != []
  {
    (forall k :: k in Sub(m, key[0]) ==> |k| <= n - 1) && Agrees(Sub(m, key[0]), n - 1, key[1..], value)
  }

  lemma BelowAgrees(m: map<Path, Bytes>, n: nat, key: Path, value: Bytes)
    requires n > 0 && key != [] && (forall k :: k in Sub(m, key[0]) ==> |k| <= n - 1)
    requires Agrees(Sub(m, key[0]), n - 1, key[1..], value)
    ensures AgreesBelow(m, n, key, value)
  {
    hide Sub, Agrees;
  }

  lemma SetOnNothing(n: nat, key: Path, value: Bytes)
    requires |key| <= n
    ensures Agrees(map[], n, key, value)
  {
    BuildNone(n);
    var m: map<Path, Bytes> := map[];
    assert m[key := value].Keys == {key};
    BuildOne(m[key := value], n, key);
    hide Build;
  }

  lemma SetSameKey(m: map<Path, Bytes>, n: nat, key: Path, value: Bytes)
    requires m.Keys == {key} && |key| <= n && ValuesPresent(m)
    ensures Agrees(m, n, key, value)
  {
    BuildOne(m, n, key);
    assert m[key := value].Keys == {key};
    BuildOne(m[key := value], n, key);
    hide Build;
  }

  lemma TwoKeys(m: map<Path, Bytes>, key: Path, value: Bytes)
    requires m != map[] && key !in m
    ensures |m[key := value]| > 1 && [] in m[key := value] ==> key == [] || [] in m
  {
    assert m[key := value].Keys == m.Keys + {key};
    assert |m.Keys| > 0;
  }

  /** Prepending a nibble commutes with the update below it. */
  lemma SetUnder(u: Trie, i: Nibble, key: Path, value: Bytes)
    requires Formed(u) && u != Blank && key != [] && key[0] == i && (u.Leaf? ==> u.path != key[1..])
    ensures Formed(Prepend(i, u)) && Set(Prepend(i, u), key, value) == Prepend(i, Set(u, key[1..], value))
  {
    PrependGet(i, u, key);
    match u
    case Leaf(path, was) =>
      HeadTail(i, path);
      Under(i, path, key);
    case Extension(path, child) => HeadTail(i, path);
    case Branch(_, _) => assert [i][1..] == [];
  }

  lemma PrefixedUpdate(m: map<Path, Bytes>, i: Nibble, key: Path, value: Bytes)
    requires AllStartWith(m, i) && key != [] && key[0] == i
    ensures AllStartWith(m[key := value], i)
  {
    assert key == [i] + key[1..];
  }

  /** All keys start with the nibble that the new one starts with. */
  lemma {:induction false} SetCommon(m: map<Path, Bytes>, n: nat, i: Nibble, key: Path, value: Bytes)
    requires (forall k :: k in m ==> |k| <= n) && m != map[] && n > 0 && AllStartWith(m, i) && ValuesPresent(m)
    requires key != [] && key[0] == i && |key| <= n && m.Keys != {key}
    requires forall k :: k in Sub(m, i) ==> |k| <= n - 1
    requires Agrees(Sub(m, i), n - 1, key[1..], value)
    ensures Agrees(m, n, key, value)
  {
    var m', s := m[key := value], Sub(m, i);
    var u := Build(s, n - 1);
    PrefixedUpdate(m, i, key, value);
    SubUpdate(m, key, value, i);
    MoreThanOne(m, key, value);
    BuildOfPrefixed(m', n, i);
    PrependedOrLeaf(m, n, i);
    NotThatLeaf(m, n, i, key);
    hide Build, Sub, AllStartWith, Set, Formed;
    SetUnder(u, i, key, value);
  }

  lemma MoreThanOne(m: map<Path, Bytes>, key: Path, value: Bytes)
    requires m != map[] && m.Keys != {key}
    ensures |m[key := value]| > 1
  {
    var others := m.Keys - {key};
    assert others == {} ==> m.Keys <= {key};
    var k :| k in others;
    SmallSet({k, key}, m[key := value].Keys);
  }

  /** What is built from entries that start alike is what is built below, prepended. */
  lemma PrependedOrLeaf(m: map<Path, Bytes>, n: nat, i: Nibble)
    requires (forall k :: k in m ==> |k| <= n) && m != map[] && n > 0 && AllStartWith(m, i)
    ensures forall k :: k in Sub(m, i) ==> |k| <= n - 1
    ensures Build(m, n) == Prepend(i, Build(Sub(m, i), n - 1)) && Sub(m, i) != map[]
  {
    SubShort(m, i, n);
    SubSize(m, i);
    assert |m.Keys| > 0;
    if |m| == 1 {
      var k := BuildSingle(m, n);
      assert k == [i] + k[1..] && k[1..] in Sub(m, i);
      var l := BuildSingle(Sub(m, i), n - 1);
    } else {
      BuildOfPrefixed(m, n, i);
    }
  }

  lemma NotThatLeaf(m: map<Path, Bytes>, n: nat, i: Nibble, key: Path)
    requires n > 0 && AllStartWith(m, i) && key != [] && key[0] == i && m.Keys != {key} && m != map[]
    requires (forall k :: k in Sub(m, i) ==> |k| <= n - 1) && ValuesPresent(m)
    ensures var u := Build(Sub(m, i), n - 1); Formed(u) && u != Blank && (u.Leaf? ==> u.path != key[1..])
  {
    hide *;
    var s, rest := Sub(m, i), key[1..];
    SubNotOnly(m, i, key);
    SubPresent(m, i);
    BuildNotThatLeaf(s, n - 1, rest);
  }

  lemma SubNotOnly(m: map<Path, Bytes>, i: Nibble, key: Path)
    requires AllStartWith(m, i) && key != [] && key[0] == i && m.Keys != {key} && m != map[]
    ensures Sub(m, i) != map[] && Sub(m, i).Keys != {key[1..]}
  {
    SubIs(m, i);
    var k :| k in m;
    assert k == [i] + k[1..];
    if Sub(m, i).Keys == {key[1..]} { OnlyThat(m, i, key); }
    hide Sub;
  }

  lemma OnlyThat(m: map<Path, Bytes>, i: Nibble, key: Path)
    requires AllStartWith(m, i) && key != [] && key[0] == i && m != map[] && Sub(m, i).Keys == {key[1..]}
    ensures m.Keys == {key}
  {
    SubIs(m, i);
    hide Sub;
    assert key == [i] + key[1..] && key[1..] in Sub(m, i).Keys;
    forall l | l in m ensures l == key {
      assert l == [i] + l[1..];
      assert l[1..] in Sub(m, i).Keys;
    }
  }

  lemma BuildNotThatLeaf(s: map<Path, Bytes>, n: nat, k: Path)
    requires (forall l :: l in s ==> |l| <= n) && ValuesPresent(s) && s != map[] && s.Keys != {k}
    ensures Formed(Build(s, n)) && Build(s, n) != Blank && (Build(s, n).Leaf? ==> Build(s, n).path != k)
  {
    BuildGet(s, n, k);
    assert |s.Keys| > 0;
    if |s| == 1 {
      var l := BuildSingle(s, n);
    }
    hide Build, Formed, Get;
  }

  // ---------------------------------------------------------------- branches

  /** The branch holds what is built from the entries under each nibble. */
  ghost predicate Spread(b: Trie, m: map<Path, Bytes>, n: nat) {
    && n > 0 && (forall k :: k in m ==> |k| <= n) && b.Branch? && |b.children| == 16
    && (forall i: Nibble :: SpreadAt(b.children[i], m, n, i))
    && b.value == if [] in m then m[[]] else []
  }

  ghost predicate SpreadAt(c: Trie, m: map<Path, Bytes>, n: nat, i: Nibble)
    requires n > 0
  {
    (forall k :: k in Sub(m, i) ==> |k| <= n - 1) && c == Build(Sub(m, i), n - 1)
  }

  lemma SpreadIsBuilt(b: Trie, m: map<Path, Bytes>, n: nat)
    requires Spread(b, m, n) && |m| > 1 && !CommonStart(m)
    ensures Build(m, n) == b
  {
    hide Build, Sub, CommonStart;
    forall i: Nibble
      ensures (forall k :: k in Sub(m, i) ==> |k| <= n - 1) && b.children[i] == Build(Sub(m, i), n - 1)
    {
      assert SpreadAt(b.children[i], m, n, i);
    }
    BuildIsBranch(m, n, b.children, b.value);
  }

  lemma BuiltIsSpread(m: map<Path, Bytes>, n: nat)
    requires (forall k :: k in m ==> |k| <= n) && |m| > 1 && n > 0 && !CommonStart(m)
    ensures Spread(Build(m, n), m, n)
  {
    hide Build, Sub, CommonStart;
    var zero: Nibble := 0;
    BuildBranched(m, n, zero);
    forall i: Nibble ensures SpreadAt(Build(m, n).children[i], m, n, i) { BuildBranched(m, n, i); }
  }

  lemma NoEntries(i: Nibble)
    ensures Sub(map[], i) == map[]
  {
  }

  lemma EmptyAt(m: map<Path, Bytes>, n: nat, i: Nibble)
    requires n > 0 && Sub(m, i) == map[]
    ensures SpreadAt(Blank, m, n, i)
  {
    hide Build, Sub;
    BuildNone(n - 1);
  }

  lemma SpreadBy(children: seq<Trie>, value: Bytes, m: map<Path, Bytes>, n: nat)
    requires n > 0 && (forall k :: k in m ==> |k| <= n) && |children| == 16
    requires forall i: Nibble :: SpreadAt(children[i], m, n, i)
    requires value == if [] in m then m[[]] else []
    ensures Spread(Branch(children, value), m, n)
  {
    hide SpreadAt;
  }

  lemma SpreadParts(b: Trie, m: map<Path, Bytes>, n: nat)
    requires Spread(b, m, n)
    ensures n > 0 && (forall k :: k in m ==> |k| <= n) && b.Branch? && |b.children| == 16
    ensures forall i: Nibble :: SpreadAt(b.children[i], m, n, i)
    ensures b.value == if [] in m then m[[]] else []
  {
    hide SpreadAt;
  }

  lemma NewBranch(n: nat)
    requires n > 0
    ensures Spread(Branch(NoChildren(), []), map[], n)
  {
    hide *;
    forall i: Nibble ensures SpreadAt(NoChildren()[i], map[], n, i) {
      NoEntries(i);
      EmptyAt(map[], n, i);
    }
    SpreadBy(NoChildren(), [], map[], n);
  }

  /** Putting an entry into an empty place. */
  lemma PlaceSpreads(b: Trie, m: map<Path, Bytes>, n: nat, key: Path, value: Bytes)
    requires Spread(b, m, n) && |key| <= n && key !in m && (key != [] ==> Sub(m, key[0]) == map[])
    ensures Spread(Place(b, key, value), m[key := value], n)
  {
    hide *;
    SpreadParts(b, m, n);
    var m' := m[key := value];
    PlaceIs(b, key, value);
    if key != [] { NewLeafAt(m, n, key, value); }
    var r := Place(b, key, value);
    forall i: Nibble ensures SpreadAt(r.children[i], m', n, i) {
      if key == [] || key[0] != i { SameAt(b.children[i], m, n, i, key, value); }
    }
    SpreadBy(r.children, r.value, m', n);
  }

  lemma PlaceIs(b: Trie, key: Path, value: Bytes)
    requires b.Branch? && |b.children| == 16
    ensures Place(b, key, value).value == if key == [] then value else b.value
    ensures Place(b, key, value).children ==
      if key == [] then b.children else b.children[key[0] := Leaf(key[1..], value)]
  {
  }

  /** Under the other nibbles nothing changes. */
  lemma SameAt(c: Trie, m: map<Path, Bytes>, n: nat, i: Nibble, key: Path, value: Bytes)
    requires n > 0 && SpreadAt(c, m, n, i) && (key == [] || key[0] != i)
    ensures SpreadAt(c, m[key := value], n, i)
  {
    SubUpdate(m, key, value, i);
    hide Build, Sub;
  }

  lemma NewLeafAt(m: map<Path, Bytes>, n: nat, key: Path, value: Bytes)
    requires n > 0 && key != [] && |key| <= n && Sub(m, key[0]) == map[]
    ensures SpreadAt(Leaf(key[1..], value), m[key := value], n, key[0])
  {
    SubUpdate(m, key, value, key[0]);
    hide Build, Sub;
    var s := Sub(m[key := value], key[0]);
    assert s.Keys == {key[1..]};
    BuildOne(s, n - 1, key[1..]);
  }

  lemma OnlyEntry(m: map<Path, Bytes>, k: Path, i: Nibble)
    requires m.Keys == {k} && (k == [] || k[0] != i)
    ensures Sub(m, i) == map[]
  {
    SubIs(m, i);
    hide Sub;
    forall l: Path ensures l !in Sub(m, i) { Under(i, l, k); }
  }

  /** Two keys part at once. */
  lemma SetOnLeaf(m: map<Path, Bytes>, n: nat, k: Path, key: Path, value: Bytes)
    requires (forall l :: l in m ==> |l| <= n) && n > 0 && m.Keys == {k} && k != key && |key| <= n && m[k] != []
    requires !CommonStart(m[key := value]) && !(key != [] && k != [] && k[0] == key[0])
    ensures Agrees(m, n, key, value)
  {
    hide *;
    var none: map<Path, Bytes> := map[];
    var b := Place(Branch(NoChildren(), []), k, m[k]);
    BuildOne(m, n, k);
    NewBranch(n);
    if k != [] { NoEntries(k[0]); }
    PlaceSpreads(Branch(NoChildren(), []), none, n, k, m[k]);
    assert none[k := m[k]] == m;
    if key != [] { OnlyEntry(m, k, key[0]); }
    PlaceSpreads(b, m, n, key, value);
    MoreThanOne(m, key, value);
    SpreadIsBuilt(Place(b, key, value), m[key := value], n);
    PartedLeaf(k, m[k], key, value);
    IsAgreed(m, n, key, value);
  }

  lemma PartedLeaf(k: Path, was: Bytes, key: Path, value: Bytes)
    requires was != [] && k != key && !(key != [] && k != [] && k[0] == key[0])
    ensures Formed(Leaf(k, was))
    ensures Set(Leaf(k, was), key, value) == Place(Place(Branch(NoChildren(), []), k, was), key, value)
  {
    hide Place, NoChildren;
  }

  lemma AgreesIs(m: map<Path, Bytes>, n: nat, key: Path, value: Bytes)
    requires (forall k :: k in m ==> |k| <= n) && |key| <= n && Agrees(m, n, key, value)
    ensures forall k :: k in m[key := value] ==> |k| <= n
    ensures Formed(Build(m, n)) && Set(Build(m, n), key, value) == Build(m[key := value], n)
  {
    hide Build, Set, Formed;
  }

  lemma IsAgreed(m: map<Path, Bytes>, n: nat, key: Path, value: Bytes)
    requires (forall k :: k in m ==> |k| <= n) && |key| <= n && Formed(Build(m, n))
    requires Set(Build(m, n), key, value) == Build(m[key := value], n)
    ensures Agrees(m, n, key, value)
  {
    hide Build, Set, Formed;
  }

  /** The new key parts from all others, which start alike. */
  lemma SetOnExtension(m: map<Path, Bytes>, n: nat, i: Nibble, key: Path, value: Bytes)
    requires (forall l :: l in m ==> |l| <= n) && n > 0 && |m| > 1 && AllStartWith(m, i)
    requires |key| <= n && ValuesPresent(m)
    requires !CommonStart(m[key := value]) && !(key != [] && key[0] == i)
    ensures Agrees(m, n, key, value)
  {
    hide *;
    BuildOfPrefixed(m, n, i);
    var u := Build(Sub(m, i), n - 1);
    var b := Branch(NoChildren()[i := u], []);
    BelowPrefixed(m, n, i);
    ExtensionSpreads(m, n, i);
    PrependedIs(u, i, key, value);
    NewKey(m, i, key);
    MoreThanOneMore(m, key, value);
    PlaceSpreads(b, m, n, key, value);
    SpreadIsBuilt(Place(b, key, value), m[key := value], n);
    IsAgreed(m, n, key, value);
  }

  lemma NewKey(m: map<Path, Bytes>, i: Nibble, key: Path)
    requires AllStartWith(m, i) && !(key != [] && key[0] == i)
    ensures key !in m && [] !in m && (key != [] ==> Sub(m, key[0]) == map[])
  {
    if key != [] {
      SubIs(m, key[0]);
      hide Sub;
      forall l: Path ensures l !in Sub(m, key[0]) { HeadTail(key[0], l); }
    }
  }

  lemma MoreThanOneMore(m: map<Path, Bytes>, key: Path, value: Bytes)
    requires |m| > 1
    ensures |m[key := value]| > 1
  {
    assert m.Keys <= m[key := value].Keys;
    SmallSet(m.Keys, m[key := value].Keys);
  }

  lemma BelowPrefixed(m: map<Path, Bytes>, n: nat, i: Nibble)
    requires n > 0 && |m| > 1 && AllStartWith(m, i) && ValuesPresent(m) && forall k :: k in Sub(m, i) ==> |k| <= n - 1
    ensures var u := Build(Sub(m, i), n - 1); Formed(u) && (u.Extension? || u.Branch?)
  {
    hide *;
    SubSize(m, i);
    SubPresent(m, i);
    BuildGet(Sub(m, i), n - 1, []);
    HoldsMany(Build(Sub(m, i), n - 1), Sub(m, i), []);
  }

  lemma HoldsMany(t: Trie, m: map<Path, Bytes>, key: Path)
    requires Holds(t, m, key) && |m| > 1
    ensures Formed(t) && (t.Extension? || t.Branch?)
  {
    hide Formed, Get;
  }

  lemma ExtensionSpreads(m: map<Path, Bytes>, n: nat, i: Nibble)
    requires (forall k :: k in m ==> |k| <= n) && n > 0 && AllStartWith(m, i)
    requires forall k :: k in Sub(m, i) ==> |k| <= n - 1
    ensures Spread(Branch(NoChildren()[i := Build(Sub(m, i), n - 1)], []), m, n)
  {
    NotEmptyKey(m, i);
    hide *;
    var children := NoChildren()[i := Build(Sub(m, i), n - 1)];
    BuiltAt(m, n, i);
    forall j: Nibble ensures SpreadAt(children[j], m, n, j) {
      if j != i {
        OtherNibble(m, i, j);
        EmptyAt(m, n, j);
      }
    }
    SpreadBy(children, [], m, n);
  }

  lemma BuiltAt(m: map<Path, Bytes>, n: nat, i: Nibble)
    requires n > 0 && forall k :: k in Sub(m, i) ==> |k| <= n - 1
    ensures SpreadAt(Build(Sub(m, i), n - 1), m, n, i)
  {
    hide Build, Sub;
  }

  lemma NotEmptyKey(m: map<Path, Bytes>, i: Nibble)
    requires AllStartWith(m, i)
    ensures [] !in m
  {
  }

  lemma OtherNibble(m: map<Path, Bytes>, i: Nibble, j: Nibble)
    requires AllStartWith(m, i) && i != j
    ensures Sub(m, j) == map[]
  {
    SubIs(m, j);
    hide Sub;
    forall l: Path ensures l !in Sub(m, j) { HeadTail(j, l); }
  }

  lemma PrependedIs(u: Trie, i: Nibble, key: Path, value: Bytes)
    requires Formed(u) && (u.Extension? || u.Branch?) && !(key != [] && key[0] == i)
    ensures Formed(Prepend(i, u))
    ensures Set(Prepend(i, u), key, value) == Place(Branch(NoChildren()[i := u], []), key, value)
  {
    PrependGet(i, u, key);
    if u.Extension? { HeadTail(i, u.path); } else { assert [i][1..] == []; }
    hide Place, NoChildren;
  }

  /** The keys part already. */
  lemma SetOnBranch(m: map<Path, Bytes>, n: nat, key: Path, value: Bytes)
    requires (forall k :: k in m ==> |k| <= n) && n > 0 && |m| > 1 && |key| <= n && ValuesPresent(m)
    requires !CommonStart(m) && !CommonStart(m[key := value])
    requires key != [] ==> AgreesBelow(m, n, key, value)
    ensures Agrees(m, n, key, value)
  {
    hide *;
    BuiltIsSpread(m, n);
    BuildGet(m, n, key);
    HoldsMany(Build(m, n), m, key);
    MoreThanOneMore(m, key, value);
    SetSpreads(Build(m, n), m, n, key, value);
    SpreadIsBuilt(Set(Build(m, n), key, value), m[key := value], n);
    IsAgreed(m, n, key, value);
  }

  lemma SetSpreads(t: Trie, m: map<Path, Bytes>, n: nat, key: Path, value: Bytes)
    requires Spread(t, m, n) && Formed(t) && |key| <= n
    requires key != [] ==> AgreesBelow(m, n, key, value)
    ensures Spread(Set(t, key, value), m[key := value], n)
  {
    hide *;
    SpreadParts(t, m, n);
    SetIs(t, key, value);
    var r, m' := Set(t, key, value), m[key := value];
    if key != [] { SetAt(t.children[key[0]], m, n, key, value); }
    forall i: Nibble ensures SpreadAt(r.children[i], m', n, i) {
      if key == [] || key[0] != i { SameAt(t.children[i], m, n, i, key, value); }
    }
    SpreadBy(r.children, r.value, m', n);
  }

  lemma SetIs(t: Trie, key: Path, value: Bytes)
    requires t.Branch? && Formed(t)
    ensures key != [] ==> Formed(t.children[key[0]])
    ensures Set(t, key, value) == if key == [] then Branch(t.children, value)
      else Branch(t.children[key[0] := Set(t.children[key[0]], key[1..], value)], t.value)
  {
    if key != [] { assert t.children[key[0]] in t.children; }
  }

  lemma SetAt(c: Trie, m: map<Path, Bytes>, n: nat, key: Path, value: Bytes)
    requires key != [] && n > 0 && Formed(c) && SpreadAt(c, m, n, key[0]) && AgreesBelow(m, n, key, value)
    ensures SpreadAt(Set(c, key[1..], value), m[key := value], n, key[0])
  {
    SubUpdate(m, key, value, key[0]);
    hide Build, Sub, Set, Formed;
  }

  lemma NoCommonStart(m: map<Path, Bytes>, key: Path, value: Bytes)
    requires m != map[] && !(key != [] && AllStartWith(m, key[0]))
    ensures !CommonStart(m[key := value])
  {
    if CommonStart(m[key := value]) {
      var i: Nibble :| AllStartWith(m[key := value], i);
      assert key in m[key := value];
      forall k | k in m ensures k != [] && k[0] == i && k == [i] + k[1..] { assert k in m[key := value]; }
    }
  }

  lemma LongerThanNothing(m: map<Path, Bytes>, n: nat, key: Path)
    requires (forall k :: k in m ==> |k| <= n) && |key| <= n && m != map[] && m.Keys != {key}
    ensures n > 0
  {
    var others := m.Keys - {key};
    assert others == {} ==> m.Keys <= {key};
    var k :| k in others;
    assert |k| == 0 && |key| == 0 ==> k == key;
  }

  /** Setting a value in the canonical trie of some entries gives the canonical trie of the updated ones. */
  lemma {:induction false} SetBuild(m: map<Path, Bytes>, n: nat, key: Path, value: Bytes)
    requires (forall k :: k in m ==> |k| <= n) && |key| <= n && ValuesPresent(m)
    ensures Agrees(m, n, key, value)
    decreases n
  {
    hide *;
    if m == map[] {
      SetOnNothing(n, key, value);
    } else if m.Keys == {key} {
      SetSameKey(m, n, key, value);
    } else {
      LongerThanNothing(m, n, key);
      if key != [] {
        SubShort(m, key[0], n);
        SubPresent(m, key[0]);
        SetBuild(Sub(m, key[0]), n - 1, key[1..], value);
        BelowAgrees(m, n, key, value);
      }
      if key != [] && AllStartWith(m, key[0]) {
        SetCommon(m, n, key[0], key, value);
      } else {
        NoCommonStart(m, key, value);
        SetApart(m, n, key, value);
      }
    }
  }

  lemma SetApart(m: map<Path, Bytes>, n: nat, key: Path, value: Bytes)
    requires (forall k :: k in m ==> |k| <= n) && |key| <= n && ValuesPresent(m) && n > 0
    requires m != map[] && m.Keys != {key} && !CommonStart(m[key := value]) && !(key != [] && AllStartWith(m, key[0]))
    requires key != [] ==> AgreesBelow(m, n, key, value)
    ensures Agrees(m, n, key, value)
  {
    hide Build, Sub, Agrees, AgreesBelow;
    assert |m.Keys| > 0;
    if |m| == 1 {
      var k := BuildSingle(m, n);
      if k != [] { assert k == [k[0]] + k[1..]; }
      SetOnLeaf(m, n, k, key, value);
    } else if CommonStart(m) {
      var i: Nibble :| AllStartWith(m, i);
      SetOnExtension(m, n, i, key, value);
    } else {
      SetOnBranch(m, n, key, value);
    }
  }

  /** Two updates come to what is built from both. */
  lemma SetTwice(m: map<Path, Bytes>, n: nat, k: Path, v: Bytes, l: Path, w: Bytes)
    requires (forall x :: x in m ==> |x| <= n) && |k| <= n && |l| <= n && ValuesPresent(m) && v != []
    ensures Formed(Build(m, n)) && Formed(Set(Build(m, n), k, v))
    ensures forall x :: x in m[k := v][l := w] ==> |x| <= n
    ensures Set(Set(Build(m, n), k, v), l, w) == Build(m[k := v][l := w], n)
  {
    StillPresent(m, k, v);
    hide *;
    SetBuild(m, n, k, v);
    AgreesIs(m, n, k, v);
    SetBuild(m[k := v], n, l, w);
    AgreesIs(m[k := v], n, l, w);
  }

  /** Two updates of different keys can be exchanged. */
  lemma OrderIsFree(m: map<Path, Bytes>, n: nat, k: Path, v: Bytes, l: Path, w: Bytes)
    requires (forall x :: x in m ==> |x| <= n) && |k| <= n && |l| <= n && ValuesPresent(m)
    requires v != [] && w != [] && k != l
    ensures Formed(Build(m, n)) && Formed(Set(Build(m, n), k, v)) && Formed(Set(Build(m, n), l, w))
    ensures Set(Set(Build(m, n), k, v), l, w) == Set(Set(Build(m, n), l, w), k, v)
  {
    hide *;
    SetTwice(m, n, k, v, l, w);
    SetTwice(m, n, l, w, k, v);
    Exchanged(m, k, v, l, w);
  }

  lemma Exchanged(m: map<Path, Bytes>, k: Path, v: Bytes, l: Path, w: Bytes)
    requires k != l
    ensures m[k := v][l := w] == m[l := w][k := v]
  {
  }

  lemma StillPresent(m: map<Path, Bytes>, k: Path, v: Bytes)
    requires ValuesPresent(m) && v != []
    ensures ValuesPresent(m[k := v])
  {
  }
}
