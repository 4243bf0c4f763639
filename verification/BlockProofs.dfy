/** Transaction tries: keys are RLP-encoded indices, and which of a block's proofs the verifier accepts. */
module BlockProofs {
  import opened Wrappers
  import opened ByteStrings
  import opened Rlp
  import opened Tries
  import opened TrieProofs
  import opened ProofSoundness
  import opened ProofCompleteness

  // ---------------------------------------------------------------- keys

  /** The key of any number that can be encoded. */
  function KeyOf(i: nat): (k: Path)
    requires |Shortest(i)| < LIMIT
  {
    Nibbles(Encode(Str(Shortest(i))))
  }

  /** The trie key of a transaction: the nibbles of its encoded index. */
  function IndexKey(i: nat): (k: Path)
    requires i < LIMIT
  {
    SmallIndex(i);
    KeyOf(i)
  }

  lemma SmallIndex(i: nat)
    requires i < LIMIT
    ensures Small(Str(Shortest(i))) && |Shortest(i)| <= 8
  {
    LimitIs();
    ShortestLength(i, 8);
  }

  const KEY_LENGTH: nat := 18

  lemma KeyLength(i: nat)
    requires i < LIMIT
    ensures |IndexKey(i)| <= KEY_LENGTH
  {
    SmallIndex(i);
    StringSmall(Shortest(i));
    hide Shortest, Nibbles;
  }

  lemma {:induction false} NibblesPrefix(a: Bytes, b: Bytes)
    requires Nibbles(a) <= Nibbles(b)
    ensures a <= b
    decreases |a|
  {
    if a != [] {
      hide *;
      assert Nibbles(a)[0] == Nibbles(b)[0] && Nibbles(a)[1] == Nibbles(b)[1];
      FirstNibbles(a);
      FirstNibbles(b);
      NibblesPrefix(a[1..], b[1..]);
      assert a == [a[0]] + a[1..] && b == [b[0]] + b[1..];
    }
  }

  lemma FirstNibbles(a: Bytes)
    requires a != []
    ensures |Nibbles(a)| >= 2 && Nibbles(a)[2..] == Nibbles(a[1..])
    ensures var hi: nat, lo: nat := Nibbles(a)[0], Nibbles(a)[1]; a[0] == 16 * hi + lo
  {
  }

  /** Keys of different numbers never continue each other. */
  lemma KeysApart(i: nat, j: nat)
    requires |Shortest(i)| < LIMIT && |Shortest(j)| < LIMIT && KeyOf(i) <= KeyOf(j)
    ensures i == j
  {
    hide *;
    KeyIs(i);
    KeyIs(j);
    var x, y := Str(Shortest(i)), Str(Shortest(j));
    var a, b := Encode(x), Encode(y);
    NibblesPrefix(a, b);
    assert a + b[|a|..] == b + [];
    EncodeUnique(x, b[|a|..], y, []);
  }

  lemma KeyIs(i: nat)
    requires |Shortest(i)| < LIMIT
    ensures Small(Str(Shortest(i))) && KeyOf(i) == Nibbles(Encode(Str(Shortest(i)))) && BigValue(Shortest(i)) == i
  {
    hide Nibbles;
  }

  lemma IndexKeysApart(i: nat, j: nat)
    requires i < LIMIT && j < LIMIT && IndexKey(i) <= IndexKey(j)
    ensures i == j
  {
    IndexKeyIs(i);
    IndexKeyIs(j);
    hide *;
    KeysApart(i, j);
  }

  lemma IndexKeyIs(i: nat)
    requires i < LIMIT
    ensures |Shortest(i)| < LIMIT && IndexKey(i) == KeyOf(i)
  {
    SmallIndex(i);
    hide KeyOf;
  }

  /** Every key of the trie belongs to an index. */
  ghost predicate IndexTrie(t: Trie)
    requires Formed(t)
  {
    forall k: Path :: Get(t, k).Some? ==> exists i: nat :: i < LIMIT && k == IndexKey(i)
  }

  /** For tries over transaction indices, accepted proofs are right or show a collision, for any number as key. */
  lemma IndexSoundness(h: Hasher, t: Trie, i: nat, stack: seq<Item>)
    requires Formed(t) && Storable(t) && IndexTrie(t) && |Shortest(i)| < LIMIT && forall x :: x in stack ==> Small(x)
    requires var o := Follow(h, Str(RootOf(h, t)), KeyOf(i), false, stack); o.Answer? || o.RawByte?
    ensures Vindicated(h, t, KeyOf(i), stack, Follow(h, Str(RootOf(h, t)), KeyOf(i), false, stack))
  {
    hide *;
    IndexApart(t, i);
    Soundness(h, t, KeyOf(i), stack);
  }

  lemma IndexApart(t: Trie, i: nat)
    requires Formed(t) && IndexTrie(t) && |Shortest(i)| < LIMIT
    ensures ProofSoundness.Apart(t, KeyOf(i))
  {
    hide IndexKey, KeyOf, Get, Shortest;
    var key := KeyOf(i);
    forall k: Path | Get(t, k).Some? ensures k == key || (!(k <= key) && !(key <= k)) {
      var j: nat :| j < LIMIT && k == IndexKey(j);
      IndexKeyIs(j);
      if k <= key { KeysApart(j, i); }
      if key <= k { KeysApart(i, j); }
    }
  }

  // ---------------------------------------------------------------- which routes are checkable

  /** Values at least as long as a hash, in tries of a size that can be stored. */
  predicate Sized(m: map<Path, Bytes>) { forall k :: k in m ==> 32 <= |m[k]| < SIZE }

  /**
   Following the key through the entries, no path that the trie compresses has two nibbles: a last key
   is at most one nibble long, and of two nibbles in a row one tells entries apart.
   */
  ghost predicate ShortRuns(m: map<Path, Bytes>, key: Path)
    requires key in m
    decreases |key|
  {
    if |m| == 1 then |key| <= 1
    else if key == [] then true
    else
      TailIn(m, key);
      (CommonStart(m) ==> !CommonStart(Sub(m, key[0]))) && ShortRuns(Sub(m, key[0]), key[1..])
  }

  lemma TailIn(m: map<Path, Bytes>, key: Path)
    requires key in m && key != []
    ensures key[1..] in Sub(m, key[0]) && Sub(m, key[0])[key[1..]] == m[key]
  {
    assert key == [key[0]] + key[1..];
  }

  /** What is known of every trie that is built from such entries. */
  ghost predicate WellBuilt(h: Hasher, m: map<Path, Bytes>, n: nat, t: Trie) {
    && Formed(t) && t != Blank && Storable(t) && Hashed(h, t)
    && (t.Leaf? <==> |m| == 1) && (|m| > 1 ==> (t.Extension? <==> CommonStart(m)))
    && (t.Leaf? || t.Extension? ==> |t.path| <= n)
    && (t.Extension? ==> Storable(t.child) && Hashed(h, t.child))
  }

  lemma LeafHashed(h: Hasher, t: Trie)
    requires Storable(t) && t.Leaf? && |t.value| >= 32
    ensures Hashed(h, t)
  {
    var xs := [Str(HexPrefix(t.path, true)), Str(t.value)];
    assert NodeItem(h, t) == List(xs) && xs[1] == Str(t.value);
    hide NodeItem, HexPrefix;
    PayloadParts(xs, 1);
    assert |Encode(xs[1])| >= 32;
  }

  lemma {:induction false} PayloadParts(xs: seq<Item>, i: nat)
    requires SmallAll(xs) && i < |xs|
    ensures Small(xs[i]) && |Payload(xs)| >= |Encode(xs[i])|
    decreases i
  {
    if i > 0 { PayloadParts(xs[1..], i - 1); }
  }

  /** The reference to a hashed child alone makes its parent long enough to be hashed. */
  lemma HashedInside(h: Hasher, c: Trie, xs: seq<Item>, i: nat)
    requires Storable(c) && Hashed(h, c) && Small(List(xs)) && i < |xs| && xs[i] == Reference(h, c)
    ensures |Encode(List(xs))| >= 32
  {
    ReferenceKind(h, c);
    hide Reference, NodeItem, Hashed, RootOf;
    PayloadParts(xs, i);
    assert |Encode(xs[i])| >= 32 by { DigestLong(RootOf(h, c)); }
  }

  lemma DigestLong(d: Bytes)
    requires |d| == 32
    ensures |Encode(Str(d))| >= 32
  {
  }

  lemma BranchHashed(h: Hasher, t: Trie, i: Nibble)
    requires Storable(t) && t.Branch? && Hashed(h, t.children[i])
    ensures Hashed(h, t)
  {
    var c := t.children[i];
    assert c in t.children;
    var refs := seq(16, j requires 0 <= j < 16 => Reference(h, t.children[j]));
    var xs := refs + [Str(t.value)];
    assert NodeItem(h, t) == List(xs) && xs[i] == Reference(h, c);
    hide Reference, NodeItem, Encode;
    HashedInside(h, c, xs, i);
  }

  lemma ExtensionHashed(h: Hasher, t: Trie)
    requires Storable(t) && t.Extension? && Hashed(h, t.child)
    ensures Hashed(h, t)
  {
    var xs := [Str(HexPrefix(t.path, false)), Reference(h, t.child)];
    assert NodeItem(h, t) == List(xs);
    hide Reference, NodeItem, Encode, HexPrefix;
    HashedInside(h, t.child, xs, 1);
  }

  lemma WellLeaf(h: Hasher, m: map<Path, Bytes>, n: nat, k: Path)
    requires m.Keys == {k} && Sized(m) && |k| <= n < SIZE
    ensures WellBuilt(h, m, n, Leaf(k, m[k]))
  {
    assert |m.Keys| == 1;
    LeafHashed(h, Leaf(k, m[k]));
    hide Hashed;
  }

  lemma WellPrepended(h: Hasher, m: map<Path, Bytes>, n: nat, i: Nibble, u: Trie)
    requires |m| > 1 && 0 < n < SIZE && AllStartWith(m, i) && WellBuilt(h, Sub(m, i), n - 1, u)
    ensures WellBuilt(h, m, n, Prepend(i, u))
  {
    SubSize(m, i);
    assert CommonStart(m);
    var t := Prepend(i, u);
    assert t.Extension? && Storable(t) && Hashed(h, t.child);
    ExtensionHashed(h, t);
    hide Hashed, Sub;
  }

  lemma BranchStorable(t: Trie)
    requires t.Branch? && |t.children| == 16 && |t.value| < SIZE && forall i: Nibble :: Storable(t.children[i])
    ensures Storable(t)
  {
    forall c | c in t.children ensures Storable(c) {
      var i: nat :| i < 16 && t.children[i] == c;
      var j: Nibble := i;
      assert Storable(t.children[j]);
    }
  }

  lemma WellBranched(h: Hasher, m: map<Path, Bytes>, n: nat, j: Nibble, t: Trie)
    requires |m| > 1 && !CommonStart(m) && t.Branch? && |t.children| == 16 && |t.value| < SIZE
    requires Sub(m, j) != map[]
    requires forall i: Nibble ::
      if Sub(m, i) == map[] then t.children[i] == Blank else WellBuilt(h, Sub(m, i), n, t.children[i])
    ensures WellBuilt(h, m, n + 1, t)
  {
    hide Hashed, Sub, Storable, Formed;
    forall i: Nibble ensures Formed(t.children[i]) && Storable(t.children[i]) {
      BlankFine();
      assert if Sub(m, i) == map[] then t.children[i] == Blank else WellBuilt(h, Sub(m, i), n, t.children[i]);
    }
    assert WellBuilt(h, Sub(m, j), n, t.children[j]);
    BranchFormed(t, j);
    BranchStorable(t);
    BranchHashed(h, t, j);
  }

  lemma BlankFine()
    ensures Formed(Blank) && Storable(Blank)
  {
  }

  lemma SubSized(m: map<Path, Bytes>, i: Nibble)
    requires Sized(m)
    ensures Sized(Sub(m, i))
  {
  }

  lemma {:induction false} BuildWell(h: Hasher, m: map<Path, Bytes>, n: nat)
    requires m != map[] && (forall k :: k in m ==> |k| <= n < SIZE) && Sized(m)
    ensures WellBuilt(h, m, n, Build(m, n))
    decreases n, 1
  {
    hide Build, WellBuilt, Sub, CommonStart, Sized;
    if |m| == 1 {
      var k := BuildSingle(m, n);
      WellLeaf(h, m, n, k);
    } else {
      assert m.Keys != {};
      assert |m| > 1;
      NonEmptyKeys(m);
      if CommonStart(m) {
        var i := BuildPrepended(m, n);
        SubSized(m, i);
        SubSize(m, i);
        BuildWell(h, Sub(m, i), n - 1);
        WellPrepended(h, m, n, i, Build(Sub(m, i), n - 1));
      } else {
        BuildWellBranch(h, m, n);
      }
    }
  }

  lemma {:induction false} BuildWellBranch(h: Hasher, m: map<Path, Bytes>, n: nat)
    requires |m| > 1 && 0 < n < SIZE && !CommonStart(m) && (forall k :: k in m ==> |k| <= n) && Sized(m)
    ensures WellBuilt(h, m, n, Build(m, n))
    decreases n, 0
  {
    hide Build, WellBuilt, Sub, CommonStart;
    var j := BranchInUse(m);
    BuildBranched(m, n, j);
    var t := Build(m, n);
    forall i: Nibble
      ensures if Sub(m, i) == map[] then t.children[i] == Blank else WellBuilt(h, Sub(m, i), n - 1, t.children[i])
    {
      BuildBranched(m, n, i);
      SubSized(m, i);
      if Sub(m, i) == map[] { BuildNothing(n - 1); } else { BuildWell(h, Sub(m, i), n - 1); }
    }
    WellBranched(h, m, n - 1, j, t);
  }

  lemma BuildNothing(n: nat)
    ensures Build(map[], n) == Blank
  {
  }

  // ---------------------------------------------------------------- checkable, told from the entries

  /** Putting a nibble in front of a compressed path makes it too long. */
  lemma CheckablePrepended(h: Hasher, m: map<Path, Bytes>, n: nat, i: Nibble, u: Trie, key: Path)
    requires |m| > 1 && 0 < n < SIZE && AllStartWith(m, i) && key in m && WellBuilt(h, Sub(m, i), n - 1, u)
    ensures Formed(Prepend(i, u)) && Storable(Prepend(i, u)) && key != [] && key[0] == i
    ensures Checkable(h, Prepend(i, u), key) <==> !CommonStart(Sub(m, i)) && Checkable(h, u, key[1..])
    ensures Delivered(Prepend(i, u), key) == Delivered(u, key[1..])
  {
    SubSize(m, i);
    WellPrepended(h, m, n, i, u);
    assert key == [i] + key[1..];
    hide Hashed, Sub, CommonStart, Formed, Storable, AllStartWith;
    if u.Branch? { PrependedBranch(h, i, u, key); } else { PrependedExtension(h, i, u, key); }
    hide Checkable, Delivered, Prepend;
  }

  lemma PrependedBranch(h: Hasher, i: Nibble, u: Trie, key: Path)
    requires u.Branch? && Formed(u) && Storable(u) && Hashed(h, u) && key != [] && key == [i] + key[1..]
    ensures var t := Prepend(i, u);
      && Formed(t) && Storable(t) && (Checkable(h, t, key) <==> Checkable(h, u, key[1..]))
      && Delivered(t, key) == Delivered(u, key[1..])
  {
    hide Hashed, Decoded;
    assert [i] <= key && key[|[i]|..] == key[1..];
  }

  lemma PrependedExtension(h: Hasher, i: Nibble, u: Trie, key: Path)
    requires u.Extension? && Formed(u) && Storable(u) && Storable(Prepend(i, u)) && key != [] && key == [i] + key[1..]
    ensures var t := Prepend(i, u);
      Formed(t) && !Checkable(h, t, key) && Delivered(t, key) == Delivered(u, key[1..])
  {
    hide Hashed, Decoded;
    var p := [i] + u.path;
    PrefixBehind(i, u.path, key);
    if p <= key { assert key[|p|..] == key[1..][|u.path|..]; }
  }

  lemma PrefixBehind(i: Nibble, p: Path, key: Path)
    requires key != [] && key == [i] + key[1..]
    ensures [i] + p <= key <==> p <= key[1..]
  {
    if [i] + p <= key { assert p == key[1..][..|p|]; }
    if p <= key[1..] { assert key[..|p| + 1] == [i] + p; }
  }

  lemma CheckableBranched(h: Hasher, t: Trie, key: Path)
    requires Formed(t) && Storable(t) && t.Branch? && key != []
    ensures Storable(t.children[key[0]])
    ensures Checkable(h, t, key) <==> Hashed(h, t.children[key[0]]) && Checkable(h, t.children[key[0]], key[1..])
    ensures Delivered(t, key) == Delivered(t.children[key[0]], key[1..])
  {
    assert t.children[key[0]] in t.children;
    hide Hashed, Decoded;
  }

  /** A key that ends where others go on. */
  ghost predicate PrefixFree(m: map<Path, Bytes>) { forall k, l :: k in m && l in m && k <= l ==> k == l }

  lemma SubPrefixFree(m: map<Path, Bytes>, i: Nibble)
    requires PrefixFree(m)
    ensures PrefixFree(Sub(m, i))
  {
    var s := Sub(m, i);
    forall k, l | k in s && l in s && k <= l ensures k == l {
      assert [i] + k in m && [i] + l in m;
      assert [i] + k <= [i] + l;
      HeadTail(i, k);
      HeadTail(i, l);
    }
  }

  lemma LastKey(m: map<Path, Bytes>, key: Path)
    requires PrefixFree(m) && key in m && |m| > 1
    ensures key != []
  {
    if key == [] {
      forall l | l in m ensures l == [] { assert [] <= l; }
      assert m.Keys <= {[]};
      SmallSet(m.Keys, {[]});
    }
  }

  /** The route of a key is checkable, and delivers its value decoded, exactly when its runs are short. */
  ghost predicate Told(h: Hasher, m: map<Path, Bytes>, t: Trie, key: Path)
    requires key in m
  {
    Formed(t) && Storable(t) && (Checkable(h, t, key) <==> ShortRuns(m, key)) && Delivered(t, key) == Decoded(m[key])
  }

  lemma ToldLeaf(h: Hasher, m: map<Path, Bytes>, n: nat, k: Path, key: Path)
    requires m.Keys == {k} && key in m && Sized(m) && |k| <= n < SIZE
    ensures Told(h, m, Leaf(k, m[k]), key)
  {
    assert |m.Keys| == 1;
    assert key == k;
    WellLeaf(h, m, n, k);
    hide Hashed, Decoded;
  }

  lemma {:induction false} BuildTold(h: Hasher, m: map<Path, Bytes>, n: nat, key: Path)
    requires key in m && (forall k :: k in m ==> |k| <= n < SIZE) && Sized(m) && PrefixFree(m)
    ensures Told(h, m, Build(m, n), key)
    decreases n
  {
    hide *;
    if |m| == 1 {
      var k := BuildSingle(m, n);
      ToldLeaf(h, m, n, k, key);
    } else {
      assert key in m.Keys;
      LastKey(m, key);
      NonEmptyKeys(m);
      TailIn(m, key);
      SubSized(m, key[0]);
      SubPrefixFree(m, key[0]);
      SubShorter(m, key[0], n);
      BuildTold(h, Sub(m, key[0]), n - 1, key[1..]);
      BuildWell(h, Sub(m, key[0]), n - 1);
      if CommonStart(m) { ToldPrepended(h, m, n, key); } else { ToldBranched(h, m, n, key); }
    }
  }

  lemma SubShorter(m: map<Path, Bytes>, i: Nibble, n: nat)
    requires forall k :: k in m ==> |k| <= n
    ensures forall k :: k in Sub(m, i) ==> |k| <= n - 1
  {
    forall k | k in Sub(m, i) ensures |k| <= n - 1 { assert [i] + k in m; }
    hide Sub;
  }

  lemma ToldPrepended(h: Hasher, m: map<Path, Bytes>, n: nat, key: Path)
    requires |m| > 1 && 0 < n < SIZE && CommonStart(m) && key in m && key != [] && (forall k :: k in m ==> |k| <= n)
    requires key[1..] in Sub(m, key[0]) && Sub(m, key[0])[key[1..]] == m[key]
    requires forall k :: k in Sub(m, key[0]) ==> |k| <= n - 1
    requires WellBuilt(h, Sub(m, key[0]), n - 1, Build(Sub(m, key[0]), n - 1))
    requires Told(h, Sub(m, key[0]), Build(Sub(m, key[0]), n - 1), key[1..])
    ensures Told(h, m, Build(m, n), key)
  {
    hide *;
    var i := BuildPrepended(m, n);
    StartsWith(m, i, key);
    var u := Build(Sub(m, i), n - 1);
    CheckablePrepended(h, m, n, i, u, key);
    ToldStep(h, m, Build(m, n), u, key);
  }

  lemma ToldBranched(h: Hasher, m: map<Path, Bytes>, n: nat, key: Path)
    requires |m| > 1 && 0 < n < SIZE && !CommonStart(m) && key in m && key != []
    requires (forall k :: k in m ==> |k| <= n) && Sized(m)
    requires key[1..] in Sub(m, key[0]) && Sub(m, key[0])[key[1..]] == m[key]
    requires forall k :: k in Sub(m, key[0]) ==> |k| <= n - 1
    requires WellBuilt(h, Sub(m, key[0]), n - 1, Build(Sub(m, key[0]), n - 1))
    requires Told(h, Sub(m, key[0]), Build(Sub(m, key[0]), n - 1), key[1..])
    ensures Told(h, m, Build(m, n), key)
  {
    hide *;
    var t, u := Build(m, n), Build(Sub(m, key[0]), n - 1);
    BuildBranched(m, n, key[0]);
    BuildWellBranch(h, m, n);
    WellFields(h, m, n, t);
    WellFields(h, Sub(m, key[0]), n - 1, u);
    CheckableBranched(h, t, key);
    ToldStep(h, m, t, u, key);
  }

  lemma StartsWith(m: map<Path, Bytes>, i: Nibble, key: Path)
    requires AllStartWith(m, i) && key in m
    ensures key != [] && key[0] == i
  {
  }

  lemma WellFields(h: Hasher, m: map<Path, Bytes>, n: nat, t: Trie)
    requires WellBuilt(h, m, n, t)
    ensures Formed(t) && Storable(t) && Hashed(h, t)
  {
  }

  lemma ToldStep(h: Hasher, m: map<Path, Bytes>, t: Trie, u: Trie, key: Path)
    requires |m| > 1 && key in m && key != [] && Formed(t) && Storable(t)
    requires key[1..] in Sub(m, key[0]) && Sub(m, key[0])[key[1..]] == m[key] && Told(h, Sub(m, key[0]), u, key[1..])
    requires Checkable(h, t, key) <==> (CommonStart(m) ==> !CommonStart(Sub(m, key[0]))) && Checkable(h, u, key[1..])
    requires Delivered(t, key) == Delivered(u, key[1..])
    ensures Told(h, m, t, key)
  {
    hide Checkable, Delivered, Sub, CommonStart, Formed, Storable;
  }

  // ---------------------------------------------------------------- the proofs of a block

  /** The keys of the first `n` indices. */
  ghost function KeySet(n: nat): set<Path>
    requires n <= LIMIT
  {
    if n == 0 then {} else KeySet(n - 1) + {IndexKey(n - 1)}
  }

  lemma {:induction false} InKeySet(n: nat, k: Path) returns (i: nat)
    requires n <= LIMIT && k in KeySet(n)
    ensures i < n && k == IndexKey(i)
    decreases n
  {
    hide IndexKey;
    if k == IndexKey(n - 1) { i := n - 1; } else { i := InKeySet(n - 1, k); }
  }

  /** The entries of a block's transaction trie: the encoded transactions by index. */
  ghost predicate IsEntries(m: map<Path, Bytes>, values: seq<Bytes>)
    requires |values| <= LIMIT
  {
    && m.Keys == KeySet(|values|) && |m| == |values|
    && (forall i: nat :: i < |values| ==> IndexKey(i) in m && m[IndexKey(i)] == values[i])
  }

  /** What is in the trie after the transactions have been set one after the other. */
  function EntriesOf(values: seq<Bytes>): map<Path, Bytes>
    requires |values| <= LIMIT
    decreases |values|
  {
    if values == [] then map[]
    else
      var n := |values| - 1;
      EntriesOf(values[..n])[IndexKey(n) := values[n]]
  }

  lemma {:induction false} EntriesAre(values: seq<Bytes>)
    requires |values| <= LIMIT
    ensures IsEntries(EntriesOf(values), values)
    decreases |values|
  {
    if values != [] {
      var n := |values| - 1;
      var most := values[..n];
      assert most + [values[n]] == values && EntriesOf(values) == EntriesOf(most)[IndexKey(n) := values[n]];
      hide *;
      EntriesAre(most);
      AddEntry(most, EntriesOf(most), n, values[n]);
    }
  }

  lemma KeysDiffer(n: nat)
    requires n < LIMIT
    ensures IndexKey(n) !in KeySet(n) && forall i: nat :: i < n ==> IndexKey(i) != IndexKey(n)
  {
    hide IndexKey, KeySet;
    forall i: nat | i < n ensures IndexKey(i) != IndexKey(n) {
      if IndexKey(i) == IndexKey(n) { IndexKeysApart(i, n); }
    }
    if IndexKey(n) in KeySet(n) {
      var i := InKeySet(n, IndexKey(n));
    }
  }

  lemma AddEntry(values: seq<Bytes>, m: map<Path, Bytes>, n: nat, value: Bytes)
    requires |values| == n < LIMIT && IsEntries(m, values)
    ensures IsEntries(m[IndexKey(n) := value], values + [value])
  {
    hide IndexKey;
    KeysDiffer(n);
    var more := m[IndexKey(n) := value];
    assert more.Keys == m.Keys + {IndexKey(n)};
    assert KeySet(n + 1) == KeySet(n) + {IndexKey(n)};
    hide KeySet;
    assert |more.Keys| == |m.Keys| + 1;
  }

  /** Encoded transactions are at least as long as a hash. */
  predicate Transactions(values: seq<Bytes>) { forall i :: 0 <= i < |values| ==> 32 <= |values[i]| < SIZE }

  lemma EntriesShape(m: map<Path, Bytes>, values: seq<Bytes>)
    requires |values| <= LIMIT && Transactions(values) && IsEntries(m, values)
    ensures (forall k :: k in m ==> |k| <= KEY_LENGTH < SIZE) && Sized(m) && PrefixFree(m) && ValuesPresent(m)
  {
    hide IndexKey, KeySet;
    forall k | k in m ensures |k| <= KEY_LENGTH && 32 <= |m[k]| < SIZE {
      var i := InKeySet(|values|, k);
      KeyLength(i);
    }
    forall k, l | k in m && l in m && k <= l ensures k == l {
      var i := InKeySet(|values|, k);
      var j := InKeySet(|values|, l);
      IndexKeysApart(i, j);
    }
  }

  /** The trie of a block, and the proof of one of its transactions. */
  ghost predicate ProofIs(h: Hasher, t: Trie, key: Path, value: Bytes, o: Outcome) {
    && Formed(t) && Storable(t) && Get(t, key) == Some(value)
    && (forall x :: x in Route(h, t, key) ==> Small(x))
    && Follow(h, Str(RootOf(h, t)), key, false, Route(h, t, key)) == o
  }

  /**
   In the trie of any block the generated proof of a transaction is accepted, and yields the
   transaction if that is an RLP list, exactly when the runs of its key are short.
   */
  lemma BlockProofsExactly(h: Hasher, m: map<Path, Bytes>, values: seq<Bytes>, i: nat)
    requires i < |values| <= LIMIT && Transactions(values) && IsEntries(m, values)
    ensures (forall k :: k in m ==> |k| <= KEY_LENGTH) && IndexKey(i) in m
    ensures ProofIs(h, Build(m, KEY_LENGTH), IndexKey(i), values[i],
                    if ShortRuns(m, IndexKey(i)) then Decoded(values[i]) else Failed)
  {
    var key := IndexKey(i);
    assert key in m && m[key] == values[i];
    hide *;
    EntriesShape(m, values);
    BuildFormed(m, KEY_LENGTH, key);
    BuildTold(h, m, KEY_LENGTH, key);
    ToldProof(h, m, Build(m, KEY_LENGTH), key);
  }

  lemma BuildFormed(m: map<Path, Bytes>, n: nat, key: Path)
    requires (forall k :: k in m ==> |k| <= n) && ValuesPresent(m)
    ensures Formed(Build(m, n)) && Get(Build(m, n), key) == if key in m then Some(m[key]) else None
  {
    BuildGet(m, n, key);
    hide Build, Formed, Get;
  }

  lemma ToldProof(h: Hasher, m: map<Path, Bytes>, t: Trie, key: Path)
    requires key in m && Told(h, m, t, key) && Get(t, key) == Some(m[key])
    ensures ProofIs(h, t, key, m[key], if ShortRuns(m, key) then Decoded(m[key]) else Failed)
  {
    AcceptedExactly(h, t, key);
    hide Checkable, Route, Follow, Decoded, Small, Formed, Storable, Get, RootOf, Delivered, ShortRuns;
  }

  // ---------------------------------------------------------------- blocks of up to 256 transactions

  /** The key of an index of one byte. */
  function ShortKey(i: nat): Path
    requires i < 256
  {
    if i == 0 then [8, 0] else if i < 128 then [i / 16, i % 16] else [8, 1, i / 16, i % 16]
  }

  lemma ShortIndexKey(i: nat)
    requires i < 256
    ensures IndexKey(i) == ShortKey(i)
  {
    hide *;
    ShortIndexBytes(i);
    ShortBytesKey(i);
  }

  /** An index up to 255 is encoded in one byte, or from 128 on in two. */
  function ShortBytes(i: nat): Bytes
    requires i < 256
  {
    if i == 0 then [0x80] else if i < 128 then [i] else [0x81, i]
  }

  lemma ShortIndexBytes(i: nat)
    requires i < 256
    ensures IndexKey(i) == Nibbles(ShortBytes(i))
  {
    SmallIndex(i);
    hide Nibbles;
    if i > 0 { assert Shortest(i) == [i]; }
  }

  lemma ShortBytesKey(i: nat)
    requires i < 256
    ensures Nibbles(ShortBytes(i)) == ShortKey(i)
  {
    OneByteNibbles(if i == 0 then 0x80 else i);
    if i >= 128 { TwoByteNibbles(0x81, i); }
    hide Nibbles;
  }

  lemma OneByteNibbles(b: Byte)
    ensures Nibbles([b]) == [b / 16, b % 16]
  {
    assert [b][1..] == [];
  }

  lemma TwoByteNibbles(a: Byte, b: Byte)
    ensures Nibbles([a, b]) == [a / 16, a % 16, b / 16, b % 16]
  {
    assert [a, b][1..] == [b];
    OneByteNibbles(b);
  }

  lemma NoCommonNibble(m: map<Path, Bytes>)
    requires |m| > 1 && forall k :: k in m ==> |k| == 1
    ensures !CommonStart(m)
  {
    if i: Nibble :| AllStartWith(m, i) {
      forall k | k in m ensures k == [i] { assert k == [i] + k[1..]; }
      assert m.Keys <= {[i]};
      SmallSet(m.Keys, {[i]});
    }
  }

  /** Keys of one nibble have short runs. */
  lemma OneNibbleRuns(m: map<Path, Bytes>, key: Path)
    requires key in m && forall k :: k in m ==> |k| == 1
    ensures ShortRuns(m, key)
  {
    if |m| != 1 {
      assert key in m.Keys;
      NoCommonNibble(m) by { assert |m.Keys| > 1; }
      TailIn(m, key);
      hide Sub, CommonStart;
    }
  }

  /** Below a nibble whose keys go on by one nibble the runs are short. */
  lemma TwoNibbleRuns(m: map<Path, Bytes>, key: Path)
    requires |m| > 1 && key in m && |key| == 2 && (forall k :: k in Sub(m, key[0]) ==> |k| == 1)
    requires CommonStart(m) ==> |Sub(m, key[0])| > 1
    ensures ShortRuns(m, key)
  {
    TailIn(m, key);
    OneNibbleRuns(Sub(m, key[0]), key[1..]);
    if CommonStart(m) { NoCommonNibble(Sub(m, key[0])); }
    hide Sub, CommonStart;
  }

  /** The keys of a block of up to 256 transactions. */
  ghost predicate SmallBlock(m: map<Path, Bytes>, n: nat) { 2 <= n <= 256 && |m| == n && m.Keys == KeySet(n) }

  lemma EntriesSmallBlock(m: map<Path, Bytes>, values: seq<Bytes>)
    requires 2 <= |values| <= 256 && IsEntries(m, values)
    ensures SmallBlock(m, |values|)
  {
    hide IndexKey, KeySet;
  }

  lemma {:induction false} KeyIn(n: nat, i: nat)
    requires i < n <= LIMIT
    ensures IndexKey(i) in KeySet(n)
    decreases n
  {
    hide IndexKey;
    if i < n - 1 { KeyIn(n - 1, i); }
  }

  /** The short key of an index of the block. */
  lemma ShortKeyIn(m: map<Path, Bytes>, n: nat, i: nat)
    requires SmallBlock(m, n) && i < n
    ensures IndexKey(i) in m
    ensures IndexKey(i) == ShortKey(i)
  {
    KeyIn(n, i);
    ShortIndexKey(i);
    hide IndexKey, KeySet;
  }

  lemma RootSplits(m: map<Path, Bytes>, n: nat)
    requires SmallBlock(m, n)
    ensures !CommonStart(m)
  {
    hide IndexKey, KeySet;
    ShortKeyIn(m, n, 0);
    ShortKeyIn(m, n, 1);
    assert [8, 0] in m && [0, 1] in m;
    assert [8, 0][0] != [0, 1][0];
    forall i: Nibble ensures !AllStartWith(m, i) { }
  }

  /** The keys of a block, nibble by nibble. */
  lemma KeysOf(m: map<Path, Bytes>, n: nat, k: Path)
    requires SmallBlock(m, n) && k in m
    ensures k == [8, 0] || (|k| == 2 && k[0] < 8)
      || (|k| == 4 && k[0] == 8 && k[1] == 1 && 128 <= Number(k[2], k[3]) < n)
  {
    hide IndexKey, KeySet;
    var i := InKeySet(n, k);
    ShortIndexKey(i);
  }

  function Number(hi: nat, lo: nat): nat { 16 * hi + lo }

  lemma LowIndexRuns(m: map<Path, Bytes>, n: nat, i: nat)
    requires SmallBlock(m, n) && 0 < i < n && i < 128
    ensures IndexKey(i) in m && ShortRuns(m, IndexKey(i))
  {
    hide IndexKey, KeySet, ShortRuns, Sub;
    ShortKeyIn(m, n, i);
    var key := IndexKey(i);
    RootSplits(m, n);
    forall k | k in Sub(m, key[0]) ensures |k| == 1 {
      HeadTail(key[0], k);
      KeysOf(m, n, [key[0]] + k);
    }
    TwoNibbleRuns(m, key);
  }

  /** What is below the nibble eight: index zero, and from 129 transactions on the indices from 128. */
  lemma BelowEight(m: map<Path, Bytes>, n: nat, k: Path)
    requires SmallBlock(m, n) && k in Sub(m, 8)
    ensures k == [0] || (|k| == 3 && k[0] == 1 && 128 <= Number(k[1], k[2]) < n)
  {
    hide KeySet, Sub, Number;
    HeadTail(8, k);
    KeysOf(m, n, [8] + k);
    assert k == ([8] + k)[1..];
  }

  lemma KeyInSub(m: map<Path, Bytes>, i: Nibble, k: Path)
    requires [i] + k in m
    ensures k in Sub(m, i)
  {
  }

  lemma EightSplits(m: map<Path, Bytes>, n: nat)
    requires SmallBlock(m, n) && n > 128
    ensures [0] in Sub(m, 8) && !CommonStart(Sub(m, 8)) && |Sub(m, 8)| > 1
  {
    hide IndexKey, KeySet, Sub;
    ShortKeyIn(m, n, 0);
    ShortKeyIn(m, n, 128);
    assert [8] + [0] == [8, 0] && [8] + [1, 8, 0] == [8, 1, 8, 0];
    KeyInSub(m, 8, [0]);
    KeyInSub(m, 8, [1, 8, 0]);
    var s := Sub(m, 8);
    assert [0][0] != [1, 8, 0][0];
    forall i: Nibble ensures !AllStartWith(s, i) { }
    TwoKeys(s, [0], [1, 8, 0]);
  }

  lemma TwoKeys(m: map<Path, Bytes>, k: Path, l: Path)
    requires k in m && l in m && k != l
    ensures |m| > 1
  {
    var s := {k, l};
    assert s <= m.Keys;
    SmallSet(s, m.Keys);
  }

  lemma IndexZeroRuns(m: map<Path, Bytes>, n: nat)
    requires SmallBlock(m, n)
    ensures IndexKey(0) in m && ShortRuns(m, IndexKey(0))
  {
    hide IndexKey, KeySet, Sub, CommonStart;
    ShortKeyIn(m, n, 0);
    var key := IndexKey(0);
    RootSplits(m, n);
    TailIn(m, key);
    assert key[1..] == [0];
    var s := Sub(m, 8);
    if n > 128 {
      EightSplits(m, n);
      TailIn(s, [0]);
      assert [0][1..] == [];
    } else {
      forall k | k in s ensures |k| == 1 { BelowEight(m, n, k); }
      OneNibbleRuns(s, [0]);
    }
  }

  /** The keys from 128 on, behind their first two nibbles. */
  lemma BelowEightOne(m: map<Path, Bytes>, n: nat, k: Path)
    requires SmallBlock(m, n) && n > 128
    ensures k in Sub(Sub(m, 8), 1) <==> |k| == 2 && 128 <= Number(k[0], k[1]) < n
  {
    hide IndexKey, KeySet, Sub;
    var u := Sub(Sub(m, 8), 1);
    if k in u {
      HeadTail(1, k);
      BelowEight(m, n, [1] + k);
      assert k == ([1] + k)[1..];
    }
    if |k| == 2 && 128 <= Number(k[0], k[1]) < n {
      ShortKeyIn(m, n, Number(k[0], k[1]));
      assert [8] + ([1] + k) == [8, 1, k[0], k[1]];
      KeyInSub(m, 8, [1] + k);
      KeyInSub(Sub(m, 8), 1, k);
    }
  }

  lemma HighCount(m: map<Path, Bytes>, n: nat)
    requires SmallBlock(m, n) && n > 128
    ensures |Sub(Sub(m, 8), 1)| == 1 <==> n == 129
  {
    hide IndexKey, KeySet, Sub;
    var u := Sub(Sub(m, 8), 1);
    BelowEightOne(m, n, [8, 0]);
    BelowEightOne(m, n, [8, 1]);
    assert [8, 0] in u;
    if n == 129 {
      forall k | k in u ensures k == [8, 0] { BelowEightOne(m, n, k); }
      assert u.Keys == {[8, 0]};
      assert |u.Keys| == 1;
    } else {
      TwoKeys(u, [8, 0], [8, 1]);
    }
  }

  /** The two steps of a high index before its last two nibbles. */
  lemma HighSteps(m: map<Path, Bytes>, n: nat, key: Path)
    requires SmallBlock(m, n) && n > 128 && key in m && |key| == 4 && key[0] == 8 && key[1] == 1
    ensures key[2..] in Sub(Sub(m, 8), 1) && (ShortRuns(m, key) <==> ShortRuns(Sub(Sub(m, 8), 1), key[2..]))
  {
    hide KeySet, Sub, CommonStart;
    RootSplits(m, n);
    EightSplits(m, n);
    TailIn(m, key);
    TailIn(Sub(m, 8), key[1..]);
    assert key[1..][1..] == key[2..];
    assert ShortRuns(m, key) == ShortRuns(Sub(m, 8), key[1..]);
    assert ShortRuns(Sub(m, 8), key[1..]) == ShortRuns(Sub(Sub(m, 8), 1), key[2..]);
  }

  lemma HighIndexRuns(m: map<Path, Bytes>, n: nat, i: nat)
    requires SmallBlock(m, n) && 128 <= i < n
    ensures IndexKey(i) in m && (ShortRuns(m, IndexKey(i)) <==> n != 129)
  {
    hide IndexKey, KeySet, Sub, CommonStart;
    ShortKeyIn(m, n, i);
    var key := IndexKey(i);
    HighSteps(m, n, key);
    HighCount(m, n);
    if n != 129 { RestRuns(m, n, key[2..]); }
  }

  lemma RestRuns(m: map<Path, Bytes>, n: nat, rest: Path)
    requires SmallBlock(m, n) && n > 129 && rest in Sub(Sub(m, 8), 1) && |rest| == 2
    ensures ShortRuns(Sub(Sub(m, 8), 1), rest)
  {
    hide KeySet, Sub, ShortRuns;
    var u := Sub(Sub(m, 8), 1);
    HighCount(m, n);
    BelowEightOne(m, n, [8, 0]);
    assert |u| > 1 by { BelowEightOne(m, n, [8, 1]); TwoKeys(u, [8, 0], [8, 1]); }
    forall k | k in Sub(u, rest[0]) ensures |k| == 1 {
      BelowEightOne(m, n, [rest[0]] + k);
    }
    if CommonStart(u) {
      var i: Nibble :| AllStartWith(u, i);
      assert rest[0] == i;
      SubSize(u, i);
    }
    TwoNibbleRuns(u, rest);
  }

  /**
   In a block of up to 256 transactions every generated proof is accepted and yields its transaction,
   with two exceptions: the only transaction of a block, and the last one of a block of 129.
   */
  lemma SmallBlocksExactly(h: Hasher, m: map<Path, Bytes>, values: seq<Bytes>, i: nat)
    requires i < |values| <= 256 && Transactions(values) && IsEntries(m, values)
    ensures forall k :: k in m ==> |k| <= KEY_LENGTH
    ensures ProofIs(h, Build(m, KEY_LENGTH), IndexKey(i), values[i],
                    if |values| != 1 && !(|values| == 129 && i == 128) then Decoded(values[i]) else Failed)
  {
    hide *;
    LimitLarge();
    BlockProofsExactly(h, m, values, i);
    if |values| == 1 {
      OnlyRuns(m, values);
    } else {
      EntriesSmallBlock(m, values);
      if i == 0 { IndexZeroRuns(m, |values|); }
      else if i < 128 { LowIndexRuns(m, |values|, i); }
      else { HighIndexRuns(m, |values|, i); }
    }
  }

  lemma LimitLarge()
    ensures 256 <= LIMIT
  {
  }

  lemma OnlyRuns(m: map<Path, Bytes>, values: seq<Bytes>)
    requires |values| == 1 && IsEntries(m, values)
    ensures IndexKey(0) in m && !ShortRuns(m, IndexKey(0))
  {
    ShortIndexKey(0);
    hide IndexKey, KeySet;
    assert IndexKey(0) in m && |m| == 1;
  }
}
