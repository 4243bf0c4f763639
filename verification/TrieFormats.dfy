/** How the nodes of a trie are laid out: the compact form of paths, nibble by nibble, and the references. */
module TrieFormats {
  import opened Wrappers
  import opened Rlp
  import opened Tries
  import opened TrieProofs

  /** The nibble at a position of a byte string, the high half of each byte first. */
  function NibbleOf(b: Bytes, i: nat): nat
    requires i < 2 * |b|
  {
    if i % 2 == 0 then b[i / 2] / 16 else b[i / 2] % 16
  }

  /**
   The first nibble counts two for a leaf and one for an odd path; behind it, or behind one more nibble if
   the path is even, come the nibbles of the path up to the end.
   */
  predicate LaidOut(b: Bytes, leaf: bool, path: Path) {
    && b != [] && NibbleOf(b, 0) == (if leaf then 2 else 0) + |path| % 2
    && 2 * |b| == |path| + 2 - |path| % 2
    && forall i: nat :: i < |path| ==> path[i] == NibbleOf(b, i + 2 - |path| % 2)
  }

  lemma NibblesAre(b: Bytes)
    ensures |Nibbles(b)| == 2 * |b| && forall i: nat :: i < 2 * |b| ==> Nibbles(b)[i] == NibbleOf(b, i)
  {
    forall i: nat | i < 2 * |b| ensures Nibbles(b)[i] == NibbleOf(b, i) { NibbleAt(b, i); }
  }

  /** A byte string is read as a path exactly if it is laid out like that. */
  lemma CompactExactly(b: Bytes, leaf: bool, path: Path)
    ensures CompactOf(b) == Some(Compact(leaf, path)) <==> LaidOut(b, leaf, path)
  {
    hide *;
    NibblesAre(b);
    CompactIs(b, leaf, path);
    LaidOutIs(b, leaf, path);
    if b != [] { TailIs(b, path, 2 - |path| % 2); }
  }

  lemma CompactIs(b: Bytes, leaf: bool, path: Path)
    requires |Nibbles(b)| == 2 * |b|
    ensures CompactOf(b) == Some(Compact(leaf, path)) <==>
      b != [] && b[0] / 16 == (if leaf then 2 else 0) + |path| % 2 && Nibbles(b)[2 - |path| % 2..] == path
  {
    hide Nibbles;
    if b != [] {
      CompactByFlag(b, b[0] / 16);
      ByParity(Nibbles(b), path);
      hide CompactOf;
      FlagSays(CompactOf(b), b[0] / 16, leaf, path, Nibbles(b), |path| % 2);
    }
  }

  lemma ByParity(n: Path, path: Path)
    requires |n| % 2 == 0 && |n| >= 2
    ensures n[2..] == path ==> |path| % 2 == 0
    ensures n[1..] == path ==> |path| % 2 == 1
  {
  }

  lemma FlagSays(r: Option<Compact>, flag: nat, leaf: bool, path: Path, n: Path, odd: nat)
    requires |n| >= 2 && odd <= 1 && (n[2..] == path ==> odd == 0) && (n[1..] == path ==> odd == 1)
    requires flag == 0 ==> r == Some(Compact(false, n[2..]))
    requires flag == 1 ==> r == Some(Compact(false, n[1..]))
    requires flag == 2 ==> r == Some(Compact(true, n[2..]))
    requires flag == 3 ==> r == Some(Compact(true, n[1..]))
    requires flag > 3 ==> r == None
    ensures r == Some(Compact(leaf, path)) <==> flag == (if leaf then 2 else 0) + odd && n[2 - odd..] == path
  {
  }

  lemma CompactByFlag(b: Bytes, flag: nat)
    requires b != [] && flag == b[0] / 16 && |Nibbles(b)| == 2 * |b|
    ensures flag == 0 ==> CompactOf(b) == Some(Compact(false, Nibbles(b)[2..]))
    ensures flag == 1 ==> CompactOf(b) == Some(Compact(false, Nibbles(b)[1..]))
    ensures flag == 2 ==> CompactOf(b) == Some(Compact(true, Nibbles(b)[2..]))
    ensures flag == 3 ==> CompactOf(b) == Some(Compact(true, Nibbles(b)[1..]))
    ensures flag > 3 ==> CompactOf(b) == None
  {
    hide Nibbles;
  }

  lemma LaidOutIs(b: Bytes, leaf: bool, path: Path)
    ensures LaidOut(b, leaf, path) <==>
      && b != [] && b[0] / 16 == (if leaf then 2 else 0) + |path| % 2
      && 2 * |b| == |path| + 2 - |path| % 2
      && forall i: nat :: i < |path| ==> path[i] == NibbleOf(b, i + 2 - |path| % 2)
  {
  }

  lemma TailIs(b: Bytes, path: Path, skip: nat)
    requires skip <= 2 * |b| == |Nibbles(b)| && forall i: nat :: i < 2 * |b| ==> Nibbles(b)[i] == NibbleOf(b, i)
    ensures Nibbles(b)[skip..] == path <==>
      2 * |b| == |path| + skip && forall i: nat :: i < |path| ==> path[i] == NibbleOf(b, i + skip)
  {
    hide Nibbles;
    var tail := Nibbles(b)[skip..];
    if 2 * |b| == |path| + skip && forall i: nat :: i < |path| ==> path[i] == NibbleOf(b, i + skip) {
      forall i: nat | i < |path| ensures path[i] == tail[i] { assert tail[i] == Nibbles(b)[i + skip]; }
    }
    if tail == path {
      forall i: nat | i < |path| ensures path[i] == NibbleOf(b, i + skip) { assert tail[i] == Nibbles(b)[i + skip]; }
    }
  }

  /** The paths of the nodes are written like that. */
  lemma PathsLaidOut(path: Path, leaf: bool)
    ensures LaidOut(HexPrefix(path, leaf), leaf, path)
  {
    CompactRoundTrip(path, leaf);
    CompactExactly(HexPrefix(path, leaf), leaf, path);
    hide HexPrefix, CompactOf;
  }

  /** A node is embedded exactly if its encoding is shorter than a hash, and is named by its hash otherwise. */
  lemma ReferenceExactly(h: Hasher, t: Trie)
    requires Storable(t) && t != Blank
    ensures var b := Encode(NodeItem(h, t));
      Reference(h, t) == if |b| < |h(b)| then NodeItem(h, t) else Str(h(b))
  {
    hide NodeItem, Encode, Small;
  }
}
