/**
 Transaction proofs from end to end: the blob that is made for a transaction of a block, and the check
 that takes nothing but the block's hash and the blob.
 */
module TxProofs {
  import opened Wrappers
  import opened ByteStrings
  import opened Rlp
  import opened Tries
  import opened TrieUpdates
  import opened TrieProofs
  import opened ProofSoundness
  import opened ProofCompleteness
  import opened BlockProofs

  // ---------------------------------------------------------------- transactions

  /** The fields of a legacy transaction as they are read back. */
  datatype Fields = Fields(
    nonce: nat, gasPrice: nat, gas: nat, to: Item, value: nat, input: Item, v: nat, r: nat, s: nat)

  /** An item read as a number: a string's bytes; an empty list passes as zero, other lists do not. */
  function Numeral(x: Item): Option<nat> {
    match x
    case Str(s) => Some(BigValue(s))
    case List(xs) => if xs == [] then Some(0) else None
  }

  /** The places of the numbers in a transaction. */
  const NUMBERS: set<nat> := {0, 1, 2, 4, 6, 7, 8}

  /** What is read from a decoded transaction; strings and lists of fewer than nine items fail. */
  function FieldsOf(tx: Item): Option<Fields> {
    if tx.Str? || |tx.xs| < 9 then None
    else if exists k :: k in NUMBERS && Numeral(tx.xs[k]).None? then None
    else
      var n := (k: nat) requires k in NUMBERS => Numeral(tx.xs[k]).value;
      Some(Fields(n(0), n(1), n(2), tx.xs[3], n(4), tx.xs[5], n(6), n(7), n(8)))
  }

  /** What is read from an encoded transaction. */
  function FieldsIn(value: Bytes): Option<Fields> {
    match Decode(value)
    case None => None
    case Some(tx) => FieldsOf(tx)
  }

  function Number(n: nat): Item { Str(Shortest(n)) }

  /** The item that a legacy transaction is encoded as. */
  function Legacy(f: Fields): Item {
    List([Number(f.nonce), Number(f.gasPrice), Number(f.gas), f.to, Number(f.value), f.input,
          Number(f.v), Number(f.r), Number(f.s)])
  }

  lemma LegacyRoundTrip(f: Fields)
    requires Small(Legacy(f))
    ensures FieldsIn(Encode(Legacy(f))) == Some(f)
  {
    DecodeExact(Encode(Legacy(f)), Legacy(f));
    hide Decode, Encode, Small;
    LegacyFields(f);
    hide Legacy, FieldsOf;
  }

  lemma LegacyFields(f: Fields)
    ensures FieldsOf(Legacy(f)) == Some(f)
  {
    hide Shortest, BigValue, Encode, Decode, Small;
    forall n: nat ensures Numeral(Number(n)) == Some(n) { }
    hide Numeral, Number;
    var xs := Legacy(f).xs;
    assert forall k :: k in NUMBERS ==> Numeral(xs[k]).Some?;
  }

  /** Only what starts like a list is read: a transaction that starts with its type never is. */
  lemma OnlyLists(value: Bytes)
    requires FieldsIn(value).Some?
    ensures value != [] && value[0] >= 0xc0
  {
    var tx := Decode(value).value;
    DecodeExact(value, tx);
    FirstByte(tx);
    hide Decode, Encode, Numeral;
  }

  // ---------------------------------------------------------------- blobs

  /** A blob that can be taken apart: the header's fifth item is the root, the index is a number. */
  datatype Blob = Blob(header: Item, index: nat, stack: seq<Item>)

  predicate HeaderLike(x: Item) { x.List? && |x.xs| >= 5 && Small(x) }

  predicate Intact(b: Blob) {
    HeaderLike(b.header) && |Shortest(b.index)| < LIMIT && forall x :: x in b.stack ==> Small(x)
  }

  function BlobItem(b: Blob): Item { List([b.header, Number(b.index), List(b.stack)]) }

  /** Taking a blob apart; every way to fail is an exception. */
  function Opened(prf: Bytes): (o: Option<Blob>)
    ensures o.Some? ==> Intact(o.value)
  {
    match Decode(prf)
    case None => None
    case Some(x) =>
      if x.Str? || |x.xs| != 3 then None
      else
        var header, index, stack := x.xs[0], x.xs[1], x.xs[2];
        if header.Str? || |header.xs| < 5 || Numeral(index).None? || stack.Str? then None
        else
          PartsSmall(x.xs);
          NumeralShort(index);
          ElementsSmall(stack.xs);
          Some(Blob(header, Numeral(index).value, stack.xs))
  }

  lemma PartsSmall(xs: seq<Item>)
    requires |xs| == 3 && Small(List(xs))
    ensures Small(xs[0]) && Small(xs[1]) && Small(xs[2])
  {
    ElementsSmall(xs);
  }

  lemma {:induction false} ElementsSmall(xs: seq<Item>)
    requires SmallAll(xs)
    ensures forall x :: x in xs ==> Small(x)
    decreases |xs|
  {
    if xs != [] {
      ElementsSmall(xs[1..]);
      assert xs == [xs[0]] + xs[1..];
    }
  }

  lemma NumeralShort(x: Item)
    requires Small(x) && Numeral(x).Some?
    ensures |Shortest(Numeral(x).value)| < LIMIT
  {
    match x
    case Str(s) =>
      BigCanonical(s);
      ShortestLength(BigValue(s), |s|);
    case List(_) =>
  }

  /** What the verifier makes of a blob, given the block's hash. */
  function Verified(h: Hasher, blockHash: Bytes, prf: Bytes): Option<Fields> {
    match Opened(prf)
    case None => None
    case Some(b) =>
      if h(Encode(b.header)) != blockHash then None
      else Read(Follow(h, b.header.xs[4], KeyOf(b.index), false, b.stack))
  }

  /** Anything but an answer is an exception, at the latest when fields are taken from it. */
  function Read(o: Outcome): Option<Fields> { if o.Answer? then FieldsOf(o.item) else None }

  method VerifyTxProof(h: Hasher, blockHash: Bytes, prf: Bytes) returns (r: Option<Fields>)
    ensures r == Verified(h, blockHash, prf)
  {
    hide Opened, FieldsOf, KeyOf, Encode;
    var parts := Opened(prf);
    if parts.None? { return None; }
    var b := parts.value;
    if h(Encode(b.header)) != blockHash { return None; }
    var o := VerifyMptProof(h, b.header.xs[4], KeyOf(b.index), b.stack);
    return Read(o);
  }

  // ---------------------------------------------------------------- making blobs

  /** The header belongs to the block with this hash, and its fifth item is the root of the trie. */
  predicate HeaderFits(h: Hasher, header: Item, blockHash: Bytes, t: Trie)
    requires HeaderLike(header) && Storable(t)
  {
    h(Encode(header)) == blockHash && header.xs[4] == Str(RootOf(h, t))
  }

  lemma {:induction false} RouteLength(h: Hasher, t: Trie, key: Path)
    requires Formed(t) && Storable(t)
    ensures |Route(h, t, key)| <= |key| + 1
    decreases t
  {
    RouteStep(h, t, key);
    hide Route, NodeItem, Storable;
    match t
    case Extension(path, child) => if path <= key { RouteLength(h, child, key[|path|..]); }
    case Branch(children, _) => if key != [] { RouteLength(h, children[key[0]], key[1..]); }
    case _ =>
  }

  lemma ListBound(xs: seq<Item>, k: nat)
    requires (forall x :: x in xs ==> Small(x) && |Encode(x)| <= k) && |xs| * k < LIMIT
    ensures Small(List(xs)) && |Encode(List(xs))| <= |xs| * k + 9
  {
    PayloadSize(xs, k);
    HeaderSize(0xc0, |Payload(xs)|);
    hide Payload, SmallAll, Header;
  }

  const NODE_SIZE: nat := 40 * SIZE

  lemma NodeBound(h: Hasher, t: Trie)
    requires Storable(t)
    ensures |Encode(NodeItem(h, t))| <= NODE_SIZE
  {
    var x := NodeItem(h, t);
    NodeParts(h, t);
    hide NodeItem, Encode, Small;
    match x
    case Str(s) => StringSmall(s);
    case List(xs) => ListBound(xs, 2 * SIZE);
  }

  lemma NodeParts(h: Hasher, t: Trie)
    requires Storable(t)
    ensures match NodeItem(h, t)
      case Str(s) => s == []
      case List(xs) => |xs| <= 17 && forall x :: x in xs ==> Small(x) && |Encode(x)| <= 2 * SIZE
  {
    if t.Leaf? || t.Extension? { StringSmall(HexPrefix(t.path, t.Leaf?)); }
    if t.Leaf? || t.Branch? { StringSmall(t.value); }
    hide Encode, Small, HexPrefix, Reference;
  }

  lemma {:induction false} RouteBound(h: Hasher, t: Trie, key: Path)
    requires Formed(t) && Storable(t)
    ensures forall x :: x in Route(h, t, key) ==> Small(x) && |Encode(x)| <= NODE_SIZE
    decreases t
  {
    RouteStep(h, t, key);
    NodeBound(h, t);
    hide Route, NodeItem, Storable, Encode, Small;
    match t
    case Extension(path, child) => if path <= key { RouteBound(h, child, key[|path|..]); }
    case Branch(children, _) => if key != [] { RouteBound(h, children[key[0]], key[1..]); }
    case _ =>
  }

  lemma StackBound(stack: seq<Item>)
    requires |stack| <= KEY_LENGTH + 1 && forall x :: x in stack ==> Small(x) && |Encode(x)| <= NODE_SIZE
    ensures Small(List(stack)) && |Encode(List(stack))| <= PART_SIZE
  {
    hide Small, Encode;
    assert |stack| * NODE_SIZE <= 19 * NODE_SIZE;
    ListBound(stack, NODE_SIZE);
  }

  const PART_SIZE: nat := 20 * NODE_SIZE

  lemma NumberBound(i: nat)
    requires i < LIMIT
    ensures Small(Number(i)) && |Encode(Number(i))| <= PART_SIZE
  {
    SmallIndex(i);
    StringSmall(Shortest(i));
    hide Small, Encode, Shortest;
  }

  lemma PartsBound(header: Item, number: Item, stack: Item)
    requires Small(header) && Small(number) && Small(stack)
    requires |Encode(header)| <= SIZE && |Encode(number)| <= PART_SIZE && |Encode(stack)| <= PART_SIZE
    ensures Small(List([header, number, stack]))
  {
    hide Small, Encode;
    ListBound([header, number, stack], PART_SIZE);
  }

  /** The blob of any index can be encoded. */
  lemma BlobSmall(h: Hasher, header: Item, t: Trie, i: nat)
    requires HeaderLike(header) && |Encode(header)| <= SIZE && Formed(t) && Storable(t) && i < LIMIT
    ensures Small(BlobItem(Blob(header, i, Route(h, t, IndexKey(i)))))
  {
    hide *;
    var key := IndexKey(i);
    KeyLength(i);
    RouteLength(h, t, key);
    RouteBound(h, t, key);
    var stack := Route(h, t, key);
    StackBound(stack);
    NumberBound(i);
    BlobIs(Blob(header, i, stack));
    PartsBound(header, Number(i), List(stack));
  }

  lemma BlobIs(b: Blob)
    requires HeaderLike(b.header)
    ensures Small(b.header) && BlobItem(b) == List([b.header, Number(b.index), List(b.stack)])
  {
    hide Small;
  }

  // ---------------------------------------------------------------- blocks

  ghost function BlockTrie(values: seq<Bytes>): (t: Trie)
    requires |values| <= LIMIT && Transactions(values)
    ensures Formed(t) && Storable(t)
  {
    BlockTrieSound(values);
    Build(EntriesOf(values), KEY_LENGTH)
  }

  /** The trie of a block can be stored and holds its transactions at their indices. */
  lemma BlockTrieSound(values: seq<Bytes>)
    requires |values| <= LIMIT && Transactions(values)
    ensures forall k :: k in EntriesOf(values) ==> |k| <= KEY_LENGTH
    ensures var t := Build(EntriesOf(values), KEY_LENGTH);
      Formed(t) && Storable(t) && IndexTrie(t)
      && forall i: nat :: i < LIMIT ==> Get(t, IndexKey(i)) == if i < |values| then Some(values[i]) else None
  {
    hide *;
    var m := EntriesOf(values);
    EntriesAre(values);
    EntriesShape(m, values);
    var t := Build(m, KEY_LENGTH);
    BuildFormed(m, KEY_LENGTH, []);
    BuildStored(m, KEY_LENGTH);
    forall k: Path ensures Get(t, k) == if k in m then Some(m[k]) else None { BuildFormed(m, KEY_LENGTH, k); }
    EntriesIndexed(m, values, t);
  }

  lemma BlockTrieHolds(values: seq<Bytes>)
    requires |values| <= LIMIT && Transactions(values)
    ensures IndexTrie(BlockTrie(values))
    ensures forall i: nat :: i < LIMIT ==>
      Get(BlockTrie(values), IndexKey(i)) == if i < |values| then Some(values[i]) else None
  {
    BlockTrieSound(values);
    hide Build, EntriesOf, IndexKey, Get, Formed, Storable, IndexTrie, Transactions;
  }

  lemma BuildStored(m: map<Path, Bytes>, n: nat)
    requires (forall k :: k in m ==> |k| <= n < SIZE) && Sized(m)
    ensures Storable(Build(m, n))
  {
    if m != map[] {
      var zero: Digest := seq(32, _ => 0);
      var h: Hasher := _ => zero;
      hide Build, Storable;
      BuildWell(h, m, n);
      WellFields(h, m, n, Build(m, n));
    }
  }

  lemma EntriesIndexed(m: map<Path, Bytes>, values: seq<Bytes>, t: Trie)
    requires |values| <= LIMIT && IsEntries(m, values) && Formed(t)
    requires forall k: Path :: Get(t, k) == if k in m then Some(m[k]) else None
    ensures IndexTrie(t)
    ensures forall i: nat :: i < LIMIT ==> Get(t, IndexKey(i)) == if i < |values| then Some(values[i]) else None
  {
    hide IndexKey, KeySet, Get, Formed;
    forall k: Path | Get(t, k).Some? ensures exists i: nat :: i < LIMIT && k == IndexKey(i) {
      var i := InKeySet(|values|, k);
    }
    forall i: nat | i < LIMIT ensures Get(t, IndexKey(i)) == if i < |values| then Some(values[i]) else None {
      if IndexKey(i) in m {
        var j := InKeySet(|values|, IndexKey(i));
        IndexKeysApart(i, j);
      }
    }
  }

  // ---------------------------------------------------------------- the generator

  /** Setting the next transaction. */
  lemma NextEntry(values: seq<Bytes>, i: nat)
    requires i < |values| <= LIMIT && Transactions(values)
    ensures Transactions(values[..i]) && Transactions(values[..i + 1])
    ensures Formed(BlockTrie(values[..i]))
    ensures Set(BlockTrie(values[..i]), IndexKey(i), values[i]) == BlockTrie(values[..i + 1])
  {
    FirstTransactions(values, i);
    FirstTransactions(values, i + 1);
    hide *;
    var most := values[..i];
    BlockTrieIs(most);
    BlockTrieIs(values[..i + 1]);
    EntriesStep(values, i);
    EntriesAre(most);
    EntriesShape(EntriesOf(most), most);
    KeyLength(i);
    SetBuild(EntriesOf(most), KEY_LENGTH, IndexKey(i), values[i]);
    AgreesIs(EntriesOf(most), KEY_LENGTH, IndexKey(i), values[i]);
  }

  lemma FirstTransactions(values: seq<Bytes>, i: nat)
    requires i <= |values| && Transactions(values)
    ensures Transactions(values[..i])
  {
  }

  lemma BlockTrieIs(values: seq<Bytes>)
    requires |values| <= LIMIT && Transactions(values)
    ensures forall k :: k in EntriesOf(values) ==> |k| <= KEY_LENGTH
    ensures BlockTrie(values) == Build(EntriesOf(values), KEY_LENGTH)
  {
    BlockTrieSound(values);
    hide Build, EntriesOf, IndexKey, Formed, Storable, Get, IndexTrie, Transactions;
  }

  lemma EntriesStep(values: seq<Bytes>, i: nat)
    requires i < |values| <= LIMIT
    ensures EntriesOf(values[..i + 1]) == EntriesOf(values[..i])[IndexKey(i) := values[i]]
  {
    hide IndexKey;
    assert values[..i + 1][..i] == values[..i];
  }

  lemma NoEntry()
    ensures BlockTrie([]) == Blank
  {
    BuildNone(KEY_LENGTH);
    hide Build;
  }

  /** The loop over a block's transactions, which sets them one after the other. */
  method BuildTrie(values: seq<Bytes>) returns (t: Trie)
    requires |values| <= LIMIT && Transactions(values)
    ensures t == BlockTrie(values)
  {
    hide BlockTrie, Set, IndexKey;
    NoEntry();
    t := Blank;
    for i := 0 to |values|
      invariant Transactions(values[..i]) && t == BlockTrie(values[..i])
    {
      NextEntry(values, i);
      t := Set(t, IndexKey(i), values[i]);
    }
    assert values[..|values|] == values;
  }

  /** The proof blob, unless the header or the root that was reported does not belong to the block. */
  method GenerateProofBlob(h: Hasher, header: Item, blockHash: Bytes, values: seq<Bytes>, i: nat)
    returns (r: Option<Bytes>)
    requires HeaderLike(header) && |Encode(header)| <= SIZE && |values| <= LIMIT && Transactions(values) && i < LIMIT
    ensures r.Some? <==> HeaderFits(h, header, blockHash, BlockTrie(values))
    ensures Small(BlobItem(BlobOf(h, header, values, i)))
    ensures r.Some? ==> r.value == Encode(BlobItem(BlobOf(h, header, values, i)))
  {
    hide Encode, Small, Formed, IndexKey, NodeItem, Route, BlockTrie, Transactions;
    BlobSmall(h, header, BlockTrie(values), i);
    if h(Encode(header)) != blockHash { return None; }
    var t := BuildTrie(values);
    if header.xs[4] != Str(RootOf(h, t)) { return None; }
    var key := IndexKey(i);
    var stack := GenerateProof(h, t, key);
    return Some(Encode(BlobItem(Blob(header, i, stack.value))));
  }

  // ---------------------------------------------------------------- what a verified blob means

  /** Two encodings with one hash have been found, of headers or of trie nodes. */
  ghost predicate Forged(h: Hasher, header: Item, t: Trie, b: Blob)
    requires Small(header) && Storable(t) && Intact(b)
  {
    SameHash(h, Encode(b.header), Encode(header)) || Collision(h, t, b.stack)
  }

  /**
   Whatever blob is verified against the hash of a block, the fields it yields are those of the block's
   transaction at the index in the blob, or else the blob shows a collision.
   */
  lemma BlobSound(h: Hasher, header: Item, blockHash: Bytes, values: seq<Bytes>, prf: Bytes)
    requires |values| <= LIMIT && Transactions(values)
    requires HeaderLike(header) && HeaderFits(h, header, blockHash, BlockTrie(values))
    requires Verified(h, blockHash, prf).Some?
    ensures Opened(prf).Some?
    ensures var b := Opened(prf).value;
      || Forged(h, header, BlockTrie(values), b)
      || (b.index < |values| && Verified(h, blockHash, prf) == FieldsIn(values[b.index]))
  {
    var b, t := Opened(prf).value, BlockTrie(values);
    hide Opened, BlockTrie, KeyOf, Encode, Small, Follow, Collision, FieldsOf, Transactions, Formed, Storable;
    if Encode(b.header) == Encode(header) {
      EncodeInjective(b.header, header);
      RootFollowed(h, t, b, values);
    }
  }

  lemma RootFollowed(h: Hasher, t: Trie, b: Blob, values: seq<Bytes>)
    requires |values| <= LIMIT && Transactions(values) && t == BlockTrie(values) && Intact(b)
    requires Follow(h, Str(RootOf(h, t)), KeyOf(b.index), false, b.stack).Answer?
    ensures Collision(h, t, b.stack) || (b.index < |values|
      && Decode(values[b.index]) == Some(Follow(h, Str(RootOf(h, t)), KeyOf(b.index), false, b.stack).item))
  {
    hide *;
    SoundParts(b);
    BlockTrieHolds(values);
    IndexSoundness(h, t, b.index, b.stack);
    var o := Follow(h, Str(RootOf(h, t)), KeyOf(b.index), false, b.stack);
    if !Collision(h, t, b.stack) {
      VindicatedIs(h, t, KeyOf(b.index), b.stack, o);
      var i := KeyHeld(t, KeyOf(b.index));
      IndexKeyIs(i);
      KeysApart(i, b.index);
    }
  }

  lemma SoundParts(b: Blob)
    requires Intact(b)
    ensures HeaderLike(b.header) && |Shortest(b.index)| < LIMIT && forall x :: x in b.stack ==> Small(x)
  {
    hide HeaderLike, Shortest, Small;
  }

  lemma VindicatedIs(h: Hasher, t: Trie, key: Path, stack: seq<Item>, o: Outcome)
    requires Formed(t) && Storable(t) && Vindicated(h, t, key, stack, o) && !Collision(h, t, stack)
    ensures o.Answer? && Get(t, key).Some? && Decode(Get(t, key).value) == Some(o.item)
  {
    hide Formed, Storable, Get, Decode, Collision;
  }

  lemma KeyHeld(t: Trie, key: Path) returns (i: nat)
    requires Formed(t) && IndexTrie(t) && Get(t, key).Some?
    ensures i < LIMIT && key == IndexKey(i)
  {
    hide Formed, Get, IndexKey;
    i :| i < LIMIT && key == IndexKey(i);
  }

  /** A transaction that starts with its type is never verified. */
  lemma TypedNeverVerified(h: Hasher, header: Item, blockHash: Bytes, values: seq<Bytes>, prf: Bytes)
    requires |values| <= LIMIT && Transactions(values)
    requires HeaderLike(header) && HeaderFits(h, header, blockHash, BlockTrie(values))
    requires Opened(prf).Some? && Opened(prf).value.index < |values| && values[Opened(prf).value.index][0] < 0xc0
    ensures Verified(h, blockHash, prf) == None || Forged(h, header, BlockTrie(values), Opened(prf).value)
  {
    hide Opened, Verified, FieldsIn, Forged, BlockTrie, HeaderFits, HeaderLike;
    if Verified(h, blockHash, prf).Some? {
      BlobSound(h, header, blockHash, values, prf);
      if Verified(h, blockHash, prf) == FieldsIn(values[Opened(prf).value.index]) {
        OnlyLists(values[Opened(prf).value.index]);
      }
    }
  }

  // ---------------------------------------------------------------- which generated blobs are verified

  /** The blob that is generated for an index of a block. */
  ghost function BlobOf(h: Hasher, header: Item, values: seq<Bytes>, i: nat): Blob
    requires |values| <= LIMIT && Transactions(values) && i < LIMIT
  {
    Blob(header, i, Route(h, BlockTrie(values), IndexKey(i)))
  }

  lemma BlobOpens(b: Blob)
    requires Intact(b) && Small(BlobItem(b))
    ensures Opened(Encode(BlobItem(b))) == Some(b)
  {
    DecodeExact(Encode(BlobItem(b)), BlobItem(b));
    hide Decode, Encode, Small, Shortest, BigValue;
  }

  /** The runs of the transaction's key are short. */
  ghost predicate Provable(values: seq<Bytes>, i: nat)
    requires |values| <= LIMIT
  {
    i < |values| && IndexKey(i) in EntriesOf(values) && ShortRuns(EntriesOf(values), IndexKey(i))
  }

  /** What verification makes of a blob, from what following its references gives. */
  lemma OpenedProof(h: Hasher, header: Item, blockHash: Bytes, values: seq<Bytes>, i: nat, o: Outcome)
    requires |values| <= LIMIT && Transactions(values) && i < LIMIT
    requires HeaderLike(header) && |Encode(header)| <= SIZE && HeaderFits(h, header, blockHash, BlockTrie(values))
    requires forall x :: x in Route(h, BlockTrie(values), IndexKey(i)) ==> Small(x)
    requires var t := BlockTrie(values); o == Follow(h, Str(RootOf(h, t)), IndexKey(i), false, Route(h, t, IndexKey(i)))
    ensures Small(BlobItem(BlobOf(h, header, values, i)))
    ensures Verified(h, blockHash, Encode(BlobItem(BlobOf(h, header, values, i))))
      == Read(o)
  {
    hide *;
    var t, b := BlockTrie(values), BlobOf(h, header, values, i);
    BlobOfIs(h, header, values, i);
    IndexKeyIs(i);
    BlobSmall(h, header, t, i);
    BlobOpens(b);
    VerifiedIs(h, blockHash, Encode(BlobItem(b)), b, t, header);
  }

  lemma BlobOfIs(h: Hasher, header: Item, values: seq<Bytes>, i: nat)
    requires |values| <= LIMIT && Transactions(values) && i < LIMIT && HeaderLike(header)
    requires forall x :: x in Route(h, BlockTrie(values), IndexKey(i)) ==> Small(x)
    ensures BlobOf(h, header, values, i) == Blob(header, i, Route(h, BlockTrie(values), IndexKey(i)))
    ensures Intact(BlobOf(h, header, values, i))
  {
    SmallIndex(i);
    hide Route, IndexKey, BlockTrie, Small, Shortest, HeaderLike;
  }

  lemma VerifiedIs(h: Hasher, blockHash: Bytes, prf: Bytes, b: Blob, t: Trie, header: Item)
    requires Opened(prf) == Some(b) && b.header == header && HeaderLike(header) && Storable(t)
    requires HeaderFits(h, header, blockHash, t)
    ensures |Shortest(b.index)| < LIMIT && forall x :: x in b.stack ==> Small(x)
    ensures Verified(h, blockHash, prf) == Read(Follow(h, Str(RootOf(h, t)), KeyOf(b.index), false, b.stack))
  {
    hide Opened, Encode, Small, Follow, Read, KeyOf, RootOf, Storable;
  }

  lemma NotProvable(values: seq<Bytes>, i: nat)
    requires |values| <= LIMIT && |values| <= i
    ensures !Provable(values, i)
  {
  }

  lemma HeldOutcome(h: Hasher, values: seq<Bytes>, i: nat)
    requires i < |values| <= LIMIT && Transactions(values)
    ensures var t, key := BlockTrie(values), IndexKey(i);
      && (forall x :: x in Route(h, t, key) ==> Small(x))
      && Read(Follow(h, Str(RootOf(h, t)), key, false, Route(h, t, key)))
         == if Provable(values, i) then FieldsIn(values[i]) else None
  {
    EntriesAre(values);
    BlockProofsExactly(h, EntriesOf(values), values, i);
    DecodedIs(values[i]);
    hide Build, EntriesOf, Route, IndexKey, Follow, FieldsOf, Small, Decode, Decoded, ShortRuns;
    hide Transactions, IsEntries, Formed, Storable, Get, RootOf;
  }

  /** No index beyond the block is answered. */
  lemma AbsentOutcome(h: Hasher, values: seq<Bytes>, i: nat)
    requires |values| <= i < LIMIT && Transactions(values)
    ensures var t, key := BlockTrie(values), IndexKey(i);
      && (forall x :: x in Route(h, t, key) ==> Small(x))
      && Read(Follow(h, Str(RootOf(h, t)), key, false, Route(h, t, key))) == None
  {
    hide *;
    BlockTrieHolds(values);
    var t, key := BlockTrie(values), IndexKey(i);
    RefusedExactly(h, t, key);
    ReadsAnswers(Follow(h, Str(RootOf(h, t)), key, false, Route(h, t, key)));
    IndexKeyIs(i);
    IndexApart(t, i);
    NotShort(t, key);
  }

  lemma ReadsAnswers(o: Outcome)
    ensures !o.Answer? ==> Read(o) == None
  {
  }

  lemma NotShort(t: Trie, key: Path)
    requires Formed(t) && ProofSoundness.Apart(t, key)
    ensures !EndsShort(Land(t, key))
  {
    ApartLands(t, key);
    LandGet(t, key);
    hide Formed, Land, Get, Decode;
  }

  /**
   The blob that is generated for an index is verified, and yields the fields of the transaction there,
   exactly if there is one, the runs of its key are short, and it is a legacy transaction.
   */
  lemma BlobsExactly(h: Hasher, header: Item, blockHash: Bytes, values: seq<Bytes>, i: nat)
    requires |values| <= LIMIT && Transactions(values) && i < LIMIT
    requires HeaderLike(header) && |Encode(header)| <= SIZE && HeaderFits(h, header, blockHash, BlockTrie(values))
    ensures Small(BlobItem(BlobOf(h, header, values, i)))
    ensures Verified(h, blockHash, Encode(BlobItem(BlobOf(h, header, values, i))))
      == if Provable(values, i) then FieldsIn(values[i]) else None
  {
    hide *;
    var t, key := BlockTrie(values), IndexKey(i);
    if i < |values| {
      HeldOutcome(h, values, i);
    } else {
      AbsentOutcome(h, values, i);
      NotProvable(values, i);
    }
    OpenedProof(h, header, blockHash, values, i, Follow(h, Str(RootOf(h, t)), key, false, Route(h, t, key)));
  }

  /**
   In a block of up to 256 transactions every legacy transaction is verified from its blob, field by
   field, with two exceptions: a block's only transaction, and the last one of a block of 129.
   */
  lemma SmallBlocksVerified(h: Hasher, header: Item, blockHash: Bytes, values: seq<Bytes>, i: nat, f: Fields)
    requires i < |values| <= 256 && Transactions(values) && Small(Legacy(f)) && values[i] == Encode(Legacy(f))
    requires HeaderLike(header) && |Encode(header)| <= SIZE && HeaderFits(h, header, blockHash, BlockTrie(values))
    ensures Small(BlobItem(BlobOf(h, header, values, i)))
    ensures Verified(h, blockHash, Encode(BlobItem(BlobOf(h, header, values, i))))
      == if |values| != 1 && !(|values| == 129 && i == 128) then Some(f) else None
  {
    hide *;
    LegacyRoundTrip(f);
    LimitLarge();
    SmallOutcome(h, values, i);
    var t, key := BlockTrie(values), IndexKey(i);
    OpenedProof(h, header, blockHash, values, i, Follow(h, Str(RootOf(h, t)), key, false, Route(h, t, key)));
  }

  lemma SmallOutcome(h: Hasher, values: seq<Bytes>, i: nat)
    requires i < |values| <= 256 && Transactions(values)
    ensures var t, key := BlockTrie(values), IndexKey(i);
      && (forall x :: x in Route(h, t, key) ==> Small(x))
      && Read(Follow(h, Str(RootOf(h, t)), key, false, Route(h, t, key)))
         == if |values| != 1 && !(|values| == 129 && i == 128) then FieldsIn(values[i]) else None
  {
    EntriesAre(values);
    SmallBlocksExactly(h, EntriesOf(values), values, i);
    DecodedIs(values[i]);
    hide Build, EntriesOf, Route, IndexKey, Follow, FieldsOf, Small, Decode, Decoded;
    hide Transactions, IsEntries, Formed, Storable, Get, RootOf;
  }
}
