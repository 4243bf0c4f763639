/** Which bytes are taken for a proof blob and for a legacy transaction, and which fields are read from them. */
module BlobLaws {
  import opened Wrappers
  import opened ByteStrings
  import opened Rlp
  import opened Tries
  import opened TrieProofs
  import opened BlockProofs
  import opened TxProofs

  /** A string of the number's bytes, highest first; or an empty list, for zero. */
  predicate Denotes(x: Item, n: nat) { (x.Str? && BigValue(x.s) == n) || (x == List([]) && n == 0) }

  lemma NumeralIs(x: Item, n: nat)
    ensures Numeral(x) == Some(n) <==> Denotes(x, n)
  {
    hide BigValue;
  }

  /** Nine items or more: nonce, gas price, gas, recipient, value, data, and the three parts of the signature. */
  predicate Reads(xs: seq<Item>, f: Fields) {
    && |xs| >= 9
    && Denotes(xs[0], f.nonce) && Denotes(xs[1], f.gasPrice) && Denotes(xs[2], f.gas) && f.to == xs[3]
    && Denotes(xs[4], f.value) && f.input == xs[5]
    && Denotes(xs[6], f.v) && Denotes(xs[7], f.r) && Denotes(xs[8], f.s)
  }

  /** Fields are read from exactly the encodings of such lists. */
  lemma FieldsExactly(value: Bytes, f: Fields)
    ensures FieldsIn(value) == Some(f) <==>
      exists xs :: Small(List(xs)) && value == Encode(List(xs)) && Reads(xs, f)
  {
    hide Encode, Small, Reads, FieldsOf, Decode;
    forall x ensures Decode(value) == Some(x) <==> Small(x) && value == Encode(x) { DecodeExact(value, x); }
    if Decode(value).Some? { ReadFrom(Decode(value).value, f); }
    forall xs | Small(List(xs)) && value == Encode(List(xs)) ensures FieldsIn(value) == FieldsOf(List(xs)) {
      assert Decode(value) == Some(List(xs));
    }
  }

  lemma ReadFrom(x: Item, f: Fields)
    ensures FieldsOf(x) == Some(f) <==> x.List? && Reads(x.xs, f)
  {
    match x
    case Str(s) => StringUnread(s);
    case List(xs) => ReadsIs(xs, f);
  }

  lemma StringUnread(s: Bytes)
    ensures FieldsOf(Str(s)) == None
  {
  }

  lemma ReadsIs(xs: seq<Item>, f: Fields)
    ensures FieldsOf(List(xs)) == Some(f) <==> Reads(xs, f)
  {
    hide Numeral, Denotes;
    forall x, n: nat ensures Numeral(x) == Some(n) <==> Denotes(x, n) { NumeralIs(x, n); }
    if |xs| >= 9 {
      assert forall k :: k in NUMBERS <==> k == 0 || k == 1 || k == 2 || k == 4 || k == 6 || k == 7 || k == 8;
    }
  }

  /** A list of a header with five items or more, a number, and a list of nodes. */
  lemma OpenedExactly(prf: Bytes, b: Blob)
    ensures Opened(prf) == Some(b) <==>
      exists index ::
        && Denotes(index, b.index) && b.header.List? && |b.header.xs| >= 5
        && Small(List([b.header, index, List(b.stack)])) && prf == Encode(List([b.header, index, List(b.stack)]))
  {
    hide Encode, Small, Decode, Denotes, Numeral;
    forall x ensures Decode(prf) == Some(x) <==> Small(x) && prf == Encode(x) { DecodeExact(prf, x); }
    forall x ensures Numeral(x) == Some(b.index) <==> Denotes(x, b.index) { NumeralIs(x, b.index); }
    if Opened(prf) == Some(b) {
      var xs := Decode(prf).value.xs;
      assert xs == [b.header, xs[1], List(b.stack)];
    }
  }

  /**
   Which bytes the verifier accepts for a block hash, and what it reads: a blob whose header has the hash,
   and whose nodes lead from the header's fifth item along the index to an item with the fields.
   */
  lemma VerifiedExactly(h: Hasher, blockHash: Bytes, prf: Bytes, f: Fields)
    ensures Verified(h, blockHash, prf) == Some(f) <==>
      exists b, xs ::
        && Opened(prf) == Some(b) && h(Encode(b.header)) == blockHash
        && Follow(h, b.header.xs[4], Nibbles(Encode(Str(Shortest(b.index)))), false, b.stack) == Answer(List(xs))
        && Reads(xs, f)
  {
    hide Encode, Small, Reads, FieldsOf, Opened, Follow, Nibbles;
    if Opened(prf).Some? {
      var b := Opened(prf).value;
      var o := Follow(h, b.header.xs[4], KeyOf(b.index), false, b.stack);
      if o.Answer? {
        ReadFrom(o.item, f);
        if o.item.List? { assert o == Answer(List(o.item.xs)); }
      }
    }
  }
}
