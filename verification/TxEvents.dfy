/** Queued transaction events, and the announcement that a reorg makes of them. */
module TxEvents {
  import opened Transactions

  /** Events by sender and nonce. */
  type Events = map<(Address, nat), Tx>

  function Key(tx: Tx): (Address, nat) { (tx.sender, tx.nonce) }

  /** Every event is stored under its own sender and nonce. */
  predicate Keyed(events: Events) { forall k :: k in events ==> Key(events[k]) == k }

  function WithPromoted(events: Events, promoted: seq<Tx>): Events
    decreases |promoted|
  {
    if promoted == [] then events
    else
      var x := promoted[|promoted| - 1];
      WithPromoted(events, promoted[..|promoted| - 1])[Key(x) := x]
  }

  /** What is announced: the events and what was promoted, without private transactions. */
  function Announced(events: Events, promoted: seq<Tx>, private: set<Hash>): set<Tx> {
    var sent := WithPromoted(events, promoted);
    set k | k in sent && sent[k].hash !in private :: sent[k]
  }

  lemma {:induction false} WithPromotedHolds(events: Events, promoted: seq<Tx>, t: Tx)
    requires forall x, y :: x in promoted && y in promoted && Key(x) == Key(y) ==> x == y
    ensures var sent := WithPromoted(events, promoted);
      (Key(t) in sent && sent[Key(t)] == t) <==>
        t in promoted || (Key(t) in events && events[Key(t)] == t && forall x :: x in promoted ==> Key(x) != Key(t))
    decreases |promoted|
  {
    if promoted != [] {
      var most, x := promoted[..|promoted| - 1], promoted[|promoted| - 1];
      assert promoted == most + [x];
      WithPromotedHolds(events, most, t);
    }
  }

  /**
   Announced are exactly the public promoted transactions, and the public events that none of them
   replaces.
   */
  lemma AnnouncedExactly(events: Events, promoted: seq<Tx>, private: set<Hash>, t: Tx)
    requires forall k :: k in events ==> k == (events[k].sender, events[k].nonce)
    requires forall x, y :: x in promoted && y in promoted && SameSlot(x, y) ==> x == y
    ensures t in Announced(events, promoted, private) <==>
      t.hash !in private && (t in promoted || (t in events.Values && forall x :: x in promoted ==> !SameSlot(x, t)))
  {
    assert forall x, y :: Key(x) == Key(y) <==> SameSlot(x, y);
    WithPromotedHolds(events, promoted, t);
    WithPromotedKeys(events, promoted);
    hide WithPromoted;
    assert t in events.Values <==> Key(t) in events && events[Key(t)] == t;
  }

  lemma {:induction false} WithPromotedKeys(events: Events, promoted: seq<Tx>)
    requires Keyed(events)
    ensures Keyed(WithPromoted(events, promoted))
    decreases |promoted|
  {
    if promoted != [] { WithPromotedKeys(events, promoted[..|promoted| - 1]); }
  }
}
