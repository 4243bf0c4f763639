/** What a question for bundles is answered and what it leaves behind, in the fields of the bundles. */
module BundleLaws {
  import opened Wrappers
  import opened Transactions
  import opened Selections
  import opened Bundles

  lemma {:induction false} FilterPicks(all: seq<Bundle>, want: Bundle -> bool) returns (at: seq<nat>)
    ensures PicksAt(all, Filter(all, want), want, at)
    decreases |all|
  {
    hide PicksAt;
    if all == [] {
      at := [];
      NonePicked(want);
    } else {
      var most, b := all[..|all| - 1], all[|all| - 1];
      var before := FilterPicks(most, want);
      assert all == most + [b];
      FilterSnoc(most, b, want);
      OneMorePicked(most, b, Filter(most, want), want, before);
      at := if want(b) then before + [|most|] else before;
      assert Filter(most, want) + [] == Filter(most, want);
    }
  }

  lemma FilterIs(all: seq<Bundle>, f: Bundle -> bool, want: Bundle -> bool)
    requires forall b :: f(b) <==> want(b)
    ensures Picks(all, Filter(all, f), want)
  {
    var at := FilterPicks(all, f);
    PicksSame(all, Filter(all, f), f, want, at);
  }

  // ---------------------------------------------------------------- one question

  /** For the block that is asked for, with a window around the time that is asked for; zero means no bound. */
  predicate Due(b: Bundle, block: nat, time: nat) {
    b.block == block && (b.minTime == 0 || b.minTime <= time) && (b.maxTime == 0 || time <= b.maxTime)
  }

  lemma DueIs(b: Bundle, block: nat, time: nat)
    ensures InTime(b, Moment(block, time)) <==> Due(b, block, time)
  {
  }

  /** The answer about `all`, field by field. */
  ghost predicate Answers(all: seq<Bundle>, a: Answer, block: nat, time: nat) {
    && Picks(all, a.regular, b => Due(b, block, time) && b.uuid == 0)
    && (forall slot :: slot in a.offered <==> exists b :: b in all && InItsSlot(b, block, time, slot))
    && (forall slot :: slot in a.offered ==> Picks(all, a.offered[slot], b => InItsSlot(b, block, time, slot)))
  }

  /** Replaceable, due, and with the slot's identifier and signer. */
  predicate InItsSlot(b: Bundle, block: nat, time: nat, slot: Slot) {
    Due(b, block, time) && b.uuid != 0 && b.uuid == slot.0 && b.signer == slot.1
  }

  lemma AnswerOf(all: seq<Bundle>, block: nat, time: nat)
    ensures Answers(all, AnswerFor(all, Moment(block, time)), block, time)
  {
    var at := Moment(block, time);
    forall b ensures InTime(b, at) <==> Due(b, block, time) { DueIs(b, block, time); }
    hide Due, InTime, Picks, Filter;
    FilterIs(all, b => Regular(b, at), b => Due(b, block, time) && b.uuid == 0);
    forall slot: Slot ensures Picks(all, Group(all, at, slot), b => InItsSlot(b, block, time, slot)) {
      FilterIs(all, b => InSlot(b, at, slot), b => InItsSlot(b, block, time, slot));
    }
    forall slot: Slot ensures slot in Slots(all, at) <==> exists b :: b in all && InItsSlot(b, block, time, slot) {
      SlotIs(all, block, time, slot);
    }
    hide Group, Slots, InItsSlot;
  }

  lemma SlotIs(all: seq<Bundle>, block: nat, time: nat, slot: Slot)
    ensures slot in Slots(all, Moment(block, time)) <==> exists b :: b in all && InItsSlot(b, block, time, slot)
  {
    forall b ensures InTime(b, Moment(block, time)) <==> Due(b, block, time) { DueIs(b, block, time); }
    hide Due, InTime;
    assert forall b: Bundle :: slot == (b.uuid, b.signer) <==> slot.0 == b.uuid && slot.1 == b.signer;
  }

  // ---------------------------------------------------------------- any run

  /** No earlier question was about a later block or a later time. */
  ghost predicate NoneLater(ops: seq<Op>, block: nat, time: nat) {
    forall op :: op in ops && op.Query? ==> op.at.block <= block && op.at.time <= time
  }

  lemma {:induction false} KeptOfEver(ops: seq<Op>, block: nat, time: nat)
    requires NoneLater(ops, block, time)
    ensures Kept(Held(ops), Moment(block, time)) == Kept(Ever(ops), Moment(block, time))
    decreases |ops|
  {
    if ops != [] {
      var at := Moment(block, time);
      var most, op := ops[..|ops| - 1], ops[|ops| - 1];
      assert ops == most + [op];
      KeptOfEver(most, block, time);
      match op
      case Submit(more) =>
        KeptConcat(Held(most), more, at);
        KeptConcat(Ever(most), more, at);
      case Query(first) =>
        FilterTwice(Held(most), b => !Outdated(b, first), b => !Outdated(b, at));
        assert Ever(ops) == Ever(most);
    }
  }

  lemma {:induction false} KeptConcat(xs: seq<Bundle>, more: seq<Bundle>, at: Moment)
    ensures Kept(xs + more, at) == Kept(xs, at) + Kept(more, at)
    decreases |more|
  {
    if more == [] {
      assert xs + more == xs;
    } else {
      var most, b := more[..|more| - 1], more[|more| - 1];
      assert more == most + [b] && xs + more == (xs + most) + [b];
      KeptConcat(xs, most, at);
      FilterSnoc(xs + most, b, x => !Outdated(x, at));
      FilterSnoc(most, b, x => !Outdated(x, at));
    }
  }

  /**
   A question, whatever was submitted and asked before, as long as that was about no later block or time:
   the answer picks from everything ever submitted exactly the bundles that are due, and what is held
   afterwards is exactly what can still become due.
   */
  lemma AnsweredExactly(ops: seq<Op>, block: nat, time: nat)
    requires NoneLater(ops, block, time)
    ensures Answers(Ever(ops), AnswerFor(Held(ops), Moment(block, time)), block, time)
    ensures Picks(Ever(ops), Held(ops + [Query(Moment(block, time))]),
                  (b: Bundle) => b.block >= block && (b.maxTime == 0 || time <= b.maxTime))
  {
    var at := Moment(block, time);
    PruningIsInvisible(ops, at);
    AnswerOf(Ever(ops), block, time);
    KeptOfEver(ops, block, time);
    var now := ops + [Query(at)];
    assert now[..|now| - 1] == ops;
    assert Held(now) == Kept(Held(ops), at);
    hide Held, Ever, Answers, Picks, Filter;
    FilterIs(Ever(ops), b => !Outdated(b, at),
             (b: Bundle) => b.block >= block && (b.maxTime == 0 || time <= b.maxTime));
  }

  /** An entry of the database selects the first offered bundle of its slot with its hash, if there is one. */
  lemma SelectedExactly(l: Latest, offered: map<Slot, seq<Bundle>>, b: Bundle)
    ensures Selected(l, offered) == Some(b) <==>
      && (l.uuid, l.signer) in offered
      && exists i :: FirstOf(offered[(l.uuid, l.signer)], l.bundleHash, i) && offered[(l.uuid, l.signer)][i] == b
  {
    var slot := (l.uuid, l.signer);
    if slot in offered { PickedFirst(offered[slot], l.bundleHash, b); }
    hide Pick;
  }

  ghost predicate FirstOf(l: seq<Bundle>, hash: Hash, i: int) {
    0 <= i < |l| && l[i].hash == hash && forall j :: 0 <= j < i ==> l[j].hash != hash
  }

  lemma {:induction false} PickedFirst(l: seq<Bundle>, hash: Hash, b: Bundle)
    ensures Pick(l, hash) == Some(b) <==> exists i :: FirstOf(l, hash, i) && l[i] == b
    decreases |l|
  {
    if l != [] && l[0].hash != hash {
      PickedFirst(l[1..], hash, b);
      if i :| FirstOf(l, hash, i) && l[i] == b { assert FirstOf(l[1..], hash, i - 1); }
      if i :| FirstOf(l[1..], hash, i) && l[1..][i] == b { assert FirstOf(l, hash, i + 1); }
    } else if l != [] {
      assert FirstOf(l, hash, 0);
    }
  }
}
