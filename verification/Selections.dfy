/** Selections from a sequence: what is picked, how often and in which order. */
module Selections {
  /** `picked` consists of the elements of `all` at the positions `at`, in order. */
  ghost predicate Chosen<T(!new)>(all: seq<T>, picked: seq<T>, at: seq<nat>) {
    && |at| == |picked|
    && (forall k :: 0 <= k < |at| ==> at[k] < |all| && picked[k] == all[at[k]])
    && (forall j, k :: 0 <= j < k < |at| ==> at[j] < at[k])
  }

  ghost predicate PicksAt<T(!new)>(all: seq<T>, picked: seq<T>, want: T -> bool, at: seq<nat>) {
    Chosen(all, picked, at) && forall i: nat :: i < |all| ==> (i in at <==> want(all[i]))
  }

  /** `picked` is what `want` asks for: every position that holds such an element once, in order. */
  ghost predicate Picks<T(!new)>(all: seq<T>, picked: seq<T>, want: T -> bool) {
    exists at :: PicksAt(all, picked, want, at)
  }

  lemma NonePicked<T(!new)>(want: T -> bool)
    ensures PicksAt([], [], want, [])
  {
  }

  lemma OneMorePicked<T(!new)>(most: seq<T>, b: T, picked: seq<T>, want: T -> bool, at: seq<nat>)
    requires PicksAt(most, picked, want, at)
    ensures if want(b) then PicksAt(most + [b], picked + [b], want, at + [|most|])
      else PicksAt(most + [b], picked, want, at)
  {
    var all := most + [b];
    forall i | i in at ensures i < |most| { }
    if want(b) {
      var more := at + [|most|];
      forall i: nat | i < |all| ensures i in more <==> want(all[i]) { assert i in more <==> i in at || i == |most|; }
    } else {
      forall i: nat | i < |all| ensures i in at <==> want(all[i]) { }
    }
  }

  lemma PicksSame<T(!new)>(all: seq<T>, picked: seq<T>, f: T -> bool, want: T -> bool, at: seq<nat>)
    requires PicksAt(all, picked, f, at) && forall b :: f(b) <==> want(b)
    ensures Picks(all, picked, want)
  {
    assert PicksAt(all, picked, want, at);
  }
}
