/**
 The nonce-indexed transaction list behind each account, as a sequence in strictly increasing
 nonce order. Only the behaviour the pool's call sites rely on is modelled.
 */
module TxLists {
  import opened Transactions

  ghost predicate Sorted(l: seq<Tx>) {
    forall i, j :: 0 <= i < j < |l| ==> l[i].nonce < l[j].nonce
  }

  /** The position of the first transaction whose nonce is at least `n`. */
  function Rank(l: seq<Tx>, n: nat): (r: nat)
    ensures r <= |l|
    ensures forall i :: 0 <= i < r ==> l[i].nonce < n
    ensures r < |l| ==> l[r].nonce >= n
    ensures Sorted(l) ==> forall i :: r <= i < |l| ==> l[i].nonce >= n
  {
    if l == [] || l[0].nonce >= n then 0 else 1 + Rank(l[1..], n)
  }

  predicate HasNonce(l: seq<Tx>, n: nat) {
    var r := Rank(l, n);
    r < |l| && l[r].nonce == n
  }

  lemma HasNonceIff(l: seq<Tx>, n: nat)
    requires Sorted(l)
    ensures HasNonce(l, n) <==> exists i :: 0 <= i < |l| && l[i].nonce == n
  {
    var r := Rank(l, n);
    if i :| 0 <= i < |l| && l[i].nonce == n {
      if i > r {
        assert l[r].nonce < l[i].nonce;
      }
    }
  }

  /** The transaction at nonce `n`. */
  function AtNonce(l: seq<Tx>, n: nat): (t: Tx)
    requires HasNonce(l, n)
    ensures t in l && t.nonce == n
  {
    l[Rank(l, n)]
  }

  /** A replacement must raise both caps, and each by the configured percentage. */
  predicate Outbids(tx: Tx, older: Tx, priceBump: nat) {
    && older.feeCap < tx.feeCap
    && older.tipCap < tx.tipCap
    && tx.feeCap >= older.feeCap * (100 + priceBump) / 100
    && tx.tipCap >= older.tipCap * (100 + priceBump) / 100
  }

  /** Whether `Add` accepts `tx`. */
  predicate Accepts(l: seq<Tx>, tx: Tx, priceBump: nat) {
    HasNonce(l, tx.nonce) ==> Outbids(tx, AtNonce(l, tx.nonce), priceBump)
  }

  lemma ReplaceKeepsOthers(l: seq<Tx>, k: nat, tx: Tx)
    requires Sorted(l) && k < |l| && l[k].nonce == tx.nonce
    ensures Sorted(l[k := tx])
    ensures forall t :: t in l[k := tx] <==> t == tx || (t in l && t.nonce != tx.nonce)
  {
    var r := l[k := tx];
    assert r[k] == tx;
    forall t | t in l && t.nonce != tx.nonce ensures t in r {
      var i :| 0 <= i < |l| && l[i] == t;
      assert r[i] == t;
    }
    forall t | t in r && t != tx ensures t in l && t.nonce != tx.nonce {
      var i :| 0 <= i < |r| && r[i] == t;
      assert l[i] == t && i != k;
      if i < k { assert l[i].nonce < l[k].nonce; } else { assert l[k].nonce < l[i].nonce; }
    }
  }

  lemma InsertKeepsOthers(l: seq<Tx>, k: nat, tx: Tx, r: seq<Tx>)
    requires Sorted(l) && k <= |l|
    requires forall i :: 0 <= i < k ==> l[i].nonce < tx.nonce
    requires forall i :: k <= i < |l| ==> l[i].nonce > tx.nonce
    requires |r| == |l| + 1 && r[k] == tx
    requires forall i :: 0 <= i < |l| ==> r[if i < k then i else i + 1] == l[i]
    ensures Sorted(r)
    ensures forall t :: t in r <==> t == tx || (t in l && t.nonce != tx.nonce)
  {
    forall i | 0 <= i < |r| && i != k ensures r[i] == l[if i < k then i else i - 1] {
      var j := if i < k then i else i - 1;
      assert r[if j < k then j else j + 1] == l[j];
    }
    InsertSorted(l, k, tx, r);
    InsertMembers(l, k, tx, r);
    assert forall t :: t in l ==> t.nonce != tx.nonce;
  }

  lemma InsertMembers(l: seq<Tx>, k: nat, tx: Tx, r: seq<Tx>)
    requires k <= |l| && |r| == |l| + 1 && r[k] == tx
    requires forall i :: 0 <= i < |r| && i != k ==> r[i] == l[if i < k then i else i - 1]
    ensures forall t :: t in r <==> t == tx || t in l
  {
    assert r[..k] == l[..k] && r[k + 1..] == l[k..];
    assert r == l[..k] + [tx] + l[k..] && l == l[..k] + l[k..];
  }

  lemma InsertSorted(l: seq<Tx>, k: nat, tx: Tx, r: seq<Tx>)
    requires Sorted(l) && k <= |l| && |r| == |l| + 1 && r[k] == tx
    requires forall i :: 0 <= i < k ==> l[i].nonce < tx.nonce
    requires forall i :: k <= i < |l| ==> l[i].nonce > tx.nonce
    requires forall i :: 0 <= i < |r| && i != k ==> r[i] == l[if i < k then i else i - 1]
    ensures Sorted(r)
  {
    forall i, j | 0 <= i < j < |r| ensures r[i].nonce < r[j].nonce {
      var i' := if i < k then i else i - 1;
      var j' := if j < k then j else j - 1;
      if i != k && j != k { assert r[i] == l[i'] && r[j] == l[j']; }
    }
  }

  /** Insert `tx`, overwriting the transaction with the same nonce if there is one. */
  function Put(l: seq<Tx>, tx: Tx): (r: seq<Tx>)
    ensures r != []
    ensures |r| == if HasNonce(l, tx.nonce) then |l| else |l| + 1
    ensures Sorted(l) ==> Sorted(r) && forall t :: t in r <==> t == tx || (t in l && t.nonce != tx.nonce)
  {
    var k := Rank(l, tx.nonce);
    var r := if HasNonce(l, tx.nonce) then l[k := tx] else l[..k] + [tx] + l[k..];
    assert Sorted(l) ==> Sorted(r) && forall t :: t in r <==> t == tx || (t in l && t.nonce != tx.nonce) by {
      if Sorted(l) { PutKeepsOthers(l, tx); }
    }
    r
  }

  lemma PutKeepsOthers(l: seq<Tx>, tx: Tx)
    requires Sorted(l)
    ensures var k := Rank(l, tx.nonce);
      var r := if HasNonce(l, tx.nonce) then l[k := tx] else l[..k] + [tx] + l[k..];
      Sorted(r) && forall t :: t in r <==> t == tx || (t in l && t.nonce != tx.nonce)
  {
    var k := Rank(l, tx.nonce);
    if HasNonce(l, tx.nonce) {
      ReplaceKeepsOthers(l, k, tx);
    } else {
      forall i | k <= i < |l| ensures l[i].nonce > tx.nonce {
        if i > k { assert l[k].nonce < l[i].nonce; }
      }
      InsertKeepsOthers(l, k, tx, l[..k] + [tx] + l[k..]);
    }
  }

  /** Delete the transaction at nonce `n`. */
  function Without(l: seq<Tx>, n: nat): (r: seq<Tx>)
    ensures |r| == if HasNonce(l, n) then |l| - 1 else |l|
    ensures Sorted(l) ==> Sorted(r) && forall t :: t in r <==> t in l && t.nonce != n
  {
    var k := Rank(l, n);
    if HasNonce(l, n) then
      var r := l[..k] + l[k + 1..];
      assert Sorted(l) ==> forall t :: t in r <==> t in l && t.nonce != n by {
        if Sorted(l) { WithoutKeepsOthers(l, k, r); }
      }
      r
    else
      assert Sorted(l) ==> forall t :: t in l ==> t.nonce != n by {
        if Sorted(l) { HasNonceIff(l, n); }
      }
      l
  }

  lemma WithoutKeepsOthers(l: seq<Tx>, k: nat, r: seq<Tx>)
    requires Sorted(l) && k < |l|
    requires |r| == |l| - 1
    requires forall i :: 0 <= i < |r| ==> r[i] == l[if i < k then i else i + 1]
    ensures forall t :: t in r <==> t in l && t.nonce != l[k].nonce
  {
    forall t | t in l && t.nonce != l[k].nonce ensures t in r {
      var i :| 0 <= i < |l| && l[i] == t;
      assert r[if i < k then i else i - 1] == t;
    }
  }

  /** The transactions an account can neither pay for nor fit into a block. */
  predicate Unpayable(t: Tx, balance: nat, gasLimit: nat) {
    t.gas > gasLimit || t.cost > balance
  }

  function Payable(l: seq<Tx>, balance: nat, gasLimit: nat): (r: seq<Tx>)
    ensures |r| <= |l|
    ensures forall t :: t in r <==> t in l && !Unpayable(t, balance, gasLimit)
    ensures Sorted(l) ==> Sorted(r)
  {
    if l == [] then []
    else
      var rest := Payable(l[1..], balance, gasLimit);
      assert l == [l[0]] + l[1..];
      assert Sorted(l) ==> forall t :: t in l[1..] ==> l[0].nonce < t.nonce;
      if Unpayable(l[0], balance, gasLimit) then rest else [l[0]] + rest
  }

  function Unaffordable(l: seq<Tx>, balance: nat, gasLimit: nat): (r: seq<Tx>)
    ensures |r| <= |l|
    ensures forall t :: t in r <==> t in l && Unpayable(t, balance, gasLimit)
    ensures Sorted(l) ==> Sorted(r)
  {
    if l == [] then []
    else
      var rest := Unaffordable(l[1..], balance, gasLimit);
      assert l == [l[0]] + l[1..];
      assert Sorted(l) ==> forall t :: t in l[1..] ==> l[0].nonce < t.nonce;
      if Unpayable(l[0], balance, gasLimit) then [l[0]] + rest else rest
  }

  /** How many leading transactions of a strict list survive a filter: all below the lowest drop. */
  function PayableRun(l: seq<Tx>, balance: nat, gasLimit: nat): (k: nat)
    ensures k <= |l|
    ensures forall i :: 0 <= i < k ==> !Unpayable(l[i], balance, gasLimit)
    ensures k < |l| ==> Unpayable(l[k], balance, gasLimit)
  {
    if l == [] || Unpayable(l[0], balance, gasLimit) then 0
    else 1 + PayableRun(l[1..], balance, gasLimit)
  }

  /** The length of the gap-free run of nonces at the front of the list. */
  function RunLength(l: seq<Tx>): (k: nat)
    ensures k <= |l|
    ensures l != [] ==> k >= 1
    ensures forall i :: 0 <= i < k ==> l[i].nonce == l[0].nonce + i
    ensures 0 < k < |l| ==> l[k].nonce != l[0].nonce + k
  {
    if |l| <= 1 then |l|
    else if l[1].nonce == l[0].nonce + 1 then 1 + RunLength(l[1..])
    else 1
  }

  /** The number of transactions `Ready(start)` hands out. */
  function ReadyCount(l: seq<Tx>, start: nat): (k: nat)
    ensures k <= |l|
  {
    if l == [] || l[0].nonce > start then 0 else RunLength(l)
  }

  function TotalCost(l: seq<Tx>): nat {
    if l == [] then 0 else l[0].cost + TotalCost(l[1..])
  }

  function Hashes(l: seq<Tx>): (r: set<Hash>)
    ensures forall h :: h in r <==> exists t :: t in l && t.hash == h
  {
    set t | t in l :: t.hash
  }
}
