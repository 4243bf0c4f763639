/** The steps by which the offenders of an over-full pending pool are brought to one level. */
module PoolLevelling {
  import opened Sums
  import opened Transactions
  import opened PoolState
  import opened PoolInvariant
  import opened PoolTruncation

  /** The remote accounts above the guaranteed slots, with their list lengths as priorities. */
  function HighRollers(p: Pool): map<Address, nat> {
    map a | a in p.pending && a !in p.accounts && |p.pending[a]| > p.cfg.accountSlots :: |p.pending[a]|
  }

  /** Above `level` nothing fits the limit. */
  ghost predicate Highest(p: Pool, level: nat) {
    forall m :: m > level ==> PendingTotal(p, m) > p.cfg.globalSlots
  }

  predicate Remote(p: Pool, a: Address) { a in p.pending && a !in p.accounts }

  /** `os` are exactly the remote accounts with at least `level` pending transactions. */
  ghost predicate Offenders(p: Pool, os: seq<Address>, level: nat) {
    Distinct(os) && forall a :: a in os <==> Remote(p, a) && |p.pending[a]| >= level
  }

  /** `os` all reach `top`, and everybody else is at most at `floor`. */
  ghost predicate Between(p: Pool, os: seq<Address>, floor: nat, top: nat) {
    && Distinct(os)
    && (forall a :: a in os ==> Remote(p, a) && |p.pending[a]| >= top)
    && (forall a :: Remote(p, a) && |p.pending[a]| > floor ==> a in os)
  }

  lemma BetweenOffenders(p: Pool, os: seq<Address>, floor: nat, top: nat, level: nat)
    requires Between(p, os, floor, top) && floor < level <= top
    ensures Offenders(p, os, level)
  {
  }

  // ---------------------------------------------------------------- one pass over the offenders

  function PassLens(p: Pool, done: seq<Address>, level: nat): (r: map<Address, nat>)
    requires level >= 1
    ensures LensOk(p, r)
  {
    map a | a in p.pending ::
      if a in done && |p.pending[a]| >= level then level - 1 else CapLen(p, a, level)
  }

  function PassState(p: Pool, done: seq<Address>, level: nat): Pool
    requires level >= 1
  {
    CapTo(p, PassLens(p, done, level))
  }

  lemma PassStart(p: Pool, level: nat)
    requires level >= 1
    ensures PassState(p, [], level) == CapPending(p, level)
    ensures PendingTotal(p, level) == PendingSize(CapPending(p, level))
  {
    assert PassLens(p, [], level) == LevelLens(p, level);
    CapPendingSize(p, level);
  }

  lemma PassStep(p: Pool, os: seq<Address>, level: nat, i: nat)
    requires Inv(p) && level >= 1 && Offenders(p, os, level) && i < |os|
    ensures var q := PassState(p, os[..i], level);
      && os[i] in q.pending && q.pending[os[i]] != []
      && DropLast(q, os[i]) == PassState(p, os[..i + 1], level)
      && PendingSize(q) == PendingSize(PassState(p, os[..i + 1], level)) + 1
  {
    var a := os[i];
    var lens, next := PassLens(p, os[..i], level), PassLens(p, os[..i + 1], level);
    OffenderLens(p, os, level, i);
    AtFacts(p.pending, a);
    hide InvT, PassLens, Offenders;
    CapStep(p, lens, a, next);
    hide CapTo;
    DropLastSize(CapTo(p, lens), a);
  }

  lemma OffenderLens(p: Pool, os: seq<Address>, level: nat, i: nat)
    requires level >= 1 && Offenders(p, os, level) && i < |os|
    ensures os[i] in p.pending
    ensures var lens := PassLens(p, os[..i], level);
      lens[os[i]] == level && PassLens(p, os[..i + 1], level) == lens[os[i] := level - 1]
  {
    var a := os[i];
    assert os[..i + 1] == os[..i] + [a];
    assert a !in os[..i];
    assert a in os && Remote(p, a);
  }

  lemma DropLastSize(q: Pool, a: Address)
    requires a in q.pending && q.pending[a] != []
    ensures PendingSize(q) == PendingSize(DropLast(q, a)) + 1
  {
    SizeStep(q, DropLast(q, a), a);
  }

  lemma PassEnd(p: Pool, os: seq<Address>, level: nat)
    requires level >= 1 && Offenders(p, os, level)
    ensures PassState(p, os, level) == CapPending(p, level - 1)
    ensures PendingTotal(p, level - 1) == PendingSize(CapPending(p, level - 1))
  {
    hide PassLens, LevelLens, CapTo, Offenders, PendingTotal, PendingSize;
    SameLens(p, os, level);
    CapPendingSize(p, level - 1);
  }

  lemma SameLens(p: Pool, os: seq<Address>, level: nat)
    requires level >= 1 && Offenders(p, os, level)
    ensures PassLens(p, os, level) == LevelLens(p, level - 1)
  {
    var lens, next := PassLens(p, os, level), LevelLens(p, level - 1);
    forall a | a in p.pending ensures lens[a] == next[a] {
      assert a in os <==> Remote(p, a) && |p.pending[a]| >= level;
    }
    hide Offenders;
  }

  // ---------------------------------------------------------------- levels

  lemma LengthAt(p: Pool, level: nat, a: Address)
    requires a in p.pending
    ensures a in CapPending(p, level).pending
    ensures |CapPending(p, level).pending[a]| == CapLen(p, a, level)
  {
  }

  /** Two levels that cut nobody are the same. */
  lemma SameCut(p: Pool, l1: nat, l2: nat)
    requires forall a :: Remote(p, a) ==> |p.pending[a]| <= l1 && |p.pending[a]| <= l2
    ensures CapPending(p, l1) == CapPending(p, l2) && PendingTotal(p, l1) == PendingTotal(p, l2)
  {
    assert LevelLens(p, l1) == LevelLens(p, l2);
    SumAgree(p.pending.Keys, a => CapLen(p, a, l1), a => CapLen(p, a, l2));
  }

  lemma NothingCut(p: Pool)
    ensures CapPending(p, PendingSize(p)) == p
    ensures PendingTotal(p, PendingSize(p)) == PendingSize(p)
    ensures forall a :: Remote(p, a) ==> |p.pending[a]| <= PendingSize(p)
  {
    HighLevelCutsNothing(p, PendingSize(p));
    forall a | a in p.pending ensures |p.pending[a]| <= PendingSize(p) { LengthBelowSize(p, a); }
    hide PendingSize, PendingTotal, CapTo;
    FullLens(p, LevelLens(p, PendingSize(p)));
  }

  lemma FullLens(p: Pool, lens: map<Address, nat>)
    requires LensOk(p, lens) && forall a :: a in p.pending ==> lens[a] == |p.pending[a]|
    ensures CapTo(p, lens) == p
  {
    FullLists(p, lens);
    assert CutHashes(p, lens) == {};
    assert Lowered(p, lens) == map[];
    assert p.known.Minus({}) == p.known;
  }

  lemma FullLists(p: Pool, lens: map<Address, nat>)
    requires LensOk(p, lens) && forall a :: a in p.pending ==> lens[a] == |p.pending[a]|
    ensures (map a | a in p.pending :: p.pending[a][..lens[a]]) == p.pending
  {
    forall a | a in p.pending ensures p.pending[a][..lens[a]] == p.pending[a] { }
  }

  lemma HighestAtSize(p: Pool, level: nat)
    requires PendingSize(p) > p.cfg.globalSlots
    requires forall a :: Remote(p, a) ==> |p.pending[a]| <= level
    ensures Highest(p, level)
  {
    forall m | m > level ensures PendingTotal(p, m) > p.cfg.globalSlots {
      NothingCut(p);
      SameCut(p, m, PendingSize(p));
    }
  }

  lemma HighestStep(p: Pool, level: nat)
    requires Highest(p, level) && PendingTotal(p, level) > p.cfg.globalSlots && level >= 1
    ensures Highest(p, level - 1)
  {
  }

  ghost predicate Largest(spam: map<Address, nat>, a: Address) {
    a in spam && forall b :: b in spam ==> spam[b] <= spam[a]
  }

  lemma LargerOf(m: map<Address, nat>, a: Address, c: Address)
    requires a in m && Largest(m - {a}, c)
    ensures Largest(m, if m[a] <= m[c] then c else a)
  {
    assert forall b :: b in m ==> b == a || b in m - {a};
  }

  lemma OnlyOne(m: map<Address, nat>, a: Address)
    requires a in m && m - {a} == map[]
    ensures Largest(m, a)
  {
    forall b | b in m ensures b == a { assert b != a ==> b in m - {a}; }
  }

  lemma {:induction false} LargestExists(m: map<Address, nat>) returns (a: Address)
    requires m != map[]
    ensures Largest(m, a)
    decreases |m|
  {
    hide Largest;
    a :| a in m;
    if m - {a} == map[] {
      OnlyOne(m, a);
    } else {
      Smaller(m, a);
      var c := LargestExists(m - {a});
      LargerOf(m, a, c);
      InRest(m, a, c);
      if m[a] <= m[c] { a := c; }
    }
  }

  lemma Smaller(m: map<Address, nat>, a: Address)
    requires a in m
    ensures |m - {a}| < |m|
  {
  }

  lemma InRest(m: map<Address, nat>, a: Address, c: Address)
    requires Largest(m - {a}, c)
    ensures c in m
  {
  }

  // ---------------------------------------------------------------- the outer loop

  /**
   What the outer loop keeps: popped offenders and remaining spammers make up the high rollers, no
   spammer is above the level, and while the pool is still over its limit every offender has sunk to it.
   */
  ghost predicate Progress(p: Pool, os: seq<Address>, spam: map<Address, nat>, level: nat, over: bool) {
    && Distinct(os)
    && (forall a :: a in os || a in spam <==> a in HighRollers(p))
    && (forall a :: a in spam ==> a !in os && spam[a] == HighRollers(p)[a] <= level)
    && (over ==> forall a :: a in os ==> |p.pending[a]| >= level)
    && (os != [] ==> level > p.cfg.accountSlots)
  }

  /** What is known of the largest spammer when it is popped. */
  lemma PopLargest(p: Pool, os: seq<Address>, spam: map<Address, nat>, level: nat, a: Address)
    requires Progress(p, os, spam, level, true) && Largest(spam, a)
    ensures Remote(p, a) && p.cfg.accountSlots < |p.pending[a]| <= level && a !in os
    ensures Between(p, os, |p.pending[a]|, level)
    ensures os == [] ==> forall b :: Remote(p, b) ==> |p.pending[b]| <= |p.pending[a]|
  {
    assert a in HighRollers(p);
    forall b | Remote(p, b) && |p.pending[b]| > |p.pending[a]| ensures b in os { assert b in HighRollers(p); }
    forall b | b in os ensures Remote(p, b) { assert b in HighRollers(p); }
    if os == [] {
      forall b | Remote(p, b) ensures |p.pending[b]| <= |p.pending[a]| {
        if b in HighRollers(p) { assert b in spam; }
      }
    }
  }

  /** The new offender joins, at any level between its own length and the old level. */
  lemma PopProgress(p: Pool, os: seq<Address>, spam: map<Address, nat>, level: nat, a: Address, next: nat, over: bool)
    requires Progress(p, os, spam, level, true) && Largest(spam, a)
    requires a in p.pending && |p.pending[a]| <= next <= level && (over ==> next == |p.pending[a]|)
    ensures Progress(p, os + [a], spam - {a}, next, over)
    ensures |spam - {a}| < |spam|
  {
    var rest := spam - {a};
    var os' := os + [a];
    assert rest.Keys == spam.Keys - {a};
    assert a in HighRollers(p);
    assert forall b :: b in os' <==> b in os || b == a;
    forall b ensures b in os' || b in rest <==> b in HighRollers(p) {
      assert b in os || b in spam <==> b in HighRollers(p);
    }
    assert forall b :: b in rest ==> rest[b] == spam[b];
  }

  lemma StartProgress(p: Pool)
    ensures Progress(p, [], HighRollers(p), PendingSize(p), true)
  {
    NothingCut(p);
  }

  /** With no spammer left, the offenders are everybody above the guarantee. */
  lemma AllPopped(p: Pool, os: seq<Address>, level: nat)
    requires Progress(p, os, map[], level, true)
    ensures Between(p, os, p.cfg.accountSlots, level)
  {
    forall a | a in os ensures Remote(p, a) { assert a in HighRollers(p); }
    forall a | Remote(p, a) && |p.pending[a]| > p.cfg.accountSlots ensures a in os { assert a in HighRollers(p); }
  }

  /** The level that is reached is the water level. */
  lemma ReachedWaterLevel(p: Pool, level: nat)
    requires PendingSize(p) > p.cfg.globalSlots && Highest(p, level) && level >= p.cfg.accountSlots
    requires PendingTotal(p, level) <= p.cfg.globalSlots || level == p.cfg.accountSlots
    ensures CapPending(p, level) == TruncatePending(p)
  {
    WaterFilling(p);
    assert IsWaterLevel(p, level);
  }
}
