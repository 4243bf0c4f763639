/**
 Polynomials as coefficient lists, lowest degree first. The ring laws are proved for integer
 coefficients; a polynomial over Z/p is a list of residues without trailing zeros, and two integer
 lists stand for the same one when their coefficients are congruent.
 */
module Polynomials {
  import opened Congruences

  type Poly = seq<int>

  function Coef(a: Poly, k: int): int { if 0 <= k < |a| then a[k] else 0 }

  function Max(m: nat, n: nat): nat { if m < n then n else m }

  function Plus(a: Poly, b: Poly): (r: Poly)
    ensures forall k {:trigger Coef(r, k)} :: Coef(r, k) == Coef(a, k) + Coef(b, k)
  {
    seq(Max(|a|, |b|), k => Coef(a, k) + Coef(b, k))
  }

  function Minus(a: Poly, b: Poly): (r: Poly)
    ensures forall k {:trigger Coef(r, k)} :: Coef(r, k) == Coef(a, k) - Coef(b, k)
  {
    seq(Max(|a|, |b|), k => Coef(a, k) - Coef(b, k))
  }

  function ScaleBy(c: int, a: Poly): (r: Poly)
    ensures forall k {:trigger Coef(r, k)} :: Coef(r, k) == c * Coef(a, k)
  {
    seq(|a|, k requires 0 <= k < |a| => c * a[k])
  }

  /** Multiplication by the indeterminate. */
  function Shift(a: Poly): (r: Poly)
    ensures forall k {:trigger Coef(r, k)} :: Coef(r, k) == Coef(a, k - 1)
  {
    [0] + a
  }

  function Times(a: Poly, b: Poly): Poly {
    if a == [] then [] else Plus(ScaleBy(a[0], b), Shift(Times(a[1..], b)))
  }

  function Tail(a: Poly): (r: Poly)
    ensures forall k {:trigger Coef(r, k)} :: k >= 0 ==> Coef(r, k) == Coef(a, k + 1)
  {
    if a == [] then [] else a[1..]
  }

  /** The product, coefficient by coefficient, split at the constant term of the left factor. */
  lemma TimesCoef(a: Poly, b: Poly, k: int)
    ensures Coef(Times(a, b), k) == Coef(a, 0) * Coef(b, k) + Coef(Times(Tail(a), b), k - 1)
  {
  }

  ghost predicate Same(a: Poly, b: Poly) {
    forall k {:trigger Coef(a, k)} {:trigger Coef(b, k)} :: Coef(a, k) == Coef(b, k)
  }

  lemma SameBy(a: Poly, b: Poly)
    requires forall l: int :: Coef(a, l) == Coef(b, l)
    ensures Same(a, b)
  {
    hide Coef;
  }

  lemma {:induction false} TimesSameRight(a: Poly, b: Poly, c: Poly)
    requires Same(b, c)
    ensures Same(Times(a, b), Times(a, c))
    decreases |a|
  {
    if a != [] {
      TimesSameRight(a[1..], b, c);
    }
  }

  lemma {:induction false} TimesPlusRight(a: Poly, b: Poly, c: Poly, k: int)
    ensures Coef(Times(a, Plus(b, c)), k) == Coef(Times(a, b), k) + Coef(Times(a, c), k)
    decreases |a|
  {
    if a != [] {
      TimesPlusRight(a[1..], b, c, k - 1);
      MulDistributes(a[0], Coef(b, k), Coef(c, k));
    }
  }

  lemma TailPlus(a: Poly, b: Poly)
    ensures Tail(Plus(a, b)) == Plus(Tail(a), Tail(b))
  {
    var s, t := Tail(Plus(a, b)), Plus(Tail(a), Tail(b));
    assert |s| == |t|;
    forall i | 0 <= i < |s| ensures s[i] == t[i] {
      assert Coef(s, i) == Coef(Plus(a, b), i + 1);
      assert Coef(t, i) == Coef(Tail(a), i) + Coef(Tail(b), i);
    }
  }

  lemma ShorterTails(a: Poly, b: Poly)
    requires a != [] || b != []
    ensures |Tail(a)| + |Tail(b)| < |a| + |b|
  {
  }

  lemma {:induction false} TimesPlusLeft(a: Poly, b: Poly, c: Poly, k: int)
    ensures Coef(Times(Plus(a, b), c), k) == Coef(Times(a, c), k) + Coef(Times(b, c), k)
    decreases |a| + |b|
  {
    if a == [] && b == [] {
      assert Plus(a, b) == [];
    } else {
      ShorterTails(a, b);
      hide *;
      var s := Plus(a, b);
      TimesPlusLeft(Tail(a), Tail(b), c, k - 1);
      TailPlus(a, b);
      TimesCoef(s, c, k);
      TimesCoef(a, c, k);
      TimesCoef(b, c, k);
      assert Coef(s, 0) == Coef(a, 0) + Coef(b, 0);
      MulDistributes(Coef(c, k), Coef(a, 0), Coef(b, 0));
    }
  }

  lemma {:induction false} TimesScaleLeft(c: int, a: Poly, b: Poly, k: int)
    ensures Coef(Times(ScaleBy(c, a), b), k) == c * Coef(Times(a, b), k)
    decreases |a|
  {
    if a != [] {
      assert ScaleBy(c, a)[1..] == ScaleBy(c, a[1..]);
      TimesScaleLeft(c, a[1..], b, k - 1);
      MulIsAssociative(c, a[0], Coef(b, k));
      MulDistributes(c, a[0] * Coef(b, k), Coef(Times(a[1..], b), k - 1));
    }
  }

  lemma TimesShiftLeft(a: Poly, b: Poly, k: int)
    ensures Coef(Times(Shift(a), b), k) == Coef(Times(a, b), k - 1)
  {
    assert Shift(a)[1..] == a;
  }

  lemma {:induction false} TimesNil(a: Poly, k: int)
    ensures Coef(Times(a, []), k) == 0
    decreases |a|
  {
    if a != [] { TimesNil(a[1..], k - 1); }
  }

  /** The same split at the constant term of the right factor. */
  lemma {:induction false} TimesCons(a: Poly, d: int, b: Poly, k: int)
    ensures Coef(Times(a, [d] + b), k) == d * Coef(a, k) + Coef(Times(a, b), k - 1)
    decreases |a|
  {
    if a != [] {
      TailIs(a, k);
      hide *;
      TimesCons(Tail(a), d, b, k - 1);
      TimesCoef(a, [d] + b, k);
      TimesCoef(a, b, k - 1);
      ConsCoef(d, b, k);
    }
  }

  lemma TailIs(a: Poly, k: int)
    requires a != []
    ensures |Tail(a)| < |a| && Coef(a, k) == if k == 0 then Coef(a, 0) else Coef(Tail(a), k - 1)
  {
  }

  lemma {:induction false} TimesOne(a: Poly, k: int)
    ensures Coef(Times(a, [1]), k) == Coef(a, k)
  {
    TimesNil(a, k - 1);
    TimesCons(a, 1, [], k);
    assert [1] + [] == [1];
  }

  lemma ConsCoef(d: int, b: Poly, k: int)
    ensures Coef([d] + b, k) == if k == 0 then d else Coef(b, k - 1)
    ensures Coef([d] + b, 0) == d && Tail([d] + b) == b
  {
  }

  lemma {:induction false} TimesCommutes(a: Poly, b: Poly, k: int)
    ensures Coef(Times(a, b), k) == Coef(Times(b, a), k)
    decreases |a|
  {
    if a == [] {
      TimesNil(b, k);
    } else {
      assert a == [a[0]] + a[1..];
      TimesCons(b, a[0], a[1..], k);
      TimesCommutes(a[1..], b, k - 1);
    }
  }

  lemma {:induction false} TimesAssociates(a: Poly, b: Poly, c: Poly, k: int)
    ensures Coef(Times(Times(a, b), c), k) == Coef(Times(a, Times(b, c)), k)
    decreases |a|
  {
    if a != [] {
      var rest := Times(a[1..], b);
      TimesPlusLeft(ScaleBy(a[0], b), Shift(rest), c, k);
      TimesScaleLeft(a[0], b, c, k);
      TimesShiftLeft(rest, c, k);
      TimesAssociates(a[1..], b, c, k - 1);
    }
  }

  // ---------------------------------------------------------------- modulo p

  ghost predicate PCong(p: int, a: Poly, b: Poly)
    requires p > 0
  {
    forall k {:trigger Coef(a, k)} {:trigger Coef(b, k)} :: Cong(p, Coef(a, k), Coef(b, k))
  }

  lemma PCongPlus(p: int, a: Poly, b: Poly, c: Poly, d: Poly)
    requires p > 0 && PCong(p, a, b) && PCong(p, c, d)
    ensures PCong(p, Plus(a, c), Plus(b, d)) && PCong(p, Minus(a, c), Minus(b, d))
  {
    forall k: int
      ensures Cong(p, Coef(a, k) + Coef(c, k), Coef(b, k) + Coef(d, k))
      ensures Cong(p, Coef(a, k) - Coef(c, k), Coef(b, k) - Coef(d, k))
    {
      CongAdd(p, Coef(a, k), Coef(b, k), Coef(c, k), Coef(d, k));
    }
    hide Cong;
  }

  lemma {:induction false} TimesCongRight(p: int, a: Poly, b: Poly, c: Poly, k: int)
    requires p > 0 && PCong(p, b, c)
    ensures Cong(p, Coef(Times(a, b), k), Coef(Times(a, c), k))
    decreases |a|
  {
    if a != [] {
      TimesCongRight(p, a[1..], b, c, k - 1);
      CongScale(p, Coef(b, k), Coef(c, k), a[0]);
      CongAdd(p, a[0] * Coef(b, k), a[0] * Coef(c, k), Coef(Times(a[1..], b), k - 1), Coef(Times(a[1..], c), k - 1));
    }
  }

  lemma PCongTimes(p: int, a: Poly, b: Poly, c: Poly, d: Poly)
    requires p > 0 && PCong(p, a, b) && PCong(p, c, d)
    ensures PCong(p, Times(a, c), Times(b, d))
  {
    forall k: int ensures Cong(p, Coef(Times(a, c), k), Coef(Times(b, d), k)) {
      TimesCongRight(p, a, c, d, k);
      TimesCommutes(a, d, k);
      TimesCongRight(p, d, a, b, k);
      TimesCommutes(b, d, k);
    }
  }

  lemma SameIsCong(p: int, a: Poly, b: Poly)
    requires p > 0 && Same(a, b)
    ensures PCong(p, a, b)
  {
  }

  lemma PCongTrans(p: int, a: Poly, b: Poly, c: Poly)
    requires p > 0 && PCong(p, a, b) && PCong(p, b, c)
    ensures PCong(p, a, c) && PCong(p, b, a)
  {
    forall k: int ensures Cong(p, Coef(a, k), Coef(c, k)) && Cong(p, Coef(b, k), Coef(a, k)) {
      assert Cong(p, Coef(a, k), Coef(b, k));
      assert Cong(p, Coef(b, k), Coef(c, k));
    }
  }
}
