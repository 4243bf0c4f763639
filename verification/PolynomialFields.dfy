/** Polynomials over Z/p in normal form: multiplication, long division and their uniqueness. */
module PolynomialFields {
  import opened Wrappers
  import opened Congruences
  import opened Euclid
  import opened Primes
  import opened Polynomials

  // ---------------------------------------------------------------- normal forms

  /** Coefficients are residues and the last one is not zero. */
  predicate Normal(p: int, a: Poly) {
    (forall i :: 0 <= i < |a| ==> 0 <= a[i] < p) && (a != [] ==> a[|a| - 1] != 0)
  }

  /** Drop the trailing zeros. */
  function Strip(a: Poly): (r: Poly)
    ensures Same(r, a) && r <= a && (r != [] ==> r[|r| - 1] != 0)
  {
    if a != [] && a[|a| - 1] == 0 then Strip(a[..|a| - 1]) else a
  }

  method StripZeros(a: Poly) returns (r: Poly)
    ensures r == Strip(a)
  {
    if |a| == 0 { return a; }
    var i := |a| - 1;
    assert a[..|a|] == a;
    while i >= 0 && a[i] == 0
      invariant -1 <= i < |a| && Strip(a[..i + 1]) == Strip(a)
    {
      assert a[..i + 1][..i] == a[..i];
      i := i - 1;
    }
    return a[..i + 1];
  }

  function Residues(p: int, a: Poly): (r: Poly)
    requires p > 0
    ensures |r| == |a| && forall i :: 0 <= i < |a| ==> r[i] == a[i] % p && 0 <= r[i] < p
  {
    seq(|a|, i requires 0 <= i < |a| => a[i] % p)
  }

  lemma ResiduesCong(p: int, a: Poly)
    requires p > 0
    ensures PCong(p, Residues(p, a), a)
  {
    forall k: int ensures Cong(p, Coef(Residues(p, a), k), Coef(a, k)) { CongMod(p, Coef(a, k)); }
  }

  /** The polynomial over Z/p that a list of integers stands for. */
  function Norm(p: int, a: Poly): (r: Poly)
    requires p > 0
    ensures Normal(p, r) && PCong(p, r, a) && |r| <= |a|
  {
    ResiduesCong(p, a);
    Strip(Residues(p, a))
  }

  /** Normal forms are unique. */
  lemma NormalUnique(p: int, a: Poly, b: Poly)
    requires p > 0 && Normal(p, a) && Normal(p, b) && PCong(p, a, b)
    ensures a == b
  {
    forall k: int ensures Coef(a, k) == Coef(b, k) { CongReduced(p, Coef(a, k), Coef(b, k)); }
    assert a != [] ==> Coef(a, |a| - 1) == Coef(b, |a| - 1);
    assert b != [] ==> Coef(b, |b| - 1) == Coef(a, |b| - 1);
    forall i | 0 <= i < |a| ensures a[i] == b[i] { assert Coef(a, i) == Coef(b, i); }
  }

  lemma NormCong(p: int, a: Poly, b: Poly)
    requires p > 0 && PCong(p, a, b)
    ensures Norm(p, a) == Norm(p, b)
  {
    PCongTrans(p, Norm(p, a), a, b);
    PCongTrans(p, Norm(p, b), b, a) by { PCongTrans(p, a, b, b); }
    PCongTrans(p, Norm(p, a), b, Norm(p, b)) by { PCongTrans(p, Norm(p, b), b, b); }
    NormalUnique(p, Norm(p, a), Norm(p, b));
  }

  function Sum(p: int, a: Poly, b: Poly): (r: Poly)
    requires p > 0
    ensures Normal(p, r) && PCong(p, r, Plus(a, b))
  {
    Norm(p, Plus(a, b))
  }

  function Difference(p: int, a: Poly, b: Poly): (r: Poly)
    requires p > 0
    ensures Normal(p, r) && PCong(p, r, Minus(a, b))
  {
    Norm(p, Minus(a, b))
  }

  function Product(p: int, a: Poly, b: Poly): (r: Poly)
    requires p > 0
    ensures Normal(p, r) && PCong(p, r, Times(a, b))
  {
    Norm(p, Times(a, b))
  }


  // ---------------------------------------------------------------- multiplication

  lemma {:induction false} TimesPrefix(a: Poly, i: nat, b: Poly, k: int)
    requires i < |a|
    ensures Coef(Times(a[..i + 1], b), k) == Coef(Times(a[..i], b), k) + a[i] * Coef(b, k - i)
    decreases i
  {
    if i == 0 {
      assert a[..1] == [a[0]] && a[..0] == [] && Tail([a[0]]) == [];
      TimesCoef(a[..1], b, k);
    } else {
      assert Tail(a[..i + 1]) == a[1..][..i] && Tail(a[..i]) == a[1..][..i - 1];
      TimesCoef(a[..i + 1], b, k);
      TimesCoef(a[..i], b, k);
      TimesPrefix(a[1..], i - 1, b, k - 1);
    }
  }

  /** The coefficients once all of the rows before `i` and `j` entries of row `i` have been added. */
  ghost predicate Filled(p: int, cs: Poly, a: Poly, b: Poly, i: nat, j: nat)
    requires p > 0 && i < |a| && j <= |b|
  {
    forall k :: 0 <= k < |cs| ==>
      Cong(p, cs[k], Coef(Times(a[..i], b), k) + if i <= k < i + j then a[i] * b[k - i] else 0)
  }

  lemma FillOne(p: int, cs: Poly, a: Poly, b: Poly, i: nat, j: nat)
    requires p > 0 && i < |a| && j < |b| && |cs| == |a| + |b| - 1 && Filled(p, cs, a, b, i, j)
    ensures Filled(p, cs[i + j := (cs[i + j] + a[i] * b[j] % p) % p], a, b, i, j + 1)
  {
    var k := i + j;
    var t := a[i] * b[j];
    var done := Coef(Times(a[..i], b), k);
    assert Cong(p, cs[k], done);
    CongMod(p, t);
    CongAdd(p, cs[k], done, t % p, t);
    CongMod(p, cs[k] + t % p);
    hide Times, Coef;
    assert Cong(p, (cs[k] + t % p) % p, done + t);
  }

  lemma RowDoneAt(p: int, c: int, a: Poly, b: Poly, i: nat, k: int)
    requires p > 0 && i < |a|
    requires Cong(p, c, Coef(Times(a[..i], b), k) + if i <= k < i + |b| then a[i] * b[k - i] else 0)
    ensures Cong(p, c, Coef(Times(a[..i + 1], b), k))
  {
    hide *;
    TimesPrefix(a, i, b, k);
    RowEntry(a[i], b, i, k);
    assert a[i] * Coef(b, k - i) == if i <= k < i + |b| then a[i] * b[k - i] else 0;
    assert Coef(Times(a[..i + 1], b), k) == Coef(Times(a[..i], b), k) + if i <= k < i + |b| then a[i] * b[k - i] else 0;
  }

  lemma RowDone(p: int, cs: Poly, a: Poly, b: Poly, i: nat)
    requires p > 0 && i < |a| && |cs| == |a| + |b| - 1 && Filled(p, cs, a, b, i, |b|)
    ensures forall k :: 0 <= k < |cs| ==> Cong(p, cs[k], Coef(Times(a[..i + 1], b), k))
  {
    hide Times, Coef, Cong;
    forall k | 0 <= k < |cs| ensures Cong(p, cs[k], Coef(Times(a[..i + 1], b), k)) { RowDoneAt(p, cs[k], a, b, i, k); }
  }

  lemma RowEntry(x: int, b: Poly, i: int, k: int)
    ensures x * Coef(b, k - i) == if i <= k < i + |b| then x * b[k - i] else 0
  {
  }

  lemma {:induction false} TimesZeroAbove(a: Poly, b: Poly, k: int)
    requires k < 0 || k >= |a| + |b| - 1 || a == [] || b == []
    ensures Coef(Times(a, b), k) == 0
    decreases |a|
  {
    if b == [] {
      TimesNil(a, k);
    } else if a != [] {
      TimesZeroAbove(a[1..], b, k - 1);
    }
  }

  /** Schoolbook multiplication into a coefficient buffer. */
  method Multiply(p: int, a: Poly, b: Poly) returns (r: Poly)
    requires p > 0
    ensures r == Product(p, a, b)
  {
    if a == [] || b == [] {
      forall k: int ensures Coef(Times(a, b), k) == 0 { TimesZeroAbove(a, b, k); }
      NormalUnique(p, Product(p, a, b), []) by { assert PCong(p, Product(p, a, b), []); }
      return [];
    }
    var cs := seq(|a| + |b| - 1, _ => 0);
    for i := 0 to |a|
      invariant |cs| == |a| + |b| - 1 && forall k :: 0 <= k < |cs| ==> 0 <= cs[k] < p
      invariant forall k :: 0 <= k < |cs| ==> Cong(p, cs[k], Coef(Times(a[..i], b), k))
    {
      for j := 0 to |b|
        invariant |cs| == |a| + |b| - 1 && forall k :: 0 <= k < |cs| ==> 0 <= cs[k] < p
        invariant Filled(p, cs, a, b, i, j)
      {
        FillOne(p, cs, a, b, i, j);
        CongMod(p, cs[i + j] + a[i] * b[j] % p);
        cs := cs[i + j := (cs[i + j] + a[i] * b[j] % p) % p];
      }
      RowDone(p, cs, a, b, i);
    }
    assert a[..|a|] == a;
    FilledProduct(p, cs, a, b);
    r := StripZeros(cs);
  }

  lemma FilledProduct(p: int, cs: Poly, a: Poly, b: Poly)
    requires p > 0 && |cs| == |a| + |b| - 1
    requires forall k :: 0 <= k < |cs| ==> 0 <= cs[k] < p && Cong(p, cs[k], Coef(Times(a, b), k))
    ensures Strip(cs) == Product(p, a, b)
  {
    forall k: int ensures Cong(p, Coef(cs, k), Coef(Times(a, b), k)) {
      if k < 0 || k >= |cs| { TimesZeroAbove(a, b, k); }
    }
    assert Residues(p, cs) == cs by {
      forall k | 0 <= k < |cs| ensures cs[k] % p == cs[k] { Reduced(p, cs[k]); }
    }
    NormCong(p, cs, Times(a, b));
  }

  // ---------------------------------------------------------------- degrees

  lemma {:induction false} TimesLead(a: Poly, b: Poly)
    requires a != [] && b != []
    ensures Coef(Times(a, b), |a| + |b| - 2) == a[|a| - 1] * b[|b| - 1]
    decreases |a|
  {
    hide *;
    var k := |a| + |b| - 2;
    TimesCoef(a, b, k);
    if |a| == 1 {
      OnlyTerm(a, b);
    } else {
      TailLead(a, b);
      TimesLead(a[1..], b);
    }
  }

  lemma OnlyTerm(a: Poly, b: Poly)
    requires |a| == 1 && b != []
    ensures Coef(a, 0) * Coef(b, |b| - 1) == a[0] * b[|b| - 1] && Coef(Times(Tail(a), b), |b| - 2) == 0
  {
    assert Tail(a) == [];
  }

  lemma TailLead(a: Poly, b: Poly)
    requires |a| > 1 && b != []
    ensures Tail(a) == a[1..] && Coef(a, 0) * Coef(b, |a| + |b| - 2) == 0
  {
    assert Coef(b, |a| + |b| - 2) == 0;
  }

  /** Over a prime field a nonzero multiple of `d` is at least as long as `d`. */
  lemma MultipleIsLong(p: int, a: Poly, d: Poly, m: Poly)
    requires Prime(p) && Normal(p, a) && Normal(p, d) && a != [] && d != [] && PCong(p, m, Times(a, d))
    ensures |m| >= |d|
  {
    var x, y := a[|a| - 1], d[|d| - 1];
    var k := |a| + |d| - 2;
    TimesLead(a, d);
    if |m| < |d| {
      assert Coef(m, k) == 0;
      assert Cong(p, Coef(m, k), x * y);
      NoZeroDivisors(p, x, y);
      Reduced(p, x);
      Reduced(p, y);
      Reduced(p, 0);
    }
  }

  // ---------------------------------------------------------------- long division

  /** What a division must deliver. */
  ghost predicate IsDivision(p: int, a: Poly, d: Poly, q: Poly, r: Poly)
    requires p > 0
  {
    Normal(p, q) && Normal(p, r) && |r| < |d| && PCong(p, a, Plus(Times(q, d), r))
  }

  function Monomial(c: int, e: nat): (m: Poly) {
    seq(e, _ => 0) + [c]
  }

  lemma {:induction false} TimesMonomial(c: int, e: nat, d: Poly, k: int)
    ensures Coef(Times(Monomial(c, e), d), k) == c * Coef(d, k - e)
    decreases e
  {
    var m := Monomial(c, e);
    TimesCoef(m, d, k);
    if e == 0 {
      assert Tail(m) == [];
    } else {
      assert Tail(m) == Monomial(c, e - 1);
      TimesMonomial(c, e - 1, d, k - 1);
    }
  }

  /** The factor is chosen such that the leading terms cancel. */
  lemma LeadFactor(p: int, lr: nat, ld: nat, c: int)
    requires Prime(p) && 0 < ld < p && c == lr * Inverse(p, ld) % p
    ensures Cong(p, c * ld, lr)
  {
    var i := Inverse(p, ld);
    InverseModPrime(p, ld);
    CongMod(p, lr * i);
    CongScale(p, c, lr * i, ld);
    CongScale(p, ld * i, 1, lr);
    assert ld * (lr * i) == lr * (ld * i) by { MulIsAssociative(ld, lr, i); MulIsAssociative(lr, ld, i); }
  }

  lemma ShorterWithoutLead(p: int, t: Poly, m: Poly, n: nat)
    requires p > 0 && Normal(p, t) && PCong(p, t, m)
    requires forall k :: k >= n ==> Cong(p, Coef(m, k), 0)
    ensures |t| <= n
  {
    if t != [] {
      var k := |t| - 1;
      assert Coef(t, k) == t[k] != 0;
      assert Cong(p, Coef(t, k), Coef(m, k));
      Reduced(p, t[k]);
      Reduced(p, 0);
    }
  }

  lemma SubtractLead(p: int, r: Poly, d: Poly, c: int)
    requires Prime(p) && Normal(p, r) && Normal(p, d) && d != [] && |r| >= |d|
    requires c == r[|r| - 1] * Inverse(p, d[|d| - 1]) % p
    ensures |Difference(p, r, Times(Monomial(c, |r| - |d|), d))| < |r|
  {
    var e := |r| - |d|;
    var m := Times(Monomial(c, e), d);
    var lr, ld := r[|r| - 1], d[|d| - 1];
    LeadFactor(p, lr, ld, c);
    CongIff(p, lr, c * ld);
    forall k | k >= |r| - 1 ensures Cong(p, Coef(Minus(r, m), k), 0) {
      TimesMonomial(c, e, d, k);
      Reduced(p, 0);
      assert Coef(Minus(r, m), k) == Coef(r, k) - c * Coef(d, k - e);
      if k > |r| - 1 { assert c * Coef(d, k - e) == 0; }
    }
    ShorterWithoutLead(p, Difference(p, r, m), Minus(r, m), |r| - 1);
  }

  lemma RegroupDivision(q: Poly, m: Poly, d: Poly, r: Poly)
    ensures Same(Plus(Times(Plus(q, m), d), Minus(r, Times(m, d))), Plus(Times(q, d), r))
  {
    forall k: int ensures Coef(Plus(Times(Plus(q, m), d), Minus(r, Times(m, d))), k) == Coef(Plus(Times(q, d), r), k) {
      TimesPlusLeft(q, m, d, k);
      hide Times, Coef;
    }
  }

  lemma DivisionStep(p: int, a: Poly, d: Poly, q: Poly, r: Poly, m: Poly, q': Poly, r': Poly)
    requires p > 0 && PCong(p, a, Plus(Times(q, d), r))
    requires PCong(p, q', Plus(q, m)) && PCong(p, r', Minus(r, Times(m, d)))
    ensures PCong(p, a, Plus(Times(q', d), r'))
  {
    var mid := Plus(Times(Plus(q, m), d), Minus(r, Times(m, d)));
    SameIsCong(p, d, d);
    RegroupDivision(q, m, d, r);
    SameIsCong(p, Plus(Times(q, d), r), mid);
    hide *;
    PCongTimes(p, q', Plus(q, m), d, d);
    PCongPlus(p, Times(q', d), Times(Plus(q, m), d), r', Minus(r, Times(m, d)));
    PCongTrans(p, a, Plus(Times(q, d), r), mid);
    PCongTrans(p, Plus(Times(q', d), r'), mid, mid) by { PCongRefl(p, mid); }
    PCongTrans(p, a, mid, Plus(Times(q', d), r'));
  }

  lemma PCongRefl(p: int, a: Poly)
    requires p > 0
    ensures PCong(p, a, a)
  {
  }

  /** Long division; dividing by zero fails when the leading coefficient is looked up. */
  method DivMod(p: int, a: Poly, d: Poly) returns (o: Option<(Poly, Poly)>)
    requires Prime(p) && Normal(p, a) && Normal(p, d)
    ensures o.None? <==> d == []
    ensures o.Some? ==> IsDivision(p, a, d, o.value.0, o.value.1)
  {
    if d == [] { return None; }
    var quotient, remainder := [], a;
    assert PCong(p, a, Plus(Times([], d), a));
    var lc := d[|d| - 1];
    while |remainder| >= |d|
      invariant Normal(p, quotient) && Normal(p, remainder)
      invariant PCong(p, a, Plus(Times(quotient, d), remainder))
      decreases |remainder|
    {
      var e := |remainder| - |d|;
      var c := remainder[|remainder| - 1] * Inverse(p, lc) % p;
      var mono := Norm(p, Monomial(c, e));
      var prod := Multiply(p, mono, d);
      ghost var next := Difference(p, remainder, prod);
      MonomialStep(p, remainder, d, c, e, mono, prod);
      DivisionStep(p, a, d, quotient, remainder, mono, Sum(p, quotient, mono), Difference(p, remainder, prod));
      quotient := Sum(p, quotient, mono);
      remainder := Difference(p, remainder, prod);
    }
    return Some((quotient, remainder));
  }

  lemma MonomialStep(p: int, r: Poly, d: Poly, c: int, e: nat, mono: Poly, prod: Poly)
    requires Prime(p) && Normal(p, r) && Normal(p, d) && d != [] && |r| >= |d|
    requires c == r[|r| - 1] * Inverse(p, d[|d| - 1]) % p && e == |r| - |d|
    requires mono == Norm(p, Monomial(c, e)) && prod == Product(p, mono, d)
    ensures |Difference(p, r, prod)| < |r|
    ensures PCong(p, Difference(p, r, prod), Minus(r, Times(mono, d)))
  {
    SubtractLead(p, r, d, c);
    SameIsCong(p, d, d);
    SameIsCong(p, r, r);
    PCongTimes(p, mono, Monomial(c, e), d, d);
    PCongTrans(p, prod, Times(mono, d), Times(Monomial(c, e), d));
    PCongPlus(p, r, r, prod, Times(mono, d));
    PCongPlus(p, r, r, prod, Times(Monomial(c, e), d));
    PCongTrans(p, Difference(p, r, prod), Minus(r, prod), Minus(r, Times(mono, d)));
    NormCong(p, Minus(r, prod), Minus(r, Times(Monomial(c, e), d)));
  }

  lemma DivisionsDiffer(p: int, a: Poly, d: Poly, q1: Poly, r1: Poly, q2: Poly, r2: Poly, k: int)
    requires p > 0 && PCong(p, a, Plus(Times(q1, d), r1)) && PCong(p, a, Plus(Times(q2, d), r2))
    ensures Cong(p, Coef(Times(Difference(p, q1, q2), d), k), Coef(Minus(r2, r1), k))
  {
    var u := Difference(p, q1, q2);
    PCongRefl(p, d);
    PCongTimes(p, u, Minus(q1, q2), d, d);
    TimesMinusLeft(q1, q2, d, k);
    var x, y := Coef(Times(q1, d), k), Coef(Times(q2, d), k);
    assert Cong(p, Coef(a, k), x + Coef(r1, k)) by { assert Coef(Plus(Times(q1, d), r1), k) == x + Coef(r1, k); }
    assert Cong(p, Coef(a, k), y + Coef(r2, k)) by { assert Coef(Plus(Times(q2, d), r2), k) == y + Coef(r2, k); }
    Balance(p, Coef(a, k), x, Coef(r1, k), y, Coef(r2, k));
  }

  /** Quotient and remainder are unique. */
  lemma DivisionUnique(p: int, a: Poly, d: Poly, q1: Poly, r1: Poly, q2: Poly, r2: Poly)
    requires Prime(p) && Normal(p, d) && IsDivision(p, a, d, q1, r1) && IsDivision(p, a, d, q2, r2)
    ensures q1 == q2 && r1 == r2
  {
    var u, m := Difference(p, q1, q2), Minus(r2, r1);
    forall k: int ensures Cong(p, Coef(Times(u, d), k), Coef(m, k)) { DivisionsDiffer(p, a, d, q1, r1, q2, r2, k); }
    if u != [] {
      assert PCong(p, m, Times(u, d));
      MultipleIsLong(p, u, d, m);
    }
    DifferenceZero(p, q1, q2);
    forall k: int ensures Cong(p, Coef(r1, k), Coef(r2, k)) {
      assert Cong(p, Coef(Times([], d), k), Coef(m, k));
      CongIff(p, Coef(r2, k), Coef(r1, k));
      Reduced(p, 0);
    }
    NormalUnique(p, r1, r2);
  }

  lemma Balance(p: int, c: int, x: int, r: int, y: int, s: int)
    requires p > 0 && Cong(p, c, x + r) && Cong(p, c, y + s)
    ensures Cong(p, x - y, s - r)
  {
    CongAdd(p, x + r, y + s, y + r, y + r);
  }

  lemma TimesMinusLeft(a: Poly, b: Poly, c: Poly, k: int)
    ensures Coef(Times(Minus(a, b), c), k) == Coef(Times(a, c), k) - Coef(Times(b, c), k)
  {
    var n := ScaleBy(-1, b);
    assert Minus(a, b) == Plus(a, n) by {
      forall i | 0 <= i < Max(|a|, |b|) ensures Coef(Minus(a, b), i) == Coef(Plus(a, n), i) { }
      forall i | 0 <= i < Max(|a|, |b|) ensures Minus(a, b)[i] == Plus(a, n)[i] {
        assert Coef(Minus(a, b), i) == Coef(Plus(a, n), i);
      }
    }
    TimesPlusLeft(a, n, c, k);
    TimesScaleLeft(-1, b, c, k);
  }

  lemma DifferenceZero(p: int, a: Poly, b: Poly)
    requires p > 0 && Normal(p, a) && Normal(p, b) && Difference(p, a, b) == []
    ensures a == b
  {
    forall k: int ensures Cong(p, Coef(a, k), Coef(b, k)) {
      assert Cong(p, Coef([], k), Coef(Minus(a, b), k));
      CongIff(p, Coef(a, k), Coef(b, k));
      Reduced(p, 0);
    }
    NormalUnique(p, a, b);
  }
}
