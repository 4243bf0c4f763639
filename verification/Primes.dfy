/** Arithmetic modulo a prime: no zero divisors, inverses, and Fermat's little theorem. */
module Primes {
  import opened Congruences
  import opened Euclid

  ghost predicate Prime(p: int) {
    p >= 2 && forall d :: Divides(d, p) && d > 0 ==> d == 1 || d == p
  }

  /** A nonzero residue is coprime to the modulus. */
  lemma PrimeCoprime(p: int, a: nat)
    requires Prime(p) && 0 < a < p
    ensures Coprime(a, p)
  {
    BezoutIsGcd(a, p);
    var d := a * Bezout(a, p).0 + p * Bezout(a, p).1;
    assert Divides(d, p) && Divides(d, a);
    var k :| a == d * k;
    var l :| p == d * l;
    assert d > 0;
    if d == p {
      if k <= 0 { MulNonNegative(p, -k); } else { MulAtLeast(p, k); }
    }
  }

  lemma InverseModPrime(p: int, a: nat)
    requires Prime(p) && 0 < a < p
    ensures Inverse(p, a) != 0 && Cong(p, a * Inverse(p, a), 1)
  {
    PrimeCoprime(p, a);
    InverseWorks(p, a);
    Reduced(p, 1);
    Reduced(p, 0);
  }

  /** A product vanishes modulo a prime only if a factor does. */
  lemma NoZeroDivisors(p: int, a: int, b: int)
    requires Prime(p) && Cong(p, a * b, 0)
    ensures Cong(p, a, 0) || Cong(p, b, 0)
  {
    CongMod(p, a);
    Reduced(p, 0);
    var r := a % p;
    if r != 0 {
      var i := Inverse(p, r);
      InverseModPrime(p, r);
      CongScale(p, r, a, b);
      CongScale(p, r * b, 0, i);
      CongScale(p, r * i, 1, b);
      assert (r * i) * b == (r * b) * i by {
        MulIsAssociative(b, r, i);
        MulIsAssociative(i, r, b);
        MulIsAssociative(r, i, b);
        MulIsAssociative(r, b, i);
      }
    }
  }

  lemma CancelFactor(p: int, a: int, b: int, c: int)
    requires Prime(p) && Cong(p, a * c, b * c) && !Cong(p, c, 0)
    ensures Cong(p, a, b)
  {
    CongIff(p, a * c, b * c);
    MulDistributes(c, a, b);
    Reduced(p, 0);
    NoZeroDivisors(p, a - b, c);
    CongIff(p, a, b);
  }

  // ---------------------------------------------------------------- powers

  function Pow(a: int, n: nat): int {
    if n == 0 then 1 else a * Pow(a, n - 1)
  }

  lemma {:induction false} PowAdd(a: int, m: nat, n: nat)
    ensures Pow(a, m + n) == Pow(a, m) * Pow(a, n)
    decreases m
  {
    if m > 0 {
      PowAdd(a, m - 1, n);
      MulIsAssociative(a, Pow(a, m - 1), Pow(a, n));
    }
  }

  lemma {:induction false} PowMul(a: int, m: nat, n: nat)
    ensures m * n >= 0 && Pow(a, m * n) == Pow(Pow(a, m), n)
    decreases n
  {
    MulNonNegative(m, n);
    if n > 0 {
      PowMul(a, m, n - 1);
      MulDistributes(m, n - 1, 1);
      MulNonNegative(m, n - 1);
      PowAdd(a, m, m * (n - 1));
    }
  }

  lemma {:induction false} PowCong(p: int, a: int, b: int, n: nat)
    requires p > 0 && Cong(p, a, b)
    ensures Cong(p, Pow(a, n), Pow(b, n))
    decreases n
  {
    if n > 0 {
      PowCong(p, a, b, n - 1);
      CongMul(p, a, b, Pow(a, n - 1), Pow(b, n - 1));
    }
  }

  // ---------------------------------------------------------------- products over a set of residues

  ghost function ProductOver(s: set<nat>, f: nat -> nat): nat {
    if s == {} then 1
    else
      var x :| x in s;
      f(x) * ProductOver(s - {x}, f)
  }

  lemma {:induction false} ProductRemove(s: set<nat>, f: nat -> nat, x: nat)
    requires x in s
    ensures ProductOver(s, f) == f(x) * ProductOver(s - {x}, f)
    decreases |s|
  {
    var y :| y in s && ProductOver(s, f) == f(y) * ProductOver(s - {y}, f);
    if y != x {
      ProductRemove(s - {y}, f, x);
      ProductRemove(s - {x}, f, y);
      assert s - {y} - {x} == s - {x} - {y};
      var rest := ProductOver(s - {y} - {x}, f);
      MulIsAssociative(f(y), f(x), rest);
      MulIsAssociative(f(x), f(y), rest);
    }
  }

  function Self(x: nat): nat { x }

  function Scaled(a: nat): nat -> nat { x => a * x }

  function ScaledMod(a: nat, p: nat): nat -> nat
    requires p > 0
  {
    x => a * x % p
  }

  ghost predicate Injective(s: set<nat>, g: nat -> nat) { forall x, y :: x in s && y in s && g(x) == g(y) ==> x == y }

  ghost function Image(s: set<nat>, g: nat -> nat): set<nat> { set x | x in s :: g(x) }

  /** An injective map rearranges the factors. */
  lemma {:induction false} ProductImage(s: set<nat>, g: nat -> nat)
    requires Injective(s, g)
    ensures ProductOver(Image(s, g), Self) == ProductOver(s, g) && |Image(s, g)| == |s|
    decreases |s|
  {
    if s != {} {
      var x :| x in s;
      assert g(x) in Image(s, g) && Image(s, g) - {g(x)} == Image(s - {x}, g);
      ProductImage(s - {x}, g);
      ProductRemove(Image(s, g), Self, g(x));
      ProductRemove(s, g, x);
    } else {
      assert Image(s, g) == {};
    }
  }

  lemma {:induction false} ProductCong(p: int, s: set<nat>, f: nat -> nat, g: nat -> nat)
    requires p > 0 && forall x :: x in s ==> Cong(p, f(x), g(x))
    ensures Cong(p, ProductOver(s, f), ProductOver(s, g))
    decreases |s|
  {
    if s != {} {
      var x :| x in s;
      ProductRemove(s, f, x);
      ProductRemove(s, g, x);
      ProductCong(p, s - {x}, f, g);
      CongMul(p, f(x), g(x), ProductOver(s - {x}, f), ProductOver(s - {x}, g));
    }
  }

  lemma {:induction false} ProductScale(s: set<nat>, a: nat)
    ensures ProductOver(s, Scaled(a)) == Pow(a, |s|) * ProductOver(s, Self)
    decreases |s|
  {
    if s != {} {
      var x :| x in s;
      ProductRemove(s, Scaled(a), x);
      ProductRemove(s, Self, x);
      ProductScale(s - {x}, a);
      Regroup(a, x, Pow(a, |s| - 1), ProductOver(s - {x}, Self));
    }
  }

  lemma Regroup(a: int, x: int, u: int, v: int)
    ensures (a * x) * (u * v) == (a * u) * (x * v)
  {
    MulIsAssociative(a, x, u * v);
    MulIsAssociative(x, u, v);
    MulIsAssociative(u, x, v);
    MulIsAssociative(a, u, x * v);
  }

  lemma {:induction false} ProductNonZero(p: int, s: set<nat>)
    requires Prime(p) && forall x :: x in s ==> 0 < x < p
    ensures !Cong(p, ProductOver(s, Self), 0)
    decreases |s|
  {
    Reduced(p, 0);
    if s == {} {
      Reduced(p, 1);
    } else {
      var x :| x in s;
      ProductRemove(s, Self, x);
      ProductNonZero(p, s - {x});
      Reduced(p, x);
      if Cong(p, ProductOver(s, Self), 0) { NoZeroDivisors(p, x, ProductOver(s - {x}, Self)); }
    }
  }

  ghost function NonZeroResidues(p: nat): (s: set<nat>)
    ensures forall x :: x in s <==> 0 < x < p
    ensures p >= 1 ==> |s| == p - 1
  {
    if p <= 1 then {} else NonZeroResidues(p - 1) + {p - 1}
  }

  lemma SubsetFills(s: set<nat>, t: set<nat>)
    requires t <= s && |t| == |s|
    ensures t == s
  {
    if t != s {
      var x :| x in s && x !in t;
      assert t <= s - {x};
      SubsetSmaller(t, s - {x});
    }
  }

  lemma {:induction false} SubsetSmaller(t: set<nat>, s: set<nat>)
    requires t <= s
    ensures |t| <= |s|
    decreases |t|
  {
    if t != {} {
      var x :| x in t;
      SubsetSmaller(t - {x}, s - {x});
    }
  }

  lemma ScalingInjective(p: int, a: nat, x: nat, y: nat)
    requires Prime(p) && !Cong(p, a, 0) && x < p && y < p && a * x % p == a * y % p
    ensures x == y
  {
    CancelFactor(p, x, y, a);
    CongReduced(p, x, y);
  }

  lemma ScalingNonZero(p: int, a: nat, x: nat)
    requires Prime(p) && !Cong(p, a, 0) && 0 < x < p
    ensures 0 < a * x % p < p
  {
    CongMod(p, a * x);
    Reduced(p, 0);
    Reduced(p, x);
    if a * x % p == 0 { NoZeroDivisors(p, a, x); }
  }

  lemma ScalingKeepsResidues(p: int, a: nat)
    requires Prime(p) && !Cong(p, a, 0)
    ensures Injective(NonZeroResidues(p), ScaledMod(a, p))
    ensures Image(NonZeroResidues(p), ScaledMod(a, p)) <= NonZeroResidues(p)
  {
    forall x, y | x in NonZeroResidues(p) && y in NonZeroResidues(p) && a * x % p == a * y % p ensures x == y {
      ScalingInjective(p, a, x, y);
    }
    forall x | x in NonZeroResidues(p) ensures a * x % p in NonZeroResidues(p) { ScalingNonZero(p, a, x); }
  }

  /** Multiplication by a nonzero residue permutes the nonzero residues. */
  lemma ScalingPermutes(p: int, a: nat)
    requires Prime(p) && !Cong(p, a, 0)
    ensures Injective(NonZeroResidues(p), ScaledMod(a, p))
    ensures Image(NonZeroResidues(p), ScaledMod(a, p)) == NonZeroResidues(p)
  {
    ScalingKeepsResidues(p, a);
    hide *;
    ProductImage(NonZeroResidues(p), ScaledMod(a, p));
    SubsetFills(NonZeroResidues(p), Image(NonZeroResidues(p), ScaledMod(a, p)));
  }

  lemma ScaledCong(p: int, a: nat)
    requires p > 0
    ensures forall x :: x in NonZeroResidues(p) ==> Cong(p, ScaledMod(a, p)(x), Scaled(a)(x))
  {
    forall x | x in NonZeroResidues(p) ensures Cong(p, ScaledMod(a, p)(x), Scaled(a)(x)) { CongMod(p, a * x); }
  }

  lemma CancelAll(p: int, x: int, all: int)
    requires Prime(p) && Cong(p, all, x * all) && !Cong(p, all, 0)
    ensures Cong(p, x, 1)
  {
    CancelFactor(p, x, 1, all);
  }

  lemma TimesEachResidue(p: int, a: nat)
    requires Prime(p) && !Cong(p, a, 0)
    ensures Cong(p, ProductOver(NonZeroResidues(p), Self), ProductOver(NonZeroResidues(p), Scaled(a)))
  {
    assert p > 0;
    hide *;
    ScaledCong(p, a);
    ProductCong(p, NonZeroResidues(p), ScaledMod(a, p), Scaled(a));
    ScalingPermutes(p, a);
    ProductImage(NonZeroResidues(p), ScaledMod(a, p));
  }

  /** Fermat's little theorem. */
  lemma Fermat(p: int, a: nat)
    requires Prime(p) && !Cong(p, a, 0)
    ensures Cong(p, Pow(a, p - 1), 1)
  {
    var all := ProductOver(NonZeroResidues(p), Self);
    TimesEachResidue(p, a);
    ProductScale(NonZeroResidues(p), a);
    ResiduesNonZero(p);
    assert |NonZeroResidues(p)| == p - 1;
    hide *;
    CancelAll(p, Pow(a, p - 1), all);
  }

  lemma ResiduesNonZero(p: int)
    requires Prime(p)
    ensures !Cong(p, ProductOver(NonZeroResidues(p), Self), 0)
  {
    ProductNonZero(p, NonZeroResidues(p));
  }
}
