/** Square roots modulo a prime that is 3 modulo 4, as one power. */
module SquareRoots {
  import opened Wrappers
  import opened Congruences
  import opened Primes

  ghost predicate RootField(q: nat) { Prime(q) && q % 4 == 3 }

  /** The root, or the refusal when the Legendre power is minus one. */
  function Sqrt(q: nat, a: nat): Option<nat>
    requires q > 0
  {
    if Pow(a, (q - 1) / 2) % q == (-1) % q then None else Some(Root(q, a))
  }

  function Root(q: nat, a: nat): (r: nat)
    requires q > 0
    ensures r < q
  {
    CongMod(q, Pow(a, (q + 1) / 4));
    Pow(a, (q + 1) / 4) % q
  }

  ghost predicate IsSquare(q: nat, a: int)
    requires q > 0
  {
    exists r: nat :: Cong(q, r * r, a)
  }

  /** The Legendre power of a nonzero residue is one or minus one. */
  lemma LegendreSign(q: nat, a: nat)
    requires RootField(q) && !Cong(q, a, 0)
    ensures var h := Pow(a, (q - 1) / 2); Cong(q, h, 1) || Cong(q, h, -1)
  {
    var k := (q - 1) / 2;
    var h := Pow(a, k);
    PowAdd(a, k, k);
    Fermat(q, a);
    assert (h - 1) * (h + 1) == h * h - 1;
    CongAdd(q, h * h, 1, 1, 1);
    NoZeroDivisors(q, h - 1, h + 1);
    if Cong(q, h - 1, 0) { CongAdd(q, h - 1, 0, 1, 1); } else { CongAdd(q, h + 1, 0, 1, 1); }
  }

  /** The Legendre power of a square is not minus one. */
  lemma SquareHasRootSign(q: nat, a: nat, r: nat)
    requires RootField(q) && Cong(q, r * r, a) && !Cong(q, a, 0)
    ensures Cong(q, Pow(a, (q - 1) / 2), 1)
  {
    var k := (q - 1) / 2;
    PowCong(q, r * r, a, k);
    assert Pow(r, 2) == r * r by { assert Pow(r, 1) == r * Pow(r, 0); }
    PowMul(r, 2, k);
    Reduced(q, 0);
    if Cong(q, r, 0) { CongMul(q, r, 0, r, 0); }
    Fermat(q, r);
  }

  lemma RootSquared(q: nat, a: nat)
    requires RootField(q) && Cong(q, Pow(a, (q - 1) / 2), 1)
    ensures Cong(q, Root(q, a) * Root(q, a), a)
  {
    QuarterAndHalf(q);
    var k, e := (q - 1) / 2, (q + 1) / 4;
    var x, h := Pow(a, e), Pow(a, k);
    PowAdd(a, e, e);
    PowAdd(a, k, 1);
    assert Pow(a, 1) == a * Pow(a, 0);
    assert Pow(a, 1) == a;
    hide Pow, Prime;
    CongScale(q, h, 1, a);
    CongMod(q, x);
    CongMul(q, x % q, x, x % q, x);
  }

  lemma QuarterAndHalf(q: nat)
    requires RootField(q)
    ensures (q + 1) / 4 + (q + 1) / 4 == (q - 1) / 2 + 1
  {
    hide Prime;
  }

  lemma RootOfZero(q: nat, a: nat)
    requires RootField(q) && Cong(q, a, 0)
    ensures Cong(q, Pow(a, (q - 1) / 2), 0) && Cong(q, Root(q, a) * Root(q, a), 0) && Root(q, a) == 0
  {
    var k, e := (q - 1) / 2, (q + 1) / 4;
    CongMul(q, a, 0, Pow(a, k - 1), Pow(a, k - 1));
    CongMul(q, a, 0, Pow(a, e - 1), Pow(a, e - 1));
    Reduced(q, 0);
  }

  lemma MinusOne(q: nat)
    requires q > 2
    ensures (-1) % q == q - 1 && !Cong(q, 1, -1) && !Cong(q, 0, -1)
  {
    DivModUnique(-1, q, -1, q - 1);
    Reduced(q, 1);
    Reduced(q, 0);
  }

  /** The power is a root exactly when there is one. */
  lemma SqrtExact(q: nat, a: nat)
    requires RootField(q)
    ensures Sqrt(q, a).Some? <==> IsSquare(q, a)
    ensures Sqrt(q, a).Some? ==> Cong(q, Sqrt(q, a).value * Sqrt(q, a).value, a)
  {
    MinusOne(q);
    if Cong(q, a, 0) {
      RootOfZero(q, a);
      assert Cong(q, 0 * 0, a);
    } else {
      LegendreSign(q, a);
      if Cong(q, Pow(a, (q - 1) / 2), 1) {
        RootSquared(q, a);
      }
      if IsSquare(q, a) {
        var r: nat :| Cong(q, r * r, a);
        SquareHasRootSign(q, a, r);
      }
    }
  }

  /** Two roots of the same number are equal or mirror images. */
  lemma RootsAreMirrors(q: nat, r: nat, s: nat)
    requires Prime(q) && r < q && s < q && Cong(q, r * r, s * s)
    ensures r == s || r == (0 - s) % q
  {
    assert (r - s) * (r + s) == r * r - s * s;
    CongAdd(q, r * r, s * s, s * s, s * s);
    NoZeroDivisors(q, r - s, r + s);
    if Cong(q, r - s, 0) {
      CongAdd(q, r - s, 0, s, s);
      CongReduced(q, r, s);
    } else {
      CongAdd(q, r + s, 0, s, s);
      CongMod(q, 0 - s);
      CongReduced(q, r, (0 - s) % q);
    }
  }

  /** Mirroring a nonzero residue of an odd modulus flips its parity. */
  lemma MirrorParity(q: nat, y: nat)
    requires q % 2 == 1 && y < q
    ensures (0 - y) % q == if y == 0 then 0 else q - y
    ensures y != 0 ==> (0 - y) % q % 2 != y % 2
    ensures (0 - (0 - y) % q) % q == y
  {
    if y == 0 {
      Reduced(q, 0);
    } else {
      DivModUnique(0 - y, q, -1, q - y);
      DivModUnique(0 - (q - y), q, -1, y);
    }
  }
}
