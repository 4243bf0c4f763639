/** The binary digits that square-and-multiply loops test. */
module Bits {
  import opened Congruences

  /** Whether the bit of `n` at the power of two `i` is set. */
  predicate BitSet(n: nat, i: nat)
    requires i > 0
  {
    (n / i) % 2 == 1
  }

  /** The part of `n` below the power of two `i`. */
  function LowBits(n: nat, i: nat): nat
    requires i > 0
  {
    n % i
  }

  lemma LowestBit(n: nat)
    ensures LowBits(n, 2) == n % 2
  {
  }

  lemma AllBits(n: nat, i: nat)
    requires n < i
    ensures LowBits(n, i) == n
  {
    Reduced(i, n);
  }

  lemma NextBit(n: nat, i: nat)
    requires i > 0
    ensures LowBits(n, 2 * i) == LowBits(n, i) + if BitSet(n, i) then i else 0
  {
    var q, r := n / i, n % i;
    var b := q % 2;
    assert n == (2 * i) * (q / 2) + (b * i + r) by {
      MulIsAssociative(i, 2, q / 2);
      MulDistributes(i, 2 * (q / 2), b);
    }
    DivModUnique(n, 2 * i, q / 2, b * i + r);
  }
}
