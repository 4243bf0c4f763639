/** Remainders and congruences, the arithmetic behind every prime field here. */
module Congruences {
  /** `a` and `b` leave the same remainder modulo `n`. */
  predicate Cong(n: int, a: int, b: int)
    requires n > 0
  {
    a % n == b % n
  }

  lemma MulIsAssociative(a: int, b: int, c: int)
    ensures a * (b * c) == (a * b) * c
  {
  }

  lemma MulDistributes(a: int, b: int, c: int)
    ensures a * (b + c) == a * b + a * c && (b + c) * a == b * a + c * a
    ensures a * (b - c) == a * b - a * c && (b - c) * a == b * a - c * a
  {
  }

  /** The quotient and the remainder are determined by their defining equation. */
  lemma DivModUnique(a: int, n: int, q: int, r: int)
    requires n > 0 && a == n * q + r && 0 <= r < n
    ensures a / n == q && a % n == r
  {
    var q', r' := a / n, a % n;
    assert n * (q - q') == r' - r by { MulDistributes(n, q, q'); }
    if q > q' {
      assert n * (q - q') >= n by { MulAtLeast(n, q - q'); }
    } else if q < q' {
      assert n * (q' - q) >= n by { MulAtLeast(n, q' - q); }
      MulDistributes(n, q', q);
    }
  }

  lemma MulAtLeast(n: int, k: int)
    requires n >= 0 && k >= 1
    ensures n * k >= n
  {
    MulDistributes(n, k - 1, 1);
    MulNonNegative(n, k - 1);
  }

  lemma MulNonNegative(a: int, b: int)
    requires a >= 0 && b >= 0
    ensures a * b >= 0
  {
  }

  lemma AddMultiple(n: int, a: int, k: int)
    requires n > 0
    ensures (a + n * k) % n == a % n
  {
    MulDistributes(n, a / n, k);
    DivModUnique(a + n * k, n, a / n + k, a % n);
  }

  lemma CongQuotients(n: int, a: int, b: int)
    requires n > 0 && Cong(n, a, b)
    ensures a - b == n * (a / n - b / n)
  {
    MulDistributes(n, a / n, b / n);
  }

  lemma CongIff(n: int, a: int, b: int)
    requires n > 0
    ensures Cong(n, a, b) <==> (a - b) % n == 0
  {
    if Cong(n, a, b) {
      CongQuotients(n, a, b);
      DivModUnique(a - b, n, a / n - b / n, 0);
    }
    if (a - b) % n == 0 {
      CongWitness(n, a, b, (a - b) / n);
    }
  }

  lemma CongWitness(n: int, a: int, b: int, k: int)
    requires n > 0 && a - b == n * k
    ensures Cong(n, a, b)
  {
    AddMultiple(n, b, k);
  }

  lemma CongMod(n: int, a: int)
    requires n > 0
    ensures Cong(n, a % n, a) && 0 <= a % n < n
  {
    DivModUnique(a % n, n, 0, a % n);
  }

  lemma Reduced(n: int, a: int)
    requires 0 <= a < n
    ensures a % n == a
  {
    DivModUnique(a, n, 0, a);
  }

  lemma CongReduced(n: int, a: int, b: int)
    requires 0 <= a < n && 0 <= b < n && Cong(n, a, b)
    ensures a == b
  {
    Reduced(n, a);
    Reduced(n, b);
  }

  lemma CongAdd(n: int, a: int, b: int, c: int, d: int)
    requires n > 0 && Cong(n, a, b) && Cong(n, c, d)
    ensures Cong(n, a + c, b + d) && Cong(n, a - c, b - d)
  {
    var k, l := a / n - b / n, c / n - d / n;
    CongQuotients(n, a, b);
    CongQuotients(n, c, d);
    MulDistributes(n, k, l);
    CongWitness(n, a + c, b + d, k + l);
    CongWitness(n, a - c, b - d, k - l);
  }

  lemma CongThrough(n: int, a: int, b: int, c: int, d: int)
    requires n > 0 && Cong(n, a, b) && Cong(n, a, c) && Cong(n, d, c)
    ensures Cong(n, b, d)
  {
  }

  lemma CongScale(n: int, a: int, b: int, c: int)
    requires n > 0 && Cong(n, a, b)
    ensures Cong(n, c * a, c * b) && Cong(n, a * c, b * c)
  {
    var k := a / n - b / n;
    CongQuotients(n, a, b);
    MulDistributes(c, a, b);
    MulIsAssociative(n, k, c);
    assert (a - b) * c == n * (k * c);
    CongWitness(n, a * c, b * c, k * c);
  }

  lemma CongMul(n: int, a: int, b: int, c: int, d: int)
    requires n > 0 && Cong(n, a, b) && Cong(n, c, d)
    ensures Cong(n, a * c, b * d)
  {
    CongScale(n, a, b, c);
    CongScale(n, c, d, b);
  }
}
