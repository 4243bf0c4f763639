/** Fixed-width integers as bytes, and bytes as hexadecimal digits. */
module ByteStrings {
  import opened Wrappers
  import opened Congruences
  import opened Primes

  type Byte = x: nat | x < 256

  const WORD: nat := 0x1_0000_0000

  // ---------------------------------------------------------------- little endian

  function LittleEndian(v: nat, n: nat): (r: seq<Byte>)
    ensures |r| == n
  {
    if n == 0 then [] else [v % 256] + LittleEndian(v / 256, n - 1)
  }

  function LittleValue(s: seq<Byte>): nat {
    if s == [] then 0 else s[0] + 256 * LittleValue(s[1..])
  }

  lemma {:induction false} LittleRoundTrip(v: nat, n: nat)
    requires v < Pow(256, n)
    ensures LittleValue(LittleEndian(v, n)) == v
    decreases n
  {
    if n > 0 {
      LittleRoundTrip(v / 256, n - 1);
      var s := LittleEndian(v, n);
      assert s[0] == v % 256 && s[1..] == LittleEndian(v / 256, n - 1);
    }
  }

  lemma {:induction false} LittleCanonical(s: seq<Byte>)
    ensures LittleValue(s) < Pow(256, |s|) && LittleEndian(LittleValue(s), |s|) == s
    decreases |s|
  {
    if s != [] {
      LittleCanonical(s[1..]);
      var v := LittleValue(s);
      assert v % 256 == s[0] && v / 256 == LittleValue(s[1..]);
      assert s == [s[0]] + s[1..];
    }
  }

  lemma {:induction false} LittleSplit(v: nat, m: nat, n: nat)
    ensures Pow(256, m) > 0 && LittleEndian(v, m + n) == LittleEndian(v, m) + LittleEndian(v / Pow(256, m), n)
    decreases m
  {
    PowPositive(256, m);
    if m > 0 {
      LittleSplit(v / 256, m - 1, n);
      PowPositive(256, m - 1);
      DivDiv(v, 256, Pow(256, m - 1));
    }
  }

  lemma {:induction false} PowPositive(b: nat, n: nat)
    requires b > 0
    ensures Pow(b, n) > 0
    decreases n
  {
    if n > 0 {
      PowPositive(b, n - 1);
      MulAtLeast(b, Pow(b, n - 1));
    }
  }

  lemma DivDiv(a: nat, b: nat, c: nat)
    requires b > 0 && c > 0
    ensures b * c > 0 && a / (b * c) == (a / b) / c
  {
    var q, r := a / b, a % b;
    var q', r' := q / c, q % c;
    MulAtLeast(b, c);
    MulDistributes(b, c * q', r');
    MulIsAssociative(b, c, q');
    assert b * r' <= b * (c - 1) by { MulDistributes(b, c - 1, r'); MulNonNegative(b, c - 1 - r'); }
    MulDistributes(b, c, 1);
    MulNonNegative(b, r');
    assert a == (b * c) * q' + (b * r' + r);
    DivModUnique(a, b * c, q', b * r' + r);
  }

  lemma {:induction false} LowBytes(v: nat, n: nat)
    ensures Pow(256, n) > 0 && LittleEndian(v % Pow(256, n), n) == LittleEndian(v, n)
    decreases n
  {
    PowPositive(256, n);
    if n > 0 {
      PowPositive(256, n - 1);
      var b, m := 256, Pow(256, n - 1);
      var w := v % Pow(256, n);
      LowBytes(v / b, n - 1);
      LowDigits(v, b, m);
    }
  }

  lemma LowDigits(v: nat, b: nat, m: nat)
    requires b > 0 && m > 0
    ensures b * m > 0 && v % (b * m) % b == v % b && v % (b * m) / b == (v / b) % m
  {
    MulAtLeast(b, m);
    var q, r := v / b, v % b;
    var q', r' := q / m, q % m;
    MulDistributes(b, m * q', r');
    MulIsAssociative(b, m, q');
    MulDistributes(b, m - 1, r');
    MulNonNegative(b, m - 1 - r');
    MulDistributes(b, m, 1);
    MulNonNegative(b, r');
    DivModUnique(v, b * m, q', b * r' + r);
    DivModUnique(b * r' + r, b, r', r);
  }

  // ---------------------------------------------------------------- eight words of four bytes

  function WordAt(v: nat, i: nat): nat
  {
    PowPositive(WORD, i);
    v / Pow(WORD, i) % WORD
  }

  lemma {:induction false} WordsAreBytes(v: nat, i: nat)
    ensures Pow(WORD, i) > 0 && LittleEndian(v, 4 * i + 4) == LittleEndian(v, 4 * i) + LittleEndian(WordAt(v, i), 4)
  {
    PowPositive(WORD, i);
    assert Pow(256, 4) == WORD by {
      assert Pow(256, 1) == 256 * Pow(256, 0) && Pow(256, 2) == 256 * Pow(256, 1) && Pow(256, 3) == 256 * Pow(256, 2);
    }
    PowMul(256, 4, i);
    LittleSplit(v, 4 * i, 4);
    LowBytes(v / Pow(WORD, i), 4);
  }

  /** Mask out the words from the lowest up and pack each. */
  method Uint256ToStr(v: nat) returns (s: Option<seq<Byte>>)
    ensures s == if v < Pow(256, 32) then Some(LittleEndian(v, 32)) else None
  {
    if v >= TwoTo256() { return None; }
    var t: seq<nat> := [];
    for i := 0 to 8
      invariant |t| == i && forall j :: 0 <= j < i ==> t[j] == WordAt(v, j)
    {
      PowPositive(WORD, i);
      t := t + [v / Pow(WORD, i) % WORD];
    }
    var packed: seq<Byte> := [];
    for i := 0 to 8
      invariant packed == LittleEndian(v, 4 * i)
    {
      WordsAreBytes(v, i);
      packed := packed + LittleEndian(t[i], 4);
    }
    return Some(packed);
  }

  function TwoTo256(): (r: nat)
    ensures r == Pow(256, 32)
  {
    PowPositive(256, 32);
    Pow(256, 32)
  }

  lemma {:induction false} LittleValueConcat(s: seq<Byte>, t: seq<Byte>)
    ensures LittleValue(s + t) == LittleValue(s) + Pow(256, |s|) * LittleValue(t)
    decreases |s|
  {
    if s == [] {
      assert s + t == t;
    } else {
      assert (s + t)[0] == s[0] && (s + t)[1..] == s[1..] + t;
      LittleValueConcat(s[1..], t);
      var a, b := Pow(256, |s| - 1), LittleValue(t);
      MulIsAssociative(256, a, b);
      MulDistributes(256, LittleValue(s[1..]), a * b);
    }
  }

  /** Unpack eight words and add them up, each shifted to its place. */
  method Uint256FromStr(s: seq<Byte>) returns (r: nat)
    requires |s| >= 32
    ensures r == LittleValue(s[..32])
  {
    r := 0;
    for i := 0 to 8
      invariant r == LittleValue(s[..4 * i])
    {
      var word := s[4 * i..4 * i + 4];
      assert s[..4 * i + 4] == s[..4 * i] + word;
      LittleValueConcat(s[..4 * i], word);
      PowMul(256, 4, i);
      assert Pow(256, 4) == WORD by {
        assert Pow(256, 1) == 256 * Pow(256, 0) && Pow(256, 2) == 256 * Pow(256, 1) && Pow(256, 3) == 256 * Pow(256, 2);
      }
      r := r + Pow(WORD, i) * LittleValue(word);
    }
  }

  // ---------------------------------------------------------------- big endian

  function BigEndian(v: nat, n: nat): (r: seq<Byte>)
    ensures |r| == n
  {
    if n == 0 then [] else BigEndian(v / 256, n - 1) + [v % 256]
  }

  function BigValue(s: seq<Byte>): nat {
    if s == [] then 0 else 256 * BigValue(s[..|s| - 1]) + s[|s| - 1]
  }

  lemma {:induction false} BigRoundTrip(v: nat, n: nat)
    requires v < Pow(256, n)
    ensures BigValue(BigEndian(v, n)) == v
    decreases n
  {
    if n > 0 {
      BigRoundTrip(v / 256, n - 1);
      var s := BigEndian(v, n);
      assert s[n - 1] == v % 256 && s[..n - 1] == BigEndian(v / 256, n - 1);
    }
  }

  lemma {:induction false} BigCanonical(s: seq<Byte>)
    ensures BigValue(s) < Pow(256, |s|) && BigEndian(BigValue(s), |s|) == s
    decreases |s|
  {
    if s != [] {
      var n := |s| - 1;
      BigCanonical(s[..n]);
      var v := BigValue(s);
      assert v % 256 == s[n] && v / 256 == BigValue(s[..n]);
      assert s == s[..n] + [s[n]];
    }
  }

  // ---------------------------------------------------------------- hexadecimal

  function HexDigit(d: nat): char
    requires d < 16
  {
    "0123456789abcdef"[d]
  }

  function HexValue(c: char): (r: Option<nat>)
    ensures r.Some? ==> r.value < 16
  {
    if '0' <= c <= '9' then Some(c as nat - '0' as nat)
    else if 'a' <= c <= 'f' then Some(c as nat - 'a' as nat + 10)
    else if 'A' <= c <= 'F' then Some(c as nat - 'A' as nat + 10)
    else None
  }

  function ToHex(s: seq<Byte>): (r: string)
    ensures |r| == 2 * |s|
  {
    if s == [] then "" else [HexDigit(s[0] / 16), HexDigit(s[0] % 16)] + ToHex(s[1..])
  }

  function FromHex(h: string): Option<seq<Byte>> {
    if h == "" then Some([])
    else if |h| == 1 then None
    else
      match (HexValue(h[0]), HexValue(h[1]), FromHex(h[2..]))
      case (Some(a), Some(b), Some(rest)) => Some([16 * a + b] + rest)
      case _ => None
  }

  lemma {:induction false} HexRoundTrip(s: seq<Byte>)
    ensures FromHex(ToHex(s)) == Some(s)
    decreases |s|
  {
    hide HexValue, HexDigit;
    if s != [] {
      HexRoundTrip(s[1..]);
      var hi, lo := s[0] / 16, s[0] % 16;
      HexDigitValue(hi);
      HexDigitValue(lo);
      var h := ToHex(s);
      assert h[0] == HexDigit(hi) && h[1] == HexDigit(lo) && h[2..] == ToHex(s[1..]);
      assert 16 * hi + lo == s[0];
      assert s == [s[0]] + s[1..];
    }
  }

  lemma HexDigitValue(d: nat)
    requires d < 16
    ensures HexValue(HexDigit(d)) == Some(d)
  {
  }
}
