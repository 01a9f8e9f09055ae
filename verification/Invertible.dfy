/** The word operations that lose nothing: equal results come from equal arguments. */
module Invertible {
  import opened Words

  /** Exclusive or with the same word. */
  lemma {:induction false} XorCancel(x: nat, y: nat, word: nat)
    requires Xor(x, word) == Xor(y, word)
    ensures x == y
    decreases x + y + word
  {
    hide Xor;
    if x + y + word > 0 {
      XorHalves(x, word);
      XorHalves(y, word);
      XorCancel(x / 2, y / 2, word / 2);
      SameParity(x, y, word);
    }
  }

  lemma XorHalves(x: nat, y: nat)
    ensures Xor(x, y) / 2 == Xor(x / 2, y / 2) && Xor(x, y) % 2 == (x + y) % 2
  {
    hide Xor;
    XorBit(x / 2, y / 2, x % 2, y % 2);
  }

  lemma SameParity(x: nat, y: nat, word: nat)
    requires x / 2 == y / 2 && (x + word) % 2 == (y + word) % 2
    ensures x == y
  {
  }

  function Shifted(x: nat, d: nat): nat
    requires d >= 1
  {
    x / d
  }

  /** Exclusive or of a word with its own bits shifted right, for any even divisor. */
  lemma {:induction false} XorShiftCancel(x: nat, y: nat, d: nat)
    requires d >= 2 && d % 2 == 0 && Xor(x, Shifted(x, d)) == Xor(y, Shifted(y, d))
    ensures x == y
    decreases x + y
  {
    hide Xor, Shifted;
    if x + y > 0 {
      ShiftHalf(x, d);
      ShiftHalf(y, d);
      XorHalves(x, Shifted(x, d));
      XorHalves(y, Shifted(y, d));
      XorShiftCancel(x / 2, y / 2, d);
      XorCancel(x, y, Shifted(x, d));
    }
  }

  lemma ShiftHalf(x: nat, d: nat)
    requires d >= 2 && d % 2 == 0
    ensures Shifted(x, d) == Shifted(x / 2, d / 2) && Shifted(x, d) / 2 == Shifted(x / 2, d)
  {
    DivDiv(x, 2, d / 2);
    DivDiv(x, d, 2);
    DivDiv(x, 2, d);
  }

  lemma DivDiv(x: nat, a: nat, b: nat)
    requires a >= 1 && b >= 1
    ensures a * b >= 1 && x / (a * b) == x / a / b
  {
    var q, r := x / a, x % a;
    var u, v := q / b, q % b;
    DivDivParts(a, b, q, r, u, v);
    MulAtLeast(a, b);
    DivUnique(x, a * b, u, a * v + r);
  }

  lemma DivDivParts(a: nat, b: nat, q: nat, r: nat, u: nat, v: nat)
    requires r < a && v < b && q == b * u + v
    ensures a * q + r == (a * b) * u + (a * v + r) && 0 <= a * v + r < a * b
  {
    assert a * (b * u + v) == (a * b) * u + a * v;
    MulAtLeast(a, b - v);
    assert a * (b - v) == a * b - a * v;
    assert a * v >= 0;
  }

  lemma DivUnique(x: nat, m: nat, q: nat, r: nat)
    requires r < m && x == m * q + r
    ensures x / m == q
  {
    ModUnique(x, m, q, r);
    assert m * (x / m) == m * q;
    StrictlyMore(m, x / m, q);
    StrictlyMore(m, q, x / m);
  }

  lemma StrictlyMore(m: nat, a: nat, b: nat)
    requires m >= 1
    ensures a > b ==> m * a > m * b
  {
    if a > b {
      MulAtLeast(m, a - b);
      assert m * (a - b) == m * a - m * b;
    }
  }

  lemma {:induction false} Pow2Sum(a: nat, b: nat)
    ensures Pow2(a) * Pow2(b) == Pow2(a + b)
  {
    if a > 0 {
      Pow2Sum(a - 1, b);
      assert (2 * Pow2(a - 1)) * Pow2(b) == 2 * (Pow2(a - 1) * Pow2(b));
    }
  }

  /** A rotation swaps the two parts of a word. */
  lemma RotlParts(x: u64, r: nat)
    requires 0 < r < 64
    ensures Rotl64(x, r) == (x % Pow2(64 - r)) * Pow2(r) + x / Pow2(64 - r)
    ensures x / Pow2(64 - r) < Pow2(r)
  {
    hide Pow2, Or;
    Pow2Words();
    Pow2Sum(64 - r, r);
    ShiftedParts(x, Pow2(64 - r), Pow2(r), TWO64);
    OrDisjoint(x % Pow2(64 - r), x / Pow2(64 - r), r);
  }

  lemma Rotl32Parts(x: u32, r: nat)
    requires 0 < r < 32
    ensures Rotl32(x, r) == (x % Pow2(32 - r)) * Pow2(r) + x / Pow2(32 - r)
  {
    hide Pow2, Or;
    Pow2Words();
    Pow2Sum(32 - r, r);
    ShiftedParts(x, Pow2(32 - r), Pow2(r), TWO32);
    OrDisjoint(x % Pow2(32 - r), x / Pow2(32 - r), r);
  }

  lemma ShiftedParts(x: nat, d: nat, p: nat, m: nat)
    requires d >= 1 && p >= 1 && d * p == m && x < m
    ensures x * p % m == (x % d) * p && x / d < p
  {
    var q, low := x / d, x % d;
    MulMonotone(d, q, p);
    assert (d * q + low) * p == (d * p) * q + low * p;
    MulAtLeast(p, d - low);
    assert p * (d - low) == d * p - low * p;
    ModUnique(x * p, m, q, low * p);
  }

  lemma MulMonotone(d: nat, a: nat, b: nat)
    ensures a >= b ==> d * a >= d * b
  {
    if a >= b {
      assert d * (a - b) >= 0;
    }
  }

  lemma SameQuotient(x: nat, y: nat, d: nat)
    requires d >= 1 && x / d == y / d && x % d == y % d
    ensures x == y
  {
  }

  lemma RotlCancel(x: u64, y: u64, r: nat)
    requires 0 < r < 64 && Rotl64(x, r) == Rotl64(y, r)
    ensures x == y
  {
    hide Rotl64, Pow2;
    RotlParts(x, r);
    RotlParts(y, r);
    var d, p := Pow2(64 - r), Pow2(r);
    SameParts(p, x % d, x / d, y % d, y / d);
    SameQuotient(x, y, d);
  }

  lemma SameParts(p: nat, a: nat, b: nat, c: nat, d: nat)
    requires b < p && d < p && a * p + b == c * p + d
    ensures a == c && b == d
  {
    var n := p * a + b;
    ModUnique(n, p, a, b);
    ModUnique(n, p, c, d);
    DivUnique(n, p, a, b);
    DivUnique(n, p, c, d);
  }

  /** Multiplication by a word that has an inverse modulo 2^64. */
  lemma MulInverse(x: u64, m: u64, inverse: u64)
    requires m * inverse % TWO64 == 1
    ensures Mul64(Mul64(x, m), inverse) == x
  {
    var k, t := x * m / TWO64, m * inverse / TWO64;
    var low := x * m % TWO64;
    assert (x * m) * inverse == x * (m * inverse);
    assert (TWO64 * k + low) * inverse == TWO64 * (k * inverse) + low * inverse;
    assert x * (TWO64 * t + 1) == TWO64 * (x * t) + x;
    ModUnique(low * inverse, TWO64, x * t - k * inverse, x);
  }

  lemma AddCancel(x: u64, y: u64, c: u64)
    requires Add64(x, c) == Add64(y, c)
    ensures x == y
  {
  }
}
