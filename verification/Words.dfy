/** Machine words, bitwise operations, little-endian accesses and byte memory.
    Words are bounded integers, so wrap-around is always written out as a `%`. */
module Words {
  const TWO32: int := 0x1_0000_0000
  const TWO64: int := 0x1_0000_0000_0000_0000

  newtype byte = x: int | 0 <= x < 0x100
  type u32 = x: int | 0 <= x < 0x1_0000_0000
  type u64 = x: int | 0 <= x < 0x1_0000_0000_0000_0000

  function Pow2(k: nat): (r: nat)
    ensures r >= 1
  {
    if k == 0 then 1 else 2 * Pow2(k - 1)
  }

  lemma Pow2Words()
    ensures Pow2(32) == TWO32 && Pow2(64) == TWO64
  {
    assert Pow2(8) == 0x100;
    assert Pow2(16) == 0x1_0000;
    assert Pow2(24) == 0x100_0000;
    assert Pow2(32) == TWO32;
    assert Pow2(40) == 0x100_0000_0000;
    assert Pow2(48) == 0x1_0000_0000_0000;
    assert Pow2(56) == 0x100_0000_0000_0000;
  }

  /** Bitwise exclusive or of two unsigned integers. */
  function Xor(x: nat, y: nat): nat
    decreases x + y
  {
    if x == 0 && y == 0 then 0 else 2 * Xor(x / 2, y / 2) + (x + y) % 2
  }

  /** Bitwise or of two unsigned integers. */
  function Or(x: nat, y: nat): nat
    decreases x + y
  {
    if x == 0 && y == 0 then 0
    else 2 * Or(x / 2, y / 2) + (if x % 2 == 1 || y % 2 == 1 then 1 else 0)
  }

  lemma {:induction false} XorBound(x: nat, y: nat, k: nat)
    requires x < Pow2(k) && y < Pow2(k)
    ensures Xor(x, y) < Pow2(k)
  {
    if k > 0 && (x > 0 || y > 0) {
      XorBound(x / 2, y / 2, k - 1);
    }
  }

  lemma {:induction false} OrBound(x: nat, y: nat, k: nat)
    requires x < Pow2(k) && y < Pow2(k)
    ensures Or(x, y) < Pow2(k)
  {
    if k > 0 && (x > 0 || y > 0) {
      OrBound(x / 2, y / 2, k - 1);
    }
  }

  function Xor64(x: u64, y: u64): u64 {
    Pow2Words();
    XorBound(x, y, 64);
    Xor(x, y)
  }

  function Xor32(x: u32, y: u32): u32 {
    Pow2Words();
    XorBound(x, y, 32);
    Xor(x, y)
  }

  lemma XorBit(x: nat, y: nat, i: nat, j: nat)
    requires i < 2 && j < 2
    ensures Xor(2 * x + i, 2 * y + j) == 2 * Xor(x, y) + (i + j) % 2
  {
    assert (2 * x + i) / 2 == x && (2 * y + j) / 2 == y;
  }

  lemma XorZero()
    ensures Xor(0, 0) == 0
  {
  }

  /** Exclusive or acts on the two halves of a split word separately. */
  lemma {:induction false} XorSplit(a: nat, b: nat, c: nat, d: nat, k: nat)
    requires b < Pow2(k) && d < Pow2(k)
    ensures Xor(a * Pow2(k) + b, c * Pow2(k) + d) == Xor(a, c) * Pow2(k) + Xor(b, d)
  {
    hide Xor;
    if k == 0 {
      XorZero();
    } else {
      var h := Pow2(k - 1);
      XorSplit(a, b / 2, c, d / 2, k - 1);
      XorDouble(a * h, c * h, Xor(a, c) * h, b, d);
      Double(a, h);
      Double(c, h);
      Double(Xor(a, c), h);
    }
  }

  lemma XorDouble(x: nat, y: nat, m: nat, b: nat, d: nat)
    requires Xor(x + b / 2, y + d / 2) == m + Xor(b / 2, d / 2)
    ensures Xor(2 * x + b, 2 * y + d) == 2 * m + Xor(b, d)
  {
    hide Xor;
    XorBit(x + b / 2, y + d / 2, b % 2, d % 2);
    XorBit(b / 2, d / 2, b % 2, d % 2);
    assert 2 * (x + b / 2) + b % 2 == 2 * x + b && 2 * (b / 2) + b % 2 == b;
    assert 2 * (y + d / 2) + d % 2 == 2 * y + d && 2 * (d / 2) + d % 2 == d;
  }

  lemma Double(a: nat, h: nat)
    ensures a * (2 * h) == 2 * (a * h)
  {
  }

  /** Or of words without a common bit is their sum. */
  lemma {:induction false} OrDisjoint(a: nat, b: nat, k: nat)
    requires b < Pow2(k)
    ensures Or(a * Pow2(k), b) == a * Pow2(k) + b
  {
    if k == 0 {
      OrZero(a);
    } else {
      var h := Pow2(k - 1);
      var x := a * Pow2(k);
      assert x == 2 * (a * h);
      assert x / 2 == a * h && x % 2 == 0;
      OrDisjoint(a, b / 2, k - 1);
    }
  }

  lemma {:induction false} OrZero(a: nat)
    ensures Or(a, 0) == a
  {
    if a > 0 {
      OrZero(a / 2);
    }
  }

  /** The 64-bit `hi << 32 | lo` of the library is a sum. */
  lemma OrHalves(hi: nat, lo: u32)
    ensures Or(hi * TWO32, lo) == hi * TWO32 + lo
  {
    Pow2Words();
    OrDisjoint(hi, lo, 32);
  }

  function Rotl32(x: u32, r: nat): u32
    requires 0 < r < 32
  {
    var left, right := (x * Pow2(r)) % TWO32, x / Pow2(32 - r);
    Pow2Words();
    QuotientBound(x, Pow2(32 - r));
    OrBound(left, right, 32);
    Or(left, right)
  }

  function Rotl64(x: u64, r: nat): u64
    requires 0 < r < 64
  {
    var left, right := (x * Pow2(r)) % TWO64, x / Pow2(64 - r);
    Pow2Words();
    QuotientBound(x, Pow2(64 - r));
    OrBound(left, right, 64);
    Or(left, right)
  }

  lemma QuotientBound(x: nat, d: nat)
    requires d >= 1
    ensures 0 <= x / d <= x
  {
  }

  function Add32(x: u32, y: u32): u32 { (x + y) % TWO32 }

  function Mul32(x: u32, y: u32): u32 { (x * y) % TWO32 }

  function Add64(x: u64, y: u64): u64 { (x + y) % TWO64 }

  function Mul64(x: u64, y: u64): u64 { (x * y) % TWO64 }

  function Lo32(x: u64): u32 { x % TWO32 }

  function Hi32(x: u64): u32 { x / TWO32 }

  function Join(lo: u32, hi: u32): (r: u64)
    ensures Lo32(r) == lo && Hi32(r) == hi
  {
    lo + TWO32 * hi
  }

  /** The unaligned little-endian loads of the library. */
  function ReadLE32(b: seq<byte>, i: nat): u32
    requires i + 4 <= |b|
  {
    (b[i] as int) + 0x100 * (b[i + 1] as int) + 0x1_0000 * (b[i + 2] as int) + 0x100_0000 * (b[i + 3] as int)
  }

  function ReadLE64(b: seq<byte>, i: nat): u64
    requires i + 8 <= |b|
  {
    Join(ReadLE32(b, i), ReadLE32(b, i + 4))
  }

  function WriteLE32(x: u32): (r: seq<byte>)
    ensures |r| == 4
  {
    [(x % 0x100) as byte, (x / 0x100 % 0x100) as byte, (x / 0x1_0000 % 0x100) as byte, (x / 0x100_0000) as byte]
  }

  function WriteLE64(x: u64): (r: seq<byte>)
    ensures |r| == 8
  {
    WriteLE32(Lo32(x)) + WriteLE32(Hi32(x))
  }

  lemma ByteDigits(x: u32)
    ensures x ==
      x % 0x100 + 0x100 * (x / 0x100 % 0x100) + 0x1_0000 * (x / 0x1_0000 % 0x100) + 0x100_0000 * (x / 0x100_0000)
  {
    var a := x / 0x100;
    var b := a / 0x100;
    assert x == 0x100 * a + x % 0x100 && a == 0x100 * b + a % 0x100 && b == 0x100 * (b / 0x100) + b % 0x100;
    assert b == x / 0x1_0000;
    assert b / 0x100 == x / 0x100_0000;
  }

  lemma WriteReadLE32(x: u32)
    ensures ReadLE32(WriteLE32(x), 0) == x
  {
    ByteDigits(x);
    var b := WriteLE32(x);
    assert (b[0] as int) == x % 0x100 && (b[1] as int) == x / 0x100 % 0x100;
    assert (b[2] as int) == x / 0x1_0000 % 0x100 && (b[3] as int) == x / 0x100_0000;
  }

  lemma SliceRead32(ptr: seq<byte>, tail: seq<byte>, p: nat)
    requires tail <= ptr && p + 4 <= |tail|
    ensures ReadLE32(ptr, p) == ReadLE32(tail[p..], 0)
  {
  }

  method Memcpy(dst: array<byte>, at: nat, src: seq<byte>)
    requires at + |src| <= dst.Length
    modifies dst
    ensures dst[..] == old(dst[..at]) + src + old(dst[at + |src|..])
    ensures dst[..][at..at + |src|] == src
  {
    for i := 0 to |src|
      invariant forall j :: 0 <= j < dst.Length ==> dst[j] == if at <= j < at + i then src[j - at] else old(dst[j])
    {
      dst[at + i] := src[i];
    }
  }

  /** The concatenation of the pieces an input arrives in. */
  function Flatten(pieces: seq<seq<byte>>): seq<byte> {
    if pieces == [] then [] else Flatten(pieces[..|pieces| - 1]) + pieces[|pieces| - 1]
  }

  /** A count kept in a 32-bit or 64-bit word. */
  function Wrap32(n: nat): u32 { n % TWO32 }

  function Wrap64(n: nat): u64 { n % TWO64 }

  lemma Wrap32Add(x: nat, y: nat)
    ensures Wrap32(0) == 0 && (Wrap32(x) + y) % TWO32 == Wrap32(x + y)
  {
  }

  lemma Wrap64Add(x: nat, y: nat)
    ensures Wrap64(0) == 0 && (Wrap64(x) + y) % TWO64 == Wrap64(x + y)
  {
  }

  lemma AddMod64(x: nat, y: nat)
    ensures (x % TWO64 + y) % TWO64 == (x + y) % TWO64
  {
  }

  lemma ModUnique(x: int, m: nat, q: int, r: nat)
    requires r < m && x == m * q + r
    ensures x % m == r
  {
    var q', r' := x / m, x % m;
    var d := q - q';
    assert m * d == r' - r by {
      assert m * d == m * q - m * q';
    }
    if d >= 1 {
      MulAtLeast(m, d);
    } else if d <= -1 {
      MulAtLeast(m, -d);
    }
  }

  lemma MulAtLeast(m: nat, d: nat)
    requires d >= 1
    ensures m * d >= m
  {
  }
}
