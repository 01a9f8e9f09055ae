/** Working out the word operations on given numbers. */
module Evaluate {
  import opened Words
  import opened Invertible

  /** A byte as a number, and its bits. */
  function Num(x: bv8): (r: nat)
    ensures r < 0x100
  {
    x as int
  }

  function Mask(i: nat): bv8
    requires i < 8
  {
    match i
    case 0 => 1
    case 1 => 2
    case 2 => 4
    case 3 => 8
    case 4 => 16
    case 5 => 32
    case 6 => 64
    case _ => 128
  }

  function Bit(x: bv8, i: nat): (r: nat)
    requires i < 8
    ensures r < 2
  {
    if x & Mask(i) == 0 then 0 else 1
  }

  function OfBits(a: nat, b: nat, c: nat, d: nat, e: nat, f: nat, g: nat, h: nat): nat {
    2 * (2 * (2 * (2 * (2 * (2 * (2 * a + b) + c) + d) + e) + f) + g) + h
  }

  lemma Bits(x: bv8)
    ensures Num(x) ==
      OfBits(Bit(x, 7), Bit(x, 6), Bit(x, 5), Bit(x, 4), Bit(x, 3), Bit(x, 2), Bit(x, 1), Bit(x, 0))
  {
  }

  lemma OneBit(i: nat)
    requires i < 8
    ensures Mask(i) in {1, 2, 4, 8, 16, 32, 64, 128}
  {
  }

  lemma XoredMask(x: bv8, y: bv8, m: bv8)
    requires m in {1, 2, 4, 8, 16, 32, 64, 128}
    ensures (x ^ y) & m == 0 <==> (x & m == 0 <==> y & m == 0)
  {
  }

  lemma XoredBit(x: bv8, y: bv8, i: nat)
    requires i < 8
    ensures Bit(x ^ y, i) == (Bit(x, i) + Bit(y, i)) % 2
  {
    hide Mask;
    OneBit(i);
    XoredMask(x, y, Mask(i));
  }

  lemma BitMore(x: nat, i: nat, y: nat, j: nat, z: nat, k: nat)
    requires Xor(x, y) == z && i < 2 && j < 2 && k == (i + j) % 2
    ensures Xor(2 * x + i, 2 * y + j) == 2 * z + k
  {
    hide Xor;
    XorBit(x, y, i, j);
  }

  lemma {:induction false} XorOfBits(x: seq<nat>, y: seq<nat>, z: seq<nat>)
    requires |x| == |y| == |z| && forall i :: 0 <= i < |x| ==> x[i] < 2 && y[i] < 2 && z[i] == (x[i] + y[i]) % 2
    ensures Xor(Binary(x), Binary(y)) == Binary(z)
  {
    hide Xor;
    if x == [] {
      XorZero();
    } else {
      var n := |x| - 1;
      XorOfBits(x[..n], y[..n], z[..n]);
      BitMore(Binary(x[..n]), x[n], Binary(y[..n]), y[n], Binary(z[..n]), z[n]);
    }
  }

  function Binary(bits: seq<nat>): nat {
    if bits == [] then 0 else 2 * Binary(bits[..|bits| - 1]) + bits[|bits| - 1]
  }

  lemma EightBits(a: nat, b: nat, c: nat, d: nat, e: nat, f: nat, g: nat, h: nat)
    ensures Binary([a, b, c, d, e, f, g, h]) == OfBits(a, b, c, d, e, f, g, h)
  {
    hide Binary;
    NoneMore();
    assert [] + [a] == [a];
    assert [a] + [b] == [a, b] && [a, b] + [c] == [a, b, c] && [a, b, c] + [d] == [a, b, c, d];
    assert [a, b, c, d] + [e] == [a, b, c, d, e] && [a, b, c, d, e] + [f] == [a, b, c, d, e, f];
    assert [a, b, c, d, e, f] + [g] == [a, b, c, d, e, f, g];
    assert [a, b, c, d, e, f, g] + [h] == [a, b, c, d, e, f, g, h];
    OneMore([], a);
    OneMore([a], b);
    OneMore([a, b], c);
    OneMore([a, b, c], d);
    OneMore([a, b, c, d], e);
    OneMore([a, b, c, d, e], f);
    OneMore([a, b, c, d, e, f], g);
    OneMore([a, b, c, d, e, f, g], h);
  }

  lemma NoneMore()
    ensures Binary([]) == 0
  {
  }

  lemma OneMore(bits: seq<nat>, b: nat)
    ensures Binary(bits + [b]) == 2 * Binary(bits) + b
  {
    assert (bits + [b])[..|bits|] == bits;
  }

  function AllBits(x: bv8): seq<nat> {
    [Bit(x, 7), Bit(x, 6), Bit(x, 5), Bit(x, 4), Bit(x, 3), Bit(x, 2), Bit(x, 1), Bit(x, 0)]
  }

  lemma BinaryIs(x: bv8)
    ensures Binary(AllBits(x)) == Num(x)
  {
    hide Bit, Binary, OfBits, Num;
    Bits(x);
    EightBits(Bit(x, 7), Bit(x, 6), Bit(x, 5), Bit(x, 4), Bit(x, 3), Bit(x, 2), Bit(x, 1), Bit(x, 0));
  }

  lemma AllXored(x: bv8, y: bv8)
    ensures var a, b, c := AllBits(x), AllBits(y), AllBits(x ^ y);
      |a| == |b| == |c| && forall i :: 0 <= i < |a| ==> a[i] < 2 && b[i] < 2 && c[i] == (a[i] + b[i]) % 2
  {
    hide Bit;
    var a, b, c := AllBits(x), AllBits(y), AllBits(x ^ y);
    forall i | 0 <= i < 8
      ensures a[i] < 2 && b[i] < 2 && c[i] == (a[i] + b[i]) % 2
    {
      XoredBit(x, y, 7 - i);
      BitAt(x, i);
      BitAt(y, i);
      BitAt(x ^ y, i);
    }
  }

  lemma BitAt(x: bv8, i: nat)
    requires i < 8
    ensures AllBits(x)[i] == Bit(x, 7 - i)
  {
    hide Bit;
  }

  /** Exclusive or of eight bits at once. */
  lemma Xor8(x: bv8, y: bv8)
    ensures Xor(Num(x), Num(y)) == Num(x ^ y)
  {
    hide Xor, Bit, Binary, Num, AllBits;
    BinaryIs(x);
    BinaryIs(y);
    BinaryIs(x ^ y);
    AllXored(x, y);
    XorOfBits(AllBits(x), AllBits(y), AllBits(x ^ y));
  }

  function OfBytes(a: nat, b: nat, c: nat, d: nat): (r: nat)
    ensures a < 0x100 && b < 0x100 && c < 0x100 && d < 0x100 ==> r < 0x1_0000_0000
  {
    ((a * 0x100 + b) * 0x100 + c) * 0x100 + d
  }

  lemma Pow8()
    ensures Pow2(8) == 0x100
  {
  }

  lemma ByteMore(x: nat, b: nat, y: nat, d: nat)
    requires b < 0x100 && d < 0x100
    ensures Xor(x * 0x100 + b, y * 0x100 + d) == Xor(x, y) * 0x100 + Xor(b, d)
  {
    hide Xor, Pow2;
    Pow8();
    XorSplit(x, b, y, d, 8);
  }

  lemma FourBytes(a: bv8, b: bv8, c: bv8, d: bv8, a': bv8, b': bv8, c': bv8, d': bv8)
    ensures Xor(OfBytes(Num(a), Num(b), Num(c), Num(d)), OfBytes(Num(a'), Num(b'), Num(c'), Num(d')))
      == OfBytes(Num(a ^ a'), Num(b ^ b'), Num(c ^ c'), Num(d ^ d'))
  {
    hide Xor, Num;
    Xor8(a, a');
    Xor8(b, b');
    Xor8(c, c');
    Xor8(d, d');
    ByteMore(Num(a), Num(b), Num(a'), Num(b'));
    ByteMore(Num(a) * 0x100 + Num(b), Num(c), Num(a') * 0x100 + Num(b'), Num(c'));
    ByteMore((Num(a) * 0x100 + Num(b)) * 0x100 + Num(c), Num(d),
             (Num(a') * 0x100 + Num(b')) * 0x100 + Num(c'), Num(d'));
  }

  lemma HalvesMeet(a: u32, b: u32, c: u32, d: u32)
    ensures Xor(a * 0x1_0000_0000 + b, c * 0x1_0000_0000 + d) == Xor(a, c) * 0x1_0000_0000 + Xor(b, d)
  {
    hide Xor, Pow2;
    Pow2Words();
    XorSplit(a, b, c, d, 32);
  }

  /** A word by its bytes, the highest first. */
  function Word(a: bv8, b: bv8, c: bv8, d: bv8, e: bv8, f: bv8, g: bv8, h: bv8): u64 {
    OfBytes(Num(a), Num(b), Num(c), Num(d)) * 0x1_0000_0000 + OfBytes(Num(e), Num(f), Num(g), Num(h))
  }

  /** Exclusive or byte by byte. */
  lemma XorIs(a: bv8, b: bv8, c: bv8, d: bv8, e: bv8, f: bv8, g: bv8, h: bv8,
              a': bv8, b': bv8, c': bv8, d': bv8, e': bv8, f': bv8, g': bv8, h': bv8)
    ensures Xor64(Word(a, b, c, d, e, f, g, h), Word(a', b', c', d', e', f', g', h'))
      == Word(a ^ a', b ^ b', c ^ c', d ^ d', e ^ e', f ^ f', g ^ g', h ^ h')
  {
    hide *;
    FourBytes(a, b, c, d, a', b', c', d');
    FourBytes(e, f, g, h, e', f', g', h');
    WordIs(a, b, c, d, e, f, g, h);
    WordIs(a', b', c', d', e', f', g', h');
    WordIs(a ^ a', b ^ b', c ^ c', d ^ d', e ^ e', f ^ f', g ^ g', h ^ h');
    Joined(OfBytes(Num(a), Num(b), Num(c), Num(d)), OfBytes(Num(e), Num(f), Num(g), Num(h)),
           OfBytes(Num(a'), Num(b'), Num(c'), Num(d')), OfBytes(Num(e'), Num(f'), Num(g'), Num(h')),
           OfBytes(Num(a ^ a'), Num(b ^ b'), Num(c ^ c'), Num(d ^ d')),
           OfBytes(Num(e ^ e'), Num(f ^ f'), Num(g ^ g'), Num(h ^ h')));
  }

  lemma WordIs(a: bv8, b: bv8, c: bv8, d: bv8, e: bv8, f: bv8, g: bv8, h: bv8)
    ensures var high, low := OfBytes(Num(a), Num(b), Num(c), Num(d)), OfBytes(Num(e), Num(f), Num(g), Num(h));
      high < TWO32 && low < TWO32 && Word(a, b, c, d, e, f, g, h) == high * 0x1_0000_0000 + low
  {
    hide OfBytes, Num;
  }

  lemma Joined(a: nat, b: nat, c: nat, d: nat, x: nat, y: nat)
    requires a < TWO32 && b < TWO32 && c < TWO32 && d < TWO32 && Xor(a, c) == x && Xor(b, d) == y
    ensures a * 0x1_0000_0000 + b < TWO64 && c * 0x1_0000_0000 + d < TWO64
    ensures Xor64(a * 0x1_0000_0000 + b, c * 0x1_0000_0000 + d) == x * 0x1_0000_0000 + y
  {
    hide Xor, Xor64;
    HalvesMeet(a, b, c, d);
    XorValue(a * 0x1_0000_0000 + b, c * 0x1_0000_0000 + d);
  }

  lemma XorValue(x: u64, y: u64)
    ensures Xor64(x, y) == Xor(x, y)
  {
    hide Xor;
  }

  /** The same for 32 bits. */
  lemma XorIs32(a: bv8, b: bv8, c: bv8, d: bv8, a': bv8, b': bv8, c': bv8, d': bv8)
    ensures Xor32(OfBytes(Num(a), Num(b), Num(c), Num(d)), OfBytes(Num(a'), Num(b'), Num(c'), Num(d')))
      == OfBytes(Num(a ^ a'), Num(b ^ b'), Num(c ^ c'), Num(d ^ d'))
  {
    hide Xor, OfBytes, Num;
    FourBytes(a, b, c, d, a', b', c', d');
  }
}
