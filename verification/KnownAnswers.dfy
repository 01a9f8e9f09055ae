/** The published answers of XXH64 and XXH32 for some texts, worked out step by step from
    the definitions; they depend on every constant, rotation and order of bytes. */
module KnownAnswers {
  import opened Words
  import opened Invertible
  import opened Evaluate
  import Xxh64
  import Xxh32

  lemma Powers()
    ensures Pow2(1) == 0x0000_0002
    ensures Pow2(7) == 0x0000_0080
    ensures Pow2(8) == 0x0000_0100
    ensures Pow2(11) == 0x0000_0800
    ensures Pow2(12) == 0x0000_1000
    ensures Pow2(13) == 0x0000_2000
    ensures Pow2(14) == 0x0000_4000
    ensures Pow2(15) == 0x0000_8000
    ensures Pow2(16) == 0x0001_0000
    ensures Pow2(17) == 0x0002_0000
    ensures Pow2(18) == 0x0004_0000
    ensures Pow2(19) == 0x0008_0000
    ensures Pow2(20) == 0x0010_0000
    ensures Pow2(21) == 0x0020_0000
    ensures Pow2(23) == 0x0080_0000
    ensures Pow2(24) == 0x0100_0000
    ensures Pow2(25) == 0x0200_0000
    ensures Pow2(27) == 0x0800_0000
    ensures Pow2(31) == 0x8000_0000
    ensures Pow2(32) == 0x0000_0001_0000_0000
    ensures Pow2(33) == 0x0000_0002_0000_0000
    ensures Pow2(37) == 0x0000_0020_0000_0000
    ensures Pow2(40) == 0x0000_0100_0000_0000
    ensures Pow2(41) == 0x0000_0200_0000_0000
    ensures Pow2(46) == 0x0000_4000_0000_0000
    ensures Pow2(48) == 0x0001_0000_0000_0000
    ensures Pow2(52) == 0x0010_0000_0000_0000
    ensures Pow2(53) == 0x0020_0000_0000_0000
    ensures Pow2(56) == 0x0100_0000_0000_0000
    ensures Pow2(57) == 0x0200_0000_0000_0000
    ensures Pow2(63) == 0x8000_0000_0000_0000
  {
    assert Pow2(4) == 0x0000_0010;
    assert Pow2(8) == 0x0000_0100;
    assert Pow2(12) == 0x0000_1000;
    assert Pow2(16) == 0x0001_0000;
    assert Pow2(20) == 0x0010_0000;
    assert Pow2(24) == 0x0100_0000;
    assert Pow2(28) == 0x1000_0000;
    assert Pow2(32) == 0x0000_0001_0000_0000;
    assert Pow2(36) == 0x0000_0010_0000_0000;
    assert Pow2(40) == 0x0000_0100_0000_0000;
    assert Pow2(44) == 0x0000_1000_0000_0000;
    assert Pow2(48) == 0x0001_0000_0000_0000;
    assert Pow2(52) == 0x0010_0000_0000_0000;
    assert Pow2(56) == 0x0100_0000_0000_0000;
    assert Pow2(60) == 0x1000_0000_0000_0000;
  }

  lemma InWord(q: nat, low: nat, p: nat, d: nat, m: nat)
    requires q < p && low < d && d * p == m
    ensures q * d + low < m
  {
    MulMonotone(d, p - 1, q);
    assert d * (p - 1) == d * p - d && d * q == q * d;
  }

  /** A rotation by r swaps the upper r bits, q, with the lower ones. */
  lemma RotIs(r: nat, q: nat, low: nat, p: nat, d: nat)
    requires 0 < r < 64 && q < p && low < d && Powered(r, p) && Powered(64 - r, d)
    ensures q * d + low < TWO64 && Rotl64(q * d + low, r) == low * p + q
  {
    hide Rotl64, Pow2;
    Pow2Words();
    Pow2Sum(64 - r, r);
    InWord(q, low, p, d, TWO64);
    RotlParts(q * d + low, r);
    DivUnique(q * d + low, d, q, low);
    ModUnique(q * d + low, d, q, low);
  }

  lemma Rot32Is(r: nat, q: nat, low: nat, p: nat, d: nat)
    requires 0 < r < 32 && q < p && low < d && Powered(r, p) && Powered(32 - r, d)
    ensures q * d + low < TWO32 && Rotl32(q * d + low, r) == low * p + q
  {
    hide Rotl32, Pow2;
    Pow2Words();
    Pow2Sum(32 - r, r);
    InWord(q, low, p, d, TWO32);
    Rotl32Parts(q * d + low, r);
    DivUnique(q * d + low, d, q, low);
    ModUnique(q * d + low, d, q, low);
  }

  predicate Powered(k: nat, p: nat) { Pow2(k) == p }

  lemma Rot1(q: nat, low: nat)
    requires q < 0x2 && low < 0x8000000000000000
    ensures Rotl64(q * 0x8000000000000000 + low, 1) == low * 0x2 + q
  {
    hide Pow2, Rotl64;
    Powers();
    RotIs(1, q, low, 0x2, 0x8000000000000000);
  }

  lemma Rot7(q: nat, low: nat)
    requires q < 0x80 && low < 0x200000000000000
    ensures Rotl64(q * 0x200000000000000 + low, 7) == low * 0x80 + q
  {
    hide Pow2, Rotl64;
    Powers();
    RotIs(7, q, low, 0x80, 0x200000000000000);
  }

  lemma Rot11(q: nat, low: nat)
    requires q < 0x800 && low < 0x20000000000000
    ensures Rotl64(q * 0x20000000000000 + low, 11) == low * 0x800 + q
  {
    hide Pow2, Rotl64;
    Powers();
    RotIs(11, q, low, 0x800, 0x20000000000000);
  }

  lemma Rot12(q: nat, low: nat)
    requires q < 0x1000 && low < 0x10000000000000
    ensures Rotl64(q * 0x10000000000000 + low, 12) == low * 0x1000 + q
  {
    hide Pow2, Rotl64;
    Powers();
    RotIs(12, q, low, 0x1000, 0x10000000000000);
  }

  lemma Rot18(q: nat, low: nat)
    requires q < 0x40000 && low < 0x400000000000
    ensures Rotl64(q * 0x400000000000 + low, 18) == low * 0x40000 + q
  {
    hide Pow2, Rotl64;
    Powers();
    RotIs(18, q, low, 0x40000, 0x400000000000);
  }

  lemma Rot23(q: nat, low: nat)
    requires q < 0x800000 && low < 0x20000000000
    ensures Rotl64(q * 0x20000000000 + low, 23) == low * 0x800000 + q
  {
    hide Pow2, Rotl64;
    Powers();
    RotIs(23, q, low, 0x800000, 0x20000000000);
  }

  lemma Rot27(q: nat, low: nat)
    requires q < 0x8000000 && low < 0x2000000000
    ensures Rotl64(q * 0x2000000000 + low, 27) == low * 0x8000000 + q
  {
    hide Pow2, Rotl64;
    Powers();
    RotIs(27, q, low, 0x8000000, 0x2000000000);
  }

  lemma Rot31(q: nat, low: nat)
    requires q < 0x80000000 && low < 0x200000000
    ensures Rotl64(q * 0x200000000 + low, 31) == low * 0x80000000 + q
  {
    hide Pow2, Rotl64;
    Powers();
    RotIs(31, q, low, 0x80000000, 0x200000000);
  }

  lemma Rot1Of32(q: nat, low: nat)
    requires q < 0x2 && low < 0x80000000
    ensures Rotl32(q * 0x80000000 + low, 1) == low * 0x2 + q
  {
    hide Pow2, Rotl32;
    Powers();
    Rot32Is(1, q, low, 0x2, 0x80000000);
  }

  lemma Rot7Of32(q: nat, low: nat)
    requires q < 0x80 && low < 0x2000000
    ensures Rotl32(q * 0x2000000 + low, 7) == low * 0x80 + q
  {
    hide Pow2, Rotl32;
    Powers();
    Rot32Is(7, q, low, 0x80, 0x2000000);
  }

  lemma Rot11Of32(q: nat, low: nat)
    requires q < 0x800 && low < 0x200000
    ensures Rotl32(q * 0x200000 + low, 11) == low * 0x800 + q
  {
    hide Pow2, Rotl32;
    Powers();
    Rot32Is(11, q, low, 0x800, 0x200000);
  }

  lemma Rot12Of32(q: nat, low: nat)
    requires q < 0x1000 && low < 0x100000
    ensures Rotl32(q * 0x100000 + low, 12) == low * 0x1000 + q
  {
    hide Pow2, Rotl32;
    Powers();
    Rot32Is(12, q, low, 0x1000, 0x100000);
  }

  lemma Rot13Of32(q: nat, low: nat)
    requires q < 0x2000 && low < 0x80000
    ensures Rotl32(q * 0x80000 + low, 13) == low * 0x2000 + q
  {
    hide Pow2, Rotl32;
    Powers();
    Rot32Is(13, q, low, 0x2000, 0x80000);
  }

  lemma Rot17Of32(q: nat, low: nat)
    requires q < 0x20000 && low < 0x8000
    ensures Rotl32(q * 0x8000 + low, 17) == low * 0x20000 + q
  {
    hide Pow2, Rotl32;
    Powers();
    Rot32Is(17, q, low, 0x20000, 0x8000);
  }

  lemma Rot18Of32(q: nat, low: nat)
    requires q < 0x40000 && low < 0x4000
    ensures Rotl32(q * 0x4000 + low, 18) == low * 0x40000 + q
  {
    hide Pow2, Rotl32;
    Powers();
    Rot32Is(18, q, low, 0x40000, 0x4000);
  }

  lemma RoundIs(acc: u64, input: u64, k: nat, q: nat, low: nat, k': nat, r: u64)
    requires q < 0x8000_0000 && low < 0x2_0000_0000
    requires input * 0xC2B2_AE3D_27D4_EB4F + acc == TWO64 * k + (q * 0x2_0000_0000 + low)
    requires (low * 0x8000_0000 + q) * 0x9E37_79B1_85EB_CA87 + 0 == TWO64 * k' + r
    ensures Xxh64.Round(acc, input) == r
  {
    hide Rotl64, Mul64, Add64;
    MulAdd(input, 0xC2B2_AE3D_27D4_EB4F, acc, k, q * 0x2_0000_0000 + low);
    AddTurned(acc, Mul64(input, 0xC2B2_AE3D_27D4_EB4F));
    Rot31(q, low);
    MulAdd(low * 0x8000_0000 + q, 0x9E37_79B1_85EB_CA87, 0, k', r);
  }

  lemma AddTurned(x: u64, y: u64)
    ensures Add64(x, y) == Add64(y, x)
  {
  }

  lemma Round32Is(acc: u32, input: u32, k: nat, q: nat, low: nat, k': nat, r: u32)
    requires q < 0x2000 && low < 0x8_0000
    requires input * 0x85EB_CA77 + acc == TWO32 * k + (q * 0x8_0000 + low)
    requires (low * 0x2000 + q) * 0x9E37_79B1 + 0 == TWO32 * k' + r
    ensures Xxh32.Round(acc, input) == r
  {
    hide Rotl32, Mul32, Add32;
    MulAdd32(input, 0x85EB_CA77, acc, k, q * 0x8_0000 + low);
    Rot13Of32(q, low);
    MulAdd32(low * 0x2000 + q, 0x9E37_79B1, 0, k', r);
  }

  lemma MulAdd(x: u64, m: u64, c: u64, quotient: nat, r: u64)
    requires x * m + c == TWO64 * quotient + r
    ensures Add64(Mul64(x, m), c) == r && (c == 0 ==> Mul64(x, m) == r)
  {
    AddMod64(x * m, c);
    ModUnique(x * m + c, TWO64, quotient, r);
  }

  lemma MulAdd32(x: u32, m: u32, c: u32, quotient: nat, r: u32)
    requires x * m + c == TWO32 * quotient + r
    ensures Add32(c, Mul32(x, m)) == r && (c == 0 ==> Mul32(x, m) == r)
  {
    var low := x * m % TWO32;
    var q := x * m / TWO32;
    assert x * m == TWO32 * q + low;
    ModUnique(x * m + c, TWO32, quotient, r);
    assert c + low == TWO32 * (quotient - q) + r;
    ModUnique(c + low, TWO32, quotient - q, r);
  }

  lemma MergeIs(h: u64, val: u64, k: u64, x: u64, k': nat, r: u64)
    requires Xxh64.Round(0, val) == k && Xor64(h, k) == x
    requires x * 0x9E37_79B1_85EB_CA87 + 0x85EB_CA77_C2B2_AE63 == TWO64 * k' + r
    ensures Xxh64.MergeRound(h, val) == r
  {
    hide Xxh64.Round, Xor64, Add64, Mul64;
    MulAdd(x, 0x9E37_79B1_85EB_CA87, 0x85EB_CA77_C2B2_AE63, k', r);
  }

  lemma Mix8Is(h: u64, w: u64, k: u64, q: nat, low: nat, k': nat, r: u64)
    requires Xxh64.Round(0, w) == k && q < 0x800_0000 && low < 0x20_0000_0000
    requires Xor64(h, k) == q * 0x20_0000_0000 + low
    requires (low * 0x800_0000 + q) * 0x9E37_79B1_85EB_CA87 + 0x85EB_CA77_C2B2_AE63 == TWO64 * k' + r
    ensures Xxh64.Mix8(h, w) == r
  {
    hide Xxh64.Round, Xor64, Add64, Mul64, Rotl64;
    Rot27(q, low);
    MulAdd(low * 0x800_0000 + q, 0x9E37_79B1_85EB_CA87, 0x85EB_CA77_C2B2_AE63, k', r);
  }

  lemma Mix4Is(h: u64, w: u32, k'': nat, k: u64, q: nat, low: nat, k': nat, r: u64)
    requires w * 0x9E37_79B1_85EB_CA87 + 0 == TWO64 * k'' + k && q < 0x80_0000 && low < 0x200_0000_0000
    requires Xor64(h, k) == q * 0x200_0000_0000 + low
    requires (low * 0x80_0000 + q) * 0xC2B2_AE3D_27D4_EB4F + 0x1656_67B1_9E37_79F9 == TWO64 * k' + r
    ensures Xxh64.Mix4(h, w) == r
  {
    hide Xor64, Add64, Mul64, Rotl64;
    MulAdd(w, 0x9E37_79B1_85EB_CA87, 0, k'', k);
    Rot23(q, low);
    MulAdd(low * 0x80_0000 + q, 0xC2B2_AE3D_27D4_EB4F, 0x1656_67B1_9E37_79F9, k', r);
  }

  lemma Mix1Is(h: u64, b: byte, k'': nat, k: u64, q: nat, low: nat, k': nat, r: u64)
    requires b as int * 0x27D4_EB2F_1656_67C5 + 0 == TWO64 * k'' + k && q < 0x800 && low < 0x20_0000_0000_0000
    requires Xor64(h, k) == q * 0x20_0000_0000_0000 + low
    requires (low * 0x800 + q) * 0x9E37_79B1_85EB_CA87 + 0 == TWO64 * k' + r
    ensures Xxh64.Mix1(h, b) == r
  {
    hide Xor64, Add64, Mul64, Rotl64;
    MulAdd(b as int, 0x27D4_EB2F_1656_67C5, 0, k'', k);
    Rot11(q, low);
    MulAdd(low * 0x800 + q, 0x9E37_79B1_85EB_CA87, 0, k', r);
  }

  lemma Mix4Of32Is(h: u32, w: u32, k: nat, q: nat, low: nat, k': nat, r: u32)
    requires w * 0xC2B2_AE3D + h == TWO32 * k + (q * 0x8000 + low) && q < 0x2_0000 && low < 0x8000
    requires (low * 0x2_0000 + q) * 0x27D4_EB2F + 0 == TWO32 * k' + r
    ensures Xxh32.Mix4(h, w) == r
  {
    hide Add32, Mul32, Rotl32;
    MulAdd32(w, 0xC2B2_AE3D, h, k, q * 0x8000 + low);
    Rot17Of32(q, low);
    MulAdd32(low * 0x2_0000 + q, 0x27D4_EB2F, 0, k', r);
  }

  lemma Mix1Of32Is(h: u32, b: byte, k: nat, q: nat, low: nat, k': nat, r: u32)
    requires b as int * 0x1656_67B1 + h == TWO32 * k + (q * 0x20_0000 + low) && q < 0x800 && low < 0x20_0000
    requires (low * 0x800 + q) * 0x9E37_79B1 + 0 == TWO32 * k' + r
    ensures Xxh32.Mix1(h, b) == r
  {
    hide Add32, Mul32, Rotl32;
    MulAdd32(b as int, 0x1656_67B1, h, k, q * 0x20_0000 + low);
    Rot11Of32(q, low);
    MulAdd32(low * 0x800 + q, 0x9E37_79B1, 0, k', r);
  }

  lemma XorShiftIs(x: u64, d: nat, s: u64, low: nat, r: u64)
    requires x == d * s + low && low < d && Xor64(x, s) == r
    ensures Xxh64.XorShift(x, d) == r
  {
    hide Xor64;
    DivUnique(x, d, s, low);
  }

  lemma XorShiftOf32Is(x: u32, d: nat, s: u32, low: nat, r: u32)
    requires x == d * s + low && low < d && Xor32(x, s) == r
    ensures Xxh32.XorShift(x, d) == r
  {
    hide Xor32;
    DivUnique(x, d, s, low);
  }

  lemma AvalancheIs(h: u64, a: u64, k: nat, b: u64, c: u64, k': nat, d: u64, r: u64)
    requires Xxh64.XorShift(h, 0x2_0000_0000) == a && a * 0xC2B2_AE3D_27D4_EB4F + 0 == TWO64 * k + b
    requires Xxh64.XorShift(b, 0x2000_0000) == c && c * 0x1656_67B1_9E37_79F9 + 0 == TWO64 * k' + d
    requires Xxh64.XorShift(d, 0x1_0000_0000) == r
    ensures Xxh64.Avalanche(h) == r
  {
    hide Xxh64.XorShift, Mul64;
    MulAdd(a, 0xC2B2_AE3D_27D4_EB4F, 0, k, b);
    MulAdd(c, 0x1656_67B1_9E37_79F9, 0, k', d);
  }

  lemma AvalancheOf32Is(h: u32, a: u32, k: nat, b: u32, c: u32, k': nat, d: u32, r: u32)
    requires Xxh32.XorShift(h, 0x8000) == a && a * 0x85EB_CA77 + 0 == TWO32 * k + b
    requires Xxh32.XorShift(b, 0x2000) == c && c * 0xC2B2_AE3D + 0 == TWO32 * k' + d
    requires Xxh32.XorShift(d, 0x1_0000) == r
    ensures Xxh32.Avalanche(h) == r
  {
    hide Xxh32.XorShift, Mul32;
    MulAdd32(a, 0x85EB_CA77, 0, k, b);
    MulAdd32(c, 0xC2B2_AE3D, 0, k', d);
  }

  // ----- the steps of a tail -----

  lemma Step8(t: seq<byte>, k: nat, h: u64)
    requires k + 8 <= |t|
    ensures Xxh64.Tail(h, t[k..]) == Xxh64.Tail(Xxh64.Mix8(h, ReadLE64(t, k)), t[k + 8..])
  {
    hide Xxh64.Mix8;
    assert t[k..][8..] == t[k + 8..];
  }

  lemma Step4(t: seq<byte>, k: nat, h: u64)
    requires k + 4 <= |t| < k + 8
    ensures Xxh64.Tail(h, t[k..]) == Xxh64.TailBytes(Xxh64.Mix4(h, ReadLE32(t, k)), t[k + 4..])
  {
    hide Xxh64.Mix4;
    assert t[k..][4..] == t[k + 4..];
  }

  lemma Step1(t: seq<byte>, k: nat, h: u64)
    requires k < |t|
    ensures Xxh64.TailBytes(h, t[k..]) == Xxh64.TailBytes(Xxh64.Mix1(h, t[k]), t[k + 1..])
  {
    hide Xxh64.Mix1;
    assert t[k..][1..] == t[k + 1..];
  }

  lemma Short4(t: seq<byte>, k: nat, h: u32)
    requires k + 4 <= |t|
    ensures Xxh32.Tail(h, t[k..]) == Xxh32.Tail(Xxh32.Mix4(h, ReadLE32(t, k)), t[k + 4..])
  {
    hide Xxh32.Mix4;
    assert t[k..][4..] == t[k + 4..];
  }

  lemma Short1(t: seq<byte>, k: nat, h: u32)
    requires k < |t|
    ensures Xxh32.TailBytes(h, t[k..]) == Xxh32.TailBytes(Xxh32.Mix1(h, t[k]), t[k + 1..])
  {
    hide Xxh32.Mix1;
    assert t[k..][1..] == t[k + 1..];
  }

  // "Nobody inspects the spammish repetition twice"
  function TextByte(i: nat): byte
    requires i < 45
  {
    match i / 8
    case 0 => [78, 111, 98, 111, 100, 121, 32, 105][i % 8]
    case 1 => [110, 115, 112, 101, 99, 116, 115, 32][i % 8]
    case 2 => [116, 104, 101, 32, 115, 112, 97, 109][i % 8]
    case 3 => [109, 105, 115, 104, 32, 114, 101, 112][i % 8]
    case 4 => [101, 116, 105, 116, 105, 111, 110, 32][i % 8]
    case _ => [116, 119, 105, 99, 101][i % 8]
  }

  const TEXT: seq<byte> := seq(45, i requires 0 <= i < 45 => TextByte(i))

  lemma Text64Rounds()
    ensures Xxh64.Round(0x60EA_27EE_ADC0_B5D6, 0x6920_7964_6F62_6F4E) == 0x3724_5127_A406_7E4B
    ensures Xxh64.Round(0xC2B2_AE3D_27D4_EB4F, 0x2073_7463_6570_736E) == 0x1B30_2B0A_818F_92CF
    ensures Xxh64.Round(0x0000_0000, 0x6D61_7073_2065_6874) == 0xCD62_D843_D058_0FCA
    ensures Xxh64.Round(0x61C8_864E_7A14_3579, 0x7065_7220_6873_696D) == 0x1C16_E43E_F214_2A4A
  {
    hide Xxh64.Round;
    RoundIs(0x60EA_27EE_ADC0_B5D6, 0x6920_7964_6F62_6F4E, 0x4FF3_FC1F_B3D8_9D72,
            0x33ED_4B1D, 0x0000_0001_77E5_A8E8, 0x7428_99A3_78A5_B234, 0x3724_5127_A406_7E4B);
    RoundIs(0xC2B2_AE3D_27D4_EB4F, 0x2073_7463_6570_736E, 0x18AE_2490_79A6_9E77,
            0x40D5_9F79, 0x0000_0001_0896_8441, 0x51C3_1DDE_BB8C_6D36, 0x1B30_2B0A_818F_92CF);
    RoundIs(0x0000_0000, 0x6D61_7073_2065_6874, 0x5330_2F69_CA44_3C7B,
            0x0531_3266, 0x423D_B7CC, 0x1478_3917_C338_C6F0, 0xCD62_D843_D058_0FCA);
    RoundIs(0x61C8_864E_7A14_3579, 0x7065_7220_6873_696D, 0x557B_5385_B6EB_3E90,
            0x7046_63E6, 0x90BC_CD1C, 0x2CB9_F1FA_BF7F_7F85, 0x1C16_E43E_F214_2A4A);
  }

  lemma Text64Stripe()
    ensures ReadLE64(Xxh64.StripeAt(TEXT, 0), 0) == 0x6920_7964_6F62_6F4E
    ensures ReadLE64(Xxh64.StripeAt(TEXT, 0), 8) == 0x2073_7463_6570_736E
    ensures ReadLE64(Xxh64.StripeAt(TEXT, 0), 16) == 0x6D61_7073_2065_6874
    ensures ReadLE64(Xxh64.StripeAt(TEXT, 0), 24) == 0x7065_7220_6873_696D
  {
    var s := Xxh64.StripeAt(TEXT, 0);
    assert forall i :: 0 <= i < 32 ==> s[i] == TEXT[i];
  }

  lemma Text64Lanes()
    ensures Xxh64.Fold(Xxh64.InitAccs(0), TEXT, 1) ==
      [0x3724_5127_A406_7E4B, 0x1B30_2B0A_818F_92CF, 0xCD62_D843_D058_0FCA, 0x1C16_E43E_F214_2A4A]
  {
    hide Xxh64.Round, TEXT, ReadLE64;
    Text64Stripe();
    Text64Rounds();
    assert Xxh64.Fold(Xxh64.InitAccs(0), TEXT, 0) == Xxh64.InitAccs(0);
  }

  lemma Xored1()
    ensures Xor64(0xC4DE_2CE6_39FB_8154, 0x7790_FF1F_7A9A_2803) == 0xB34E_D3F9_4361_A957
  {
    hide Xor64;
    XorIs(0xC4, 0xDE, 0x2C, 0xE6, 0x39, 0xFB, 0x81, 0x54,
          0x77, 0x90, 0xFF, 0x1F, 0x7A, 0x9A, 0x28, 0x03);
  }

  lemma Merge6()
    ensures Xxh64.MergeRound(0xC4DE_2CE6_39FB_8154, 0x3724_5127_A406_7E4B) == 0x30D4_0DDD_00AE_A144
  {
    hide Xor64, Xxh64.Round, Xxh64.MergeRound;
    RoundIs(0x0000_0000, 0x3724_5127_A406_7E4B, 0x29F0_0248_5341_A546,
            0x5F87_29A5, 0x970B_D225, 0x2EAD_0385_6345_A534, 0x7790_FF1F_7A9A_2803);
    Xored1();
    MergeIs(0xC4DE_2CE6_39FB_8154, 0x3724_5127_A406_7E4B, 0x7790_FF1F_7A9A_2803,
            0xB34E_D3F9_4361_A957, 0x6ED1_81FF_FBA2_3C08, 0x30D4_0DDD_00AE_A144);
  }

  lemma Xored2()
    ensures Xor64(0x30D4_0DDD_00AE_A144, 0xDECE_D6C0_BF71_6B27) == 0xEE1A_DB1D_BFDF_CA63
  {
    hide Xor64;
    XorIs(0x30, 0xD4, 0x0D, 0xDD, 0x00, 0xAE, 0xA1, 0x44,
          0xDE, 0xCE, 0xD6, 0xC0, 0xBF, 0x71, 0x6B, 0x27);
  }

  lemma Merge8()
    ensures Xxh64.MergeRound(0x30D4_0DDD_00AE_A144, 0x1B30_2B0A_818F_92CF) == 0xE5A1_F095_BF49_8698
  {
    hide Xor64, Xxh64.Round, Xxh64.MergeRound;
    RoundIs(0x0000_0000, 0x1B30_2B0A_818F_92CF, 0x14AD_7A9D_1F73_3C15,
            0x205E_6261, 0xE37E_52E1, 0x464C_A1B7_A56F_ACA9, 0xDECE_D6C0_BF71_6B27);
    Xored2();
    MergeIs(0x30D4_0DDD_00AE_A144, 0x1B30_2B0A_818F_92CF, 0xDECE_D6C0_BF71_6B27,
            0xEE1A_DB1D_BFDF_CA63, 0x9328_2C31_3E82_2A1C, 0xE5A1_F095_BF49_8698);
  }

  lemma Xored3()
    ensures Xor64(0xE5A1_F095_BF49_8698, 0x7007_3EB8_0575_9BBE) == 0x95A6_CE2D_BA3C_1D26
  {
    hide Xor64;
    XorIs(0xE5, 0xA1, 0xF0, 0x95, 0xBF, 0x49, 0x86, 0x98,
          0x70, 0x07, 0x3E, 0xB8, 0x05, 0x75, 0x9B, 0xBE);
  }

  lemma Merge10()
    ensures Xxh64.MergeRound(0xE5A1_F095_BF49_8698, 0xCD62_D843_D058_0FCA) == 0xF9CE_E721_E748_096D
  {
    hide Xor64, Xxh64.Round, Xxh64.MergeRound;
    RoundIs(0x0000_0000, 0xCD62_D843_D058_0FCA, 0x9C34_4268_028A_1A8D,
            0x0C8B_FFD2, 0xFAF3_4D56, 0x4D8C_45A5_E304_F4B0, 0x7007_3EB8_0575_9BBE);
    Xored3();
    MergeIs(0xE5A1_F095_BF49_8698, 0xCD62_D843_D058_0FCA, 0x7007_3EB8_0575_9BBE,
            0x95A6_CE2D_BA3C_1D26, 0x5C7D_613A_22D5_C72D, 0xF9CE_E721_E748_096D);
  }

  lemma Xored4()
    ensures Xor64(0xF9CE_E721_E748_096D, 0xC1CB_BAE5_0E57_E4F3) == 0x3805_5DC4_E91F_ED9E
  {
    hide Xor64;
    XorIs(0xF9, 0xCE, 0xE7, 0x21, 0xE7, 0x48, 0x09, 0x6D,
          0xC1, 0xCB, 0xBA, 0xE5, 0x0E, 0x57, 0xE4, 0xF3);
  }

  lemma Merge12()
    ensures Xxh64.MergeRound(0xF9CE_E721_E748_096D, 0x1C16_E43E_F214_2A4A) == 0x84F2_2C42_1A11_A8B5
  {
    hide Xor64, Xxh64.Round, Xxh64.MergeRound;
    RoundIs(0x0000_0000, 0x1C16_E43E_F214_2A4A, 0x155C_F400_AC2D_9F27,
            0x144C_1135, 0x0000_0001_8252_FAD6, 0x7761_7724_978C_1AA6, 0xC1CB_BAE5_0E57_E4F3);
    Xored4();
    MergeIs(0xF9CE_E721_E748_096D, 0x1C16_E43E_F214_2A4A, 0xC1CB_BAE5_0E57_E4F3,
            0x3805_5DC4_E91F_ED9E, 0x229F_73A8_0F86_14CF, 0x84F2_2C42_1A11_A8B5);
  }

  lemma Text64Merged()
    ensures Xxh64.MergeAccs(
      [0x3724_5127_A406_7E4B, 0x1B30_2B0A_818F_92CF, 0xCD62_D843_D058_0FCA, 0x1C16_E43E_F214_2A4A])
      == 0x84F2_2C42_1A11_A8B5
  {
    hide Rotl64, Pow2, Xxh64.MergeRound;
    Rot1(0x0000_0000, 0x3724_5127_A406_7E4B);
    Rot7(0x0000_000D, 0x0130_2B0A_818F_92CF);
    Rot12(0x0000_0CD6, 0x0002_D843_D058_0FCA);
    Rot18(0x0000_705B, 0x0000_243E_F214_2A4A);
    Merge6();
    Merge8();
    Merge10();
    Merge12();
  }

  lemma Xored5()
    ensures Xor64(0x84F2_2C42_1A11_A8E2, 0x0E38_C88D_3148_2B5C) == 0x8ACA_E4CF_2B59_83BE
  {
    hide Xor64;
    XorIs(0x84, 0xF2, 0x2C, 0x42, 0x1A, 0x11, 0xA8, 0xE2,
          0x0E, 0x38, 0xC8, 0x8D, 0x31, 0x48, 0x2B, 0x5C);
  }

  lemma MixWord13()
    ensures Xxh64.Mix8(0x84F2_2C42_1A11_A8E2, 0x206E_6F69_7469_7465) == 0x055A_6EDE_7AE0_9F6D
  {
    hide Xor64, Xxh64.Round, Xxh64.Mix8;
    RoundIs(0x0000_0000, 0x206E_6F69_7469_7465, 0x18AA_534A_30A0_E104,
            0x4C71_04C4, 0x8107_A22B, 0x27DF_5608_6A93_7298, 0x0E38_C88D_3148_2B5C);
    Xored5();
    Mix8Is(0x84F2_2C42_1A11_A8E2, 0x206E_6F69_7469_7465, 0x0E38_C88D_3148_2B5C,
           0x0456_5726, 0x0000_000F_2B59_83BE, 0x4B00_562C_68FA_03F0, 0x055A_6EDE_7AE0_9F6D);
  }

  lemma Xored6()
    ensures Xor64(0x055A_6EDE_7AE0_9F6D, 0x0B4E_C6B9_905B_862C) == 0x0E14_A867_EABB_1941
  {
    hide Xor64;
    XorIs(0x05, 0x5A, 0x6E, 0xDE, 0x7A, 0xE0, 0x9F, 0x6D,
          0x0B, 0x4E, 0xC6, 0xB9, 0x90, 0x5B, 0x86, 0x2C);
  }

  lemma MixHalf15()
    ensures Xxh64.Mix4(0x055A_6EDE_7AE0_9F6D, 0x6369_7774) == 0x2072_6DDE_77EE_C5E5
  {
    hide Xor64, Xxh64.Round, Xxh64.Mix4;
    Xored6();
    Mix4Is(0x055A_6EDE_7AE0_9F6D, 0x6369_7774, 0x3D70_A2A4, 0x0B4E_C6B9_905B_862C,
           0x0007_0A54, 0x0000_0067_EABB_1941, 0x2784_34DC_CC90_6B8B, 0x2072_6DDE_77EE_C5E5);
  }

  lemma Xored7()
    ensures Xor64(0x2072_6DDE_77EE_C5E5, 0xB700_C993_D016_F0B9) == 0x9772_A44D_A7F8_355C
  {
    hide Xor64;
    XorIs(0x20, 0x72, 0x6D, 0xDE, 0x77, 0xEE, 0xC5, 0xE5,
          0xB7, 0x00, 0xC9, 0x93, 0xD0, 0x16, 0xF0, 0xB9);
  }

  lemma MixByte16()
    ensures Xxh64.Mix1(0x2072_6DDE_77EE_C5E5, 101) == 0x73F2_0470_1843_2C9D
  {
    hide Xor64, Xxh64.Round, Xxh64.Mix1;
    Xored7();
    Mix1Is(0x2072_6DDE_77EE_C5E5, 101, 0x0000_000F, 0xB700_C993_D016_F0B9,
           0x0000_04BB, 0x0012_A44D_A7F8_355C, 0x5C2B_90B7_82AE_FFD9, 0x73F2_0470_1843_2C9D);
  }

  lemma Text64Words()
    ensures |TEXT| == 45
    ensures ReadLE64(TEXT, 32) == 0x206E_6F69_7469_7465
    ensures ReadLE32(TEXT, 40) == 0x6369_7774
    ensures TEXT[44] == 101
  {
  }

  lemma Text64Tail()
    ensures Xxh64.Tail(0x84F2_2C42_1A11_A8E2, TEXT[32..]) == 0x73F2_0470_1843_2C9D
  {
    hide Xxh64.Tail, Xxh64.Mix8, Xxh64.Mix4, Xxh64.Mix1, ReadLE64, ReadLE32, TEXT;
    Text64Words();
    Step8(TEXT, 32, 0x84F2_2C42_1A11_A8E2);
    MixWord13();
    Step4(TEXT, 40, 0x055A_6EDE_7AE0_9F6D);
    MixHalf15();
    Step1(TEXT, 44, 0x2072_6DDE_77EE_C5E5);
    MixByte16();
    assert TEXT[45..] == [];
  }

  lemma Xored8()
    ensures Xor64(0x73F2_0470_1843_2C9D, 0x39F9_0238) == 0x73F2_0470_21BA_2EA5
  {
    hide Xor64;
    XorIs(0x73, 0xF2, 0x04, 0x70, 0x18, 0x43, 0x2C, 0x9D,
          0x00, 0x00, 0x00, 0x00, 0x39, 0xF9, 0x02, 0x38);
  }

  lemma Shifted17()
    ensures Xxh64.XorShift(0x73F2_0470_1843_2C9D, 0x200000000) == 0x73F2_0470_21BA_2EA5
  {
    hide Xor64, Xxh64.XorShift;
    Xored8();
    XorShiftIs(0x73F2_0470_1843_2C9D, 0x200000000, 0x0000_0000_39F9_0238, 0x1843_2C9D, 0x73F2_0470_21BA_2EA5);
  }

  lemma Xored9()
    ensures Xor64(0xC18C_DC2B_14E9_DBEB, 0x0000_0006_0C66_E158) == 0xC18C_DC2D_188F_3AB3
  {
    hide Xor64;
    XorIs(0xC1, 0x8C, 0xDC, 0x2B, 0x14, 0xE9, 0xDB, 0xEB,
          0x00, 0x00, 0x00, 0x06, 0x0C, 0x66, 0xE1, 0x58);
  }

  lemma Shifted18()
    ensures Xxh64.XorShift(0xC18C_DC2B_14E9_DBEB, 0x20000000) == 0xC18C_DC2D_188F_3AB3
  {
    hide Xor64, Xxh64.XorShift;
    Xored9();
    XorShiftIs(0xC18C_DC2B_14E9_DBEB, 0x20000000, 0x0000_0006_0C66_E158, 0x14E9_DBEB, 0xC18C_DC2D_188F_3AB3);
  }

  lemma Xored10()
    ensures Xor64(0xAEB3_C03B_AC83_B31B, 0xAEB3_C03B) == 0xAEB3_C03B_0230_7320
  {
    hide Xor64;
    XorIs(0xAE, 0xB3, 0xC0, 0x3B, 0xAC, 0x83, 0xB3, 0x1B,
          0x00, 0x00, 0x00, 0x00, 0xAE, 0xB3, 0xC0, 0x3B);
  }

  lemma Shifted19()
    ensures Xxh64.XorShift(0xAEB3_C03B_AC83_B31B, 0x100000000) == 0xAEB3_C03B_0230_7320
  {
    hide Xor64, Xxh64.XorShift;
    Xored10();
    XorShiftIs(0xAEB3_C03B_AC83_B31B, 0x100000000, 0x0000_0000_AEB3_C03B, 0xAC83_B31B, 0xAEB3_C03B_0230_7320);
  }

  lemma Avalanche20()
    ensures Xxh64.Avalanche(0x73F2_0470_1843_2C9D) == 0xAEB3_C03B_0230_7320
  {
    hide Xxh64.XorShift, Xxh64.Avalanche;
    Shifted17();
    Shifted18();
    Shifted19();
    AvalancheIs(0x73F2_0470_1843_2C9D, 0x73F2_0470_21BA_2EA5, 0x582E_548E_4140_1E1D, 0xC18C_DC2B_14E9_DBEB,
                0xC18C_DC2D_188F_3AB3, 0x10E3_6EA3_CDDB_D097, 0xAEB3_C03B_AC83_B31B, 0xAEB3_C03B_0230_7320);
  }

  /** XXH64 of this text is AEB3C03B02307320. */
  lemma Text64()
    ensures Xxh64.Hash(0, TEXT) == 0xAEB3_C03B_0230_7320
  {
    hide Xxh64.Tail, Xxh64.Avalanche, Xxh64.Fold, Xxh64.InitAccs, Xxh64.MergeAccs, TEXT;
    Text64Words();
    Text64Lanes();
    Text64Merged();
    Text64Tail();
    Avalanche20();
  }

  lemma Text32Stripe0()
    ensures ReadLE32(Xxh32.StripeAt(TEXT, 0), 0) == 0x6F62_6F4E
    ensures ReadLE32(Xxh32.StripeAt(TEXT, 0), 4) == 0x6920_7964
    ensures ReadLE32(Xxh32.StripeAt(TEXT, 0), 8) == 0x6570_736E
    ensures ReadLE32(Xxh32.StripeAt(TEXT, 0), 12) == 0x2073_7463
  {
    var s := Xxh32.StripeAt(TEXT, 0);
    assert forall i :: 0 <= i < 16 ==> s[i] == TEXT[0 + i];
  }

  lemma Text32Rounds0()
    ensures Xxh32.Round(0x2423_4428, 0x6F62_6F4E) == 0x046A_700A
    ensures Xxh32.Round(0x85EB_CA77, 0x6920_7964) == 0xBFAD_F8E3
    ensures Xxh32.Round(0x0000_0000, 0x6570_736E) == 0x5B32_B4AA
    ensures Xxh32.Round(0x61C8_864F, 0x2073_7463) == 0x137E_5555
  {
    hide Xxh32.Round;
    Round32Is(0x2423_4428, 0x6F62_6F4E, 0x3A44_BB47, 0x0000_092A, 0x0002_8D6A, 0x327A_A636, 0x046A_700A);
    Round32Is(0x85EB_CA77, 0x6920_7964, 0x36FE_B305, 0x0000_0CD3, 0x0001_1FF3, 0x163E_D3EF, 0xBFAD_F8E3);
    Round32Is(0x0000_0000, 0x6570_736E, 0x3510_DA6B, 0x0000_1FCA, 0x0004_7422, 0x5814_954E, 0x5B32_B4AA);
    Round32Is(0x61C8_864F, 0x2073_7463, 0x10F9_DF1D, 0x0000_1AE5, 0x0002_BE54, 0x3642_11DC, 0x137E_5555);
  }

  lemma Text32Lanes0()
    ensures Xxh32.Fold(Xxh32.InitAccs(0), TEXT, 1) ==
      [0x046A_700A, 0xBFAD_F8E3, 0x5B32_B4AA, 0x137E_5555]
  {
    hide Xxh32.Round, ReadLE32;
    assert |TEXT| == 45;
    Text32Stripe0();
    assert Xxh32.Fold(Xxh32.InitAccs(0), TEXT, 0) == Xxh32.InitAccs(0);
    Text32Rounds0();
  }

  lemma Text32Stripe1()
    ensures ReadLE32(Xxh32.StripeAt(TEXT, 1), 0) == 0x2065_6874
    ensures ReadLE32(Xxh32.StripeAt(TEXT, 1), 4) == 0x6D61_7073
    ensures ReadLE32(Xxh32.StripeAt(TEXT, 1), 8) == 0x6873_696D
    ensures ReadLE32(Xxh32.StripeAt(TEXT, 1), 12) == 0x7065_7220
  {
    var s := Xxh32.StripeAt(TEXT, 1);
    assert forall i :: 0 <= i < 16 ==> s[i] == TEXT[16 + i];
  }

  lemma Text32Rounds1()
    ensures Xxh32.Round(0x046A_700A, 0x2065_6874) == 0x719A_836E
    ensures Xxh32.Round(0xBFAD_F8E3, 0x6D61_7073) == 0x514C_1DE8
    ensures Xxh32.Round(0x5B32_B4AA, 0x6873_696D) == 0x97FA_4BA2
    ensures Xxh32.Round(0x137E_5555, 0x7065_7220) == 0x242A_97A2
  {
    hide Xxh32.Round;
    Round32Is(0x046A_700A, 0x2065_6874, 0x10F2_85FA, 0x0000_07CE, 0x0005_85F6, 0x6D3C_0C52, 0x719A_836E);
    Round32Is(0xBFAD_F8E3, 0x6D61_7073, 0x3938_5E60, 0x0000_0E68, 0x0004_FC58, 0x629A_659B, 0x514C_1DE8);
    Round32Is(0x5B32_B4AA, 0x6873_696D, 0x36A4_2A53, 0x0000_0C42, 0x0007_B855, 0x98AE_1F0A, 0x97FA_4BA2);
    Round32Is(0x137E_5555, 0x7065_7220, 0x3ACC_3A4E, 0x0000_1842, 0x0003_A235, 0x47DC_D830, 0x242A_97A2);
  }

  lemma Text32Lanes1()
    ensures Xxh32.Fold(Xxh32.InitAccs(0), TEXT, 2) ==
      [0x719A_836E, 0x514C_1DE8, 0x97FA_4BA2, 0x242A_97A2]
  {
    hide Xxh32.Round, ReadLE32;
    assert |TEXT| == 45;
    Text32Stripe1();
    Text32Lanes0();
    Text32Rounds1();
  }

  lemma Text32Merged()
    ensures Xxh32.MergeAccs(
      [0x719A_836E, 0x514C_1DE8, 0x97FA_4BA2, 0x242A_97A2]) == 0x8C86_B52D
  {
    hide Rotl32, Pow2;
    Rot1Of32(0x0000_0000, 0x719A_836E);
    Rot7Of32(0x0000_0028, 0x014C_1DE8);
    Rot12Of32(0x0000_097F, 0x000A_4BA2);
    Rot18Of32(0x0000_90AA, 0x0000_17A2);
  }

  lemma Text32Words()
    ensures |TEXT| == 45
    ensures ReadLE32(TEXT, 32) == 0x7469_7465
    ensures ReadLE32(TEXT, 36) == 0x206E_6F69
    ensures ReadLE32(TEXT, 40) == 0x6369_7774
    ensures TEXT[44] == 101
  {
  }

  lemma Text32Tail()
    ensures Xxh32.Tail(0x8C86_B55A, TEXT[32..]) == 0x8FA1_7E39
  {
    hide Xxh32.Mix4, Xxh32.Mix1, ReadLE32, TEXT;
    Text32Words();
    Short4(TEXT, 32, 0x8C86_B55A);
    Mix4Of32Is(0x8C86_B55A, 0x7469_7465, 0x5889_2AC3, 0x0000_DDFC, 0x0000_176B, 0x0749_B0C9, 0x0FE9_1544);
    Short4(TEXT, 36, 0x0FE9_1544);
    Mix4Of32Is(0x0FE9_1544, 0x206E_6F69, 0x18AA_5349, 0x0001_C5E9, 0x0000_7F49, 0x279C_3F66, 0xC7C2_38C7);
    Short4(TEXT, 40, 0xC7C2_38C7);
    Mix4Of32Is(0xC7C2_38C7, 0x6369_7774, 0x4B9B_4F85, 0x0000_3B79, 0x0000_076B, 0x024E_FA1A, 0x1120_FE37);
    Short1(TEXT, 44, 0x1120_FE37);
    Mix1Of32Is(0x1120_FE37, 101, 0x0000_0008, 0x0000_0709, 0x0017_E70C, 0x762E_3F9B, 0x8FA1_7E39);
    assert TEXT[45..] == [];
  }

  lemma Xored11()
    ensures Xor32(0x8FA1_7E39, 0x0001_1F42) == 0x8FA0_617B
  {
    hide Xor32;
    XorIs32(0x8F, 0xA1, 0x7E, 0x39, 0x00, 0x01, 0x1F, 0x42);
  }

  lemma Shifted33()
    ensures Xxh32.XorShift(0x8FA1_7E39, 0x8000) == 0x8FA0_617B
  {
    hide Xor32, Xxh32.XorShift;
    Xored11();
    XorShiftOf32Is(0x8FA1_7E39, 0x8000, 0x0001_1F42, 0x0000_7E39, 0x8FA0_617B);
  }

  lemma Xored12()
    ensures Xor32(0xB361_5E2D, 0x0005_9B0A) == 0xB364_C527
  {
    hide Xor32;
    XorIs32(0xB3, 0x61, 0x5E, 0x2D, 0x00, 0x05, 0x9B, 0x0A);
  }

  lemma Shifted34()
    ensures Xxh32.XorShift(0xB361_5E2D, 0x2000) == 0xB364_C527
  {
    hide Xor32, Xxh32.XorShift;
    Xored12();
    XorShiftOf32Is(0xB361_5E2D, 0x2000, 0x0005_9B0A, 0x0000_1E2D, 0xB364_C527);
  }

  lemma Xored13()
    ensures Xor32(0xE021_7C4B, 0x0000_E021) == 0xE021_9C6A
  {
    hide Xor32;
    XorIs32(0xE0, 0x21, 0x7C, 0x4B, 0x00, 0x00, 0xE0, 0x21);
  }

  lemma Shifted35()
    ensures Xxh32.XorShift(0xE021_7C4B, 0x10000) == 0xE021_9C6A
  {
    hide Xor32, Xxh32.XorShift;
    Xored13();
    XorShiftOf32Is(0xE021_7C4B, 0x10000, 0x0000_E021, 0x0000_7C4B, 0xE021_9C6A);
  }

  lemma Avalanche36()
    ensures Xxh32.Avalanche(0x8FA1_7E39) == 0xE021_9C6A
  {
    hide Xxh32.XorShift, Xxh32.Avalanche;
    Shifted33();
    Shifted34();
    Shifted35();
    AvalancheOf32Is(0x8FA1_7E39, 0x8FA0_617B, 0x4B22_9C75, 0xB361_5E2D,
                    0xB364_C527, 0x886F_9391, 0xE021_7C4B, 0xE021_9C6A);
  }

  /** XXH32 of this text is E0219C6A. */
  lemma Text32()
    ensures Xxh32.Hash(0, TEXT) == 0xE021_9C6A
  {
    hide Xxh32.Tail, Xxh32.Avalanche, Xxh32.Fold, Xxh32.InitAccs, Xxh32.MergeAccs, TEXT;
    Text32Words();
    Text32Lanes1();
    Text32Merged();
    Text32Tail();
    Avalanche36();
  }

  lemma Xored14()
    ensures Xor64(0x27D4_EB2F_1656_67C5, 0x13EA_7597) == 0x27D4_EB2F_05BC_1252
  {
    hide Xor64;
    XorIs(0x27, 0xD4, 0xEB, 0x2F, 0x16, 0x56, 0x67, 0xC5,
          0x00, 0x00, 0x00, 0x00, 0x13, 0xEA, 0x75, 0x97);
  }

  lemma Shifted37()
    ensures Xxh64.XorShift(0x27D4_EB2F_1656_67C5, 0x200000000) == 0x27D4_EB2F_05BC_1252
  {
    hide Xor64, Xxh64.XorShift;
    Xored14();
    XorShiftIs(0x27D4_EB2F_1656_67C5, 0x200000000, 0x0000_0000_13EA_7597, 0x0000_0001_1656_67C5, 0x27D4_EB2F_05BC_1252);
  }

  lemma Xored15()
    ensures Xor64(0xBEB1_3DDA_13C2_ED4E, 0x0000_0005_F589_EED0) == 0xBEB1_3DDF_E64B_039E
  {
    hide Xor64;
    XorIs(0xBE, 0xB1, 0x3D, 0xDA, 0x13, 0xC2, 0xED, 0x4E,
          0x00, 0x00, 0x00, 0x05, 0xF5, 0x89, 0xEE, 0xD0);
  }

  lemma Shifted38()
    ensures Xxh64.XorShift(0xBEB1_3DDA_13C2_ED4E, 0x20000000) == 0xBEB1_3DDF_E64B_039E
  {
    hide Xor64, Xxh64.XorShift;
    Xored15();
    XorShiftIs(0xBEB1_3DDA_13C2_ED4E, 0x20000000, 0x0000_0005_F589_EED0, 0x13C2_ED4E, 0xBEB1_3DDF_E64B_039E);
  }

  lemma Xored16()
    ensures Xor64(0xEF46_DB37_BE9E_32AE, 0xEF46_DB37) == 0xEF46_DB37_51D8_E999
  {
    hide Xor64;
    XorIs(0xEF, 0x46, 0xDB, 0x37, 0xBE, 0x9E, 0x32, 0xAE,
          0x00, 0x00, 0x00, 0x00, 0xEF, 0x46, 0xDB, 0x37);
  }

  lemma Shifted39()
    ensures Xxh64.XorShift(0xEF46_DB37_BE9E_32AE, 0x100000000) == 0xEF46_DB37_51D8_E999
  {
    hide Xor64, Xxh64.XorShift;
    Xored16();
    XorShiftIs(0xEF46_DB37_BE9E_32AE, 0x100000000, 0x0000_0000_EF46_DB37, 0xBE9E_32AE, 0xEF46_DB37_51D8_E999);
  }

  lemma Avalanche40()
    ensures Xxh64.Avalanche(0x27D4_EB2F_1656_67C5) == 0xEF46_DB37_51D8_E999
  {
    hide Xxh64.XorShift, Xxh64.Avalanche;
    Shifted37();
    Shifted38();
    Shifted39();
    AvalancheIs(0x27D4_EB2F_1656_67C5, 0x27D4_EB2F_05BC_1252, 0x1E4B_2761_64D3_1384, 0xBEB1_3DDA_13C2_ED4E,
                0xBEB1_3DDF_E64B_039E, 0x10A3_9819_A54D_6418, 0xEF46_DB37_BE9E_32AE, 0xEF46_DB37_51D8_E999);
  }

  /** XXH64 of nothing is EF46DB3751D8E999. */
  lemma Empty64()
    ensures Xxh64.Hash(0, []) == 0xEF46_DB37_51D8_E999
  {
    hide Xxh64.Avalanche;
    Avalanche40();
  }

  lemma Xored17()
    ensures Xor32(0x1656_67B1, 0x0000_2CAC) == 0x1656_4B1D
  {
    hide Xor32;
    XorIs32(0x16, 0x56, 0x67, 0xB1, 0x00, 0x00, 0x2C, 0xAC);
  }

  lemma Shifted41()
    ensures Xxh32.XorShift(0x1656_67B1, 0x8000) == 0x1656_4B1D
  {
    hide Xor32, Xxh32.XorShift;
    Xored17();
    XorShiftOf32Is(0x1656_67B1, 0x8000, 0x0000_2CAC, 0x0000_67B1, 0x1656_4B1D);
  }

  lemma Xored18()
    ensures Xor32(0x7E00_CC7B, 0x0003_F006) == 0x7E03_3C7D
  {
    hide Xor32;
    XorIs32(0x7E, 0x00, 0xCC, 0x7B, 0x00, 0x03, 0xF0, 0x06);
  }

  lemma Shifted42()
    ensures Xxh32.XorShift(0x7E00_CC7B, 0x2000) == 0x7E03_3C7D
  {
    hide Xor32, Xxh32.XorShift;
    Xored18();
    XorShiftOf32Is(0x7E00_CC7B, 0x2000, 0x0003_F006, 0x0000_0C7B, 0x7E03_3C7D);
  }

  lemma Xored19()
    ensures Xor32(0x02CC_5FC9, 0x0000_02CC) == 0x02CC_5D05
  {
    hide Xor32;
    XorIs32(0x02, 0xCC, 0x5F, 0xC9, 0x00, 0x00, 0x02, 0xCC);
  }

  lemma Shifted43()
    ensures Xxh32.XorShift(0x02CC_5FC9, 0x10000) == 0x02CC_5D05
  {
    hide Xor32, Xxh32.XorShift;
    Xored19();
    XorShiftOf32Is(0x02CC_5FC9, 0x10000, 0x0000_02CC, 0x0000_5FC9, 0x02CC_5D05);
  }

  lemma Avalanche44()
    ensures Xxh32.Avalanche(0x1656_67B1) == 0x02CC_5D05
  {
    hide Xxh32.XorShift, Xxh32.Avalanche;
    Shifted41();
    Shifted42();
    Shifted43();
    AvalancheOf32Is(0x1656_67B1, 0x1656_4B1D, 0x0BAF_67E7, 0x7E00_CC7B,
                    0x7E03_3C7D, 0x5FD6_67DB, 0x02CC_5FC9, 0x02CC_5D05);
  }

  /** XXH32 of nothing is 02CC5D05. */
  lemma Empty32()
    ensures Xxh32.Hash(0, []) == 0x02CC_5D05
  {
    hide Xxh32.Avalanche;
    Avalanche44();
  }

}
