/** XXH3 in plain formulas: what one stripe does to a lane, where the keys are taken from
    the secret, and how the two halves of the 128-bit hash are made. */
module Xxh3Exact {
  import opened Words
  import opened Mult128
  import opened Xxh3Kernels
  import opened Xxh3Long
  import opened Xxh3Secret
  import opened Xxh3Stream
  import Xxh32
  import Xxh64

  // ----- constants -----

  /** The primes are those of XXH32 and XXH64, and so is what the lanes start from. */
  lemma SamePrimes()
    ensures Xxh3Long.PRIME64_1 == Xxh64.PRIME64_1 && Xxh3Long.PRIME64_2 == Xxh64.PRIME64_2
    ensures Xxh3Kernels.PRIME32_1 == Xxh32.PRIME32_1
    ensures INIT_ACC == [Xxh32.PRIME32_3, Xxh64.PRIME64_1, Xxh64.PRIME64_2, Xxh64.PRIME64_3,
                         Xxh64.PRIME64_4, Xxh32.PRIME32_2, Xxh64.PRIME64_5, Xxh32.PRIME32_1]
  {
  }

  /** The default secret by its 64-bit words. */
  function SecretWords(i: nat): (u64, u64)
    requires i < 12
  {
    match i
    case 0 => (0xBE4B_A423_396C_FEB8, 0x1CAD_21F7_2C81_017C)
    case 1 => (0xDB97_9083_E96D_D4DE, 0x1F67_B3B7_A4A4_4072)
    case 2 => (0x78E5_C0CC_4EE6_79CB, 0x2172_FFCC_7DD0_5A82)
    case 3 => (0x8E24_43F7_7446_08B8, 0x4C26_3A81_E690_35E0)
    case 4 => (0xCB00_C391_BB52_283C, 0xA32E_531B_8B65_D088)
    case 5 => (0x4EF9_0DA2_9748_6471, 0xD8AC_DEA9_46EF_1938)
    case 6 => (0x3F34_9CE3_3F76_FAA8, 0x1D4F_0BC7_C7BB_DCF9)
    case 7 => (0x3159_B4CD_4BE0_518A, 0x6473_78D9_C97E_9FC8)
    case 8 => (0xC3EB_D334_83AC_C5EA, 0xEB63_13FA_FFA0_81C5)
    case 9 => (0x49DA_F0B7_51DD_0D17, 0x9E68_D429_2655_16D3)
    case 10 => (0xFCA1_477D_58BE_162B, 0xCE31_D07A_D1B8_F88F)
    case _ => (0x2804_1695_8F3A_CB45, 0x7E40_4BBB_CAFB_D7AF)
  }

  lemma RowWords(i: nat)
    requires i < 12
    ensures ReadLE64(SecretRow(i), 0) == SecretWords(i).0 && ReadLE64(SecretRow(i), 8) == SecretWords(i).1
  {
  }

  lemma SecretWord(i: nat)
    requires i < 12
    ensures ReadLE64(DefaultSecret(), 16 * i) == SecretWords(i).0
    ensures ReadLE64(DefaultSecret(), 16 * i + 8) == SecretWords(i).1
  {
    hide SecretRow, SecretWords, ReadLE64;
    var rows := seq(12, j requires 0 <= j < 12 => SecretRow(j));
    FromRowsAt(rows, i);
    RowWords(i);
    var s, r := DefaultSecret(), SecretRow(i);
    assert s[16 * i..16 * i + 16] == r;
    SliceOfSlice(s, 16 * i, 16 * i + 16, 0, 8);
    SliceOfSlice(s, 16 * i, 16 * i + 16, 8, 16);
    SameBytes(s, 16 * i, r, 0);
    SameBytes(s, 16 * i + 8, r, 8);
  }

  /** The derived secret: the seed added to every other word of the default one and
      subtracted from the rest. */
  lemma DerivedWords(seed: u64, i: nat)
    requires i < 12
    ensures ReadLE64(DerivedSecret(seed), 16 * i) == (SecretWords(i).0 + seed) % TWO64
    ensures ReadLE64(DerivedSecret(seed), 16 * i + 8) == (SecretWords(i).1 - seed) % TWO64
  {
    hide SecretRow, SecretWords, WriteLE64, ReadLE64, DefaultSecret, FromRows;
    SecretWord(i);
    var lo: u64, hi: u64 := (SecretWords(i).0 + seed) % TWO64, (SecretWords(i).1 - seed) % TWO64;
    var s, row := DerivedSecret(seed), DerivedRow(seed, i);
    FromRowsAt(DerivedRows(seed), i);
    assert row == WriteLE64(lo) + WriteLE64(hi);
    assert forall t :: 0 <= t < 16 ==> s[16 * i + t] == s[16 * i..16 * i + 16][t] == row[t];
    forall t | 0 <= t < 8
      ensures s[16 * i + t] == WriteLE64(lo)[t] && s[16 * i + 8 + t] == WriteLE64(hi)[t]
    {
      assert s[16 * i + (8 + t)] == row[8 + t];
    }
    Xxh64.ReadBack(s, 16 * i, WriteLE64(lo), lo);
    Xxh64.ReadBack(s, 16 * i + 8, WriteLE64(hi), hi);
  }

  // ----- stripes and blocks -----

  /** Lanes go in pairs. */
  function Other(j: nat): (r: nat)
    requires j < 8
    ensures r < 8
  {
    [1, 0, 3, 2, 5, 4, 7, 6][j]
  }

  lemma OtherIs(j: nat)
    requires j < 8
    ensures Other(j) == Neighbour(j)
  {
  }

  /** One stripe: lane j gains the data of the other lane of its pair, and the product of
      the halves of its own data after exclusive or with the key. */
  lemma LaneExactly(acc: Lanes, input: Stripe, key: Stripe, j: nat)
    requires j < 8
    ensures var other := Other(j);
      var keyed := Xor64(ReadLE64(input, 8 * j), ReadLE64(key, 8 * j));
      Accumulate512(acc, input, key)[j]
        == (acc[j] + ReadLE64(input, 8 * other) + keyed % 4294967296 * (keyed / 4294967296)) % 18446744073709551616
  {
    hide Xor64, ReadLE64, Other, Neighbour, Mult32To64;
    OtherIs(j);
    ProductIs(DataKey(input, key, j));
  }

  lemma ProductIs(keyed: u64)
    ensures Mult32To64(Lo32(keyed), Hi32(keyed)) == keyed % 4294967296 * (keyed / 4294967296)
  {
  }

  /** A scramble: bits 47 and up are folded in, then the key, then a multiplication. */
  lemma ScrambledExactly(acc: Lanes, key: Stripe, j: nat)
    requires j < 8
    ensures acc[j] / 140737488355328 < 18446744073709551616
    ensures Scramble(acc, key)[j] ==
      Xor64(Xor64(acc[j], acc[j] / 140737488355328), ReadLE64(key, 8 * j)) * 2654435761 % 18446744073709551616
  {
    hide Xor64, ReadLE64;
  }

  /** The stripes of a block take keys 8 bytes apart; a secret of s bytes has (s - 64) / 8
      of them, and its last 64 bytes are for the scramble. */
  lemma BlockExactly(f: Kernels, lanes: Lanes, soFar: nat, stripe: Stripe, secret: Secret)
    requires Computes(f) && soFar < (|secret| - 64) / 8
    ensures PerBlock(secret) == (|secret| - 64) / 8
    ensures var folded := Accumulate512(lanes, stripe, secret[8 * soFar..8 * soFar + 64]);
      Step(f, Progress(lanes, soFar), stripe, secret) ==
        if soFar + 1 == (|secret| - 64) / 8 then Progress(Scramble(folded, secret[|secret| - 64..]), 0)
        else Progress(folded, soFar + 1)
  {
    hide Accumulate512, Scramble;
    var folded := Accumulate512(lanes, stripe, secret[8 * soFar..8 * soFar + 64]);
    assert secret[|secret| - 64..] == KeyAt(secret, |secret| - 64);
    assert f.scramble(folded, secret[|secret| - 64..]) == Scramble(folded, secret[|secret| - 64..]);
  }

  /** The stripes are taken one after the other. */
  lemma ConsumedExactly(f: Kernels, p: Progress, data: seq<byte>, n: nat, secret: Secret)
    requires 64 * n + 64 <= |data| && p.soFar < PerBlock(secret)
    ensures Consume(f, p, data, 0, secret) == p
    ensures Consume(f, p, data, n + 1, secret)
      == Step(f, Consume(f, p, data, n, secret), data[64 * n..64 * n + 64], secret)
  {
    hide Step;
  }

  /** After all stripes that begin before the last byte, the last 64 bytes are taken with
      the key 7 bytes below the one for the scramble. */
  lemma LastStripeExactly(f: Kernels, input: seq<byte>, secret: Secret)
    requires Computes(f) && |input| > 64
    ensures LongLanes(f, input, secret) == Accumulate512(
      Consume(f, Progress(INIT_ACC, 0), input, (|input| - 1) / 64, secret).lanes,
      input[|input| - 64..], secret[|secret| - 71..|secret| - 7])
  {
    hide Accumulate512, Consume;
  }

  // ----- the end -----

  /** Two lanes, keyed, multiplied to 128 bits and folded to 64. */
  function Folded(lanes: Lanes, secret: Secret, at: nat, i: nat): u64
    requires i < 4 && at + 64 <= |secret|
  {
    var p := Mult64To128(Xor64(lanes[2 * i], ReadLE64(secret, at + 16 * i)),
                         Xor64(lanes[2 * i + 1], ReadLE64(secret, at + 16 * i + 8)));
    Xor64(p.low64, p.high64)
  }

  function Avalanched(h: u64): u64 {
    QuotientBound(h, 137438953472);
    var m: u64 := Xor64(h, h / 137438953472) * 1609587791953885689 % 18446744073709551616;
    QuotientBound(m, 4294967296);
    Xor64(m, m / 4294967296)
  }

  lemma SecretSlice(secret: Secret, at: nat, k: nat)
    requires at + 64 <= |secret| && k + 8 <= 64
    ensures ReadLE64(KeyAt(secret, at), k) == ReadLE64(secret, at + k)
  {
    var key := KeyAt(secret, at);
    SliceOfSlice(secret, at, at + 64, k, k + 8);
    SameBytes(key, k, secret, at + k);
  }

  lemma SliceOfSlice(s: seq<byte>, a: nat, b: nat, i: nat, j: nat)
    requires a <= b <= |s| && i <= j <= b - a
    ensures s[a..b][i..j] == s[a + i..a + j]
  {
    var x, y := s[a..b][i..j], s[a + i..a + j];
    forall k | 0 <= k < j - i
      ensures x[k] == y[k]
    {
      assert x[k] == s[a..b][i + k] && y[k] == s[a + i + k];
    }
  }

  lemma SameBytes(s: seq<byte>, i: nat, t: seq<byte>, j: nat)
    requires i + 8 <= |s| && j + 8 <= |t| && s[i..i + 8] == t[j..j + 8]
    ensures ReadLE64(s, i) == ReadLE64(t, j)
  {
    var w := s[i..i + 8];
    assert forall k :: 0 <= k < 8 ==> w[k] == s[i + k];
    assert forall k :: 0 <= k < 8 ==> w[k] == t[j + k];
    ReadsWord(s, i, w);
    ReadsWord(t, j, w);
  }

  lemma ReadsWord(s: seq<byte>, i: nat, w: seq<byte>)
    requires i + 8 <= |s| && |w| == 8 && forall k :: 0 <= k < 8 ==> w[k] == s[i + k]
    ensures ReadLE64(s, i) == ReadLE64(w, 0)
  {
    assert w[0] == s[i] && w[1] == s[i + 1] && w[2] == s[i + 2] && w[3] == s[i + 3];
    assert w[4] == s[i + 4] && w[5] == s[i + 5] && w[6] == s[i + 6] && w[7] == s[i + 7];
  }

  lemma FoldedIs(lanes: Lanes, secret: Secret, at: nat, i: nat)
    requires i < 4 && at + 64 <= |secret|
    ensures Mix2Accs(lanes, KeyAt(secret, at), i) == Folded(lanes, secret, at, i)
  {
    hide Xor64, ReadLE64, Mult64To128, KeyAt;
    SecretSlice(secret, at, 16 * i);
    SecretSlice(secret, at, 16 * i + 8);
  }

  lemma SumMod(s: u64, a: u64, b: u64, c: u64, d: u64)
    ensures Add64(Add64(Add64(Add64(s, a), b), c), d) == (s + a + b + c + d) % TWO64
  {
    AddMod64(s + a, b);
    AddMod64(s + a + b, c);
    AddMod64(s + a + b + c, d);
  }

  lemma AvalancheIs(h: u64)
    ensures Avalanche(h) == Avalanched(h)
  {
    hide Xor64;
  }

  lemma MergedIs(lanes: Lanes, secret: Secret, at: nat, start: u64)
    requires at + 64 <= |secret|
    ensures MergeAccs(lanes, KeyAt(secret, at), start) == Avalanched(
      (start + Folded(lanes, secret, at, 0) + Folded(lanes, secret, at, 1) + Folded(lanes, secret, at, 2)
       + Folded(lanes, secret, at, 3)) % 18446744073709551616)
  {
    hide Xor64, Mix2Accs, Folded, KeyAt, Avalanche, Avalanched, Add64;
    SumMod(start, Folded(lanes, secret, at, 0), Folded(lanes, secret, at, 1), Folded(lanes, secret, at, 2),
           Folded(lanes, secret, at, 3));
    var sum := start + Folded(lanes, secret, at, 0) + Folded(lanes, secret, at, 1) + Folded(lanes, secret, at, 2)
      + Folded(lanes, secret, at, 3);
    AvalancheIs(sum % TWO64);
    FoldedIs(lanes, secret, at, 0);
    FoldedIs(lanes, secret, at, 1);
    FoldedIs(lanes, secret, at, 2);
    FoldedIs(lanes, secret, at, 3);
  }

  /** The 64-bit hash: the lanes with the secret from byte 11 on and a start that depends on
      the length. The lower half of the 128-bit hash is the same; the upper half takes the
      secret 11 bytes below its last 64 and the complement of another multiple. */
  lemma FinalizedExactly(lanes: Lanes, s: Secret, n: u64)
    ensures FinalizeLong64(lanes, s, n) == Avalanched(
      (n * 11400714785074694791 + Folded(lanes, s, 11, 0) + Folded(lanes, s, 11, 1) + Folded(lanes, s, 11, 2)
       + Folded(lanes, s, 11, 3)) % 18446744073709551616)
    ensures FinalizeLong128(lanes, s, n).low64 == FinalizeLong64(lanes, s, n)
    ensures var at := |s| - 75;
      FinalizeLong128(lanes, s, n).high64 == Avalanched(
        (18446744073709551615 - n * 14029467366897019727 % 18446744073709551616 + Folded(lanes, s, at, 0)
         + Folded(lanes, s, at, 1) + Folded(lanes, s, at, 2) + Folded(lanes, s, at, 3)) % 18446744073709551616)
  {
    hide Folded, MergeAccs, Avalanched;
    MergedIs(lanes, s, 11, Mul64(n, Xxh3Long.PRIME64_1));
    MergedIs(lanes, s, |s| - 75, TWO64 - 1 - Mul64(n, Xxh3Long.PRIME64_2));
    StartMod(n * 11400714785074694791, Folded(lanes, s, 11, 0) + Folded(lanes, s, 11, 1) + Folded(lanes, s, 11, 2)
                                       + Folded(lanes, s, 11, 3));
  }

  lemma StartMod(x: nat, y: nat)
    ensures (x % TWO64 + y) % TWO64 == (x + y) % TWO64
  {
    AddMod64(x, y);
  }

  /** Of a long input the lower half of the 128-bit hash is the 64-bit hash. */
  lemma LowHalfIs64(f: Kernels, mode: Mode, input: seq<byte>)
    requires Computes(f) && 240 < |input| < TWO64
    ensures Hash128(f, mode, input).low64 == Hash64(f, mode, input)
  {
    hide FinalizeLong64, FinalizeLong128, LongLanes, LongSecret;
    var secret := LongSecret(mode);
    var lanes := LongLanes(f, input, secret);
    FinalizedExactly(lanes, secret, |input|);
    assert f.finalize64(lanes, secret, |input|) == FinalizeLong64(lanes, secret, |input|);
    assert f.finalize128(lanes, secret, |input|) == FinalizeLong128(lanes, secret, |input|);
  }

  // ----- which secret and seed -----

  /** A short input is hashed with the secret given, if no seed is, and with the default
      secret and the seed otherwise; a long one with the secret given, or else with the one
      derived from the seed. */
  lemma ModesExactly(f: Kernels, input: seq<byte>, secret: Secret, seed: u64)
    requires Computes(f) && |input| < TWO64
    ensures |input| <= 240 ==>
      && Hash64(f, Default, input) == f.short64(input, DefaultSecret(), 0)
      && Hash64(f, WithSecret(secret), input) == f.short64(input, secret, 0)
      && Hash64(f, WithSeed(seed), input) == f.short64(input, DefaultSecret(), seed)
      && Hash64(f, WithSecretAndSeed(secret, seed), input) == f.short64(input, DefaultSecret(), seed)
    ensures |input| > 240 ==>
      && Hash64(f, Default, input) == Long(f, input, DefaultSecret())
      && Hash64(f, WithSecret(secret), input) == Long(f, input, secret)
      && Hash64(f, WithSeed(seed), input) == Long(f, input, DerivedSecret(seed))
      && Hash64(f, WithSecretAndSeed(secret, seed), input) == Long(f, input, secret)
    ensures |input| <= 240 ==>
      && Hash128(f, Default, input) == f.short128(input, DefaultSecret(), 0)
      && Hash128(f, WithSecret(secret), input) == f.short128(input, secret, 0)
      && Hash128(f, WithSeed(seed), input) == f.short128(input, DefaultSecret(), seed)
      && Hash128(f, WithSecretAndSeed(secret, seed), input) == f.short128(input, DefaultSecret(), seed)
    ensures |input| > 240 ==>
      && Hash128(f, Default, input) == Long128(f, input, DefaultSecret())
      && Hash128(f, WithSecret(secret), input) == Long128(f, input, secret)
      && Hash128(f, WithSeed(seed), input) == Long128(f, input, DerivedSecret(seed))
      && Hash128(f, WithSecretAndSeed(secret, seed), input) == Long128(f, input, secret)
  {
    hide LongLanes, FinalizeLong64, DerivedSecret, DefaultSecret;
    ZeroSeed();
  }

  function Long(f: Kernels, input: seq<byte>, secret: Secret): u64
    requires 240 < |input| < TWO64
  {
    f.finalize64(LongLanes(f, input, secret), secret, |input|)
  }

  function Long128(f: Kernels, input: seq<byte>, secret: Secret): U128
    requires 240 < |input| < TWO64
  {
    f.finalize128(LongLanes(f, input, secret), secret, |input|)
  }
}
