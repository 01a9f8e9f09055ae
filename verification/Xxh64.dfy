/** XXH64: the one-shot hash and the streaming state that must agree with it. */
module Xxh64 {
  import opened Words
  import opened Invertible

  const PRIME64_1: u64 := 0x9E37_79B1_85EB_CA87
  const PRIME64_2: u64 := 0xC2B2_AE3D_27D4_EB4F
  const PRIME64_3: u64 := 0x1656_67B1_9E37_79F9
  const PRIME64_4: u64 := 0x85EB_CA77_C2B2_AE63
  const PRIME64_5: u64 := 0x27D4_EB2F_1656_67C5

  type Lanes = s: seq<u64> | |s| == 4 witness [0, 0, 0, 0]

  type Stripe = s: seq<byte> | |s| == 32 witness seq(32, _ => 0)

  function Round(acc: u64, input: u64): u64 {
    Mul64(Rotl64(Add64(acc, Mul64(input, PRIME64_2)), 31), PRIME64_1)
  }

  function InitAccs(seed: u64): Lanes {
    [Add64(Add64(seed, PRIME64_1), PRIME64_2), Add64(seed, PRIME64_2), seed, (seed as int - PRIME64_1) % TWO64]
  }

  function StripeAt(data: seq<byte>, i: nat): Stripe
    requires 32 * i + 32 <= |data|
  {
    data[32 * i..32 * i + 32]
  }

  /** One 32-byte stripe: every lane takes its own eight bytes. */
  function StripeRound(acc: Lanes, stripe: Stripe): Lanes {
    seq(4, j requires 0 <= j < 4 => Round(acc[j], ReadLE64(stripe, 8 * j)))
  }

  /** The lanes after the first n stripes of `data`. */
  function Fold(acc: Lanes, data: seq<byte>, n: nat): Lanes
    requires 32 * n <= |data|
  {
    if n == 0 then acc else StripeRound(Fold(acc, data, n - 1), StripeAt(data, n - 1))
  }

  lemma {:induction false} FoldComposes(acc: Lanes, data: seq<byte>, a: nat, b: nat)
    requires 32 * (a + b) <= |data|
    ensures Fold(Fold(acc, data, a), data[32 * a..], b) == Fold(acc, data, a + b)
  {
    hide StripeRound;
    if b > 0 {
      FoldComposes(acc, data, a, b - 1);
      assert StripeAt(data[32 * a..], b - 1) == StripeAt(data, a + b - 1);
    }
  }

  lemma {:induction false} FoldPrefix(acc: Lanes, x: seq<byte>, y: seq<byte>, n: nat)
    requires 32 * n <= |x| && 32 * n <= |y| && x[..32 * n] == y[..32 * n]
    ensures Fold(acc, x, n) == Fold(acc, y, n)
  {
    hide StripeRound;
    if n > 0 {
      assert x[..32 * (n - 1)] == x[..32 * n][..32 * (n - 1)] == y[..32 * (n - 1)];
      FoldPrefix(acc, x, y, n - 1);
      assert StripeAt(x, n - 1) == x[..32 * n][32 * (n - 1)..] == StripeAt(y, n - 1);
    }
  }

  /** A chunk that continues `whole` after `c` stripes continues the fold. */
  lemma ContinueFold(acc: Lanes, whole: seq<byte>, c: nat, chunk: seq<byte>, n: nat)
    requires 32 * (c + n) <= |whole| && 32 * n <= |chunk|
    requires chunk[..32 * n] == whole[32 * c..32 * c + 32 * n]
    ensures Fold(Fold(acc, whole, c), chunk, n) == Fold(acc, whole, c + n)
  {
    hide Fold, StripeRound;
    FoldComposes(acc, whole, c, n);
    assert whole[32 * c..][..32 * n] == whole[32 * c..32 * c + 32 * n];
    FoldPrefix(Fold(acc, whole, c), chunk, whole[32 * c..], n);
  }

  function MergeRound(acc: u64, val: u64): u64 {
    Add64(Mul64(Xor64(acc, Round(0, val)), PRIME64_1), PRIME64_4)
  }

  function MergeAccs(acc: Lanes): u64 {
    var h := Add64(Add64(Add64(Rotl64(acc[0], 1), Rotl64(acc[1], 7)), Rotl64(acc[2], 12)), Rotl64(acc[3], 18));
    MergeRound(MergeRound(MergeRound(MergeRound(h, acc[0]), acc[1]), acc[2]), acc[3])
  }

  function Mix8(hash: u64, word: u64): u64 {
    Add64(Mul64(Rotl64(Xor64(hash, Round(0, word)), 27), PRIME64_1), PRIME64_4)
  }

  function Mix4(hash: u64, word: u32): u64 {
    Add64(Mul64(Rotl64(Xor64(hash, Mul64(word, PRIME64_1)), 23), PRIME64_2), PRIME64_3)
  }

  function Mix1(hash: u64, b: byte): u64 {
    Mul64(Rotl64(Xor64(hash, Mul64(b as int, PRIME64_5)), 11), PRIME64_1)
  }

  function Avalanche(hash: u64): u64 {
    var h1 := Mul64(XorShift(hash, 0x2_0000_0000), PRIME64_2);
    var h2 := Mul64(XorShift(h1, 0x2000_0000), PRIME64_3);
    XorShift(h2, 0x1_0000_0000)
  }

  function XorShift(x: u64, divisor: nat): u64
    requires divisor >= 1
  {
    QuotientBound(x, divisor);
    Xor64(x, x / divisor)
  }

  /** The tail byte by byte. */
  function TailBytes(hash: u64, tail: seq<byte>): u64
    decreases |tail|
  {
    hide Mix1;
    if tail == [] then hash else TailBytes(Mix1(hash, tail[0]), tail[1..])
  }

  /** The tail in words of eight bytes, then at most one word of four, then bytes. */
  function Tail(hash: u64, tail: seq<byte>): u64
    decreases |tail|
  {
    hide Mix8, Mix4, ReadLE64, ReadLE32;
    if |tail| >= 8 then Tail(Mix8(hash, ReadLE64(tail, 0)), tail[8..])
    else if |tail| >= 4 then TailBytes(Mix4(hash, ReadLE32(tail, 0)), tail[4..])
    else TailBytes(hash, tail)
  }

  /** The hash of an input; a length of 2^64 or more would enter modulo 2^64. */
  function Hash(seed: u64, input: seq<byte>): u64 {
    var n := |input| / 32;
    var start := if |input| >= 32 then MergeAccs(Fold(InitAccs(seed), input, n)) else Add64(seed, PRIME64_5);
    Avalanche(Tail(Add64(start, Wrap64(|input|)), input[32 * n..]))
  }

  /** What the streaming digest computes: it tells short from long inputs by the total
      length modulo 2^64. */
  function Streamed(seed: u64, input: seq<byte>): u64 {
    var n := |input| / 32;
    var acc := Fold(InitAccs(seed), input, n);
    var start := if Wrap64(|input|) >= 32 then MergeAccs(acc) else Add64(acc[2], PRIME64_5);
    Avalanche(Tail(Add64(start, Wrap64(|input|)), input[32 * n..]))
  }

  lemma MulCancel(x: u64, y: u64, m: u64)
    requires m in {PRIME64_1, PRIME64_2, PRIME64_3} && Mul64(x, m) == Mul64(y, m)
    ensures x == y
  {
    hide Mul64;
    var inverse: u64 :=
      if m == PRIME64_1 then 0x0887_4934_32BA_DB37
      else if m == PRIME64_2 then 0x0BA7_9078_168D_4BAF
      else 0xE9E9_F4C4_1D6D_F849;
    assert m * inverse % TWO64 == 1;
    MulInverse(x, m, inverse);
    MulInverse(y, m, inverse);
  }

  /** No step of the finalizer makes two hash values equal. */
  lemma MixCancel(x: u64, y: u64, word: u64, r: nat, m: u64)
    requires 0 < r < 64 && m in {PRIME64_1, PRIME64_2}
    requires Mul64(Rotl64(Xor64(x, word), r), m) == Mul64(Rotl64(Xor64(y, word), r), m)
    ensures x == y
  {
    hide Mul64, Rotl64;
    MulCancel(Rotl64(Xor64(x, word), r), Rotl64(Xor64(y, word), r), m);
    RotlCancel(Xor64(x, word), Xor64(y, word), r);
    XorCancel(x, y, word);
  }

  lemma {:induction false} TailBytesCancel(x: u64, y: u64, tail: seq<byte>)
    requires TailBytes(x, tail) == TailBytes(y, tail)
    ensures x == y
    decreases |tail|
  {
    hide Mul64, Rotl64, Xor64;
    if tail != [] {
      TailBytesCancel(Mix1(x, tail[0]), Mix1(y, tail[0]), tail[1..]);
      MixCancel(x, y, Mul64(tail[0] as int, PRIME64_5), 11, PRIME64_1);
    }
  }

  lemma Mix8Cancel(x: u64, y: u64, word: u64)
    requires Mix8(x, word) == Mix8(y, word)
    ensures x == y
  {
    hide Mul64, Rotl64, Xor64, Add64, Round;
    var k := Round(0, word);
    AddCancel(Mul64(Rotl64(Xor64(x, k), 27), PRIME64_1), Mul64(Rotl64(Xor64(y, k), 27), PRIME64_1), PRIME64_4);
    MixCancel(x, y, k, 27, PRIME64_1);
  }

  lemma Mix4Cancel(x: u64, y: u64, word: u32)
    requires Mix4(x, word) == Mix4(y, word)
    ensures x == y
  {
    hide Mul64, Rotl64, Xor64, Add64;
    var k := Mul64(word, PRIME64_1);
    AddCancel(Mul64(Rotl64(Xor64(x, k), 23), PRIME64_2), Mul64(Rotl64(Xor64(y, k), 23), PRIME64_2), PRIME64_3);
    MixCancel(x, y, k, 23, PRIME64_2);
  }

  lemma {:induction false} TailCancel(x: u64, y: u64, tail: seq<byte>)
    requires Tail(x, tail) == Tail(y, tail)
    ensures x == y
    decreases |tail|
  {
    hide Mix8, Mix4, TailBytes, ReadLE64, ReadLE32;
    if |tail| >= 8 {
      var word := ReadLE64(tail, 0);
      TailCancel(Mix8(x, word), Mix8(y, word), tail[8..]);
      Mix8Cancel(x, y, word);
    } else if |tail| >= 4 {
      var word := ReadLE32(tail, 0);
      TailBytesCancel(Mix4(x, word), Mix4(y, word), tail[4..]);
      Mix4Cancel(x, y, word);
    } else {
      TailBytesCancel(x, y, tail);
    }
  }

  lemma AvalancheCancel(x: u64, y: u64)
    requires Avalanche(x) == Avalanche(y)
    ensures x == y
  {
    hide Mul64, Xor;
    var x1, y1 := Mul64(XorShift(x, 0x2_0000_0000), PRIME64_2), Mul64(XorShift(y, 0x2_0000_0000), PRIME64_2);
    var x2, y2 := Mul64(XorShift(x1, 0x2000_0000), PRIME64_3), Mul64(XorShift(y1, 0x2000_0000), PRIME64_3);
    XorShiftCancel(x2, y2, 0x1_0000_0000);
    MulCancel(XorShift(x1, 0x2000_0000), XorShift(y1, 0x2000_0000), PRIME64_3);
    XorShiftCancel(x1, y1, 0x2000_0000);
    MulCancel(XorShift(x, 0x2_0000_0000), XorShift(y, 0x2_0000_0000), PRIME64_2);
    XorShiftCancel(x, y, 0x2_0000_0000);
  }

  /** A long input looks short after its total wrapped, and its lanes do not happen to
      merge to what the digest then uses in their place. */
  predicate LooksShort(seed: u64, input: seq<byte>) {
    var acc := Fold(InitAccs(seed), input, |input| / 32);
    |input| >= 32 && Wrap64(|input|) < 32 && MergeAccs(acc) != Add64(acc[2], PRIME64_5)
  }

  /** The streamed value is the one-shot hash exactly for all other inputs: nothing that
      is mixed in afterwards can make up for the difference. */
  lemma StreamedIsHash(seed: u64, input: seq<byte>)
    ensures Streamed(seed, input) == Hash(seed, input) <==> !LooksShort(seed, input)
  {
    hide MergeAccs, Tail, Avalanche, StripeRound, Fold, Wrap64, InitAccs, Add64;
    var n := |input| / 32;
    if |input| < 32 {
      WrapSmall(|input|);
      SeedLane(seed, input);
    } else if Wrap64(|input|) < 32 && Streamed(seed, input) == Hash(seed, input) {
      var acc, total := Fold(InitAccs(seed), input, n), Wrap64(|input|);
      var s, h := Add64(acc[2], PRIME64_5), MergeAccs(acc);
      AvalancheCancel(Tail(Add64(s, total), input[32 * n..]), Tail(Add64(h, total), input[32 * n..]));
      TailCancel(Add64(s, total), Add64(h, total), input[32 * n..]);
      AddCancel(s, h, total);
    }
  }

  /** A word that turns a lane into 0. */
  function Cancelling(acc: u64): u64 {
    Mul64((TWO64 - acc) % TWO64, 0x0BA7_9078_168D_4BAF)
  }

  lemma LaneIsCancelled(acc: u64)
    ensures Round(acc, Cancelling(acc)) == 0
  {
    hide Mul64;
    assert 0x0BA7_9078_168D_4BAF * PRIME64_2 % TWO64 == 1;
    MulInverse((TWO64 - acc) % TWO64, 0x0BA7_9078_168D_4BAF, PRIME64_2);
    assert Add64(acc, (TWO64 - acc) % TWO64) == 0;
    ZeroStays();
  }

  lemma ZeroStays()
    ensures Rotl64(0, 31) == 0 && forall m: u64 :: Mul64(0, m) == 0
  {
    RotatedZero(31);
  }

  lemma RotatedZero(r: nat)
    requires 0 < r < 64
    ensures Rotl64(0, r) == 0
  {
    hide Rotl64, Pow2;
    RotlParts(0, r);
  }

  lemma MergeZero(h: u64)
    ensures MergeRound(h, 0) == Add64(Mul64(h, PRIME64_1), PRIME64_4)
  {
    hide Rotl64, Xor64, Mul64;
    XorNothing(h);
    ZeroStays();
    assert Round(0, 0) == 0;
  }

  lemma ZeroRotations()
    ensures Rotl64(0, 1) == Rotl64(0, 7) == Rotl64(0, 12) == Rotl64(0, 18) == 0
  {
    hide Rotl64;
    RotatedZero(1);
    RotatedZero(7);
    RotatedZero(12);
    RotatedZero(18);
  }

  lemma MergeZeroIs(h: u64, quotient: nat, r: u64)
    requires h * PRIME64_1 + PRIME64_4 == TWO64 * quotient + r
    ensures MergeRound(h, 0) == r
  {
    hide MergeRound;
    MergeZero(h);
    AddMod64(h * PRIME64_1, PRIME64_4);
    ModUnique(h * PRIME64_1 + PRIME64_4, TWO64, quotient, r);
  }

  lemma ZeroLanesMerge()
    ensures MergeAccs([0, 0, 0, 0]) == 0x39A1_C7C2_79A3_49B0 != PRIME64_5
  {
    hide Rotl64, MergeRound;
    ZeroRotations();
    MergeZeroIs(0, 0, PRIME64_4);
    MergeZeroIs(PRIME64_4, 0x52C4_8C47_BAAD_8D6E, 0xEA58_FB52_F067_C298);
    MergeZeroIs(0xEA58_FB52_F067_C298, 0x90D5_B3A1_C019_BC04, 0xFE8F_BF57_027E_3C8B);
    MergeZeroIs(0xFE8F_BF57_027E_3C8B, 0x9D53_E1FC_473A_0394, 0x39A1_C7C2_79A3_49B0);
  }

  lemma {:induction false} XorNone(x: nat)
    ensures Xor(x, 0) == x
  {
    if x > 0 {
      XorNone(x / 2);
    }
  }

  lemma XorNothing(x: u64)
    ensures Xor64(x, 0) == x
  {
    hide Xor;
    XorNone(x);
  }

  /** The stripe after which all lanes are 0. */
  function CancellingStripe(acc: Lanes): (s: Stripe) {
    WriteLE64(Cancelling(acc[0])) + WriteLE64(Cancelling(acc[1])) + WriteLE64(Cancelling(acc[2]))
      + WriteLE64(Cancelling(acc[3]))
  }

  lemma StripeIsCancelled(acc: Lanes)
    ensures StripeRound(acc, CancellingStripe(acc)) == [0, 0, 0, 0]
  {
    hide Cancelling, Round, WriteLE64, ReadLE64;
    var s := CancellingStripe(acc);
    forall j | 0 <= j < 4
      ensures Round(acc[j], ReadLE64(s, 8 * j)) == 0
    {
      var w := WriteLE64(Cancelling(acc[j]));
      assert forall k :: 0 <= k < 8 ==> s[8 * j + k] == w[k];
      ReadBack(s, 8 * j, w, Cancelling(acc[j]));
      LaneIsCancelled(acc[j]);
    }
  }

  lemma ReadBack(s: seq<byte>, at: nat, w: seq<byte>, x: u64)
    requires at + 8 <= |s| && w == WriteLE64(x) && forall k :: 0 <= k < 8 ==> s[at + k] == w[k]
    ensures ReadLE64(s, at) == x
  {
    hide WriteLE32, ReadLE32;
    WriteReadLE32(Lo32(x));
    WriteReadLE32(Hi32(x));
    var low, high := WriteLE32(Lo32(x)), WriteLE32(Hi32(x));
    forall k | 0 <= k < 4
      ensures s[at + k] == low[k] && s[at + 4 + k] == high[k]
    {
      assert s[at + k] == w[k] && s[at + (4 + k)] == w[4 + k];
    }
    SameWord(s, at, low);
    SameWord(s, at + 4, high);
  }

  lemma SameWord(s: seq<byte>, at: nat, w: seq<byte>)
    requires at + 4 <= |s| && |w| == 4 && forall k :: 0 <= k < 4 ==> s[at + k] == w[k]
    ensures ReadLE32(s, at) == ReadLE32(w, 0)
  {
    assert s[at + 0] == w[0];
  }

  /** For every seed there is an input of 2^64 bytes that streaming hashes wrongly. */
  lemma WrongHashExists(seed: u64) returns (input: seq<byte>)
    ensures |input| == TWO64 && LooksShort(seed, input) && Streamed(seed, input) != Hash(seed, input)
  {
    hide Fold, StripeRound, MergeAccs, Streamed, Hash, CancellingStripe;
    var n := TWO64 / 32 - 1;
    var zeros := seq<byte>(32 * n, _ => 0);
    var acc := Fold(InitAccs(seed), zeros, n);
    input := zeros + CancellingStripe(acc);
    FoldPrefix(InitAccs(seed), input, zeros, n);
    FoldStep(InitAccs(seed), input, n);
    assert StripeAt(input, n) == CancellingStripe(acc);
    StripeIsCancelled(acc);
    ZeroLanesMerge();
    StreamedIsHash(seed, input);
  }

  lemma FoldStep(acc: Lanes, data: seq<byte>, n: nat)
    requires 32 * (n + 1) <= |data|
    ensures Fold(acc, data, n + 1) == StripeRound(Fold(acc, data, n), StripeAt(data, n))
  {
  }

  lemma WrapSmall(n: nat)
    requires n < 32
    ensures Wrap64(n) == n && n / 32 == 0
  {
  }

  /** Consumes every full stripe of at least one, in place. */
  method ConsumeLong(acc: array<u64>, input: seq<byte>) returns (consumed: nat)
    requires acc.Length == 4 && |input| >= 32
    modifies acc
    ensures acc[..] == Fold(old(acc[..]), input, |input| / 32)
    ensures consumed == 32 * (|input| / 32)
  {
    hide StripeRound;
    ghost var n := 0;
    consumed := 0;
    while consumed == 0 || consumed < |input| - 31
      invariant consumed == 32 * n <= |input|
      invariant acc[..] == Fold(old(acc[..]), input, n)
      decreases |input| - consumed
    {
      RoundInPlace(acc, input[consumed..consumed + 32]);
      consumed, n := consumed + 32, n + 1;
    }
  }

  method RoundInPlace(acc: array<u64>, stripe: Stripe)
    requires acc.Length == 4
    modifies acc
    ensures acc[..] == StripeRound(old(acc[..]), stripe)
  {
    hide Round, ReadLE64;
    for i := 0 to 4
      invariant forall j :: 0 <= j < 4 ==>
        acc[j] == if j < i then Round(old(acc[j]), ReadLE64(stripe, 8 * j)) else old(acc[j])
    {
      acc[i] := Round(acc[i], ReadLE64(stripe, 8 * i));
    }
  }

  method Finalize(hash: u64, ptr: seq<byte>, len: nat) returns (h: u64)
    requires len % 32 <= |ptr|
    ensures h == Avalanche(Tail(hash, ptr[..len % 32]))
  {
    hide Mix8, Mix4, Mix1, Avalanche, ReadLE64, ReadLE32;
    var left := len % 32;
    var p := 0;
    h := hash;
    ghost var tail := ptr[..left];
    while left >= 8
      invariant p + left == |tail| && Tail(hash, tail) == Tail(h, tail[p..])
    {
      assert ReadLE64(ptr, p) == ReadLE64(tail[p..], 0) by { SliceRead64(ptr, tail, p); }
      assert tail[p..][8..] == tail[p + 8..];
      h := Mix8(h, ReadLE64(ptr, p));
      p, left := p + 8, left - 8;
    }
    if left >= 4 {
      assert ReadLE32(ptr, p) == ReadLE32(tail[p..], 0) by { SliceRead32(ptr, tail, p); }
      assert tail[p..][4..] == tail[p + 4..];
      h := Mix4(h, ReadLE32(ptr, p));
      p, left := p + 4, left - 4;
    }
    assert Tail(hash, tail) == TailBytes(h, tail[p..]);
    while left > 0
      invariant p + left == |tail| && Tail(hash, tail) == TailBytes(h, tail[p..])
    {
      assert tail[p..][1..] == tail[p + 1..];
      h := Mix1(h, ptr[p]);
      p, left := p + 1, left - 1;
    }
    h := Avalanche(h);
  }

  lemma SliceRead64(ptr: seq<byte>, tail: seq<byte>, p: nat)
    requires tail <= ptr && p + 8 <= |tail|
    ensures ReadLE64(ptr, p) == ReadLE64(tail[p..], 0)
  {
  }

  method OneShot(input: seq<byte>, seed: u64) returns (h: u64)
    ensures h == Hash(seed, input)
  {
    hide Fold, MergeAccs, Tail, Avalanche, InitAccs;
    var rest := input;
    if |input| >= 32 {
      var acc := new u64[4];
      SetLanes(acc, InitAccs(seed));
      var consumed := ConsumeLong(acc, input);
      rest := input[consumed..];
      h := MergeAccs(acc[..]);
    } else {
      h := Add64(seed, PRIME64_5);
    }
    h := Add64(h, Wrap64(|input|));
    assert rest[..|input| % 32] == input[32 * (|input| / 32)..];
    h := Finalize(h, rest, |input|);
  }

  method Clear(buffer: array<byte>)
    modifies buffer
    ensures forall i :: 0 <= i < buffer.Length ==> buffer[i] == 0
  {
    for i := 0 to buffer.Length
      invariant forall j :: 0 <= j < i ==> buffer[j] == 0
    {
      buffer[i] := 0;
    }
  }

  method SetLanes(acc: array<u64>, lanes: Lanes)
    requires acc.Length == 4
    modifies acc
    ensures acc[..] == lanes
  {
    for i := 0 to 4
      invariant acc[..i] == lanes[..i]
    {
      acc[i] := lanes[i];
    }
  }

  // ----- streaming -----

  /** With `c` stripes of `fed` folded, the buffer holds the rest. */
  ghost predicate Buffered(buf: seq<byte>, size: nat, fed: seq<byte>, c: nat) {
    && |buf| == 32 && size < 32
    && |fed| == 32 * c + size
    && buf[..size] == fed[32 * c..]
  }

  class Xxh64State {
    const acc: array<u64>
    const buffer: array<byte>
    var totalLen: u64
    var bufferedSize: nat

    ghost var seed: u64
    ghost var fed: seq<byte>
    ghost var folded: nat  // stripes of `fed` already in `acc`

    ghost predicate Valid()
      reads this, acc, buffer
    {
      && acc.Length == 4 && buffer.Length == 32
      && totalLen == Wrap64(|fed|)
      && Buffered(buffer[..], bufferedSize, fed, folded)
      && acc[..] == Fold(InitAccs(seed), fed, folded)
    }

    constructor ()
      ensures fresh(acc) && fresh(buffer) && acc.Length == 4 && buffer.Length == 32
    {
      acc := new u64[4];
      buffer := new byte[32];
    }

    method Reset(seed: u64)
      requires acc.Length == 4 && buffer.Length == 32
      modifies `totalLen, `bufferedSize, `seed, `fed, `folded, acc, buffer
      ensures Valid() && this.seed == seed && fed == []
    {
      hide InitAccs, Fold, Buffered, Wrap64;
      Wrap64Add(0, 0);
      Clear(buffer);
      totalLen, bufferedSize := 0, 0;
      SetLanes(acc, InitAccs(seed));
      this.seed, fed, folded := seed, [], 0;
      EmptyInput(InitAccs(seed), buffer[..], fed);
    }

    method Update(input: seq<byte>)
      requires Valid()
      modifies `totalLen, `bufferedSize, `fed, `folded, acc, buffer
      ensures Valid() && fed == old(fed) + input
    {
      hide InitAccs, Fold, Buffered, Wrap64;
      Wrap64Add(|fed|, |input|);
      totalLen := (totalLen + |input|) % TWO64;
      if |input| < 32 - bufferedSize {
        FillBuffer(input);
        return;
      }
      UpdateLarge(input);
    }

    method FillBuffer(input: seq<byte>)
      requires buffer.Length == 32 && Buffered(buffer[..], bufferedSize, fed, folded) && |input| < 32 - bufferedSize
      requires acc.Length == 4 && acc[..] == Fold(InitAccs(seed), fed, folded)
      modifies `bufferedSize, `fed, buffer
      ensures Buffered(buffer[..], bufferedSize, fed, folded) && fed == old(fed) + input
      ensures acc[..] == Fold(InitAccs(seed), fed, folded)
    {
      hide InitAccs, Fold;
      MoreInput(InitAccs(seed), buffer[..], bufferedSize, fed, folded, input);
      ghost var filled := buffer[..][..bufferedSize] + input + buffer[..][bufferedSize + |input|..];
      Memcpy(buffer, bufferedSize, input);
      assert buffer[..] == filled;
      bufferedSize := bufferedSize + |input|;
      fed := fed + input;
    }

    /** Completes a partly filled buffer and folds it; `c` stripes of `all` are then
        folded and input[pos..] is left. */
    method DrainBuffer(input: seq<byte>, ghost all: seq<byte>) returns (pos: nat, ghost c: nat)
      requires acc.Length == 4 && buffer.Length == 32 && all == fed + input
      requires Buffered(buffer[..], bufferedSize, fed, folded) && |input| >= 32 - bufferedSize
      requires acc[..] == Fold(InitAccs(seed), fed, folded)
      modifies `bufferedSize, acc, buffer
      ensures pos <= |input| && 32 * c <= |all| && input[pos..] == all[32 * c..] && bufferedSize == 0
      ensures acc[..] == Fold(InitAccs(seed), all, c)
    {
      hide InitAccs, StripeRound, Fold;
      c := folded;
      pos := 0;
      MoreStripes(InitAccs(seed), fed, input, c);
      if bufferedSize > 0 {
        CompletedBuffer(buffer[..], bufferedSize, fed, folded, input);
        pos := 32 - bufferedSize;
        Memcpy(buffer, bufferedSize, input[..pos]);
        assert buffer[..] == all[32 * c..32 * c + 32];
        ContinueFold(InitAccs(seed), all, c, buffer[..], 1);
        var _ := ConsumeLong(acc, buffer[..]);
        bufferedSize, c := 0, c + 1;
      }
    }

    /** The part of an update that completes at least one stripe. */
    method UpdateLarge(input: seq<byte>)
      requires acc.Length == 4 && buffer.Length == 32
      requires Buffered(buffer[..], bufferedSize, fed, folded) && |input| >= 32 - bufferedSize
      requires acc[..] == Fold(InitAccs(seed), fed, folded)
      modifies `bufferedSize, `fed, `folded, acc, buffer
      ensures Buffered(buffer[..], bufferedSize, fed, folded) && fed == old(fed) + input
      ensures acc[..] == Fold(InitAccs(seed), fed, folded)
    {
      hide InitAccs, StripeRound, Fold;
      ghost var all := fed + input;
      var pos, c := DrainBuffer(input, all);
      if |input| - pos >= 32 {
        ghost var n := (|input| - pos) / 32;
        ContinueFold(InitAccs(seed), all, c, input[pos..], n);
        var consumed := ConsumeLong(acc, input[pos..]);
        pos, c := pos + consumed, c + n;
      }
      assert input[pos..] == all[32 * c..];
      if pos < |input| {
        KeepRest(input[pos..]);
      }
      fed, folded := all, c;
    }

    method KeepRest(rest: seq<byte>)
      requires buffer.Length == 32 && |rest| < 32
      modifies `bufferedSize, buffer
      ensures bufferedSize == |rest| && buffer[..][..|rest|] == rest
    {
      Memcpy(buffer, 0, rest);
      bufferedSize := |rest|;
    }

    /** Agrees with the one-shot hash exactly as long as the wrapped length does not
        make the input look short. */
    method Digest() returns (h: u64)
      requires Valid()
      ensures h == Streamed(seed, fed)
      ensures h == Hash(seed, fed) <==> !LooksShort(seed, fed)
    {
      hide MergeAccs, Tail, Avalanche, StripeRound, Fold, Hash, InitAccs;
      assert folded == |fed| / 32 && bufferedSize == |fed| % 32;
      StreamedIsHash(seed, fed);
      if totalLen >= 32 {
        h := MergeAccs(acc[..]);
      } else {
        h := Add64(acc[2], PRIME64_5);
      }
      h := Add64(h, totalLen);
      assert totalLen % 32 == |fed| % 32 by { WrapKeepsResidue(|fed|); }
      h := Finalize(h, buffer[..], totalLen);
    }
  }

  lemma EmptyInput(acc: Lanes, buf: seq<byte>, fed: seq<byte>)
    requires |buf| == 32 && |fed| == 0
    ensures Buffered(buf, 0, fed, 0) && Fold(acc, fed, 0) == acc
  {
  }

  /** While no stripe was consumed, the third lane still is the seed. */
  lemma SeedLane(seed: u64, fed: seq<byte>)
    requires |fed| < 32
    ensures Fold(InitAccs(seed), fed, 0)[2] == seed
  {
  }

  lemma WrapKeepsResidue(n: nat)
    ensures n % TWO64 % 32 == n % 32
  {
    var q := n / TWO64;
    assert n == 32 * (q * 0x800_0000_0000_0000) + n % TWO64;
  }

  lemma MoreStripes(acc: Lanes, fed: seq<byte>, input: seq<byte>, c: nat)
    requires 32 * c <= |fed|
    ensures Fold(acc, fed + input, c) == Fold(acc, fed, c)
  {
    assert (fed + input)[..32 * c] == fed[..32 * c];
    FoldPrefix(acc, fed, fed + input, c);
  }

  /** Input that does not complete a stripe only joins the buffer. */
  lemma MoreInput(acc: Lanes, buf: seq<byte>, size: nat, fed: seq<byte>, c: nat, input: seq<byte>)
    requires Buffered(buf, size, fed, c) && size + |input| < 32
    ensures Buffered(buf[..size] + input + buf[size + |input|..], size + |input|, fed + input, c)
    ensures Fold(acc, fed + input, c) == Fold(acc, fed, c)
  {
    MoreStripes(acc, fed, input, c);
    assert (fed + input)[32 * c..] == fed[32 * c..] + input;
  }

  lemma CompletedBuffer(buf: seq<byte>, size: nat, fed: seq<byte>, c: nat, input: seq<byte>)
    requires Buffered(buf, size, fed, c) && size + |input| >= 32
    ensures buf[..size] + input[..32 - size] == (fed + input)[32 * c..32 * c + 32]
    ensures (fed + input)[32 * c + 32..] == input[32 - size..]
  {
  }

  /** A whole run: any split of the input into updates hashes like the one-shot call. */
  method HashInPieces(seed: u64, pieces: seq<seq<byte>>) returns (h: u64)
    ensures |Flatten(pieces)| < TWO64 ==> h == Hash(seed, Flatten(pieces))
    ensures h == Hash(seed, Flatten(pieces)) <==> !LooksShort(seed, Flatten(pieces))
  {
    hide Hash, Fold, InitAccs, MergeAccs;
    var state := new Xxh64State();
    state.Reset(seed);
    for i := 0 to |pieces|
      invariant fresh(state) && fresh(state.acc) && fresh(state.buffer)
      invariant state.Valid() && state.seed == seed && state.fed == Flatten(pieces[..i])
    {
      assert pieces[..i + 1] == pieces[..i] + [pieces[i]];
      state.Update(pieces[i]);
    }
    assert pieces[..|pieces|] == pieces;
    assert state.fed == Flatten(pieces);
    assert |state.fed| < TWO64 ==> Wrap64(|state.fed|) == |state.fed|;
    h := state.Digest();
  }
}
