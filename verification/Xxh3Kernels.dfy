/** The two XXH3 kernels: folding one 64-byte stripe into the eight accumulator
    lanes, and scrambling the lanes at the end of a block. Each kernel is stated
    once as a function on lanes, and refined by the scalar in-place loop and by
    the SSE2 loop over 128-bit registers. */
module Xxh3Kernels {
  import opened Words
  import opened Mult128

  const PRIME32_1: u32 := 0x9E37_79B1

  type Lanes = s: seq<u64> | |s| == 8 witness [0, 0, 0, 0, 0, 0, 0, 0]

  type Stripe = s: seq<byte> | |s| == 64 witness seq(64, _ => 0)

  datatype Kernel = Scalar | Sse2

  /** `lane ^ 1` */
  function Neighbour(lane: nat): (r: nat)
    requires lane < 8
    ensures r < 8 && r != lane
  {
    if lane % 2 == 0 then lane + 1 else lane - 1
  }

  function Data(input: Stripe, j: nat): u64
    requires j < 8
  {
    ReadLE64(input, 8 * j)
  }

  function DataKey(input: Stripe, secret: Stripe, j: nat): u64
    requires j < 8
  {
    Xor64(ReadLE64(input, 8 * j), ReadLE64(secret, 8 * j))
  }

  function Product(input: Stripe, secret: Stripe, j: nat): u64
    requires j < 8
  {
    Mult32To64(Lo32(DataKey(input, secret, j)), Hi32(DataKey(input, secret, j)))
  }

  function DataWords(input: Stripe): Lanes {
    seq(8, j requires 0 <= j < 8 => Data(input, j))
  }

  function Products(input: Stripe, secret: Stripe): Lanes {
    seq(8, j requires 0 <= j < 8 => Product(input, secret, j))
  }

  /** A lane that has taken its neighbour's data, its product, both or neither. */
  function Gain(x: u64, d: u64, p: u64, hasData: bool, hasProduct: bool): u64 {
    (x + (if hasData then d else 0) as int + (if hasProduct then p else 0) as int) % TWO64
  }

  function Mix(acc: Lanes, data: Lanes, products: Lanes): Lanes {
    seq(8, j requires 0 <= j < 8 => Gain(acc[j], data[Neighbour(j)], products[j], true, true))
  }

  /** All lanes change at once: each gains its neighbour's data and the product of
      the two halves of its own keyed data. */
  function Accumulate512(acc: Lanes, input: Stripe, secret: Stripe): Lanes {
    Mix(acc, DataWords(input), Products(input, secret))
  }

  function ScrambleLane(lane: u64, key: u64): u64 {
    QuotientBound(lane, 0x8000_0000_0000);
    Mul64(Xor64(Xor64(lane, lane / 0x8000_0000_0000), key), PRIME32_1)
  }

  function Scramble(acc: Lanes, secret: Stripe): Lanes {
    seq(8, j requires 0 <= j < 8 => ScrambleLane(acc[j], ReadLE64(secret, 8 * j)))
  }

  // ----- scalar -----

  /** The lanes after the first `i` scalar rounds. */
  ghost predicate AfterRounds(before: Lanes, data: Lanes, products: Lanes, now: Lanes, i: nat) {
    forall j :: 0 <= j < 8 ==>
      now[j] == Gain(before[j], data[Neighbour(j)], products[j], Neighbour(j) < i, j < i)
  }

  /** A scalar round on `lane`: its neighbour takes the data, the lane takes the product. */
  function OneRound(now: Lanes, d: u64, p: u64, lane: nat): Lanes
    requires lane < 8
  {
    now[Neighbour(lane) := Add64(now[Neighbour(lane)], d)][lane := Add64(p, now[lane])]
  }

  /** What round `i` does to lane `j`, whose neighbour is `n`. */
  lemma GainRound(x: u64, d: u64, p: u64, i: nat, j: nat, n: nat)
    requires j != n
    ensures Gain(x, d, p, n < i + 1, j < i + 1) ==
      if j == i then Add64(p, Gain(x, d, p, n < i, false))
      else if n == i then Add64(Gain(x, d, p, false, j < i), d)
      else Gain(x, d, p, n < i, j < i)
  {
    if j == i {
      AddMod64(x + (if n < i then d else 0) as int, p);
    } else if n == i {
      AddMod64(x + (if j < i then p else 0) as int, d);
    }
  }

  lemma RoundStep(before: Lanes, data: Lanes, products: Lanes, now: Lanes, i: nat)
    requires i < 8 && AfterRounds(before, data, products, now, i)
    ensures AfterRounds(before, data, products, OneRound(now, data[i], products[i], i), i + 1)
  {
    var after := OneRound(now, data[i], products[i], i);
    forall j | 0 <= j < 8
      ensures after[j] == Gain(before[j], data[Neighbour(j)], products[j], Neighbour(j) < i + 1, j < i + 1)
    {
      GainRound(before[j], data[Neighbour(j)], products[j], i, j, Neighbour(j));
      assert now[j] == Gain(before[j], data[Neighbour(j)], products[j], Neighbour(j) < i, j < i);
    }
  }

  method ScalarRound(acc: array<u64>, input: Stripe, secret: Stripe, lane: nat)
    requires acc.Length == 8 && lane < 8
    modifies acc
    ensures acc[..] == OneRound(old(acc[..]), DataWords(input)[lane], Products(input, secret)[lane], lane)
  {
    var dataVal := ReadLE64(input, 8 * lane);
    var dataKey := Xor64(dataVal, ReadLE64(secret, 8 * lane));
    var swapped := Neighbour(lane);
    acc[swapped] := Add64(acc[swapped], dataVal);
    acc[lane] := Add64(Mult32To64(Lo32(dataKey), Hi32(dataKey)), acc[lane]);
  }

  lemma RoundsDone(before: Lanes, data: Lanes, products: Lanes, now: Lanes)
    ensures AfterRounds(before, data, products, before, 0)
    ensures AfterRounds(before, data, products, now, 8) ==> now == Mix(before, data, products)
  {
  }

  /** The sequential in-place loop computes the simultaneous kernel. */
  method Accumulate512Scalar(acc: array<u64>, input: Stripe, secret: Stripe)
    requires acc.Length == 8
    modifies acc
    ensures acc[..] == Accumulate512(old(acc[..]), input, secret)
  {
    ghost var before: Lanes := acc[..];
    ghost var data, products := DataWords(input), Products(input, secret);
    RoundsDone(before, data, products, before);
    for i := 0 to 8
      invariant AfterRounds(before, data, products, acc[..], i)
    {
      RoundStep(before, data, products, acc[..], i);
      ScalarRound(acc, input, secret, i);
    }
    RoundsDone(before, data, products, acc[..]);
  }

  method ScrambleScalar(acc: array<u64>, secret: Stripe)
    requires acc.Length == 8
    modifies acc
    ensures acc[..] == Scramble(old(acc[..]), secret)
  {
    ghost var before: Lanes := acc[..];
    for i := 0 to 8
      invariant forall j :: 0 <= j < 8 ==>
        acc[j] == if j < i then Scramble(before, secret)[j] else before[j]
    {
      var acc64 := acc[i];
      QuotientBound(acc64, 0x8000_0000_0000);
      acc64 := Xor64(acc64, acc64 / 0x8000_0000_0000);
      acc64 := Xor64(acc64, ReadLE64(secret, 8 * i));
      acc[i] := Mul64(acc64, PRIME32_1);
    }
  }

  // ----- SSE2 -----

  /** A 128-bit register as four 32-bit elements, lowest first. */
  datatype M128 = M128(d0: u32, d1: u32, d2: u32, d3: u32) {
    function Low(): u64 { Join(d0, d1) }

    function High(): u64 { Join(d2, d3) }
  }

  function OfLanes(low: u64, high: u64): (r: M128)
    ensures r.Low() == low && r.High() == high
  {
    M128(Lo32(low), Hi32(low), Lo32(high), Hi32(high))
  }

  function LoadU(p: Stripe, i: nat): M128
    requires i < 4
  {
    M128(ReadLE32(p, 16 * i), ReadLE32(p, 16 * i + 4), ReadLE32(p, 16 * i + 8), ReadLE32(p, 16 * i + 12))
  }

  function MmXor(a: M128, b: M128): M128 {
    M128(Xor32(a.d0, b.d0), Xor32(a.d1, b.d1), Xor32(a.d2, b.d2), Xor32(a.d3, b.d3))
  }

  function MmAdd64(a: M128, b: M128): M128 {
    OfLanes(Add64(a.Low(), b.Low()), Add64(a.High(), b.High()))
  }

  /** Products of the even elements. */
  function MmMul32(a: M128, b: M128): M128 {
    OfLanes(Mult32To64(a.d0, b.d0), Mult32To64(a.d2, b.d2))
  }

  function Element(a: M128, i: nat): u32
    requires i < 4
  {
    if i == 0 then a.d0 else if i == 1 then a.d1 else if i == 2 then a.d2 else a.d3
  }

  /** `_mm_shuffle_epi32(a, _MM_SHUFFLE(z, y, x, w))` */
  function MmShuffle32(a: M128, z: nat, y: nat, x: nat, w: nat): M128
    requires z < 4 && y < 4 && x < 4 && w < 4
  {
    M128(Element(a, w), Element(a, x), Element(a, y), Element(a, z))
  }

  function MmShiftRight64By47(a: M128): M128 {
    QuotientBound(a.Low(), 0x8000_0000_0000);
    QuotientBound(a.High(), 0x8000_0000_0000);
    OfLanes(a.Low() / 0x8000_0000_0000, a.High() / 0x8000_0000_0000)
  }

  function MmShiftLeft64By32(a: M128): M128 {
    OfLanes((a.Low() * TWO32) % TWO64, (a.High() * TWO32) % TWO64)
  }

  /** Exclusive or of 64-bit words is exclusive or of their 32-bit elements. */
  lemma XorElements(a: u32, b: u32, c: u32, d: u32)
    ensures Xor64(Join(a, b), Join(c, d)) == Join(Xor32(a, c), Xor32(b, d))
  {
    Pow2Words();
    XorSplit(b, a, d, c, 32);
  }

  lemma XorLanes(a: M128, b: M128)
    ensures MmXor(a, b).Low() == Xor64(a.Low(), b.Low())
    ensures MmXor(a, b).High() == Xor64(a.High(), b.High())
  {
    XorElements(a.d0, a.d1, b.d0, b.d1);
    XorElements(a.d2, a.d3, b.d2, b.d3);
  }

  /** Register `i` after the SSE2 accumulate step. */
  function Accumulate128(xacc: M128, dataVec: M128, keyVec: M128): M128 {
    var dataKey := MmXor(dataVec, keyVec);
    var dataKeyLo := MmShuffle32(dataKey, 0, 3, 0, 1);
    var product := MmMul32(dataKey, dataKeyLo);
    var dataSwap := MmShuffle32(dataVec, 1, 0, 3, 2);
    MmAdd64(product, MmAdd64(xacc, dataSwap))
  }

  lemma AddBoth(x: u64, d: u64, p: u64)
    ensures Add64(p, Add64(x, d)) == Gain(x, d, p, true, true)
  {
  }

  /** One SSE2 register step: each 64-bit lane gains the other lane's data and the
      product of the halves of its own keyed data. */
  lemma Accumulate128Lanes(xacc: M128, d: M128, k: M128)
    ensures var r := Accumulate128(xacc, d, k);
      var low, high := Xor64(d.Low(), k.Low()), Xor64(d.High(), k.High());
      && r.Low() == Gain(xacc.Low(), d.High(), Mult32To64(Lo32(low), Hi32(low)), true, true)
      && r.High() == Gain(xacc.High(), d.Low(), Mult32To64(Lo32(high), Hi32(high)), true, true)
  {
    XorLanes(d, k);
    var dataKey := MmXor(d, k);
    AddBoth(xacc.Low(), d.High(), Mult32To64(dataKey.d0, dataKey.d1));
    AddBoth(xacc.High(), d.Low(), Mult32To64(dataKey.d2, dataKey.d3));
  }

  lemma LoadLanes(p: Stripe, i: nat)
    requires i < 4
    ensures LoadU(p, i).Low() == ReadLE64(p, 8 * (2 * i))
    ensures LoadU(p, i).High() == ReadLE64(p, 8 * (2 * i + 1))
  {
  }

  lemma LoadedWords(input: Stripe, secret: Stripe, i: nat)
    requires i < 4
    ensures var d, k := LoadU(input, i), LoadU(secret, i);
      && d.Low() == DataWords(input)[2 * i] && d.High() == DataWords(input)[2 * i + 1]
      && Xor64(d.Low(), k.Low()) == DataKey(input, secret, 2 * i)
      && Xor64(d.High(), k.High()) == DataKey(input, secret, 2 * i + 1)
  {
    LoadLanes(input, i);
    LoadLanes(secret, i);
  }

  lemma Accumulate512Lanes(acc: Lanes, input: Stripe, secret: Stripe, i: nat)
    requires i < 4
    ensures var r := Accumulate128(OfLanes(acc[2 * i], acc[2 * i + 1]), LoadU(input, i), LoadU(secret, i));
      && r.Low() == Accumulate512(acc, input, secret)[2 * i]
      && r.High() == Accumulate512(acc, input, secret)[2 * i + 1]
  {
    Accumulate128Lanes(OfLanes(acc[2 * i], acc[2 * i + 1]), LoadU(input, i), LoadU(secret, i));
    LoadedWords(input, secret, i);
    MixLanes(acc, DataWords(input), Products(input, secret), i);
  }

  lemma MixLanes(acc: Lanes, data: Lanes, products: Lanes, i: nat)
    requires i < 4
    ensures Mix(acc, data, products)[2 * i] == Gain(acc[2 * i], data[2 * i + 1], products[2 * i], true, true)
    ensures Mix(acc, data, products)[2 * i + 1] == Gain(acc[2 * i + 1], data[2 * i], products[2 * i + 1], true, true)
  {
  }

  method Accumulate512Sse2(acc: array<u64>, input: Stripe, secret: Stripe)
    requires acc.Length == 8
    modifies acc
    ensures acc[..] == Accumulate512(old(acc[..]), input, secret)
  {
    ghost var before: Lanes := acc[..];
    for i := 0 to 4
      invariant forall j :: 0 <= j < 8 ==>
        acc[j] == if j < 2 * i then Accumulate512(before, input, secret)[j] else before[j]
    {
      Accumulate512Lanes(before, input, secret, i);
      var xacc := Accumulate128(OfLanes(acc[2 * i], acc[2 * i + 1]), LoadU(input, i), LoadU(secret, i));
      acc[2 * i], acc[2 * i + 1] := xacc.Low(), xacc.High();
    }
  }

  function Scramble128(accVec: M128, keyVec: M128): M128 {
    var prime32 := M128(PRIME32_1, PRIME32_1, PRIME32_1, PRIME32_1);
    var dataKey := MmXor(MmXor(accVec, MmShiftRight64By47(accVec)), keyVec);
    var dataKeyHi := MmShuffle32(dataKey, 0, 3, 0, 1);
    var prodLo := MmMul32(dataKey, prime32);
    var prodHi := MmMul32(dataKeyHi, prime32);
    MmAdd64(prodLo, MmShiftLeft64By32(prodHi))
  }

  /** The split multiply: two 32-bit products and a shift multiply by the prime modulo 2^64. */
  lemma SplitMultiply(lo: u32, hi: u32)
    ensures Add64(Mult32To64(lo, PRIME32_1), (Mult32To64(hi, PRIME32_1) * TWO32) % TWO64)
      == Mul64(Join(lo, hi), PRIME32_1)
  {
    SplitSum(lo * PRIME32_1 as int, hi * PRIME32_1 as int);
  }

  lemma SplitSum(p: nat, q: nat)
    ensures (p + (q * TWO32) % TWO64) % TWO64 == (p + q * TWO32) % TWO64
  {
  }

  lemma Scramble128Lanes(low: u64, high: u64, keyVec: M128)
    ensures var r := Scramble128(OfLanes(low, high), keyVec);
      r.Low() == ScrambleLane(low, keyVec.Low()) && r.High() == ScrambleLane(high, keyVec.High())
  {
    var accVec := OfLanes(low, high);
    var dataVec := MmXor(accVec, MmShiftRight64By47(accVec));
    var dataKey := MmXor(dataVec, keyVec);
    XorLanes(accVec, MmShiftRight64By47(accVec));
    XorLanes(dataVec, keyVec);
    SplitMultiply(dataKey.d0, dataKey.d1);
    SplitMultiply(dataKey.d2, dataKey.d3);
  }

  method ScrambleSse2(acc: array<u64>, secret: Stripe)
    requires acc.Length == 8
    modifies acc
    ensures acc[..] == Scramble(old(acc[..]), secret)
  {
    ghost var before: Lanes := acc[..];
    for i := 0 to 4
      invariant forall j :: 0 <= j < 8 ==>
        acc[j] == if j < 2 * i then Scramble(before, secret)[j] else before[j]
    {
      var keyVec := LoadU(secret, i);
      Scramble128Lanes(acc[2 * i], acc[2 * i + 1], keyVec);
      LoadLanes(secret, i);
      var xacc := Scramble128(OfLanes(acc[2 * i], acc[2 * i + 1]), keyVec);
      acc[2 * i], acc[2 * i + 1] := xacc.Low(), xacc.High();
    }
  }

  // ----- dispatch -----

  method AccumulateStripe(k: Kernel, acc: array<u64>, input: Stripe, secret: Stripe)
    requires acc.Length == 8
    modifies acc
    ensures acc[..] == Accumulate512(old(acc[..]), input, secret)
  {
    match k
    case Scalar => Accumulate512Scalar(acc, input, secret);
    case Sse2 => Accumulate512Sse2(acc, input, secret);
  }

  method ScrambleAcc(k: Kernel, acc: array<u64>, secret: Stripe)
    requires acc.Length == 8
    modifies acc
    ensures acc[..] == Scramble(old(acc[..]), secret)
  {
    match k
    case Scalar => ScrambleScalar(acc, secret);
    case Sse2 => ScrambleSse2(acc, secret);
  }
}
