/** The long-input path of XXH3. The reference definition `Consume` feeds stripes
    one at a time and scrambles after every `PerBlock` stripes; the block-by-block
    loop of the one-shot hash and `ConsumeStripes` of the streaming hash both
    refine it. */
module Xxh3Long {
  import opened Mult128
  import opened Words
  import opened Xxh3Kernels

  const STRIPE_LEN: int := 64
  const CONSUME_RATE: int := 8
  const SECRET_SIZE_MIN: int := 136
  const LASTACC_START: int := 7

  type Secret = s: seq<byte> | |s| >= 136 witness seq(136, _ => 0)

  function Limit(secret: Secret): nat { |secret| - 64 }

  function PerBlock(secret: Secret): (n: nat)
    ensures n >= 9 && 8 * n <= Limit(secret)
  {
    Limit(secret) / 8
  }

  function KeyAt(secret: Secret, i: nat): Stripe
    requires i + 64 <= |secret|
  {
    secret[i..i + 64]
  }

  function StripeAt(data: seq<byte>, i: nat): Stripe
    requires 64 * i + 64 <= |data|
  {
    data[64 * i..64 * i + 64]
  }

  const PRIME64_1: u64 := 0x9E37_79B1_85EB_CA87
  const PRIME64_2: u64 := 0xC2B2_AE3D_27D4_EB4F
  const PRIME_MX1: u64 := 0x1656_6791_9E37_79F9
  const MERGEACCS_START: int := 11

  function XorShift64(x: u64, divisor: nat): u64
    requires divisor >= 1
  {
    QuotientBound(x, divisor);
    Xor64(x, x / divisor)
  }

  function Avalanche(h: u64): u64 {
    XorShift64(Mul64(XorShift64(h, 0x20_0000_0000), PRIME_MX1), 0x1_0000_0000)
  }

  function Mix2Accs(lanes: Lanes, key: Stripe, i: nat): u64
    requires i < 4
  {
    Mul128Fold64(Xor64(lanes[2 * i], ReadLE64(key, 16 * i)), Xor64(lanes[2 * i + 1], ReadLE64(key, 16 * i + 8)))
  }

  function MergeAccs(lanes: Lanes, key: Stripe, start: u64): u64 {
    Avalanche(Add64(Add64(Add64(Add64(start, Mix2Accs(lanes, key, 0)), Mix2Accs(lanes, key, 1)),
                          Mix2Accs(lanes, key, 2)), Mix2Accs(lanes, key, 3)))
  }

  function FinalizeLong64(lanes: Lanes, secret: Secret, len: u64): u64 {
    MergeAccs(lanes, KeyAt(secret, MERGEACCS_START), Mul64(len, PRIME64_1))
  }

  function FinalizeLong128(lanes: Lanes, secret: Secret, len: u64): U128 {
    U128(FinalizeLong64(lanes, secret, len),
         MergeAccs(lanes, KeyAt(secret, Limit(secret) - MERGEACCS_START), TWO64 - 1 - Mul64(len, PRIME64_2)))
  }

  /** The functions the streaming and one-shot hashes are put together from: the two
      stripe kernels, which the library passes to its loops by pointer, the two final
      mixes of a long input, and the hashes of an input of at most 240 bytes, from
      input, secret and seed. */
  datatype Kernels = Kernels(
    acc512: (Lanes, Stripe, Stripe) -> Lanes,
    scramble: (Lanes, Stripe) -> Lanes,
    finalize64: (Lanes, Secret, u64) -> u64,
    finalize128: (Lanes, Secret, u64) -> U128,
    short64: (seq<byte>, Secret, u64) -> u64,
    short128: (seq<byte>, Secret, u64) -> U128)

  /** `f` holds the stripe kernels of Xxh3Kernels and the final mixes above; its
      short-input hashes may be any functions. */
  ghost predicate Computes(f: Kernels) {
    && (forall a, i, s {:trigger Accumulate512(a, i, s)} :: f.acc512(a, i, s) == Accumulate512(a, i, s))
    && (forall a, s {:trigger Scramble(a, s)} :: f.scramble(a, s) == Scramble(a, s))
    && (forall a, s, n {:trigger FinalizeLong64(a, s, n)} :: f.finalize64(a, s, n) == FinalizeLong64(a, s, n))
    && (forall a, s, n {:trigger FinalizeLong128(a, s, n)} :: f.finalize128(a, s, n) == FinalizeLong128(a, s, n))
  }

  /** Kernels that compute, with some short-input hashes. */
  function ScalarKernels(short64: (seq<byte>, Secret, u64) -> u64,
                         short128: (seq<byte>, Secret, u64) -> U128): Kernels {
    Kernels(
      (a: Lanes, i: Stripe, s: Stripe) => Accumulate512(a, i, s),
      (a: Lanes, s: Stripe) => Scramble(a, s),
      (a: Lanes, s: Secret, n: u64) => FinalizeLong64(a, s, n),
      (a: Lanes, s: Secret, n: u64) => FinalizeLong128(a, s, n),
      short64, short128)
  }

  lemma ScalarKernelsCompute(short64: (seq<byte>, Secret, u64) -> u64, short128: (seq<byte>, Secret, u64) -> U128)
    ensures Computes(ScalarKernels(short64, short128))
  {
    hide Accumulate512, Scramble, FinalizeLong64, FinalizeLong128;
  }

  method AccumulateOne(k: Kernel, ghost f: Kernels, acc: array<u64>, input: Stripe, secret: Stripe)
    requires acc.Length == 8 && Computes(f)
    modifies acc
    ensures acc[..] == f.acc512(old(acc[..]), input, secret)
  {
    AccumulateStripe(k, acc, input, secret);
  }

  method ScrambleOne(k: Kernel, ghost f: Kernels, acc: array<u64>, secret: Stripe)
    requires acc.Length == 8 && Computes(f)
    modifies acc
    ensures acc[..] == f.scramble(old(acc[..]), secret)
  {
    ScrambleAcc(k, acc, secret);
  }

  /** Lanes plus the number of stripes already folded into the current block. */
  datatype Progress = Progress(lanes: Lanes, soFar: nat)

  function Step(f: Kernels, p: Progress, stripe: Stripe, secret: Secret): (r: Progress)
    requires p.soFar < PerBlock(secret)
    ensures r.soFar == (if p.soFar + 1 == PerBlock(secret) then 0 else p.soFar + 1)
  {
    var lanes := f.acc512(p.lanes, stripe, KeyAt(secret, 8 * p.soFar));
    if p.soFar + 1 == PerBlock(secret) then Progress(f.scramble(lanes, KeyAt(secret, Limit(secret))), 0)
    else Progress(lanes, p.soFar + 1)
  }

  /** `n` stripes of `data`, one at a time. */
  function Consume(f: Kernels, p: Progress, data: seq<byte>, n: nat, secret: Secret): (r: Progress)
    requires p.soFar < PerBlock(secret) && 64 * n <= |data|
    ensures r.soFar < PerBlock(secret)
  {
    if n == 0 then p else Step(f, Consume(f, p, data, n - 1, secret), StripeAt(data, n - 1), secret)
  }

  lemma ConsumeNothing(f: Kernels, p: Progress, data: seq<byte>, secret: Secret)
    requires p.soFar < PerBlock(secret)
    ensures Consume(f, p, data, 0, secret) == p
  {
  }

  /** Consuming a stripes and then b stripes is consuming a + b. */
  lemma {:induction false} ConsumeComposes(f: Kernels, p: Progress, data: seq<byte>, a: nat, b: nat, secret: Secret)
    requires p.soFar < PerBlock(secret) && 64 * (a + b) <= |data|
    ensures Consume(f, Consume(f, p, data, a, secret), data[64 * a..], b, secret) == Consume(f, p, data, a + b, secret)
  {
    if b > 0 {
      ConsumeComposes(f, p, data, a, b - 1, secret);
      assert StripeAt(data[64 * a..], b - 1) == StripeAt(data, a + b - 1);
    }
  }

  /** Only the first n stripes matter. */
  lemma {:induction false} ConsumePrefix(f: Kernels, p: Progress, x: seq<byte>, y: seq<byte>, n: nat, secret: Secret)
    requires p.soFar < PerBlock(secret) && 64 * n <= |x| && 64 * n <= |y|
    requires x[..64 * n] == y[..64 * n]
    ensures Consume(f, p, x, n, secret) == Consume(f, p, y, n, secret)
  {
    if n > 0 {
      assert x[..64 * (n - 1)] == x[..64 * n][..64 * (n - 1)] == y[..64 * (n - 1)];
      ConsumePrefix(f, p, x, y, n - 1, secret);
      assert StripeAt(x, n - 1) == x[..64 * n][64 * (n - 1)..] == StripeAt(y, n - 1);
    }
  }

  /** The counter is the total number of stripes modulo the block size. */
  lemma {:induction false} ConsumeCounter(f: Kernels, p: Progress, data: seq<byte>, n: nat, secret: Secret)
    requires p.soFar < PerBlock(secret) && 64 * n <= |data|
    ensures Consume(f, p, data, n, secret).soFar == (p.soFar + n) % PerBlock(secret)
  {
    if n > 0 {
      ConsumeCounter(f, p, data, n - 1, secret);
      ModSuccessor(p.soFar + n - 1, PerBlock(secret));
    }
  }

  lemma ModSuccessor(x: nat, m: nat)
    requires m > 1
    ensures (x + 1) % m == if x % m + 1 == m then 0 else x % m + 1
  {
    var q, r := x / m, x % m;
    if r + 1 == m {
      assert x + 1 == m * (q + 1);
      ModUnique(x + 1, m, q + 1, 0);
    } else {
      ModUnique(x + 1, m, q, r + 1);
    }
  }

  // ----- one run of stripes without a block end in between -----

  /** The lanes after n stripes keyed from secret position `from` onwards. */
  function Run(f: Kernels, lanes: Lanes, data: seq<byte>, n: nat, secret: Secret, from: nat): Lanes
    requires 64 * n <= |data| && from + 8 * n + 56 <= |secret|
  {
    if n == 0 then lanes
    else f.acc512(Run(f, lanes, data, n - 1, secret, from), StripeAt(data, n - 1), KeyAt(secret, from + 8 * (n - 1)))
  }

  lemma {:induction false} RunInsideBlock(f: Kernels, p: Progress, data: seq<byte>, n: nat, secret: Secret)
    requires p.soFar + n < PerBlock(secret) && 64 * n <= |data|
    ensures Consume(f, p, data, n, secret) == Progress(Run(f, p.lanes, data, n, secret, 8 * p.soFar), p.soFar + n)
  {
    if n > 0 {
      RunInsideBlock(f, p, data, n - 1, secret);
    }
  }

  /** Scrambling falls exactly at the block end. */
  lemma RunToBlockEnd(f: Kernels, p: Progress, data: seq<byte>, n: nat, secret: Secret)
    requires n > 0 && p.soFar + n == PerBlock(secret) && 64 * n <= |data|
    ensures Consume(f, p, data, n, secret)
      == Progress(f.scramble(Run(f, p.lanes, data, n, secret, 8 * p.soFar), KeyAt(secret, Limit(secret))), 0)
  {
    RunInsideBlock(f, p, data, n - 1, secret);
  }

  method Accumulate(k: Kernel, ghost f: Kernels, acc: array<u64>, input: seq<byte>, secret: Secret, from: nat,
                    nbStripes: nat)
    requires acc.Length == 8 && Computes(f) && 64 * nbStripes <= |input| && from + 8 * nbStripes + 56 <= |secret|
    modifies acc
    ensures acc[..] == Run(f, old(acc[..]), input, nbStripes, secret, from)
  {
    for n := 0 to nbStripes
      invariant acc[..] == Run(f, old(acc[..]), input, n, secret, from)
    {
      AccumulateOne(k, f, acc, StripeAt(input, n), KeyAt(secret, from + 8 * n));
    }
  }

  /** With `done` stripes consumed since `start`, accumulates up to the end of the
      current block, then scrambles. */
  method FinishBlock(k: Kernel, ghost f: Kernels, acc: array<u64>, ghost start: Progress, soFar: nat,
                     input: seq<byte>, done: nat, secret: Secret)
    requires acc.Length == 8 && Computes(f) && start.soFar < PerBlock(secret) && soFar < PerBlock(secret)
    requires 64 * (done + (PerBlock(secret) - soFar)) <= |input|
    requires Progress(acc[..], soFar) == Consume(f, start, input, done, secret)
    modifies acc
    ensures Progress(acc[..], 0) == Consume(f, start, input, done + (PerBlock(secret) - soFar), secret)
  {
    var n := PerBlock(secret) - soFar;
    var rest := input[64 * done..];
    ConsumeComposes(f, start, input, done, n, secret);
    RunToBlockEnd(f, Progress(acc[..], soFar), rest, n, secret);
    Accumulate(k, f, acc, rest, secret, 8 * soFar, n);
    ScrambleOne(k, f, acc, KeyAt(secret, Limit(secret)));
  }

  /** The same for `n` stripes that stay short of the end of the current block. */
  method PartialBlock(k: Kernel, ghost f: Kernels, acc: array<u64>, ghost start: Progress, soFar: nat,
                      input: seq<byte>, done: nat, n: nat, secret: Secret)
    requires acc.Length == 8 && Computes(f) && start.soFar < PerBlock(secret) && soFar + n < PerBlock(secret)
    requires 64 * (done + n) <= |input|
    requires Progress(acc[..], soFar) == Consume(f, start, input, done, secret)
    modifies acc
    ensures Progress(acc[..], soFar + n) == Consume(f, start, input, done + n, secret)
  {
    var rest := input[64 * done..];
    ConsumeComposes(f, start, input, done, n, secret);
    RunInsideBlock(f, Progress(acc[..], soFar), rest, n, secret);
    Accumulate(k, f, acc, rest, secret, 8 * soFar, n);
  }

  /** Consumes stripes that may start inside a block and cross block ends. Returns
      the new stripe counter and the number of input bytes consumed. */
  method ConsumeStripes(k: Kernel, ghost f: Kernels, acc: array<u64>, nbStripesSoFar: nat,
                        nbStripesPerBlock: nat, input: seq<byte>, nbStripes: nat, secret: Secret, secretLimit: nat)
    returns (soFar: nat, consumed: nat)
    requires acc.Length == 8 && Computes(f) && nbStripesSoFar < nbStripesPerBlock && 64 * nbStripes <= |input|
    requires secretLimit == Limit(secret) && nbStripesPerBlock == PerBlock(secret)
    modifies acc
    ensures Progress(acc[..], soFar) == Consume(f, Progress(old(acc[..]), nbStripesSoFar), input, nbStripes, secret)
    ensures consumed == 64 * nbStripes
  {
    hide Consume;
    ghost var start := Progress(acc[..], nbStripesSoFar);
    ConsumeNothing(f, start, input, secret);
    var perBlock := nbStripesPerBlock;
    var done: nat := 0;
    soFar := nbStripesSoFar;
    if nbStripes - done >= perBlock - soFar {
      FinishBlock(k, f, acc, start, soFar, input, done, secret);
      done := perBlock - soFar;
      soFar := 0;
      while nbStripes - done >= perBlock
        invariant done <= nbStripes
        invariant Progress(acc[..], 0) == Consume(f, start, input, done, secret)
      {
        FinishBlock(k, f, acc, start, 0, input, done, secret);
        done := done + perBlock;
      }
    }
    if nbStripes - done > 0 {
      PartialBlock(k, f, acc, start, soFar, input, done, nbStripes - done, secret);
      soFar := soFar + (nbStripes - done);
      done := nbStripes;
    }
    consumed := 64 * done;
  }

  // ----- the whole long input -----

  const INIT_ACC: Lanes := [
    0xC2B2_AE3D, 0x9E37_79B1_85EB_CA87, 0xC2B2_AE3D_27D4_EB4F, 0x1656_67B1_9E37_79F9,
    0x85EB_CA77_C2B2_AE63, 0x85EB_CA77, 0x27D4_EB2F_1656_67C5, 0x9E37_79B1]

  /** The lanes of a long input: every full stripe before the last byte, then the
      last 64 bytes with the last-stripe key. */
  function LongLanes(f: Kernels, input: seq<byte>, secret: Secret): Lanes
    requires |input| > 64
  {
    var nbStripes := (|input| - 1) / 64;
    var lanes := Consume(f, Progress(INIT_ACC, 0), input, nbStripes, secret).lanes;
    f.acc512(lanes, input[|input| - 64..], KeyAt(secret, Limit(secret) - LASTACC_START))
  }

  /** The block counts of the one-shot loop, taken from (len-1) / block_len and the
      rest, add up to (len-1) / 64 stripes. */
  lemma BlockCounts(len: nat, perBlock: nat)
    requires len > 64 && perBlock >= 1
    ensures var done := (len - 1) / (64 * perBlock) * perBlock; var s := (len - 1) / 64;
      0 <= done <= s && (len - 1 - 64 * done) / 64 == s - done < perBlock
  {
    DivMod(len - 1, 64 * perBlock);
    BlocksAndRest(len - 1, perBlock, (len - 1) / (64 * perBlock), (len - 1) % (64 * perBlock));
  }

  lemma DivMod(a: nat, b: nat)
    requires b > 0
    ensures a == b * (a / b) + a % b && 0 <= a / b && 0 <= a % b < b
  {
  }

  lemma BlocksAndRest(bytes: nat, perBlock: nat, nbBlocks: nat, rest: nat)
    requires bytes == (64 * perBlock) * nbBlocks + rest && rest < 64 * perBlock
    ensures var done := nbBlocks * perBlock;
      0 <= done <= bytes / 64 && (bytes - 64 * done) / 64 == bytes / 64 - done < perBlock
  {
    Regroup(perBlock, nbBlocks);
    StripesOf(bytes, nbBlocks * perBlock, rest, perBlock);
  }

  lemma Regroup(perBlock: nat, nbBlocks: nat)
    ensures (64 * perBlock) * nbBlocks == 64 * (nbBlocks * perBlock) && 0 <= nbBlocks * perBlock
  {
    assert nbBlocks * perBlock == perBlock * nbBlocks;
  }

  lemma StripesOf(bytes: nat, done: nat, rest: nat, perBlock: nat)
    requires bytes == 64 * done + rest && rest < 64 * perBlock
    ensures done <= bytes / 64 && (bytes - 64 * done) / 64 == bytes / 64 - done < perBlock
  {
  }

  /** The full blocks, each accumulated and then scrambled. */
  method ConsumeBlocks(k: Kernel, ghost f: Kernels, acc: array<u64>, input: seq<byte>, secret: Secret, nbBlocks: nat)
    requires acc.Length == 8 && Computes(f) && acc[..] == INIT_ACC
    requires 64 * (nbBlocks * PerBlock(secret)) <= |input|
    modifies acc
    ensures Progress(acc[..], 0) == Consume(f, Progress(INIT_ACC, 0), input, nbBlocks * PerBlock(secret), secret)
  {
    hide Consume;
    var perBlock := PerBlock(secret);
    ghost var start := Progress(INIT_ACC, 0);
    ConsumeNothing(f, start, input, secret);
    ghost var done := 0;
    for n := 0 to nbBlocks
      invariant done == n * perBlock && done <= nbBlocks * perBlock
      invariant Progress(acc[..], 0) == Consume(f, start, input, done, secret)
    {
      BlockInside(n, nbBlocks, perBlock);
      FinishBlock(k, f, acc, start, 0, input, n * perBlock, secret);
      done := done + perBlock;
    }
  }

  method HashLongLoop(k: Kernel, ghost f: Kernels, acc: array<u64>, input: seq<byte>, secret: Secret)
    requires acc.Length == 8 && Computes(f) && |input| > 64 && acc[..] == INIT_ACC
    modifies acc
    ensures acc[..] == LongLanes(f, input, secret)
  {
    hide Consume;
    var perBlock := PerBlock(secret);
    var nbBlocks := (|input| - 1) / (64 * perBlock);
    BlockCounts(|input|, perBlock);
    ConsumeBlocks(k, f, acc, input, secret, nbBlocks);
    var done := nbBlocks * perBlock;
    var nbStripes := (|input| - 1 - 64 * done) / 64;
    PartialBlock(k, f, acc, Progress(INIT_ACC, 0), 0, input, done, nbStripes, secret);
    AccumulateOne(k, f, acc, input[|input| - 64..], KeyAt(secret, Limit(secret) - LASTACC_START));
  }

  lemma BlockInside(n: nat, nbBlocks: nat, perBlock: nat)
    requires n < nbBlocks
    ensures n * perBlock + perBlock <= nbBlocks * perBlock
    ensures (n + 1) * perBlock == n * perBlock + perBlock
  {
    var more := (nbBlocks - n - 1) * perBlock;
    assert more >= 0;
    assert nbBlocks * perBlock == n * perBlock + perBlock + more;
  }
}
