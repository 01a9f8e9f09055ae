/** XXH32: the one-shot hash and the streaming state that must agree with it. */
module Xxh32 {
  import opened Words

  const PRIME32_1: u32 := 0x9E37_79B1
  const PRIME32_2: u32 := 0x85EB_CA77
  const PRIME32_3: u32 := 0xC2B2_AE3D
  const PRIME32_4: u32 := 0x27D4_EB2F
  const PRIME32_5: u32 := 0x1656_67B1

  type Lanes = s: seq<u32> | |s| == 4 witness [0, 0, 0, 0]

  type Stripe = s: seq<byte> | |s| == 16 witness seq(16, _ => 0)

  function Round(acc: u32, input: u32): u32 {
    Mul32(Rotl32(Add32(acc, Mul32(input, PRIME32_2)), 13), PRIME32_1)
  }

  function InitAccs(seed: u32): Lanes {
    [Add32(Add32(seed, PRIME32_1), PRIME32_2), Add32(seed, PRIME32_2), seed, (seed as int - PRIME32_1) % TWO32]
  }

  function StripeAt(data: seq<byte>, i: nat): Stripe
    requires 16 * i + 16 <= |data|
  {
    data[16 * i..16 * i + 16]
  }

  /** One 16-byte stripe: every lane takes its own four bytes. */
  function StripeRound(acc: Lanes, stripe: Stripe): Lanes {
    seq(4, j requires 0 <= j < 4 => Round(acc[j], ReadLE32(stripe, 4 * j)))
  }

  /** The lanes after the first n stripes of `data`. */
  function Fold(acc: Lanes, data: seq<byte>, n: nat): Lanes
    requires 16 * n <= |data|
  {
    if n == 0 then acc else StripeRound(Fold(acc, data, n - 1), StripeAt(data, n - 1))
  }

  lemma {:induction false} FoldComposes(acc: Lanes, data: seq<byte>, a: nat, b: nat)
    requires 16 * (a + b) <= |data|
    ensures Fold(Fold(acc, data, a), data[16 * a..], b) == Fold(acc, data, a + b)
  {
    hide StripeRound;
    if b > 0 {
      FoldComposes(acc, data, a, b - 1);
      assert StripeAt(data[16 * a..], b - 1) == StripeAt(data, a + b - 1);
    }
  }

  lemma {:induction false} FoldPrefix(acc: Lanes, x: seq<byte>, y: seq<byte>, n: nat)
    requires 16 * n <= |x| && 16 * n <= |y| && x[..16 * n] == y[..16 * n]
    ensures Fold(acc, x, n) == Fold(acc, y, n)
  {
    hide StripeRound;
    if n > 0 {
      assert x[..16 * (n - 1)] == x[..16 * n][..16 * (n - 1)] == y[..16 * (n - 1)];
      FoldPrefix(acc, x, y, n - 1);
      assert StripeAt(x, n - 1) == x[..16 * n][16 * (n - 1)..] == StripeAt(y, n - 1);
    }
  }

  /** A chunk that continues `whole` after `c` stripes continues the fold. */
  lemma ContinueFold(acc: Lanes, whole: seq<byte>, c: nat, chunk: seq<byte>, n: nat)
    requires 16 * (c + n) <= |whole| && 16 * n <= |chunk|
    requires chunk[..16 * n] == whole[16 * c..16 * c + 16 * n]
    ensures Fold(Fold(acc, whole, c), chunk, n) == Fold(acc, whole, c + n)
  {
    hide Fold, StripeRound;
    FoldComposes(acc, whole, c, n);
    assert whole[16 * c..][..16 * n] == whole[16 * c..16 * c + 16 * n];
    FoldPrefix(Fold(acc, whole, c), chunk, whole[16 * c..], n);
  }

  function MergeAccs(acc: Lanes): u32 {
    Add32(Add32(Add32(Rotl32(acc[0], 1), Rotl32(acc[1], 7)), Rotl32(acc[2], 12)), Rotl32(acc[3], 18))
  }

  function Mix4(hash: u32, word: u32): u32 {
    Mul32(Rotl32(Add32(hash, Mul32(word, PRIME32_3)), 17), PRIME32_4)
  }

  function Mix1(hash: u32, b: byte): u32 {
    Mul32(Rotl32(Add32(hash, Mul32(b as int, PRIME32_5)), 11), PRIME32_1)
  }

  function Avalanche(hash: u32): u32 {
    var h1 := Mul32(XorShift(hash, 0x8000), PRIME32_2);
    var h2 := Mul32(XorShift(h1, 0x2000), PRIME32_3);
    XorShift(h2, 0x1_0000)
  }

  function XorShift(x: u32, divisor: nat): u32
    requires divisor >= 1
  {
    QuotientBound(x, divisor);
    Xor32(x, x / divisor)
  }

  /** The tail byte by byte. */
  function TailBytes(hash: u32, tail: seq<byte>): u32
    decreases |tail|
  {
    hide Mix1;
    if tail == [] then hash else TailBytes(Mix1(hash, tail[0]), tail[1..])
  }

  /** The tail in words of four bytes, then bytes. */
  function Tail(hash: u32, tail: seq<byte>): u32
    decreases |tail|
  {
    hide Mix4, ReadLE32;
    if |tail| >= 4 then Tail(Mix4(hash, ReadLE32(tail, 0)), tail[4..]) else TailBytes(hash, tail)
  }

  /** The hash of an input of any length; the length enters modulo 2^32. */
  function Hash(seed: u32, input: seq<byte>): u32 {
    var n := |input| / 16;
    var start := if |input| >= 16 then MergeAccs(Fold(InitAccs(seed), input, n)) else Add32(seed, PRIME32_5);
    Avalanche(Tail(Add32(start, Wrap32(|input|)), input[16 * n..]))
  }

  /** Consumes every full stripe of at least one, in place. */
  method ConsumeLong(acc: array<u32>, input: seq<byte>) returns (consumed: nat)
    requires acc.Length == 4 && |input| >= 16
    modifies acc
    ensures acc[..] == Fold(old(acc[..]), input, |input| / 16)
    ensures consumed == 16 * (|input| / 16)
  {
    hide StripeRound;
    ghost var n := 0;
    consumed := 0;
    while consumed == 0 || consumed < |input| - 15
      invariant consumed == 16 * n <= |input|
      invariant acc[..] == Fold(old(acc[..]), input, n)
      decreases |input| - consumed
    {
      RoundInPlace(acc, input[consumed..consumed + 16]);
      consumed, n := consumed + 16, n + 1;
    }
  }

  method RoundInPlace(acc: array<u32>, stripe: Stripe)
    requires acc.Length == 4
    modifies acc
    ensures acc[..] == StripeRound(old(acc[..]), stripe)
  {
    hide Round, ReadLE32;
    for i := 0 to 4
      invariant forall j :: 0 <= j < 4 ==>
        acc[j] == if j < i then Round(old(acc[j]), ReadLE32(stripe, 4 * j)) else old(acc[j])
    {
      acc[i] := Round(acc[i], ReadLE32(stripe, 4 * i));
    }
  }

  method Finalize(hash: u32, ptr: seq<byte>, len: nat) returns (h: u32)
    requires len % 16 <= |ptr|
    ensures h == Avalanche(Tail(hash, ptr[..len % 16]))
  {
    hide Mix4, Mix1, Avalanche, ReadLE32;
    var left := len % 16;
    var p := 0;
    h := hash;
    ghost var tail := ptr[..left];
    while left >= 4
      invariant p + left == |tail| && Tail(hash, tail) == Tail(h, tail[p..])
    {
      assert ReadLE32(ptr, p) == ReadLE32(tail[p..], 0) by { SliceRead32(ptr, tail, p); }
      assert tail[p..][4..] == tail[p + 4..];
      h := Mix4(h, ReadLE32(ptr, p));
      p, left := p + 4, left - 4;
    }
    assert Tail(hash, tail) == TailBytes(h, tail[p..]);
    while left > 0
      invariant p + left == |tail| && Tail(hash, tail) == TailBytes(h, tail[p..])
    {
      assert tail[p..][1..] == tail[p + 1..];
      h := Mix1(h, ptr[p]);
      p, left := p + 1, left - 1;
    }
    h := Avalanche(h);
  }

  method OneShot(input: seq<byte>, seed: u32) returns (h: u32)
    ensures h == Hash(seed, input)
  {
    hide Fold, MergeAccs, Tail, Avalanche, InitAccs;
    var rest := input;
    if |input| >= 16 {
      var acc := new u32[4];
      SetLanes(acc, InitAccs(seed));
      var consumed := ConsumeLong(acc, input);
      rest := input[consumed..];
      h := MergeAccs(acc[..]);
    } else {
      h := Add32(seed, PRIME32_5);
    }
    h := Add32(h, Wrap32(|input|));
    assert rest[..|input| % 16] == input[16 * (|input| / 16)..];
    h := Finalize(h, rest, |input| % 16);
  }

  method Clear(buffer: array<byte>)
    modifies buffer
    ensures forall i :: 0 <= i < buffer.Length ==> buffer[i] == 0
  {
    for i := 0 to buffer.Length
      invariant forall j :: 0 <= j < i ==> buffer[j] == 0
    {
      buffer[i] := 0;
    }
  }

  method SetLanes(acc: array<u32>, lanes: Lanes)
    requires acc.Length == 4
    modifies acc
    ensures acc[..] == lanes
  {
    for i := 0 to 4
      invariant acc[..i] == lanes[..i]
    {
      acc[i] := lanes[i];
    }
  }

  // ----- streaming -----

  /** With `c` stripes of `fed` folded, the buffer holds the rest. */
  ghost predicate Buffered(buf: seq<byte>, size: nat, fed: seq<byte>, c: nat) {
    && |buf| == 16 && size < 16
    && |fed| == 16 * c + size
    && buf[..size] == fed[16 * c..]
  }

  class Xxh32State {
    const acc: array<u32>
    const buffer: array<byte>
    var totalLen32: u32
    var largeLen: bool
    var bufferedSize: nat

    ghost var seed: u32
    ghost var fed: seq<byte>
    ghost var folded: nat  // stripes of `fed` already in `acc`

    ghost predicate Valid()
      reads this, acc, buffer
    {
      && acc.Length == 4 && buffer.Length == 16
      && totalLen32 == Wrap32(|fed|)
      && largeLen == (|fed| >= 16)
      && Buffered(buffer[..], bufferedSize, fed, folded)
      && acc[..] == Fold(InitAccs(seed), fed, folded)
    }

    constructor ()
      ensures fresh(acc) && fresh(buffer) && acc.Length == 4 && buffer.Length == 16
    {
      acc := new u32[4];
      buffer := new byte[16];
    }

    method Reset(seed: u32)
      requires acc.Length == 4 && buffer.Length == 16
      modifies `totalLen32, `largeLen, `bufferedSize, `seed, `fed, `folded, acc, buffer
      ensures Valid() && this.seed == seed && fed == []
    {
      hide InitAccs, Fold, Buffered, Wrap32;
      Wrap32Add(0, 0);
      Clear(buffer);
      totalLen32, largeLen, bufferedSize := 0, false, 0;
      SetLanes(acc, InitAccs(seed));
      this.seed, fed, folded := seed, [], 0;
      EmptyInput(InitAccs(seed), buffer[..], fed);
    }

    method Update(input: seq<byte>)
      requires Valid()
      modifies `totalLen32, `largeLen, `bufferedSize, `fed, `folded, acc, buffer
      ensures Valid() && fed == old(fed) + input
    {
      hide InitAccs, Fold, Buffered;
      Wrap32Add(|fed|, |input|);
      LargeLenStep(|fed|, |input|);
      totalLen32 := (totalLen32 + |input|) % TWO32;
      largeLen := largeLen || |input| >= 16 || totalLen32 >= 16;
      if |input| < 16 - bufferedSize {
        FillBuffer(input);
        return;
      }
      UpdateLarge(input);
    }

    method FillBuffer(input: seq<byte>)
      requires buffer.Length == 16 && Buffered(buffer[..], bufferedSize, fed, folded) && |input| < 16 - bufferedSize
      requires acc.Length == 4 && acc[..] == Fold(InitAccs(seed), fed, folded)
      modifies `bufferedSize, `fed, buffer
      ensures Buffered(buffer[..], bufferedSize, fed, folded) && fed == old(fed) + input
      ensures acc[..] == Fold(InitAccs(seed), fed, folded)
    {
      hide InitAccs, Fold;
      MoreInput(InitAccs(seed), buffer[..], bufferedSize, fed, folded, input);
      ghost var filled := buffer[..][..bufferedSize] + input + buffer[..][bufferedSize + |input|..];
      Memcpy(buffer, bufferedSize, input);
      assert buffer[..] == filled;
      bufferedSize := bufferedSize + |input|;
      fed := fed + input;
    }

    /** Completes a partly filled buffer and folds it; `c` stripes of `all` are then
        folded and input[pos..] is left. */
    method DrainBuffer(input: seq<byte>, ghost all: seq<byte>) returns (pos: nat, ghost c: nat)
      requires acc.Length == 4 && buffer.Length == 16 && all == fed + input
      requires Buffered(buffer[..], bufferedSize, fed, folded) && |input| >= 16 - bufferedSize
      requires acc[..] == Fold(InitAccs(seed), fed, folded)
      modifies `bufferedSize, acc, buffer
      ensures pos <= |input| && 16 * c <= |all| && input[pos..] == all[16 * c..] && bufferedSize == 0
      ensures acc[..] == Fold(InitAccs(seed), all, c)
    {
      hide InitAccs, StripeRound, Fold;
      c := folded;
      pos := 0;
      MoreStripes(InitAccs(seed), fed, input, c);
      if bufferedSize > 0 {
        CompletedBuffer(buffer[..], bufferedSize, fed, folded, input);
        pos := 16 - bufferedSize;
        Memcpy(buffer, bufferedSize, input[..pos]);
        assert buffer[..] == all[16 * c..16 * c + 16];
        ContinueFold(InitAccs(seed), all, c, buffer[..], 1);
        var _ := ConsumeLong(acc, buffer[..]);
        bufferedSize, c := 0, c + 1;
      }
    }

    /** The part of an update that completes at least one stripe. */
    method UpdateLarge(input: seq<byte>)
      requires acc.Length == 4 && buffer.Length == 16
      requires Buffered(buffer[..], bufferedSize, fed, folded) && |input| >= 16 - bufferedSize
      requires acc[..] == Fold(InitAccs(seed), fed, folded)
      modifies `bufferedSize, `fed, `folded, acc, buffer
      ensures Buffered(buffer[..], bufferedSize, fed, folded) && fed == old(fed) + input
      ensures acc[..] == Fold(InitAccs(seed), fed, folded)
    {
      hide InitAccs, StripeRound, Fold;
      ghost var all := fed + input;
      var pos, c := DrainBuffer(input, all);
      if |input| - pos >= 16 {
        ghost var n := (|input| - pos) / 16;
        ContinueFold(InitAccs(seed), all, c, input[pos..], n);
        var consumed := ConsumeLong(acc, input[pos..]);
        pos, c := pos + consumed, c + n;
      }
      assert input[pos..] == all[16 * c..];
      if pos < |input| {
        KeepRest(input[pos..]);
      }
      fed, folded := all, c;
    }

    method KeepRest(rest: seq<byte>)
      requires buffer.Length == 16 && |rest| < 16
      modifies `bufferedSize, buffer
      ensures bufferedSize == |rest| && buffer[..][..|rest|] == rest
    {
      Memcpy(buffer, 0, rest);
      bufferedSize := |rest|;
    }

    /** Agrees with the one-shot hash for inputs of every length. */
    method Digest() returns (h: u32)
      requires Valid()
      ensures h == Hash(seed, fed)
    {
      hide MergeAccs, Tail, Avalanche, StripeRound, Fold;
      assert folded == |fed| / 16 && bufferedSize == |fed| % 16;
      if largeLen {
        h := MergeAccs(acc[..]);
      } else {
        SeedLane(seed, fed);
        h := Add32(acc[2], PRIME32_5);
      }
      h := Add32(h, totalLen32);
      h := Finalize(h, buffer[..], bufferedSize);
    }
  }

  /** The sticky flag follows the true length although the 32-bit total wraps. */
  lemma LargeLenStep(total: nat, len: nat)
    ensures total >= 16 || len >= 16 || (total + len) % TWO32 >= 16 <==> total + len >= 16
  {
  }

  lemma EmptyInput(acc: Lanes, buf: seq<byte>, fed: seq<byte>)
    requires |buf| == 16 && |fed| == 0
    ensures Buffered(buf, 0, fed, 0) && Fold(acc, fed, 0) == acc
  {
  }

  /** While no stripe was consumed, the third lane still is the seed. */
  lemma SeedLane(seed: u32, fed: seq<byte>)
    requires |fed| < 16
    ensures Fold(InitAccs(seed), fed, 0)[2] == seed
  {
  }

  lemma MoreStripes(acc: Lanes, fed: seq<byte>, input: seq<byte>, c: nat)
    requires 16 * c <= |fed|
    ensures Fold(acc, fed + input, c) == Fold(acc, fed, c)
  {
    assert (fed + input)[..16 * c] == fed[..16 * c];
    FoldPrefix(acc, fed, fed + input, c);
  }

  /** Input that does not complete a stripe only joins the buffer. */
  lemma MoreInput(acc: Lanes, buf: seq<byte>, size: nat, fed: seq<byte>, c: nat, input: seq<byte>)
    requires Buffered(buf, size, fed, c) && size + |input| < 16
    ensures Buffered(buf[..size] + input + buf[size + |input|..], size + |input|, fed + input, c)
    ensures Fold(acc, fed + input, c) == Fold(acc, fed, c)
  {
    MoreStripes(acc, fed, input, c);
    assert (fed + input)[16 * c..] == fed[16 * c..] + input;
  }

  lemma CompletedBuffer(buf: seq<byte>, size: nat, fed: seq<byte>, c: nat, input: seq<byte>)
    requires Buffered(buf, size, fed, c) && size + |input| >= 16
    ensures buf[..size] + input[..16 - size] == (fed + input)[16 * c..16 * c + 16]
    ensures (fed + input)[16 * c + 16..] == input[16 - size..]
  {
  }

  /** A whole run: any split of the input into updates hashes like the one-shot call. */
  method HashInPieces(seed: u32, pieces: seq<seq<byte>>) returns (h: u32)
    ensures h == Hash(seed, Flatten(pieces))
  {
    hide Hash, Fold, InitAccs;
    var state := new Xxh32State();
    state.Reset(seed);
    for i := 0 to |pieces|
      invariant fresh(state) && fresh(state.acc) && fresh(state.buffer)
      invariant state.Valid() && state.seed == seed && state.fed == Flatten(pieces[..i])
    {
      assert pieces[..i + 1] == pieces[..i] + [pieces[i]];
      state.Update(pieces[i]);
    }
    assert pieces[..|pieces|] == pieces;
    h := state.Digest();
    assert state.fed == Flatten(pieces);
  }
}
