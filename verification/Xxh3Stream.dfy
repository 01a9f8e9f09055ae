/** The streaming XXH3 state, and the one-shot hashes it must agree with. */
module Xxh3Stream {
  import opened Options
  import opened Words
  import opened Mult128
  import opened Xxh3Kernels
  import opened Xxh3Long
  import opened Xxh3Secret

  const MIDSIZE_MAX: int := 240

  datatype Status = Ok | Error

  datatype Mode =
    | Default
    | WithSecret(secret: Secret)
    | WithSeed(seed: u64)
    | WithSecretAndSeed(secret: Secret, seed: u64)

  // ----- what is hashed -----

  /** The secret of an input of at most 240 bytes. */
  function ShortSecret(mode: Mode): Secret {
    if mode.WithSecret? then mode.secret else DefaultSecret()
  }

  function SeedOf(mode: Mode): u64 {
    if mode.WithSeed? || mode.WithSecretAndSeed? then mode.seed else 0
  }

  /** The secret of a longer input. */
  function LongSecret(mode: Mode): Secret {
    match mode
    case Default => DefaultSecret()
    case WithSecret(secret) => secret
    case WithSeed(seed) => if seed == 0 then DefaultSecret() else DerivedSecret(seed)
    case WithSecretAndSeed(secret, _) => secret
  }

  function Hash64(f: Kernels, mode: Mode, input: seq<byte>): u64
    requires |input| < TWO64
  {
    if |input| <= 240 then f.short64(input, ShortSecret(mode), SeedOf(mode))
    else f.finalize64(LongLanes(f, input, LongSecret(mode)), LongSecret(mode), |input|)
  }

  function Hash128(f: Kernels, mode: Mode, input: seq<byte>): U128
    requires |input| < TWO64
  {
    if |input| <= 240 then f.short128(input, ShortSecret(mode), SeedOf(mode))
    else f.finalize128(LongLanes(f, input, LongSecret(mode)), LongSecret(mode), |input|)
  }

  // ----- one-shot -----

  method HashLongInternal(k: Kernel, ghost f: Kernels, input: seq<byte>, secret: Secret) returns (acc: array<u64>)
    requires Computes(f) && |input| > MIDSIZE_MAX
    ensures fresh(acc) && acc.Length == 8 && acc[..] == LongLanes(f, input, secret)
  {
    acc := new u64[8](i requires 0 <= i < 8 => INIT_ACC[i]);
    assert acc[..] == INIT_ACC;
    HashLongLoop(k, f, acc, input, secret);
  }

  /** The secret the one-shot hash uses for a long input. */
  method SecretForLong(mode: Mode) returns (secret: Secret)
    ensures secret == LongSecret(mode)
  {
    match mode
    case Default => secret := DefaultSecret();
    case WithSecret(s) => secret := s;
    case WithSeed(seed) =>
      if seed == 0 {
        secret := DefaultSecret();
      } else {
        var custom := new byte[192];
        InitCustomSecret(custom, seed);
        secret := custom[..];
      }
    case WithSecretAndSeed(s, _) => secret := s;
  }

  method OneShot64(k: Kernel, f: Kernels, mode: Mode, input: seq<byte>) returns (h: u64)
    requires Computes(f) && |input| < TWO64
    ensures h == Hash64(f, mode, input)
  {
    if |input| <= MIDSIZE_MAX {
      h := f.short64(input, ShortSecret(mode), SeedOf(mode));
    } else {
      var secret := SecretForLong(mode);
      var acc := HashLongInternal(k, f, input, secret);
      h := f.finalize64(acc[..], secret, |input|);
    }
  }

  method OneShot128(k: Kernel, f: Kernels, mode: Mode, input: seq<byte>) returns (h: U128)
    requires Computes(f) && |input| < TWO64
    ensures h == Hash128(f, mode, input)
  {
    if |input| <= MIDSIZE_MAX {
      h := f.short128(input, ShortSecret(mode), SeedOf(mode));
    } else {
      var secret := SecretForLong(mode);
      var acc := HashLongInternal(k, f, input, secret);
      h := f.finalize128(acc[..], secret, |input|);
    }
  }

  // ----- the internal buffer -----

  /** The buffer after `c` stripes of `fed` were consumed: its first `size` bytes are
      the rest of `fed`, and once something was consumed its last bytes still hold the
      input just before the rest, as far as they were not overwritten. */
  ghost predicate Buffered(buf: seq<byte>, size: nat, fed: seq<byte>, c: nat) {
    && |buf| == 256 && size <= 256
    && |fed| == 64 * c + size
    && buf[..size] == fed[64 * c..]
    && (fed != [] ==> size >= 1)
    && (c > 0 ==> c >= 4 && forall i :: 192 <= i < 256 && size <= i ==> buf[i] == fed[64 * c - 256 + i])
  }

  lemma FillKeepsBuffered(buf: seq<byte>, size: nat, fed: seq<byte>, c: nat, input: seq<byte>)
    requires Buffered(buf, size, fed, c) && size + |input| <= 256
    ensures Buffered(buf[..size] + input + buf[size + |input|..], size + |input|, fed + input, c)
  {
    var buf' := buf[..size] + input + buf[size + |input|..];
    assert (fed + input)[64 * c..] == fed[64 * c..] + input;
    assert buf'[..size + |input|] == buf[..size] + input;
  }

  /** The last 64 input bytes as the digest finds them in the buffer. */
  function LastStripe(buf: seq<byte>, size: nat): Stripe
    requires |buf| == 256 && size <= 256
  {
    if size >= 64 then buf[size - 64..size] else buf[256 - (64 - size)..] + buf[..size]
  }

  lemma LastStripeIsLast(buf: seq<byte>, size: nat, fed: seq<byte>, c: nat)
    requires Buffered(buf, size, fed, c) && |fed| > 240
    ensures LastStripe(buf, size) == fed[|fed| - 64..]
  {
    if size >= 64 {
      assert buf[size - 64..size] == buf[..size][size - 64..] == fed[64 * c..][size - 64..];
    } else {
      var catchup := 64 - size;
      var tail, rest := buf[256 - catchup..], fed[|fed| - 64..];
      assert forall i :: 0 <= i < catchup ==> tail[i] == buf[256 - catchup + i] == fed[64 * c - catchup + i];
      assert forall i :: 0 <= i < size ==> buf[i] == buf[..size][i] == fed[64 * c + i];
      assert tail + buf[..size] == rest;
    }
  }

  /** A chunk that continues `whole` after `c` stripes continues the fold. */
  lemma ContinueConsume(f: Kernels, whole: seq<byte>, c: nat, chunk: seq<byte>, n: nat, secret: Secret)
    requires 64 * (c + n) <= |whole| && 64 * n <= |chunk|
    requires chunk[..64 * n] == whole[64 * c..64 * c + 64 * n]
    ensures var start := Progress(INIT_ACC, 0);
      Consume(f, Consume(f, start, whole, c, secret), chunk, n, secret) == Consume(f, start, whole, c + n, secret)
  {
    var start := Progress(INIT_ACC, 0);
    ConsumeComposes(f, start, whole, c, n, secret);
    assert whole[64 * c..][..64 * n] == whole[64 * c..64 * c + 64 * n];
    ConsumePrefix(f, Consume(f, start, whole, c, secret), chunk, whole[64 * c..], n, secret);
  }

  /** Stripes consumed from the input so far stay consumed when more input follows. */
  lemma MoreInput(f: Kernels, fed: seq<byte>, input: seq<byte>, c: nat, secret: Secret)
    requires 64 * c <= |fed|
    ensures Consume(f, Progress(INIT_ACC, 0), fed + input, c, secret)
      == Consume(f, Progress(INIT_ACC, 0), fed, c, secret)
  {
    assert fed[..64 * c] == (fed + input)[..64 * c];
    ConsumePrefix(f, Progress(INIT_ACC, 0), fed, fed + input, c, secret);
  }

  /** The digest continues from the buffered state to the lanes of the whole input. */
  lemma DigestFromBuffer(f: Kernels, buf: seq<byte>, size: nat, fed: seq<byte>, c: nat, secret: Secret)
    requires Buffered(buf, size, fed, c) && |fed| > 240
    ensures var p := Consume(f, Progress(INIT_ACC, 0), fed, c, secret);
      var q := if size >= 64 then Consume(f, p, buf, (size - 1) / 64, secret) else p;
      LongLanes(f, fed, secret) == f.acc512(q.lanes, LastStripe(buf, size), KeyAt(secret, Limit(secret) - 7))
  {
    hide Consume, LastStripe;
    LastStripeIsLast(buf, size, fed, c);
    if size >= 64 {
      var n := (size - 1) / 64;
      assert buf[..64 * n] == buf[..size][..64 * n] == fed[64 * c..64 * c + 64 * n];
      ContinueConsume(f, fed, c, buf, n, secret);
    }
  }

  /** Once everything before `all[64 * c..]` is consumed and the end of the buffer
      holds the 64 bytes before it, buffering the rest restores the invariant. */
  lemma RestIsBuffered(buf: seq<byte>, all: seq<byte>, c: nat, rest: seq<byte>)
    requires |buf| == 256 && 4 <= c && |all| == 64 * c + |rest| && 1 <= |rest| <= 256 && rest == all[64 * c..]
    requires buf[192..] == all[64 * c - 64..64 * c]
    ensures Buffered(rest + buf[|rest|..], |rest|, all, c)
  {
    var buf' := rest + buf[|rest|..];
    assert buf'[..|rest|] == rest;
    forall i | 192 <= i < 256 && |rest| <= i
      ensures buf'[i] == all[64 * c - 256 + i]
    {
      assert buf'[i] == buf[i] == buf[192..][i - 192];
    }
  }

  /** While an update drains the buffer and the bulk of its input: `c` stripes of `all`
      are folded, `rest` follows, and the 64 bytes before it are at the end of `buf`. */
  ghost predicate Positioned(all: seq<byte>, rest: seq<byte>, c: nat, buf: seq<byte>) {
    && |buf| == 256 && |all| == 64 * c + |rest| && rest == all[64 * c..] && |rest| >= 1
    && (c > 0 ==> c >= 4 && buf[192..] == all[64 * c - 64..64 * c])
  }

  /** The buffer completed with the start of the input is the next 256 bytes. */
  lemma CompletedBuffer(buf: seq<byte>, size: nat, fed: seq<byte>, c: nat, input: seq<byte>)
    requires Buffered(buf, size, fed, c) && size + |input| > 256
    ensures var all := fed + input; var full := buf[..size] + input[..256 - size];
      && 64 * (c + 4) <= |all| && full[..64 * 4] == full == all[64 * c..64 * c + 64 * 4]
      && Positioned(all, input[256 - size..], c + 4, full)
  {
    var all := fed + input;
    assert all[64 * c..64 * c + 256] == buf[..size] + input[..256 - size];
    assert all[64 * (c + 4)..] == input[256 - size..];
  }

  /** An empty buffer means that nothing was fed yet. */
  lemma NothingBuffered(buf: seq<byte>, fed: seq<byte>, c: nat, input: seq<byte>)
    requires Buffered(buf, 0, fed, c) && input != []
    ensures c == 0 && Positioned(fed + input, input, 0, buf)
  {
    assert (fed + input)[64 * 0..] == input;
  }

  /** Where the bulk of the input leaves the rest. */
  lemma AfterBulk(all: seq<byte>, input: seq<byte>, from: nat, c: nat, buf: seq<byte>, n: nat)
    requires from <= |input| && Positioned(all, input[from..], c, buf) && |input| - from > 256
    requires n == (|input| - 1 - from) / 64
    ensures 64 * (c + n) <= |all| && from + 64 * n < |input| <= from + 64 * n + 64 && n >= 4
    ensures input[from..][..64 * n] == all[64 * c..64 * c + 64 * n]
    ensures var pos := from + 64 * n; Positioned(all, input[pos..], c + n, buf[..192] + input[pos - 64..pos])
  {
    var pos := from + 64 * n;
    assert input[pos..] == input[from..][64 * n..] == all[64 * (c + n)..];
    assert input[pos - 64..pos] == input[from..][64 * n - 64..64 * n] == all[64 * (c + n) - 64..64 * (c + n)];
  }

  lemma BufferIsBounded(buf: seq<byte>, size: nat, fed: seq<byte>, c: nat)
    requires Buffered(buf, size, fed, c)
    ensures size <= 256
  {
  }

  lemma NothingBehind(was: seq<byte>, at: nat, bytes: seq<byte>)
    requires at + |bytes| == |was|
    ensures was[..at] + bytes + was[at + |bytes|..] == was[..at] + bytes
  {
  }

  class Xxh3State {
    const k: Kernel
    const f: Kernels
    const acc: array<u64>
    const customSecret: array<byte>
    const buffer: array<byte>
    var bufferedSize: nat
    var useSeed: bool
    var nbStripesSoFar: nat
    var totalLen: u64
    var nbStripesPerBlock: nat
    var secretLimit: nat
    var seed: u64
    var extSecret: Option<seq<byte>>

    ghost var mode: Mode        // of the last successful reset
    ghost var fed: seq<byte>    // all input since then
    ghost var consumed: nat     // stripes of `fed` already folded into `acc`

    /** Holds from creation on: the derived-secret cache is coherent. */
    ghost predicate Created()
      reads this, customSecret
    {
      && Computes(f)
      && acc.Length == 8 && customSecret.Length == 192 && buffer.Length == 256 && customSecret != buffer
      && (extSecret.None? && seed != 0 ==> customSecret[..] == DerivedSecret(seed))
    }

    ghost predicate Configured()
      reads this
    {
      && seed == SeedOf(mode)
      && useSeed == (mode.WithSecretAndSeed? || seed != 0)
      && extSecret == (if mode.WithSeed? && seed != 0 then None else Some(LongSecret(mode)))
      && secretLimit == Limit(LongSecret(mode))
      && nbStripesPerBlock == PerBlock(LongSecret(mode))
    }

    /** Holds between a successful reset and the next reset. */
    ghost predicate Ready()
      reads this, acc, customSecret, buffer
    {
      && Created() && Configured()
      && totalLen == Wrap64(|fed|)
      && nbStripesSoFar < nbStripesPerBlock
      && Buffered(buffer[..], bufferedSize, fed, consumed)
      && Progress(acc[..], nbStripesSoFar) == Consume(f, Progress(INIT_ACC, 0), fed, consumed, LongSecret(mode))
    }

    constructor (k: Kernel, f: Kernels)
      requires Computes(f)
      ensures Created() && fresh(acc) && fresh(customSecret) && fresh(buffer)
      ensures this.f == f && this.k == k
    {
      this.k := k;
      this.f := f;
      acc := new u64[8];
      customSecret := new byte[192];
      buffer := new byte[256];
      seed := 0;
      extSecret := None;
    }

    method ResetInternal(seed: u64, secret: Option<seq<byte>>, secretSize: u32)
      requires acc.Length == 8
      modifies this, acc
      ensures bufferedSize == 0 && nbStripesSoFar == 0 && totalLen == 0
      ensures acc[..] == INIT_ACC
      ensures this.seed == seed && useSeed == (seed != 0) && extSecret == secret
      ensures secretLimit == (secretSize - 64) % TWO32 && nbStripesPerBlock == secretLimit / 8
      ensures mode == old(mode) && fed == [] && consumed == 0
    {
      hide Consume, DerivedSecret, DefaultSecret, Computes;
      bufferedSize, useSeed, nbStripesSoFar, totalLen := 0, false, 0, 0;
      for i := 0 to 8
        modifies acc
        invariant forall j :: 0 <= j < i ==> acc[j] == INIT_ACC[j]
      {
        acc[i] := INIT_ACC[i];
      }
      this.seed := seed;
      useSeed := seed != 0;
      extSecret := secret;
      secretLimit := (secretSize - STRIPE_LEN) % TWO32;
      nbStripesPerBlock := secretLimit / CONSUME_RATE;
      fed, consumed := [], 0;
    }

    method Reset() returns (s: Status)
      requires Created()
      modifies this, acc
      ensures s == Ok && Ready() && mode == Default && fed == []
    {
      ResetInternal(0, Some(DefaultSecret()), SECRET_DEFAULT_SIZE);
      mode := Default;
      s := Ok;
    }

    method ResetWithSecret(secret: Option<seq<byte>>, secretSize: u32) returns (s: Status)
      requires Created()
      requires secret.Some? ==> |secret.value| == secretSize
      modifies this, acc
      ensures Created()
      ensures s == Ok <==> secret.Some? && secretSize >= 136
      ensures s == Ok ==> Ready() && mode == WithSecret(secret.value) && fed == []
    {
      ResetInternal(0, secret, secretSize);
      if secret == None {
        return Error;
      }
      if secretSize < SECRET_SIZE_MIN {
        return Error;
      }
      mode := WithSecret(secret.value);
      s := Ok;
    }

    /** Skips the derivation when the cached secret is already the right one. */
    method ResetWithSeed(seed: u64) returns (s: Status)
      requires Created()
      modifies this, acc, customSecret
      ensures s == Ok && Ready() && mode == WithSeed(seed) && fed == []
    {
      if seed == 0 {
        s := Reset();
        mode := WithSeed(0);
        return;
      }
      if seed != this.seed || extSecret != None {
        InitCustomSecret(customSecret, seed);
      }
      ResetInternal(seed, None, SECRET_DEFAULT_SIZE);
      mode := WithSeed(seed);
      s := Ok;
    }

    method ResetWithSecretAndSeed(secret: Option<seq<byte>>, secretSize: u32, seed: u64) returns (s: Status)
      requires Created()
      requires secret.Some? ==> |secret.value| == secretSize
      modifies this, acc
      ensures Created()
      ensures s == Ok <==> secret.Some? && secretSize >= 136
      ensures s == Ok ==> Ready() && mode == WithSecretAndSeed(secret.value, seed) && fed == []
      ensures s == Error ==> unchanged(this) && unchanged(acc)
    {
      if secret == None {
        return Error;
      }
      if secretSize < SECRET_SIZE_MIN {
        return Error;
      }
      ResetInternal(seed, secret, secretSize);
      useSeed := true;
      mode := WithSecretAndSeed(secret.value, seed);
      s := Ok;
    }

    method CurrentSecret() returns (secret: Secret)
      requires Created() && Configured()
      ensures secret == LongSecret(mode)
    {
      secret := if extSecret == None then customSecret[..] else extSecret.value;
    }

    method Digest64() returns (h: u64)
      requires Ready()
      ensures |fed| < TWO64 ==> h == Hash64(f, mode, fed)
    {
      var secret := CurrentSecret();
      if totalLen > MIDSIZE_MAX {
        var lanes := DigestLong(secret);
        return f.finalize64(lanes[..], secret, totalLen);
      }
      assert |fed| < TWO64 ==> buffer[..totalLen] == fed;
      if useSeed {
        return f.short64(buffer[..totalLen], DefaultSecret(), seed);
      }
      return f.short64(buffer[..totalLen], secret, 0);
    }

    method Digest128() returns (h: U128)
      requires Ready()
      ensures |fed| < TWO64 ==> h == Hash128(f, mode, fed)
    {
      var secret := CurrentSecret();
      if totalLen > MIDSIZE_MAX {
        var lanes := DigestLong(secret);
        return f.finalize128(lanes[..], secret, totalLen);
      }
      assert |fed| < TWO64 ==> buffer[..totalLen] == fed;
      if useSeed {
        return f.short128(buffer[..totalLen], DefaultSecret(), seed);
      }
      return f.short128(buffer[..totalLen], secret, 0);
    }

    method DigestLong(secret: Secret) returns (lanes: array<u64>)
      requires Ready() && secret == LongSecret(mode) && |fed| > 240
      ensures fresh(lanes) && lanes.Length == 8 && lanes[..] == LongLanes(f, fed, secret)
    {
      hide Consume, DerivedSecret, DefaultSecret, Computes, Buffered, LastStripe, LongLanes, Wrap64;
      BufferIsBounded(buffer[..], bufferedSize, fed, consumed);
      lanes := CopyOfAcc();
      DigestFromBuffer(f, buffer[..], bufferedSize, fed, consumed, secret);
      if bufferedSize >= 64 {
        var nbStripes := (bufferedSize - 1) / 64;
        var _, _ := ConsumeStripes(k, f, lanes, nbStripesSoFar, nbStripesPerBlock, buffer[..], nbStripes,
                                   secret, secretLimit);
      }
      AccumulateOne(k, f, lanes, LastStripe(buffer[..], bufferedSize), KeyAt(secret, secretLimit - LASTACC_START));
    }

    method CopyOfAcc() returns (lanes: array<u64>)
      requires acc.Length == 8
      ensures fresh(lanes) && lanes.Length == 8 && lanes[..] == acc[..]
    {
      lanes := new u64[8](i requires 0 <= i < 8 reads acc => acc[i]);
    }

    /** Folds `n` stripes of a chunk that continues `all` after `c` stripes. */
    method Absorb(lanes: array<u64>, soFar: nat, ghost all: seq<byte>, ghost c: nat, chunk: seq<byte>, n: nat,
                  secret: Secret)
      returns (soFar': nat)
      requires Computes(f) && lanes.Length == 8 && lanes != acc && soFar < nbStripesPerBlock
      requires secretLimit == Limit(secret) && nbStripesPerBlock == PerBlock(secret)
      requires 64 * (c + n) <= |all| && 64 * n <= |chunk| && chunk[..64 * n] == all[64 * c..64 * c + 64 * n]
      requires Progress(lanes[..], soFar) == Consume(f, Progress(INIT_ACC, 0), all, c, secret)
      modifies lanes
      ensures soFar' < nbStripesPerBlock
      ensures Progress(lanes[..], soFar') == Consume(f, Progress(INIT_ACC, 0), all, c + n, secret)
    {
      ContinueConsume(f, all, c, chunk, n, secret);
      var next, _ := ConsumeStripes(k, f, lanes, soFar, nbStripesPerBlock, chunk, n, secret, secretLimit);
      soFar' := next;
    }

    method Update(input: seq<byte>) returns (s: Status)
      requires Ready()
      modifies `totalLen, `bufferedSize, `nbStripesSoFar, `consumed, `fed, acc, buffer
      ensures s == Ok && Ready() && fed == old(fed) + input
    {
      hide Consume, DerivedSecret, DefaultSecret, Wrap64, Computes;
      s := Ok;
      var secret := CurrentSecret();
      MoreInput(f, fed, input, consumed, secret);
      Wrap64Add(|fed|, |input|);
      totalLen := (totalLen + |input|) % TWO64;
      if |input| <= 256 - bufferedSize {
        FillBuffer(input);
        return;
      }
      UpdateLarge(input, secret);
    }

    method FillBuffer(input: seq<byte>)
      requires buffer.Length == 256 && Buffered(buffer[..], bufferedSize, fed, consumed)
      requires bufferedSize + |input| <= 256
      modifies `bufferedSize, `fed, buffer
      ensures fed == old(fed) + input && Buffered(buffer[..], bufferedSize, fed, consumed)
    {
      FillKeepsBuffered(buffer[..], bufferedSize, fed, consumed, input);
      ghost var filled := buffer[..][..bufferedSize] + input + buffer[..][bufferedSize + |input|..];
      Memcpy(buffer, bufferedSize, input);
      assert buffer[..] == filled;
      bufferedSize := bufferedSize + |input|;
      fed := fed + input;
    }

    /** What is known while an update drains the buffer and its input into `lanes`. */
    ghost predicate Draining(lanes: array<u64>, all: seq<byte>, rest: seq<byte>, secret: Secret)
      reads this, lanes, buffer
    {
      && Computes(f) && lanes.Length == 8 && lanes != acc && buffer.Length == 256
      && secretLimit == Limit(secret) && nbStripesPerBlock == PerBlock(secret)
      && nbStripesSoFar < nbStripesPerBlock && Positioned(all, rest, consumed, buffer[..])
      && Progress(lanes[..], nbStripesSoFar) == Consume(f, Progress(INIT_ACC, 0), all, consumed, secret)
    }

    /** Completes a partly filled buffer with the start of the input and folds it. */
    method DrainBuffer(lanes: array<u64>, input: seq<byte>, ghost all: seq<byte>, secret: Secret) returns (pos: nat)
      requires Computes(f) && lanes.Length == 8 && lanes != acc && buffer.Length == 256
      requires secretLimit == Limit(secret) && nbStripesPerBlock == PerBlock(secret)
      requires nbStripesSoFar < nbStripesPerBlock && all == fed + input
      requires Buffered(buffer[..], bufferedSize, fed, consumed) && |input| > 256 - bufferedSize
      requires Progress(lanes[..], nbStripesSoFar) == Consume(f, Progress(INIT_ACC, 0), all, consumed, secret)
      modifies `bufferedSize, `nbStripesSoFar, `consumed, lanes, buffer
      ensures pos <= |input| && Draining(lanes, all, input[pos..], secret)
      ensures consumed == 0 ==> |input| - pos > 256
    {
      hide Consume, DerivedSecret, DefaultSecret, Computes, Positioned;
      BufferIsBounded(buffer[..], bufferedSize, fed, consumed);
      pos := 0;
      if bufferedSize > 0 {
        CompletedBuffer(buffer[..], bufferedSize, fed, consumed, input);
        hide Buffered;
        pos := CompleteBuffer(input);
        nbStripesSoFar := Absorb(lanes, nbStripesSoFar, all, consumed, buffer[..], 4, secret);
        bufferedSize, consumed := 0, consumed + 4;
      } else {
        NothingBuffered(buffer[..], fed, consumed, input);
        assert input[0..] == input;
      }
    }

    /** Fills the buffer up with the start of the input. */
    method CompleteBuffer(input: seq<byte>) returns (loadSize: nat)
      requires buffer.Length == 256 && bufferedSize <= 256 && |input| > 256 - bufferedSize
      modifies buffer
      ensures loadSize == 256 - bufferedSize && buffer[..] == old(buffer[..])[..bufferedSize] + input[..loadSize]
    {
      loadSize := 256 - bufferedSize;
      ghost var was := buffer[..];
      Memcpy(buffer, bufferedSize, input[..loadSize]);
      NothingBehind(was, bufferedSize, input[..loadSize]);
    }

    /** Folds all but the last 1 to 64 bytes of a rest that does not fit the buffer,
        and keeps the 64 bytes before them at the end of the buffer. */
    method DrainInput(lanes: array<u64>, input: seq<byte>, from: nat, ghost all: seq<byte>, secret: Secret)
      returns (pos: nat)
      requires from <= |input| && Draining(lanes, all, input[from..], secret) && |input| - from > 256
      modifies `nbStripesSoFar, `consumed, lanes, buffer
      ensures pos <= |input| && Draining(lanes, all, input[pos..], secret)
      ensures consumed > 0 && |input| - pos <= 64
    {
      hide Consume, DerivedSecret, DefaultSecret, Computes, Positioned;
      ghost var was := buffer[..];
      var nbStripes := (|input| - 1 - from) / 64;
      AfterBulk(all, input, from, consumed, was, nbStripes);
      nbStripesSoFar := Absorb(lanes, nbStripesSoFar, all, consumed, input[from..], nbStripes, secret);
      pos, consumed := from + 64 * nbStripes, consumed + nbStripes;
      Memcpy(buffer, 192, input[pos - 64..pos]);
      NothingBehind(was, 192, input[pos - 64..pos]);
    }

    method KeepRest(rest: seq<byte>, ghost all: seq<byte>)
      requires buffer.Length == 256 && consumed > 0 && |rest| <= 256
      requires Positioned(all, rest, consumed, buffer[..])
      modifies `bufferedSize, buffer
      ensures Buffered(buffer[..], bufferedSize, all, consumed)
    {
      RestIsBuffered(buffer[..], all, consumed, rest);
      ghost var expected := rest + buffer[..][|rest|..];
      Memcpy(buffer, 0, rest);
      assert buffer[..] == expected;
      bufferedSize := |rest|;
    }

    /** The part of an update that overflows the buffer. */
    method UpdateLarge(input: seq<byte>, secret: Secret)
      requires Created() && Configured() && secret == LongSecret(mode) && nbStripesSoFar < nbStripesPerBlock
      requires totalLen == Wrap64(|fed + input|)
      requires Buffered(buffer[..], bufferedSize, fed, consumed) && |input| > 256 - bufferedSize
      requires Progress(acc[..], nbStripesSoFar) == Consume(f, Progress(INIT_ACC, 0), fed + input, consumed, secret)
      modifies `bufferedSize, `nbStripesSoFar, `consumed, `fed, acc, buffer
      ensures Ready() && fed == old(fed) + input
    {
      hide Consume, DerivedSecret, DefaultSecret, Computes, Positioned, Buffered, Wrap64;
      ghost var all := fed + input;
      var lanes := CopyOfAcc();
      var pos := DrainBuffer(lanes, input, all, secret);
      if |input| - pos > 256 {
        pos := DrainInput(lanes, input, pos, all, secret);
      }
      KeepRest(input[pos..], all);
      SaveAcc(lanes);
      fed := all;
    }

    method SaveAcc(lanes: array<u64>)
      requires acc.Length == 8 && lanes.Length == 8
      modifies acc
      ensures acc[..] == old(lanes[..])
    {
      forall i | 0 <= i < 8 {
        acc[i] := lanes[i];
      }
    }
  }

  /** A whole run: any reset, any split of the input into updates, then the digest. */
  method HashInPieces(k: Kernel, f: Kernels, mode: Mode, pieces: seq<seq<byte>>) returns (h64: u64, h128: U128)
    requires Computes(f) && |Flatten(pieces)| < TWO64
    requires (mode.WithSecret? || mode.WithSecretAndSeed?) ==> |mode.secret| < TWO32
    ensures h64 == Hash64(f, mode, Flatten(pieces))
    ensures h128 == Hash128(f, mode, Flatten(pieces))
  {
    hide Consume, DerivedSecret, DefaultSecret, Hash64, Hash128;
    var state := new Xxh3State(k, f);
    var s: Status;
    match mode {
      case Default => s := state.Reset();
      case WithSecret(secret) => s := state.ResetWithSecret(Some(secret), |secret|);
      case WithSeed(seed) => s := state.ResetWithSeed(seed);
      case WithSecretAndSeed(secret, seed) => s := state.ResetWithSecretAndSeed(Some(secret), |secret|, seed);
    }
    for i := 0 to |pieces|
      invariant state.Ready() && state.f == f && state.mode == mode
      invariant fresh(state) && fresh(state.acc) && fresh(state.buffer) && fresh(state.customSecret)
      invariant state.fed == Flatten(pieces[..i])
    {
      assert pieces[..i + 1] == pieces[..i] + [pieces[i]];
      s := state.Update(pieces[i]);
    }
    assert pieces[..|pieces|] == pieces;
    h64 := state.Digest64();
    h128 := state.Digest128();
  }
}
