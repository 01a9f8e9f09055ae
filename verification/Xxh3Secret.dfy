/** The default secret of XXH3 and the secret derived from a seed. */
module Xxh3Secret {
  import opened Words
  import opened Xxh3Long

  const SECRET_DEFAULT_SIZE: int := 192

  /** The sixteen secret bytes at offset 16 * i. */
  function SecretRow(i: nat): (r: seq<byte>)
    requires i < 12
    ensures |r| == 16
  {
    match i
    case 0 => [0xb8, 0xfe, 0x6c, 0x39, 0x23, 0xa4, 0x4b, 0xbe, 0x7c, 0x01, 0x81, 0x2c, 0xf7, 0x21, 0xad, 0x1c]
    case 1 => [0xde, 0xd4, 0x6d, 0xe9, 0x83, 0x90, 0x97, 0xdb, 0x72, 0x40, 0xa4, 0xa4, 0xb7, 0xb3, 0x67, 0x1f]
    case 2 => [0xcb, 0x79, 0xe6, 0x4e, 0xcc, 0xc0, 0xe5, 0x78, 0x82, 0x5a, 0xd0, 0x7d, 0xcc, 0xff, 0x72, 0x21]
    case 3 => [0xb8, 0x08, 0x46, 0x74, 0xf7, 0x43, 0x24, 0x8e, 0xe0, 0x35, 0x90, 0xe6, 0x81, 0x3a, 0x26, 0x4c]
    case 4 => [0x3c, 0x28, 0x52, 0xbb, 0x91, 0xc3, 0x00, 0xcb, 0x88, 0xd0, 0x65, 0x8b, 0x1b, 0x53, 0x2e, 0xa3]
    case 5 => [0x71, 0x64, 0x48, 0x97, 0xa2, 0x0d, 0xf9, 0x4e, 0x38, 0x19, 0xef, 0x46, 0xa9, 0xde, 0xac, 0xd8]
    case 6 => [0xa8, 0xfa, 0x76, 0x3f, 0xe3, 0x9c, 0x34, 0x3f, 0xf9, 0xdc, 0xbb, 0xc7, 0xc7, 0x0b, 0x4f, 0x1d]
    case 7 => [0x8a, 0x51, 0xe0, 0x4b, 0xcd, 0xb4, 0x59, 0x31, 0xc8, 0x9f, 0x7e, 0xc9, 0xd9, 0x78, 0x73, 0x64]
    case 8 => [0xea, 0xc5, 0xac, 0x83, 0x34, 0xd3, 0xeb, 0xc3, 0xc5, 0x81, 0xa0, 0xff, 0xfa, 0x13, 0x63, 0xeb]
    case 9 => [0x17, 0x0d, 0xdd, 0x51, 0xb7, 0xf0, 0xda, 0x49, 0xd3, 0x16, 0x55, 0x26, 0x29, 0xd4, 0x68, 0x9e]
    case 10 => [0x2b, 0x16, 0xbe, 0x58, 0x7d, 0x47, 0xa1, 0xfc, 0x8f, 0xf8, 0xb8, 0xd1, 0x7a, 0xd0, 0x31, 0xce]
    case _ => [0x45, 0xcb, 0x3a, 0x8f, 0x95, 0x16, 0x04, 0x28, 0xaf, 0xd7, 0xfb, 0xca, 0xbb, 0x4b, 0x40, 0x7e]
  }

  type Rows = s: seq<seq<byte>> | |s| == 12 && forall i :: 0 <= i < 12 ==> |s[i]| == 16
    witness seq(12, _ => seq(16, _ => 0))

  function FromRows(rows: Rows): (r: Secret)
    ensures |r| == 192
  {
    var r := seq(192, i requires 0 <= i < 192 => rows[i / 16][i % 16]);
    r
  }

  lemma FromRowsAt(rows: Rows, i: nat)
    requires i < 12
    ensures FromRows(rows)[16 * i..16 * i + 16] == rows[i]
  {
    var slice := FromRows(rows)[16 * i..16 * i + 16];
    forall t | 0 <= t < 16
      ensures slice[t] == rows[i][t]
    {
      assert (16 * i + t) / 16 == i && (16 * i + t) % 16 == t;
    }
  }

  function DefaultSecret(): (r: Secret)
    ensures |r| == 192
  {
    FromRows(seq(12, i requires 0 <= i < 12 => SecretRow(i)))
  }

  /** Bytes 16 * i up to 16 * i + 16 of the secret derived from a seed: the seed is
      added to the first word and subtracted from the second. */
  function DerivedRow(seed: u64, i: nat): (r: seq<byte>)
    requires i < 12
    ensures |r| == 16
  {
    SeedPair(ReadLE64(DefaultSecret(), 16 * i), ReadLE64(DefaultSecret(), 16 * i + 8), seed)
  }

  function SeedPair(lo: u64, hi: u64, seed: u64): (r: seq<byte>)
    ensures |r| == 16
  {
    WriteLE64(Add64(lo, seed)) + WriteLE64((hi as int - seed as int) % TWO64)
  }

  function DerivedSecret(seed: u64): (r: Secret)
    ensures |r| == 192
  {
    FromRows(DerivedRows(seed))
  }

  function DerivedRows(seed: u64): Rows {
    seq(12, i requires 0 <= i < 12 => DerivedRow(seed, i))
  }

  lemma ZeroRow(i: nat)
    requires i < 12
    ensures DerivedRow(0, i) == DefaultSecret()[16 * i..16 * i + 16]
  {
    ZeroPair(DefaultSecret(), 16 * i);
  }

  lemma ZeroPair(d: seq<byte>, i: nat)
    requires i + 16 <= |d|
    ensures SeedPair(ReadLE64(d, i), ReadLE64(d, i + 8), 0) == d[i..i + 16]
  {
    PairOfZero(ReadLE64(d, i), ReadLE64(d, i + 8));
    ReadWriteLE64(d, i);
    ReadWriteLE64(d, i + 8);
    assert d[i..i + 16] == d[i..i + 8] + d[i + 8..i + 16];
  }

  lemma PairOfZero(lo: u64, hi: u64)
    ensures SeedPair(lo, hi, 0) == WriteLE64(lo) + WriteLE64(hi)
  {
    assert Add64(lo, 0) == lo && (hi as int - 0) % TWO64 == hi;
  }

  /** Deriving from seed zero gives the default secret, so the special case the
      library makes of a zero seed is only a shortcut. */
  lemma ZeroSeed()
    ensures DerivedSecret(0) == DefaultSecret()
  {
    forall i | 0 <= i < 12
      ensures DerivedRows(0)[i] == DefaultSecret()[16 * i..16 * i + 16]
    {
      ZeroRow(i);
    }
    SameRows(DerivedSecret(0), DefaultSecret(), DerivedRows(0));
  }

  lemma SameRows(x: Secret, y: Secret, rows: Rows)
    requires |y| == 192 && x == FromRows(rows)
    requires forall i :: 0 <= i < 12 ==> rows[i] == y[16 * i..16 * i + 16]
    ensures x == y
  {
    forall t | 0 <= t < 192
      ensures x[t] == y[t]
    {
      assert rows[t / 16] == y[16 * (t / 16)..16 * (t / 16) + 16];
      assert t == 16 * (t / 16) + t % 16;
    }
  }

  lemma ReadWriteLE64(b: seq<byte>, i: nat)
    requires i + 8 <= |b|
    ensures WriteLE64(ReadLE64(b, i)) == b[i..i + 8]
  {
    ReadWriteLE32(b, i);
    ReadWriteLE32(b, i + 4);
    assert b[i..i + 8] == b[i..i + 4] + b[i + 4..i + 8];
  }

  lemma ReadWriteLE32(b: seq<byte>, i: nat)
    requires i + 4 <= |b|
    ensures WriteLE32(ReadLE32(b, i)) == b[i..i + 4]
  {
    Digits(b[i], b[i + 1], b[i + 2], b[i + 3]);
  }

  lemma Digits(p: byte, q: byte, r: byte, s: byte)
    ensures var x: int := p as int + 0x100 * (q as int) + 0x1_0000 * (r as int) + 0x100_0000 * (s as int);
      x % 0x100 == p as int && x / 0x100 % 0x100 == q as int && x / 0x1_0000 % 0x100 == r as int
      && x / 0x100_0000 == s as int
  {
    var x: int := p as int + 0x100 * (q as int) + 0x1_0000 * (r as int) + 0x100_0000 * (s as int);
    assert x / 0x100 == q as int + 0x100 * (r as int) + 0x1_0000 * (s as int);
    assert x / 0x1_0000 == r as int + 0x100 * (s as int);
  }

  method WriteRow(customSecret: array<byte>, seed64: u64, i: nat)
    requires customSecret.Length == SECRET_DEFAULT_SIZE && i < 12
    modifies customSecret
    ensures customSecret[..] == old(customSecret[..16 * i]) + DerivedRow(seed64, i) + old(customSecret[16 * i + 16..])
  {
    var lo := Add64(ReadLE64(DefaultSecret(), 16 * i), seed64);
    var hi := (ReadLE64(DefaultSecret(), 16 * i + 8) as int - seed64 as int) % TWO64;
    WritePair(customSecret, 16 * i, WriteLE64(lo), WriteLE64(hi));
  }

  method WritePair(dst: array<byte>, at: nat, first: seq<byte>, second: seq<byte>)
    requires at + |first| + |second| <= dst.Length
    modifies dst
    ensures dst[..] == old(dst[..at]) + (first + second) + old(dst[at + |first + second|..])
  {
    Memcpy(dst, at, first);
    Memcpy(dst, at + |first|, second);
  }

  method InitCustomSecret(customSecret: array<byte>, seed64: u64)
    requires customSecret.Length == SECRET_DEFAULT_SIZE
    modifies customSecret
    ensures customSecret[..] == DerivedSecret(seed64)
  {
    ghost var derived := DerivedSecret(seed64);
    for i := 0 to 12
      invariant customSecret[..16 * i] == derived[..16 * i]
    {
      ghost var before := customSecret[..];
      WriteRow(customSecret, seed64, i);
      FromRowsAt(DerivedRows(seed64), i);
      RowStep(before, customSecret[..], derived, i);
    }
    assert customSecret[..192] == customSecret[..] && derived[..192] == derived;
  }

  lemma RowStep(before: seq<byte>, after: seq<byte>, derived: seq<byte>, i: nat)
    requires i < 12 && |before| == |derived| == 192 && before[..16 * i] == derived[..16 * i]
    requires after == before[..16 * i] + derived[16 * i..16 * i + 16] + before[16 * i + 16..]
    ensures after[..16 * (i + 1)] == derived[..16 * (i + 1)]
  {
    SliceJoin(derived, 16 * i);
  }

  lemma SliceJoin(s: seq<byte>, a: nat)
    requires a + 16 <= |s|
    ensures s[..a] + s[a..a + 16] == s[..a + 16]
  {
  }
}
