/** The portable schoolbook 64x64 to 128 bit multiplication. */
module Mult128 {
  import opened Words

  datatype U128 = U128(low64: u64, high64: u64)

  function Mult32To64(x: u64, y: u64): (r: u64)
    ensures r <= MAX_PRODUCT
  {
    ProductFits(Lo32(x), Lo32(y));
    Lo32(x) as int * Lo32(y) as int
  }

  lemma ProductFits(x: u32, y: u32)
    ensures 0 <= x as int * y as int <= (TWO32 - 1) * (TWO32 - 1)
  {
    MulMonotone(y, TWO32 - 1, x);
    MulMonotone(x, TWO32 - 1, TWO32 - 1);
  }

  lemma MulMonotone(a: int, b: int, c: int)
    requires 0 <= a <= b && 0 <= c
    ensures 0 <= c * a <= c * b && c * a == a * c && c * b == b * c
  {
    var d := b - a;
    assert 0 <= c * d && c * b == c * (a + d) == c * a + c * d;
  }

  /** The cross sum, with the wrap-around of its two 64-bit additions. */
  function Cross(lhs: u64, rhs: u64): u64 {
    var loLo := Mult32To64(Lo32(lhs), Lo32(rhs));
    var hiLo := Mult32To64(Hi32(lhs), Lo32(rhs));
    var loHi := Mult32To64(Lo32(lhs), Hi32(rhs));
    Add64(Add64(Hi32(loLo), Lo32(hiLo)), loHi)
  }

  /** The upper sum, with the wrap-around of its two 64-bit additions. */
  function Upper(lhs: u64, rhs: u64): u64 {
    var hiLo := Mult32To64(Hi32(lhs), Lo32(rhs));
    var hiHi := Mult32To64(Hi32(lhs), Hi32(rhs));
    Add64(Add64(Hi32(hiLo), Hi32(Cross(lhs, rhs))), hiHi)
  }

  function Mult64To128(lhs: u64, rhs: u64): U128 {
    var loLo := Mult32To64(Lo32(lhs), Lo32(rhs));
    var shifted := (Cross(lhs, rhs) * TWO32) % TWO64;
    ShiftedHalf(Cross(lhs, rhs));
    OrHalves(Lo32(Cross(lhs, rhs)), Lo32(loLo));
    U128(Or(shifted, Lo32(loLo)), Upper(lhs, rhs))
  }

  lemma ShiftedHalf(x: nat)
    ensures (x * TWO32) % TWO64 == (x % TWO32) * TWO32
  {
    var q, m := x / TWO32, x % TWO32;
    assert x * TWO32 == TWO64 * q + m * TWO32;
  }

  const MAX_PRODUCT: int := 0xFFFF_FFFE_0000_0001

  lemma CrossFits(loLo: u64, hiLo: u64, loHi: u64)
    requires loHi <= MAX_PRODUCT
    ensures Add64(Add64(Hi32(loLo), Lo32(hiLo)), loHi) == Hi32(loLo) as int + Lo32(hiLo) as int + loHi as int
  {
  }

  lemma UpperFits(hiLo: u64, cross: u64, hiHi: u64)
    requires hiLo <= MAX_PRODUCT && hiHi <= MAX_PRODUCT
    ensures Add64(Add64(Hi32(hiLo), Hi32(cross)), hiHi) == Hi32(hiLo) as int + Hi32(cross) as int + hiHi as int
  {
  }

  /** Neither the cross sum nor the upper sum wraps: the additions are exact. */
  lemma SumsNeverWrap(lhs: u64, rhs: u64)
    ensures Cross(lhs, rhs) ==
      Hi32(Mult32To64(Lo32(lhs), Lo32(rhs))) as int + Lo32(Mult32To64(Hi32(lhs), Lo32(rhs))) as int
      + Mult32To64(Lo32(lhs), Hi32(rhs)) as int
    ensures Upper(lhs, rhs) ==
      Hi32(Mult32To64(Hi32(lhs), Lo32(rhs))) as int + Hi32(Cross(lhs, rhs)) as int
      + Mult32To64(Hi32(lhs), Hi32(rhs)) as int
  {
    var loLo := Mult32To64(Lo32(lhs), Lo32(rhs));
    var hiLo := Mult32To64(Hi32(lhs), Lo32(rhs));
    var loHi := Mult32To64(Lo32(lhs), Hi32(rhs));
    var hiHi := Mult32To64(Hi32(lhs), Hi32(rhs));
    CrossFits(loLo, hiLo, loHi);
    UpperFits(hiLo, Cross(lhs, rhs), hiHi);
  }

  /** The two sums recombine the partial products. */
  lemma SumOfParts(lhs: u64, rhs: u64)
    ensures var p := Mult64To128(lhs, rhs);
      p.high64 * TWO64 + p.low64 == Mult32To64(Hi32(lhs), Hi32(rhs)) * TWO64
        + (Mult32To64(Hi32(lhs), Lo32(rhs)) + Mult32To64(Lo32(lhs), Hi32(rhs)) as int) * TWO32
        + Mult32To64(Lo32(lhs), Lo32(rhs))
  {
    var loLo := Mult32To64(Lo32(lhs), Lo32(rhs));
    SumsNeverWrap(lhs, rhs);
    ShiftedHalf(Cross(lhs, rhs));
    OrHalves(Lo32(Cross(lhs, rhs)), Lo32(loLo));
    Recombine(loLo, Mult32To64(Hi32(lhs), Lo32(rhs)), Mult32To64(Lo32(lhs), Hi32(rhs)),
              Mult32To64(Hi32(lhs), Hi32(rhs)), Cross(lhs, rhs), Upper(lhs, rhs));
  }

  lemma PartsOfProduct(lhs: u64, rhs: u64)
    ensures lhs as int * rhs as int == Mult32To64(Hi32(lhs), Hi32(rhs)) * TWO64
      + (Mult32To64(Hi32(lhs), Lo32(rhs)) + Mult32To64(Lo32(lhs), Hi32(rhs)) as int) * TWO32
      + Mult32To64(Lo32(lhs), Lo32(rhs))
  {
    hide Hi32, Lo32, Mult32To64;
    Halves(lhs);
    Halves(rhs);
    PartIs(Hi32(lhs), Hi32(rhs));
    PartIs(Hi32(lhs), Lo32(rhs));
    PartIs(Lo32(lhs), Hi32(rhs));
    PartIs(Lo32(lhs), Lo32(rhs));
    Expand(lhs, rhs, Hi32(lhs), Lo32(lhs), Hi32(rhs), Lo32(rhs));
  }

  lemma PartIs(x: u32, y: u32)
    ensures Mult32To64(x, y) == x as int * y as int
  {
  }

  lemma Halves(x: u64)
    ensures x == Hi32(x) * TWO32 + Lo32(x)
  {
  }

  /** The product is exact for all operands. */
  lemma Exact(lhs: u64, rhs: u64)
    ensures var p := Mult64To128(lhs, rhs); p.high64 * TWO64 + p.low64 == lhs as int * rhs as int
  {
    SumOfParts(lhs, rhs);
    PartsOfProduct(lhs, rhs);
  }

  lemma Recombine(loLo: int, hiLo: int, loHi: int, hiHi: int, cross: int, upper: int)
    requires cross == loLo / TWO32 + hiLo % TWO32 + loHi
    requires upper == hiLo / TWO32 + cross / TWO32 + hiHi
    ensures upper * TWO64 + ((cross % TWO32) * TWO32 + loLo % TWO32)
      == hiHi * TWO64 + (hiLo + loHi) * TWO32 + loLo
  {
  }

  lemma Expand(l: int, r: int, lh: int, ll: int, rh: int, rl: int)
    requires l == lh * TWO32 + ll && r == rh * TWO32 + rl
    ensures l * r == (lh * rh) * TWO64 + (lh * rl + ll * rh) * TWO32 + ll * rl
  {
    assert l * r == (lh * TWO32 + ll) * (rh * TWO32 + rl);
  }

  /** The 128-bit product folded by exclusive or. */
  function Mul128Fold64(lhs: u64, rhs: u64): u64 {
    var product := Mult64To128(lhs, rhs);
    Xor64(product.low64, product.high64)
  }
}
