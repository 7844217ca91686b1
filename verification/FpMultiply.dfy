/**
  `operator*(fp, fp)`: the upper half of a 128-bit product of significands,
  rounded half up, computed from four 32 x 32-bit products in 64-bit arithmetic.
 */
module FpMultiply {
  import opened Arithmetic

  const HALF: int := 0x1_0000_0000
  const WORD: int := 0x1_0000_0000_0000_0000

  datatype Fp = Fp(f: int, e: int)

  ghost predicate Uint64(x: int) {
    0 <= x < WORD
  }

  /** The sums of the four partial products, each operation taken modulo 2^64. */
  function Middle(ad: int, bc: int, bd: int): int {
    (bd / HALF + ad % HALF + bc % HALF + 0x8000_0000) % WORD
  }

  function Upper(ac: int, ad: int, bc: int, bd: int): int {
    (ac + ad / HALF + bc / HALF + Middle(ad, bc, bd) / HALF) % WORD
  }

  function Product(x: int, y: int): int {
    x * y % WORD
  }

  function Multiply(x: Fp, y: Fp): Fp {
    var a, b := x.f / HALF, x.f % HALF;
    var c, d := y.f / HALF, y.f % HALF;
    Fp(Upper(Product(a, c), Product(a, d), Product(b, c), Product(b, d)), x.e + y.e + 64)
  }

  /** 32-bit factors never overflow a 64-bit product. */
  lemma ProductFits(x: int, y: int)
    requires 0 <= x < HALF && 0 <= y < HALF
    ensures Product(x, y) == x * y && 0 <= x * y <= 0xffff_fffe_0000_0001
  {
    MulMonotonic(0, x, y);
    MulMonotonic(x, 0xffff_ffff, y);
  }

  lemma SchoolProduct(a: int, b: int, c: int, d: int)
    ensures (a * HALF + b) * (c * HALF + d) == a * c * WORD + (a * d + b * c) * HALF + b * d
  {
    MulDistributes(a * HALF, b, c * HALF + d);
    assert a * HALF * (c * HALF + d) == a * c * WORD + a * d * HALF;
    assert b * (c * HALF + d) == b * c * HALF + b * d;
  }

  /** The rounded sum of the partial products, and why no addition wraps. */
  lemma UpperIsRounded(ac: int, ad: int, bc: int, bd: int, product: int)
    requires product == ac * WORD + (ad + bc) * HALF + bd
    requires 0 <= ac <= 0xffff_fffe_0000_0001 && 0 <= ad <= 0xffff_fffe_0000_0001
    requires 0 <= bc <= 0xffff_fffe_0000_0001 && 0 <= bd <= 0xffff_fffe_0000_0001
    requires product + 0x8000_0000_0000_0000 < WORD * WORD
    ensures bd / HALF + ad % HALF + bc % HALF + 0x8000_0000 < WORD
    ensures ac + ad / HALF + bc / HALF + Middle(ad, bc, bd) / HALF < WORD
    ensures Upper(ac, ad, bc, bd) == (product + 0x8000_0000_0000_0000) / WORD
  {
    var middle := bd / HALF + ad % HALF + bc % HALF + 0x8000_0000;
    var upper := ac + ad / HALF + bc / HALF + middle / HALF;
    var low := middle % HALF * HALF + bd % HALF;
    assert product + 0x8000_0000_0000_0000 == upper * WORD + low;
    assert 0 <= low < WORD;
  }

  /**
    The documented result: x.f * y.f / 2^64 rounded to nearest with ties up.
    The exact quotient and the result differ by at most one half.
   */
  lemma MultiplyRounds(x: Fp, y: Fp)
    requires Uint64(x.f) && Uint64(y.f)
    ensures Multiply(x, y).f == (x.f * y.f + 0x8000_0000_0000_0000) / WORD && Multiply(x, y).e == x.e + y.e + 64
    ensures Uint64(Multiply(x, y).f)
    ensures var error := Multiply(x, y).f * WORD - x.f * y.f; -0x8000_0000_0000_0000 < error <= 0x8000_0000_0000_0000
  {
    var a, b := x.f / HALF, x.f % HALF;
    var c, d := y.f / HALF, y.f % HALF;
    ProductFits(a, c);
    ProductFits(a, d);
    ProductFits(b, c);
    ProductFits(b, d);
    SchoolProduct(a, b, c, d);
    assert x.f == a * HALF + b && y.f == c * HALF + d;
    ProductBound(x.f, y.f);
    UpperIsRounded(a * c, a * d, b * c, b * d, x.f * y.f);
    hide Upper, Middle;
  }

  lemma ProductBound(x: int, y: int)
    requires Uint64(x) && Uint64(y)
    ensures 0 <= x * y && x * y + 0x8000_0000_0000_0000 < WORD * WORD
  {
    MulMonotonic(0, x, y);
    MulMonotonic(x, 0xffff_ffff_ffff_ffff, y);
    assert 0xffff_ffff_ffff_ffff * y <= 0xffff_ffff_ffff_ffff * 0xffff_ffff_ffff_ffff;
  }
}
