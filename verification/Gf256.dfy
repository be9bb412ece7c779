/** Arithmetic in GF(2^8), section 4.2 of FIPS 197. */
module Gf256 {

  /** The reduction of up to three bits that were shifted out: a product with 0x1B. */
  function Reduce(u: bv8): bv8 { u ^ (u << 1) ^ (u << 3) ^ (u << 4) }

  /** Products with the constants the cipher uses. */
  function Mul1(x: bv8): bv8 { x }
  function Mul2(x: bv8): bv8 { (x << 1) ^ Reduce(x >> 7) }
  function Mul3(x: bv8): bv8 { Mul2(x) ^ x }
  function Mul4(x: bv8): bv8 { (x << 2) ^ Reduce(x >> 6) }
  function Mul8(x: bv8): bv8 { (x << 3) ^ Reduce(x >> 5) }
  function Mul9(x: bv8): bv8 { Mul8(x) ^ x }
  function MulB(x: bv8): bv8 { Mul8(x) ^ Mul2(x) ^ x }
  function MulD(x: bv8): bv8 { Mul8(x) ^ Mul4(x) ^ x }
  function MulE(x: bv8): bv8 { Mul8(x) ^ Mul4(x) ^ Mul2(x) }

  /** The XTIME macro of the source, section 4.2.1 of FIPS 197. */
  function Double(x: bv8): bv8 {
    (x << 1) ^ (if x & 0x80 != 0 then 0x1B else 0x00)
  }

  lemma Mul2Doubles(x: bv8)
    ensures Mul2(x) == Double(x)
  {
  }

  lemma Mul4Doubles(x: bv8)
    ensures Mul4(x) == Double(Mul2(x))
  {
  }

  lemma Mul8Doubles(x: bv8)
    ensures Mul8(x) == Double(Mul4(x))
  {
  }

  /** All products are sums of x and what one, two and three doublings make of it. */
  lemma Products(x: bv8, x2: bv8, x4: bv8, x8: bv8)
    requires x2 == Double(x) && x4 == Double(x2) && x8 == Double(x4)
    ensures Mul2(x) == x2 && Mul3(x) == x2 ^ x
    ensures Mul9(x) == x8 ^ x && MulB(x) == x8 ^ x2 ^ x && MulD(x) == x8 ^ x4 ^ x && MulE(x) == x8 ^ x4 ^ x2
  {
    Mul2Doubles(x);
    Mul4Doubles(x);
    Mul8Doubles(x);
  }

  // ----- Products distribute over addition -----

  ghost predicate LinearAt(f: bv8 -> bv8, x: bv8, y: bv8) {
    f(x ^ y) == f(x) ^ f(y)
  }

  ghost predicate Linear(f: bv8 -> bv8) {
    forall x, y :: LinearAt(f, x, y)
  }

  ghost predicate SumAt(f: bv8 -> bv8, g: bv8 -> bv8, h: bv8 -> bv8, x: bv8) {
    h(x) == f(x) ^ g(x)
  }

  lemma SumPoint(fx: bv8, fy: bv8, fxy: bv8, gx: bv8, gy: bv8, gxy: bv8, hx: bv8, hy: bv8, hxy: bv8)
    requires fxy == fx ^ fy && gxy == gx ^ gy && hx == fx ^ gx && hy == fy ^ gy && hxy == fxy ^ gxy
    ensures hxy == hx ^ hy
  {
    assert (fx ^ fy) ^ (gx ^ gy) == (fx ^ gx) ^ (fy ^ gy);
  }

  lemma SumLinearAt(f: bv8 -> bv8, g: bv8 -> bv8, h: bv8 -> bv8, x: bv8, y: bv8)
    requires LinearAt(f, x, y) && LinearAt(g, x, y)
    requires SumAt(f, g, h, x) && SumAt(f, g, h, y) && SumAt(f, g, h, x ^ y)
    ensures LinearAt(h, x, y)
  {
    SumPoint(f(x), f(y), f(x ^ y), g(x), g(y), g(x ^ y), h(x), h(y), h(x ^ y));
  }

  lemma SumLinear(f: bv8 -> bv8, g: bv8 -> bv8, h: bv8 -> bv8)
    requires Linear(f) && Linear(g) && forall x :: SumAt(f, g, h, x)
    ensures Linear(h)
  {
    forall x, y ensures LinearAt(h, x, y) {
      SumLinearAt(f, g, h, x, y);
    }
  }

  ghost predicate ComposeAt(f: bv8 -> bv8, g: bv8 -> bv8, h: bv8 -> bv8, x: bv8) {
    h(x) == f(g(x))
  }

  lemma ComposeLinearAt(f: bv8 -> bv8, g: bv8 -> bv8, h: bv8 -> bv8, x: bv8, y: bv8)
    requires LinearAt(g, x, y) && LinearAt(f, g(x), g(y))
    requires ComposeAt(f, g, h, x) && ComposeAt(f, g, h, y) && ComposeAt(f, g, h, x ^ y)
    ensures LinearAt(h, x, y)
  {
  }

  lemma ComposeLinear(f: bv8 -> bv8, g: bv8 -> bv8, h: bv8 -> bv8)
    requires Linear(f) && Linear(g) && forall x :: ComposeAt(f, g, h, x)
    ensures Linear(h)
  {
    forall x, y ensures LinearAt(h, x, y) {
      ComposeLinearAt(f, g, h, x, y);
    }
  }

  function Shl1(x: bv8): bv8 { x << 1 }
  function Shl2(x: bv8): bv8 { x << 2 }
  function Shl3(x: bv8): bv8 { x << 3 }
  function Shl4(x: bv8): bv8 { x << 4 }
  function Shr5(x: bv8): bv8 { x >> 5 }
  function Shr6(x: bv8): bv8 { x >> 6 }
  function Shr7(x: bv8): bv8 { x >> 7 }

  lemma ShiftsLinear()
    ensures Linear(Mul1) && Linear(Shl1) && Linear(Shl2) && Linear(Shl3) && Linear(Shl4)
    ensures Linear(Shr5) && Linear(Shr6) && Linear(Shr7)
  {
  }

  function Times3(u: bv8): bv8 { u ^ (u << 1) }
  function Times11(u: bv8): bv8 { Times3(u) ^ (u << 3) }

  lemma ReduceLinear()
    ensures Linear(Reduce)
  {
    ShiftsLinear();
    SumLinear(Mul1, Shl1, Times3);
    SumLinear(Times3, Shl3, Times11);
    SumLinear(Times11, Shl4, Reduce);
  }

  /** What comes back of the bits shifted out by one, two and three places. */
  function Back1(x: bv8): bv8 { Reduce(x >> 7) }
  function Back2(x: bv8): bv8 { Reduce(x >> 6) }
  function Back3(x: bv8): bv8 { Reduce(x >> 5) }

  lemma Mul2Linear()
    ensures Linear(Mul2)
  {
    ShiftsLinear();
    ReduceLinear();
    ComposeLinear(Reduce, Shr7, Back1);
    SumLinear(Shl1, Back1, Mul2);
  }

  lemma Mul4Linear()
    ensures Linear(Mul4)
  {
    ShiftsLinear();
    ReduceLinear();
    ComposeLinear(Reduce, Shr6, Back2);
    SumLinear(Shl2, Back2, Mul4);
  }

  lemma Mul8Linear()
    ensures Linear(Mul8)
  {
    ShiftsLinear();
    ReduceLinear();
    ComposeLinear(Reduce, Shr5, Back3);
    SumLinear(Shl3, Back3, Mul8);
  }

  function MulA(x: bv8): bv8 { Mul8(x) ^ Mul2(x) }
  function MulC(x: bv8): bv8 { Mul8(x) ^ Mul4(x) }

  lemma MulALinear()
    ensures Linear(MulA)
  {
    Mul8Linear();
    Mul2Linear();
    SumLinear(Mul8, Mul2, MulA);
  }

  lemma MulCLinear()
    ensures Linear(MulC)
  {
    Mul8Linear();
    Mul4Linear();
    SumLinear(Mul8, Mul4, MulC);
  }

  lemma Mul9Linear()
    ensures Linear(Mul9)
  {
    ShiftsLinear();
    Mul8Linear();
    SumLinear(Mul8, Mul1, Mul9);
  }

  lemma MulBLinear()
    ensures Linear(MulB)
  {
    ShiftsLinear();
    MulALinear();
    SumLinear(MulA, Mul1, MulB);
  }

  lemma MulDLinear()
    ensures Linear(MulD)
  {
    ShiftsLinear();
    MulCLinear();
    SumLinear(MulC, Mul1, MulD);
  }

  lemma MulELinear()
    ensures Linear(MulE)
  {
    MulCLinear();
    Mul2Linear();
    SumLinear(MulC, Mul2, MulE);
  }

  // The polynomial 0B x^3 + 0D x^2 + 09 x + 0E is the inverse of 03 x^3 + 01 x^2 + 01 x + 02 modulo x^4 + 1: the
  // four coefficients of their product, section 4.3 of FIPS 197.

  // With x2, x4, x8 and x16 for the repeated doublings of x, each product of two constants is a sum of these.

  lemma ProductsOf2(x: bv8)
    ensures var x2, x4, x8, x16 := Mul2(x), Mul4(x), Mul8(x), Mul8(Mul2(x));
      && MulE(x2) == x16 ^ x8 ^ x4 && MulB(x2) == x16 ^ x4 ^ x2 && MulD(x2) == x16 ^ x8 ^ x2 && Mul9(x2) == x16 ^ x2
  {
    DoubledTwice(x);
    DoubledThrice(x);
  }

  lemma DoubledTwice(x: bv8)
    ensures Mul2(Mul2(x)) == Mul4(x)
  {
    Mul2Doubles(Mul2(x));
    Mul4Doubles(x);
  }

  lemma DoubledThrice(x: bv8)
    ensures Mul4(Mul2(x)) == Mul8(x)
  {
    Mul4Doubles(Mul2(x));
    DoubledTwice(x);
    Mul8Doubles(x);
  }

  lemma ProductOf3(f: bv8 -> bv8, x: bv8)
    requires Linear(f)
    ensures f(Mul3(x)) == f(Mul2(x)) ^ f(x)
  {
    assert LinearAt(f, Mul2(x), x);
  }

  lemma Coefficient0(x: bv8)
    ensures (MulE(Mul2(x)) ^ MulB(Mul1(x))) ^ (MulD(Mul1(x)) ^ Mul9(Mul3(x))) == x
  {
    ProductsOf2(x);
    Mul9Linear();
    ProductOf3(Mul9, x);
    Sum0(x, Mul2(x), Mul4(x), Mul8(x), Mul8(Mul2(x)));
  }

  lemma Coefficient1(x: bv8)
    ensures (MulE(Mul3(x)) ^ MulB(Mul2(x))) ^ (MulD(Mul1(x)) ^ Mul9(Mul1(x))) == 0
  {
    ProductsOf2(x);
    MulELinear();
    ProductOf3(MulE, x);
    Sum1(x, Mul2(x), Mul4(x), Mul8(x), Mul8(Mul2(x)));
  }

  lemma Coefficient2(x: bv8)
    ensures (MulE(Mul1(x)) ^ MulB(Mul3(x))) ^ (MulD(Mul2(x)) ^ Mul9(Mul1(x))) == 0
  {
    ProductsOf2(x);
    MulBLinear();
    ProductOf3(MulB, x);
    Sum2(x, Mul2(x), Mul4(x), Mul8(x), Mul8(Mul2(x)));
  }

  lemma Coefficient3(x: bv8)
    ensures (MulE(Mul1(x)) ^ MulB(Mul1(x))) ^ (MulD(Mul3(x)) ^ Mul9(Mul2(x))) == 0
  {
    ProductsOf2(x);
    MulDLinear();
    ProductOf3(MulD, x);
    Sum3(x, Mul2(x), Mul4(x), Mul8(x), Mul8(Mul2(x)));
  }

  // The sums, for any bytes.

  lemma Sum0(x: bv8, x2: bv8, x4: bv8, x8: bv8, x16: bv8)
    ensures ((x16 ^ x8 ^ x4) ^ (x8 ^ x2 ^ x)) ^ ((x8 ^ x4 ^ x) ^ ((x16 ^ x2) ^ (x8 ^ x))) == x
  {
  }

  lemma Sum1(x: bv8, x2: bv8, x4: bv8, x8: bv8, x16: bv8)
    ensures (((x16 ^ x8 ^ x4) ^ (x8 ^ x4 ^ x2)) ^ (x16 ^ x4 ^ x2)) ^ ((x8 ^ x4 ^ x) ^ (x8 ^ x)) == 0
  {
  }

  lemma Sum2(x: bv8, x2: bv8, x4: bv8, x8: bv8, x16: bv8)
    ensures ((x8 ^ x4 ^ x2) ^ ((x16 ^ x4 ^ x2) ^ (x8 ^ x2 ^ x))) ^ ((x16 ^ x8 ^ x2) ^ (x8 ^ x)) == 0
  {
  }

  lemma Sum3(x: bv8, x2: bv8, x4: bv8, x8: bv8, x16: bv8)
    ensures ((x8 ^ x4 ^ x2) ^ (x8 ^ x2 ^ x)) ^ (((x16 ^ x8 ^ x2) ^ (x8 ^ x4 ^ x)) ^ (x16 ^ x2)) == 0
  {
  }
}
