/** The tables the program is built with satisfy the laws the proofs about the cipher rest on. */
module AesStandard {
  import opened AesWords
  import opened AesKeys
  import opened AesSbox
  import Gf256

  function AddBytes(a: bv8, b: bv8): bv8 { a ^ b }

  /** RCON */
  function Rcon(i: nat): bv8 {
    match i
    case 0 => 0x01 case 1 => 0x02 case 2 => 0x04 case 3 => 0x08 case 4 => 0x10
    case 5 => 0x20 case 6 => 0x40 case 7 => 0x80 case 8 => 0x1B case 9 => 0x36
    case _ => 0x00
  }

  /** Each constant is the double of the one before it, section 5.2 of FIPS 197. */
  lemma RconDoubles(i: nat)
    requires i < 9
    ensures Rcon(0) == 1 && Rcon(i + 1) == Gf256.Mul2(Rcon(i))
  {
  }

  function Standard(): Field<bv8> {
    Field(AddBytes, 0, FSb, RSb, Circulant(Gf256.Mul2, Gf256.Mul3, Gf256.Mul1, Gf256.Mul1),
          Circulant(Gf256.MulE, Gf256.MulB, Gf256.MulD, Gf256.Mul9), Rcon)
  }

  /** The products in the two matrices are sums of x and what the XTIME macro makes of it in one, two and three
      applications. */
  lemma StandardProducts(x: bv8, x2: bv8, x4: bv8, x8: bv8)
    requires x2 == Gf256.Double(x) && x4 == Gf256.Double(x2) && x8 == Gf256.Double(x4)
    ensures var k := Standard();
      && k.mix.f0(x) == x2 && k.mix.f1(x) == x2 ^ x && k.mix.f2(x) == x && k.mix.f3(x) == x
      && k.inv.f0(x) == x8 ^ x4 ^ x2 && k.inv.f1(x) == x8 ^ x2 ^ x && k.inv.f2(x) == x8 ^ x4 ^ x && k.inv.f3(x) == x8 ^ x
  {
    Gf256.Products(x, x2, x4, x8);
  }

  // ----- Fields whose addition is exclusive or -----

  ghost predicate XorAt(k: Field<bv8>, a: bv8, b: bv8) {
    k.add(a, b) == a ^ b
  }

  ghost predicate AddsByXor(k: Field<bv8>) {
    k.zero == 0 && forall a, b :: XorAt(k, a, b)
  }

  lemma SwapBytes(a: bv8, b: bv8, c: bv8, d: bv8)
    ensures (a ^ b) ^ (c ^ d) == (a ^ c) ^ (b ^ d)
  {
  }

  lemma CancelBytes(a: bv8, b: bv8)
    ensures (a ^ b) ^ b == a && a ^ b == b ^ a && a ^ 0 == a
  {
  }

  lemma Sum4Xor(k: Field<bv8>, a: bv8, b: bv8, c: bv8, d: bv8)
    requires AddsByXor(k)
    ensures Sum4(k, a, b, c, d) == (a ^ b) ^ (c ^ d)
  {
    assert XorAt(k, a, b) && XorAt(k, c, d) && XorAt(k, a ^ b, c ^ d);
  }

  lemma XorSwaps(k: Field<bv8>, a: bv8, b: bv8, c: bv8, d: bv8)
    requires AddsByXor(k)
    ensures SwapAt(k, a, b, c, d)
  {
    Sum4Xor(k, a, b, c, d);
    Sum4Xor(k, a, c, b, d);
    SwapBytes(a, b, c, d);
  }

  lemma XorCancels(k: Field<bv8>, a: bv8, b: bv8)
    requires AddsByXor(k)
    ensures AesWords.CancelAt(k, a, b)
  {
    assert XorAt(k, a, b) && XorAt(k, b, a) && XorAt(k, a ^ b, b) && XorAt(k, a, 0);
    CancelBytes(a, b);
  }

  lemma XorLinear(k: Field<bv8>, f: bv8 -> bv8)
    requires AddsByXor(k) && Gf256.Linear(f)
    ensures Linear(k, f)
  {
    forall a, b ensures LinearAt(k, f, a, b) {
      assert Gf256.LinearAt(f, a, b) && XorAt(k, a, b) && XorAt(k, f(a), f(b));
    }
  }

  // ----- The product of the two matrices -----

  ghost predicate CoefficientAt(k: Field<bv8>, x: bv8, m0: bv8 -> bv8, m1: bv8 -> bv8, m2: bv8 -> bv8, m3: bv8 -> bv8, r: bv8) {
    (k.inv.f0(m0(x)) ^ k.inv.f1(m1(x))) ^ (k.inv.f2(m2(x)) ^ k.inv.f3(m3(x))) == r
  }

  lemma CoefficientSums(k: Field<bv8>, x: bv8, m0: bv8 -> bv8, m1: bv8 -> bv8, m2: bv8 -> bv8, m3: bv8 -> bv8, r: bv8)
    requires AddsByXor(k) && CoefficientAt(k, x, m0, m1, m2, m3, r)
    ensures Sum4(k, k.inv.f0(m0(x)), k.inv.f1(m1(x)), k.inv.f2(m2(x)), k.inv.f3(m3(x))) == r
  {
    Sum4Xor(k, k.inv.f0(m0(x)), k.inv.f1(m1(x)), k.inv.f2(m2(x)), k.inv.f3(m3(x)));
  }

  lemma CoefficientsInvert(k: Field<bv8>, x: bv8)
    requires AddsByXor(k)
    requires CoefficientAt(k, x, k.mix.f0, k.mix.f3, k.mix.f2, k.mix.f1, x)
    requires CoefficientAt(k, x, k.mix.f1, k.mix.f0, k.mix.f3, k.mix.f2, 0)
    requires CoefficientAt(k, x, k.mix.f2, k.mix.f1, k.mix.f0, k.mix.f3, 0)
    requires CoefficientAt(k, x, k.mix.f3, k.mix.f2, k.mix.f1, k.mix.f0, 0)
    ensures InverseAt(k, x)
  {
    CoefficientSums(k, x, k.mix.f0, k.mix.f3, k.mix.f2, k.mix.f1, x);
    CoefficientSums(k, x, k.mix.f1, k.mix.f0, k.mix.f3, k.mix.f2, 0);
    CoefficientSums(k, x, k.mix.f2, k.mix.f1, k.mix.f0, k.mix.f3, 0);
    CoefficientSums(k, x, k.mix.f3, k.mix.f2, k.mix.f1, k.mix.f0, 0);
  }

  lemma StandardCoefficient0(x: bv8)
    ensures CoefficientAt(Standard(), x, Gf256.Mul2, Gf256.Mul1, Gf256.Mul1, Gf256.Mul3, x)
  {
    Gf256.Coefficient0(x);
  }

  lemma StandardCoefficient1(x: bv8)
    ensures CoefficientAt(Standard(), x, Gf256.Mul3, Gf256.Mul2, Gf256.Mul1, Gf256.Mul1, 0)
  {
    Gf256.Coefficient1(x);
  }

  lemma StandardCoefficient2(x: bv8)
    ensures CoefficientAt(Standard(), x, Gf256.Mul1, Gf256.Mul3, Gf256.Mul2, Gf256.Mul1, 0)
  {
    Gf256.Coefficient2(x);
  }

  lemma StandardCoefficient3(x: bv8)
    ensures CoefficientAt(Standard(), x, Gf256.Mul1, Gf256.Mul1, Gf256.Mul3, Gf256.Mul2, 0)
  {
    Gf256.Coefficient3(x);
  }

  lemma StandardAddsByXor()
    ensures AddsByXor(Standard())
  {
  }

  /** The tables of the program satisfy the laws. */
  lemma StandardLaws()
    ensures Laws(Standard())
  {
    var k := Standard();
    StandardAddsByXor();
    forall a, b, c, d ensures SwapAt(k, a, b, c, d) {
      XorSwaps(k, a, b, c, d);
    }
    forall a, b ensures AesWords.CancelAt(k, a, b) {
      XorCancels(k, a, b);
    }
    Gf256.MulELinear();
    Gf256.MulBLinear();
    Gf256.MulDLinear();
    Gf256.Mul9Linear();
    XorLinear(k, k.inv.f0);
    XorLinear(k, k.inv.f1);
    XorLinear(k, k.inv.f2);
    XorLinear(k, k.inv.f3);
    forall x ensures InverseAt(k, x) {
      StandardCoefficient0(x);
      StandardCoefficient1(x);
      StandardCoefficient2(x);
      StandardCoefficient3(x);
      CoefficientsInvert(k, x);
    }
    forall x ensures k.rsb(k.fsb(x)) == x {
      SboxInverse(x);
    }
  }

  /** For every key, rounds and block, decryption with the program's tables undoes encryption. */
  lemma StandardBlockRoundTrip(key: seq<bv8>, nr: nat, e: seq<Word<bv8>>, d: seq<Word<bv8>>, b: seq<bv8>)
    requires |key| >= 4 && nr > 0
    requires HoldsEnc(Standard(), KeyWords(key), e, 4 * (nr + 1)) && HoldsDec(Standard(), KeyWords(key), nr, d, 4 * (nr + 1))
    ensures DecBlock(Standard(), RoundKeys(d, nr), EncBlock(Standard(), RoundKeys(e, nr), b)) == b
  {
    StandardLaws();
    AesKeys.BlockRoundTrip(Standard(), KeyWords(key), nr, e, d, b);
  }
}
