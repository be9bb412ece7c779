/** The modes of operation with the program's tables, on bytes. */
module AesStandardModes {
  import opened Aes
  import opened AesContext
  import opened AesKeys
  import opened AesModeCode
  import opened AesModes
  import opened AesStandard
  import opened AesWords

  // ----- Counting -----

  function NextByte(x: bv8): bv8 { x + 1 }

  function ByteValue(x: bv8): nat { x as nat }

  function Bytewise(): Digits<bv8> {
    Digits(NextByte, 0, ByteValue)
  }

  lemma BytesCount(x: bv8)
    ensures if NextByte(x) == 0 then ByteValue(x) == 255 else ByteValue(NextByte(x)) == ByteValue(x) + 1
  {
  }

  lemma ByteValueInjective(x: bv8, y: bv8)
    requires ByteValue(x) == ByteValue(y)
    ensures x == y
  {
    assert x == x as nat as bv8 && y == y as nat as bv8;
  }

  lemma BytesAreDigits()
    ensures AreDigits(Bytewise())
  {
    var g := Bytewise();
    forall x ensures DigitAt(g, x) {
      BytesCount(x);
    }
    forall x, y | g.value(x) == g.value(y) ensures x == y {
      ByteValueInjective(x, y);
    }
  }

  /** The counter block as a number of 128 bits, its most significant byte first. */
  function CounterValue(c: seq<bv8>): nat {
    Value(Bytewise(), c)
  }

  const TWO_128: nat := 0x1_0000_0000_0000_0000_0000_0000_0000_0000

  lemma SixteenBytes()
    ensures Power256(16) == TWO_128
  {
    assert Power256(4) == 256 * Power256(3) == 0x1_0000_0000;
    assert Power256(8) == 256 * Power256(7) == 256 * 256 * Power256(6) == 0x1_0000_0000_0000_0000;
    assert Power256(12) == 256 * Power256(11) == 256 * 256 * Power256(10) == 0x1_0000_0000_0000_0000_0000_0000;
    assert Power256(16) == 256 * Power256(15) == 256 * 256 * Power256(14);
  }

  /** Incrementing the counter block j times adds j modulo 2^128. */
  lemma StandardCounter(c: seq<bv8>, j: nat)
    requires |c| == 16
    ensures CounterValue(IncrementTimes(Bytewise(), c, j)) == (CounterValue(c) + j) % TWO_128
  {
    BytesAreDigits();
    SixteenBytes();
    CountsUp(Bytewise(), c, j, CounterValue(c), TWO_128, IncrementTimes(Bytewise(), c, j));
  }

  /** The key stream byte number i of a message is byte i modulo 16 of the encryption of the only block whose value is
      i / 16 more than the value of the first counter block, modulo 2^128. */
  lemma StandardKeyStream(e: seq<bv8> -> seq<bv8>, s: Ctr<bv8>, data: seq<bv8>, i: nat, t: seq<bv8>)
    requires KeepsSize(e) && |s.counter| == 16 && s.n == 0 && i < |data| && |t| == 16
    requires CounterValue(t) == (CounterValue(s.counter) + i / 16) % TWO_128
    ensures RunOut(CtrOf(Standard().add, e, Bytewise()), s, data)[i] == data[i] ^ e(t)[i % 16]
  {
    BytesAreDigits();
    SixteenBytes();
    KeyStream(Standard().add, e, Bytewise(), s, data, i, t, TWO_128, i / 16);
  }

  lemma StandardCancels()
    ensures Cancels(Standard().add)
  {
    StandardLaws();
    FieldCancels(Standard());
  }

  /** CTR with the program's tables, applied twice, restores the data, for all round keys. */
  lemma StandardCtrTwice(keys: seq<State<bv8>>, s: Ctr<bv8>, data: seq<bv8>)
    requires 2 <= |keys|
    ensures var f := CtrOf(Standard().add, BlockCipher(Standard(), keys, Encrypting), Bytewise());
      RunOut(f, s, RunOut(f, s, data)) == data
  {
    StandardCancels();
    CtrTwice(Standard().add, BlockCipher(Standard(), keys, Encrypting), Bytewise(), s, data);
  }

  /** CFB likewise. */
  lemma StandardCfbRoundTrip(keys: seq<State<bv8>>, f: Feed<bv8>, data: seq<bv8>)
    requires 2 <= |keys|
    ensures var e := BlockCipher(Standard(), keys, Encrypting);
      RunOut(Cfb(Standard().add, e, false), f, RunOut(Cfb(Standard().add, e, true), f, data)) == data
  {
    StandardCancels();
    CfbRoundTrip(Standard().add, BlockCipher(Standard(), keys, Encrypting), f, data);
  }

  /** CBC with the two schedules of one key. */
  lemma StandardCbcRoundTrip(key: seq<bv8>, nr: nat, e: seq<Word<bv8>>, d: seq<Word<bv8>>, iv: seq<bv8>, data: seq<bv8>)
    requires |key| >= 4 && nr > 0 && |iv| == 16 && |data| % 16 == 0
    requires HoldsEnc(Standard(), KeyWords(key), e, 4 * (nr + 1)) && HoldsDec(Standard(), KeyWords(key), nr, d, 4 * (nr + 1))
    ensures var enc := BlockCipher(Standard(), RoundKeys(e, nr), Encrypting);
      var dec := BlockCipher(Standard(), RoundKeys(d, nr), Decrypting);
      KeepsSize(enc) && KeepsSize(dec)
      && CbcDecrypt(Standard().add, dec, iv, CbcEncrypt(Standard().add, enc, iv, data)) == data
  {
    StandardLaws();
    StandardCancels();
    var ek, dk := RoundKeys(e, nr), RoundKeys(d, nr);
    BlockCipherComputes(Standard(), ek, Encrypting);
    BlockCipherComputes(Standard(), dk, Decrypting);
    CiphersUndo(Standard(), KeyWords(key), nr, e, d, ek, dk);
    CbcRoundTrip(Standard().add, BlockCipher(Standard(), ek, Encrypting), BlockCipher(Standard(), dk, Decrypting), iv, data);
  }
}
