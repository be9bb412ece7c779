/** The AES cipher and its equivalent inverse, FIPS 197, over an abstract field. */
module Aes {
  import opened AesWords
  import opened AesRounds

  /** Four columns. */
  datatype State<B> = State(c0: Word<B>, c1: Word<B>, c2: Word<B>, c3: Word<B>)

  // ----- The transformations of a round -----

  function SubBytes<B>(sb: B -> B, s: State<B>): State<B> {
    State(SubWord(sb, s.c0), SubWord(sb, s.c1), SubWord(sb, s.c2), SubWord(sb, s.c3))
  }

  /** Row r moves r columns to the left, section 5.1.2. */
  function ShiftRows<B>(s: State<B>): State<B> {
    State(Word(s.c0.b0, s.c1.b1, s.c2.b2, s.c3.b3), Word(s.c1.b0, s.c2.b1, s.c3.b2, s.c0.b3),
          Word(s.c2.b0, s.c3.b1, s.c0.b2, s.c1.b3), Word(s.c3.b0, s.c0.b1, s.c1.b2, s.c2.b3))
  }

  /** Row r moves r columns to the right, section 5.3.1. */
  function InvShiftRows<B>(s: State<B>): State<B> {
    State(Word(s.c0.b0, s.c3.b1, s.c2.b2, s.c1.b3), Word(s.c1.b0, s.c0.b1, s.c3.b2, s.c2.b3),
          Word(s.c2.b0, s.c1.b1, s.c0.b2, s.c3.b3), Word(s.c3.b0, s.c2.b1, s.c1.b2, s.c0.b3))
  }

  function Columns<B>(k: Field<B>, m: Circulant<B>, s: State<B>): State<B> {
    State(Apply(k, m, s.c0), Apply(k, m, s.c1), Apply(k, m, s.c2), Apply(k, m, s.c3))
  }

  function AddKey<B>(k: Field<B>, s: State<B>, key: State<B>): State<B> {
    State(Xor(k, s.c0, key.c0), Xor(k, s.c1, key.c1), Xor(k, s.c2, key.c2), Xor(k, s.c3, key.c3))
  }

  // ----- One round of the cipher, section 5.1, and of its equivalent inverse, section 5.3.5 -----

  function EncRound<B>(k: Field<B>, s: State<B>, key: State<B>): State<B> {
    AddKey(k, Columns(k, k.mix, ShiftRows(SubBytes(k.fsb, s))), key)
  }

  function EncFinal<B>(k: Field<B>, s: State<B>, key: State<B>): State<B> {
    AddKey(k, ShiftRows(SubBytes(k.fsb, s)), key)
  }

  function DecRound<B>(k: Field<B>, s: State<B>, key: State<B>): State<B> {
    AddKey(k, Columns(k, k.inv, InvShiftRows(SubBytes(k.rsb, s))), key)
  }

  function DecFinal<B>(k: Field<B>, s: State<B>, key: State<B>): State<B> {
    AddKey(k, InvShiftRows(SubBytes(k.rsb, s)), key)
  }

  /** What a full round does before MixColumns. */
  function Scramble<B>(k: Field<B>, s: State<B>): State<B> {
    ShiftRows(SubBytes(k.fsb, s))
  }

  // ----- Decryption undoes encryption -----

  lemma AddKeyCancels<B(!new)>(k: Field<B>, s: State<B>, key: State<B>)
    requires Laws(k)
    ensures AddKey(k, AddKey(k, s, key), key) == s
  {
    XorCancels(k, s.c0, key.c0);
    XorCancels(k, s.c1, key.c1);
    XorCancels(k, s.c2, key.c2);
    XorCancels(k, s.c3, key.c3);
  }

  lemma SubShiftInverse<B(!new)>(k: Field<B>, s: State<B>)
    requires Laws(k)
    ensures InvShiftRows(SubBytes(k.rsb, ShiftRows(SubBytes(k.fsb, s)))) == s
  {
  }

  /** InvMixColumns of a state to which a key was added after MixColumns, with the transformed key added. */
  lemma InvRoundCancels<B(!new)>(k: Field<B>, s: State<B>, key: State<B>)
    requires Laws(k)
    ensures AddKey(k, Columns(k, k.inv, AddKey(k, Columns(k, k.mix, s), key)), Columns(k, k.inv, key)) == s
  {
    var x := Columns(k, k.mix, s);
    InvMixLinear(k, x.c0, key.c0);
    InvMixLinear(k, x.c1, key.c1);
    InvMixLinear(k, x.c2, key.c2);
    InvMixLinear(k, x.c3, key.c3);
    AddKeyCancels(k, Columns(k, k.inv, x), Columns(k, k.inv, key));
    InvMixMix(k, s.c0);
    InvMixMix(k, s.c1);
    InvMixMix(k, s.c2);
    InvMixMix(k, s.c3);
  }

  /** A decryption round takes the scrambled state after an encryption round to the scrambled state before it. */
  lemma RoundUndone<B(!new)>(k: Field<B>, s: State<B>, key: State<B>)
    requires Laws(k)
    ensures DecRound(k, Scramble(k, EncRound(k, s, key)), Columns(k, k.inv, key)) == Scramble(k, s)
  {
    SubShiftInverse(k, EncRound(k, s, key));
    InvRoundCancels(k, Scramble(k, s), key);
  }

  lemma FirstUndone<B(!new)>(k: Field<B>, s: State<B>, key: State<B>)
    requires Laws(k)
    ensures AddKey(k, EncFinal(k, s, key), key) == Scramble(k, s)
  {
    AddKeyCancels(k, Scramble(k, s), key);
  }

  lemma LastUndone<B(!new)>(k: Field<B>, s: State<B>, key: State<B>)
    requires Laws(k)
    ensures DecFinal(k, Scramble(k, AddKey(k, s, key)), key) == s
  {
    SubShiftInverse(k, AddKey(k, s, key));
    AddKeyCancels(k, s, key);
  }

  // ----- The cipher -----

  function CipherOf<B>(k: Field<B>): Rounds<State<B>> {
    Rounds((s, key) => AddKey(k, s, key), (s, key) => EncRound(k, s, key), (s, key) => EncFinal(k, s, key),
           (s, key) => DecRound(k, s, key), (s, key) => DecFinal(k, s, key), s => Columns(k, k.inv, s), s => Scramble(k, s))
  }

  lemma CipherUndoes<B(!new)>(k: Field<B>)
    requires Laws(k)
    ensures Undoes(CipherOf(k))
  {
    var q := CipherOf(k);
    forall s, key ensures q.add(q.encFinal(s, key), key) == q.mid(s) {
      FirstUndone(k, s, key);
    }
    forall s, key ensures q.dec(q.mid(q.enc(s, key)), q.flip(key)) == q.mid(s) {
      RoundUndone(k, s, key);
    }
    forall s, key ensures q.decFinal(q.mid(q.add(s, key)), key) == s {
      LastUndone(k, s, key);
    }
  }

  // ----- The table form of a round -----

  /** AES_FROUND: four look-ups for each column. */
  function TableEncRound<B>(k: Field<B>, key: State<B>, y: State<B>): State<B> {
    State(Xor(k, key.c0, Lookup(k, k.mix, k.fsb, y.c0.b0, y.c1.b1, y.c2.b2, y.c3.b3)),
          Xor(k, key.c1, Lookup(k, k.mix, k.fsb, y.c1.b0, y.c2.b1, y.c3.b2, y.c0.b3)),
          Xor(k, key.c2, Lookup(k, k.mix, k.fsb, y.c2.b0, y.c3.b1, y.c0.b2, y.c1.b3)),
          Xor(k, key.c3, Lookup(k, k.mix, k.fsb, y.c3.b0, y.c0.b1, y.c1.b2, y.c2.b3)))
  }

  /** AES_RROUND */
  function TableDecRound<B>(k: Field<B>, key: State<B>, y: State<B>): State<B> {
    State(Xor(k, key.c0, Lookup(k, k.inv, k.rsb, y.c0.b0, y.c3.b1, y.c2.b2, y.c1.b3)),
          Xor(k, key.c1, Lookup(k, k.inv, k.rsb, y.c1.b0, y.c0.b1, y.c3.b2, y.c2.b3)),
          Xor(k, key.c2, Lookup(k, k.inv, k.rsb, y.c2.b0, y.c1.b1, y.c0.b2, y.c3.b3)),
          Xor(k, key.c3, Lookup(k, k.inv, k.rsb, y.c3.b0, y.c2.b1, y.c1.b2, y.c0.b3)))
  }

  /** The last round looks single bytes up. */
  function TableEncFinal<B>(k: Field<B>, key: State<B>, y: State<B>): State<B> {
    State(Xor(k, key.c0, Word(k.fsb(y.c0.b0), k.fsb(y.c1.b1), k.fsb(y.c2.b2), k.fsb(y.c3.b3))),
          Xor(k, key.c1, Word(k.fsb(y.c1.b0), k.fsb(y.c2.b1), k.fsb(y.c3.b2), k.fsb(y.c0.b3))),
          Xor(k, key.c2, Word(k.fsb(y.c2.b0), k.fsb(y.c3.b1), k.fsb(y.c0.b2), k.fsb(y.c1.b3))),
          Xor(k, key.c3, Word(k.fsb(y.c3.b0), k.fsb(y.c0.b1), k.fsb(y.c1.b2), k.fsb(y.c2.b3))))
  }

  function TableDecFinal<B>(k: Field<B>, key: State<B>, y: State<B>): State<B> {
    State(Xor(k, key.c0, Word(k.rsb(y.c0.b0), k.rsb(y.c3.b1), k.rsb(y.c2.b2), k.rsb(y.c1.b3))),
          Xor(k, key.c1, Word(k.rsb(y.c1.b0), k.rsb(y.c0.b1), k.rsb(y.c3.b2), k.rsb(y.c2.b3))),
          Xor(k, key.c2, Word(k.rsb(y.c2.b0), k.rsb(y.c1.b1), k.rsb(y.c0.b2), k.rsb(y.c3.b3))),
          Xor(k, key.c3, Word(k.rsb(y.c3.b0), k.rsb(y.c2.b1), k.rsb(y.c1.b2), k.rsb(y.c0.b3))))
  }

  lemma AddKeyCommutes<B(!new)>(k: Field<B>, s: State<B>, key: State<B>)
    requires Laws(k)
    ensures AddKey(k, key, s) == AddKey(k, s, key)
  {
    XorCancels(k, s.c0, key.c0);
    XorCancels(k, s.c1, key.c1);
    XorCancels(k, s.c2, key.c2);
    XorCancels(k, s.c3, key.c3);
  }

  /** One table round is SubBytes, ShiftRows, MixColumns and AddRoundKey. */
  lemma TableEncRoundIsRound<B(!new)>(k: Field<B>, key: State<B>, y: State<B>)
    requires Laws(k)
    ensures TableEncRound(k, key, y) == EncRound(k, y, key)
  {
    LookupApplies(k, k.mix, k.fsb, y.c0.b0, y.c1.b1, y.c2.b2, y.c3.b3);
    LookupApplies(k, k.mix, k.fsb, y.c1.b0, y.c2.b1, y.c3.b2, y.c0.b3);
    LookupApplies(k, k.mix, k.fsb, y.c2.b0, y.c3.b1, y.c0.b2, y.c1.b3);
    LookupApplies(k, k.mix, k.fsb, y.c3.b0, y.c0.b1, y.c1.b2, y.c2.b3);
    AddKeyCommutes(k, Columns(k, k.mix, ShiftRows(SubBytes(k.fsb, y))), key);
  }

  lemma TableDecRoundIsRound<B(!new)>(k: Field<B>, key: State<B>, y: State<B>)
    requires Laws(k)
    ensures TableDecRound(k, key, y) == DecRound(k, y, key)
  {
    LookupApplies(k, k.inv, k.rsb, y.c0.b0, y.c3.b1, y.c2.b2, y.c1.b3);
    LookupApplies(k, k.inv, k.rsb, y.c1.b0, y.c0.b1, y.c3.b2, y.c2.b3);
    LookupApplies(k, k.inv, k.rsb, y.c2.b0, y.c1.b1, y.c0.b2, y.c3.b3);
    LookupApplies(k, k.inv, k.rsb, y.c3.b0, y.c2.b1, y.c1.b2, y.c0.b3);
    AddKeyCommutes(k, Columns(k, k.inv, InvShiftRows(SubBytes(k.rsb, y))), key);
  }

  lemma TableFinalsAreFinals<B(!new)>(k: Field<B>, key: State<B>, y: State<B>)
    requires Laws(k)
    ensures TableEncFinal(k, key, y) == EncFinal(k, y, key)
    ensures TableDecFinal(k, key, y) == DecFinal(k, y, key)
  {
    AddKeyCommutes(k, ShiftRows(SubBytes(k.fsb, y)), key);
    AddKeyCommutes(k, InvShiftRows(SubBytes(k.rsb, y)), key);
  }

  /** The cipher written with tables. */
  function TablesOf<B>(k: Field<B>): Rounds<State<B>> {
    CipherOf(k).(enc := (s, key) => TableEncRound(k, key, s), encFinal := (s, key) => TableEncFinal(k, key, s),
                 dec := (s, key) => TableDecRound(k, key, s), decFinal := (s, key) => TableDecFinal(k, key, s))
  }

  lemma TableRoundsAgree<B(!new)>(k: Field<B>, s: State<B>, key: State<B>)
    requires Laws(k)
    ensures TablesOf(k).enc(s, key) == CipherOf(k).enc(s, key)
    ensures TablesOf(k).dec(s, key) == CipherOf(k).dec(s, key)
  {
    TableEncRoundIsRound(k, key, s);
    TableDecRoundIsRound(k, key, s);
  }

  lemma TableFinalsAgree<B(!new)>(k: Field<B>, s: State<B>, key: State<B>)
    requires Laws(k)
    ensures TablesOf(k).encFinal(s, key) == CipherOf(k).encFinal(s, key)
    ensures TablesOf(k).decFinal(s, key) == CipherOf(k).decFinal(s, key)
  {
    TableFinalsAreFinals(k, key, s);
  }

  lemma TablesAgree<B(!new)>(k: Field<B>)
    requires Laws(k)
    ensures Agree(TablesOf(k), CipherOf(k))
  {
    var q, p := TablesOf(k), CipherOf(k);
    forall s, key ensures q.enc(s, key) == p.enc(s, key) && q.dec(s, key) == p.dec(s, key) {
      TableRoundsAgree(k, s, key);
    }
    forall s, key ensures q.encFinal(s, key) == p.encFinal(s, key) && q.decFinal(s, key) == p.decFinal(s, key) {
      TableFinalsAgree(k, s, key);
    }
  }
}
