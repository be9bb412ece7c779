/** The key schedule of FIPS 197, section 5.2, and the keys of the equivalent inverse cipher, section 5.3.5. */
module AesKeys {
  import opened AesWords
  import opened AesRounds
  import opened Aes

  // ----- Bytes, words and blocks, lowest byte first -----

  function WordAt<B>(b: seq<B>, i: nat): Word<B>
    requires i + 4 <= |b|
  {
    Word(b[i], b[i + 1], b[i + 2], b[i + 3])
  }

  function StateAt<B>(b: seq<B>, i: nat): State<B>
    requires i + 16 <= |b|
  {
    State(WordAt(b, i), WordAt(b, i + 4), WordAt(b, i + 8), WordAt(b, i + 12))
  }

  function Bytes<B>(s: State<B>): (r: seq<B>)
    ensures |r| == 16 && StateAt(r, 0) == s
  {
    [s.c0.b0, s.c0.b1, s.c0.b2, s.c0.b3, s.c1.b0, s.c1.b1, s.c1.b2, s.c1.b3,
     s.c2.b0, s.c2.b1, s.c2.b2, s.c2.b3, s.c3.b0, s.c3.b1, s.c3.b2, s.c3.b3]
  }

  lemma BytesOfState<B>(b: seq<B>)
    requires |b| == 16
    ensures Bytes(StateAt(b, 0)) == b
  {
  }

  function KeyWords<B>(key: seq<B>): seq<Word<B>> {
    seq(|key| / 4, i requires 0 <= i < |key| / 4 => WordAt(key, 4 * i))
  }

  // ----- Key expansion -----

  function RotWord<B>(w: Word<B>): Word<B> {
    Word(w.b1, w.b2, w.b3, w.b0)
  }

  function RoundConstant<B>(k: Field<B>, i: nat): Word<B> {
    Word(k.rcon(i), k.zero, k.zero, k.zero)
  }

  /** What the standard makes of word i - 1 before it is added to word i - nk. */
  function Derived<B>(k: Field<B>, nk: nat, i: nat, temp: Word<B>): Word<B>
    requires 0 < nk <= i
  {
    if i % nk == 0 then Xor(k, SubWord(k.fsb, RotWord(temp)), RoundConstant(k, i / nk - 1))
    else if nk > 6 && i % nk == 4 then SubWord(k.fsb, temp)
    else temp
  }

  /** Word i of a key expanded with the derivation d. */
  function ExpandBy<B>(k: Field<B>, d: (nat, Word<B>) -> Word<B>, key: seq<Word<B>>, i: nat): Word<B>
    requires |key| > 0
  {
    if i < |key| then key[i] else Xor(k, ExpandBy(k, d, key, i - |key|), d(i, ExpandBy(k, d, key, i - 1)))
  }

  function DerivedOf<B>(k: Field<B>, nk: nat): (nat, Word<B>) -> Word<B> {
    (i: nat, temp: Word<B>) => if 0 < nk <= i then Derived(k, nk, i, temp) else temp
  }

  /** Word i of the expanded key. */
  function Expand<B>(k: Field<B>, key: seq<Word<B>>, i: nat): Word<B>
    requires |key| > 0
  {
    ExpandBy(k, DerivedOf(k, |key|), key, i)
  }

  // ----- Round keys -----

  function Four<B>(w: seq<Word<B>>, r: nat): State<B>
    requires 4 * r + 4 <= |w|
  {
    State(w[4 * r], w[4 * r + 1], w[4 * r + 2], w[4 * r + 3])
  }

  /** The round keys held by the first words of a buffer. */
  function RoundKeys<B>(w: seq<Word<B>>, nr: nat): (keys: seq<State<B>>)
    requires 4 * (nr + 1) <= |w|
    ensures |keys| == nr + 1
  {
    seq(nr + 1, r requires 0 <= r < nr + 1 => Four(w, r))
  }

  /** Word i of the keys for decryption: round r uses the key of round nr - r, through InvMixColumns except at
      both ends. */
  function InverseWord<B>(k: Field<B>, key: seq<Word<B>>, nr: nat, i: nat): Word<B>
    requires |key| > 0 && i < 4 * (nr + 1)
  {
    var w := Expand(k, key, 4 * (nr - i / 4) + i % 4);
    if 0 < i / 4 < nr then Apply(k, k.inv, w) else w
  }

  lemma InverseWordAt<B>(k: Field<B>, key: seq<Word<B>>, nr: nat, r: nat, c: nat, i: nat, w: Word<B>)
    requires |key| > 0 && r <= nr && c < 4 && i == 4 * r + c && w == Expand(k, key, 4 * (nr - r) + c)
    ensures InverseWord(k, key, nr, i) == if 0 < r < nr then Apply(k, k.inv, w) else w
  {
    assert i / 4 == r && i % 4 == c;
  }

  ghost predicate HoldsEncAt<B>(k: Field<B>, key: seq<Word<B>>, w: seq<Word<B>>, i: int)
    requires |key| > 0
  {
    0 <= i < |w| && w[i] == Expand(k, key, i)
  }

  /** The first n words of a buffer are those of the expanded key. */
  ghost predicate HoldsEnc<B>(k: Field<B>, key: seq<Word<B>>, w: seq<Word<B>>, n: nat)
    requires |key| > 0
  {
    n <= |w| && forall i :: 0 <= i < n ==> HoldsEncAt(k, key, w, i)
  }

  ghost predicate HoldsDecAt<B>(k: Field<B>, key: seq<Word<B>>, nr: nat, w: seq<Word<B>>, i: int)
    requires |key| > 0
  {
    0 <= i < |w| && i < 4 * (nr + 1) && w[i] == InverseWord(k, key, nr, i)
  }

  /** The first n words of a buffer are those of the keys for decryption. */
  ghost predicate HoldsDec<B>(k: Field<B>, key: seq<Word<B>>, nr: nat, w: seq<Word<B>>, n: nat)
    requires |key| > 0
  {
    n <= |w| && n <= 4 * (nr + 1) && forall i :: 0 <= i < n ==> HoldsDecAt(k, key, nr, w, i)
  }

  /** How word c of round r for decryption comes from the word for encryption. */
  ghost predicate ReversedWord<B>(k: Field<B>, nr: nat, e: seq<Word<B>>, d: seq<Word<B>>, r: nat, c: nat)
    requires r <= nr && c < 4 && 4 * (nr + 1) <= |e| && 4 * (nr + 1) <= |d|
  {
    d[4 * r + c] == if 0 < r < nr then Apply(k, k.inv, e[4 * (nr - r) + c]) else e[4 * (nr - r) + c]
  }

  lemma WordReversed<B>(k: Field<B>, key: seq<Word<B>>, nr: nat, e: seq<Word<B>>, d: seq<Word<B>>, r: nat, c: nat)
    requires |key| > 0 && r <= nr && c < 4
    requires HoldsEnc(k, key, e, 4 * (nr + 1)) && HoldsDec(k, key, nr, d, 4 * (nr + 1))
    ensures ReversedWord(k, nr, e, d, r, c)
  {
    var i, j := 4 * r + c, 4 * (nr - r) + c;
    assert HoldsEncAt(k, key, e, j) && HoldsDecAt(k, key, nr, d, i);
    InverseWordAt(k, key, nr, r, c, i, e[j]);
  }

  lemma FourReversed<B>(k: Field<B>, nr: nat, e: seq<Word<B>>, d: seq<Word<B>>, r: nat)
    requires r <= nr && 4 * (nr + 1) <= |e| && 4 * (nr + 1) <= |d|
    requires ReversedWord(k, nr, e, d, r, 0) && ReversedWord(k, nr, e, d, r, 1)
    requires ReversedWord(k, nr, e, d, r, 2) && ReversedWord(k, nr, e, d, r, 3)
    ensures Four(d, r) == if 0 < r < nr then Columns(k, k.inv, Four(e, nr - r)) else Four(e, nr - r)
  {
  }

  lemma RoundKeyAt<B>(w: seq<Word<B>>, nr: nat, r: nat)
    requires 4 * (nr + 1) <= |w| && r <= nr
    ensures RoundKeys(w, nr)[r] == Four(w, r)
  {
  }

  ghost predicate ReversedKey<B>(k: Field<B>, nr: nat, e: seq<Word<B>>, d: seq<Word<B>>, r: nat)
    requires r <= nr && 4 * (nr + 1) <= |e| && 4 * (nr + 1) <= |d|
  {
    RoundKeys(d, nr)[r] == if 0 < r < nr then Columns(k, k.inv, RoundKeys(e, nr)[nr - r]) else RoundKeys(e, nr)[nr - r]
  }

  lemma KeyReversed<B>(k: Field<B>, key: seq<Word<B>>, nr: nat, e: seq<Word<B>>, d: seq<Word<B>>, r: nat)
    requires |key| > 0 && r <= nr
    requires HoldsEnc(k, key, e, 4 * (nr + 1)) && HoldsDec(k, key, nr, d, 4 * (nr + 1))
    ensures ReversedKey(k, nr, e, d, r)
  {
    WordReversed(k, key, nr, e, d, r, 0);
    WordReversed(k, key, nr, e, d, r, 1);
    WordReversed(k, key, nr, e, d, r, 2);
    WordReversed(k, key, nr, e, d, r, 3);
    FourReversed(k, nr, e, d, r);
    KeyFromFour(k, nr, e, d, r);
  }

  lemma KeyFromFour<B>(k: Field<B>, nr: nat, e: seq<Word<B>>, d: seq<Word<B>>, r: nat)
    requires r <= nr && 4 * (nr + 1) <= |e| && 4 * (nr + 1) <= |d|
    requires Four(d, r) == if 0 < r < nr then Columns(k, k.inv, Four(e, nr - r)) else Four(e, nr - r)
    ensures ReversedKey(k, nr, e, d, r)
  {
    RoundKeyAt(d, nr, r);
    RoundKeyAt(e, nr, nr - r);
  }

  lemma KeysReversed<B>(k: Field<B>, nr: nat, e: seq<Word<B>>, d: seq<Word<B>>)
    requires nr > 0 && 4 * (nr + 1) <= |e| && 4 * (nr + 1) <= |d| && forall r :: 0 <= r <= nr ==> ReversedKey(k, nr, e, d, r)
    ensures Reversed(CipherOf(k), RoundKeys(e, nr), RoundKeys(d, nr))
  {
    assert ReversedKey(k, nr, e, d, 0) && ReversedKey(k, nr, e, d, nr);
    var q, keys, inverse := CipherOf(k), RoundKeys(e, nr), RoundKeys(d, nr);
    forall r | 0 < r < nr ensures inverse[r] == q.flip(keys[nr - r]) {
      assert ReversedKey(k, nr, e, d, r);
    }
  }

  /** The two schedules of one key are each other's reverse. */
  lemma SchedulesReverse<B>(k: Field<B>, key: seq<Word<B>>, nr: nat, e: seq<Word<B>>, d: seq<Word<B>>)
    requires |key| > 0 && nr > 0
    requires HoldsEnc(k, key, e, 4 * (nr + 1)) && HoldsDec(k, key, nr, d, 4 * (nr + 1))
    ensures Reversed(CipherOf(k), RoundKeys(e, nr), RoundKeys(d, nr))
  {
    forall r | 0 <= r <= nr ensures ReversedKey(k, nr, e, d, r) {
      KeyReversed(k, key, nr, e, d, r);
    }
    KeysReversed(k, nr, e, d);
  }

  // ----- Blocks -----

  /** The cipher on 16 bytes; other lengths do not occur. */
  function EncBlock<B>(k: Field<B>, keys: seq<State<B>>, b: seq<B>): (r: seq<B>)
    requires 2 <= |keys|
    ensures |r| == |b|
  {
    if |b| == 16 then Bytes(Encrypt(CipherOf(k), keys, StateAt(b, 0))) else b
  }

  function DecBlock<B>(k: Field<B>, keys: seq<State<B>>, b: seq<B>): (r: seq<B>)
    requires 2 <= |keys|
    ensures |r| == |b|
  {
    if |b| == 16 then Bytes(Decrypt(CipherOf(k), keys, StateAt(b, 0))) else b
  }

  /** With the two schedules of one key, decrypting a block undoes encrypting it. */
  lemma BlockRoundTrip<B(!new)>(k: Field<B>, key: seq<Word<B>>, nr: nat, e: seq<Word<B>>, d: seq<Word<B>>, b: seq<B>)
    requires Laws(k) && |key| > 0 && nr > 0
    requires HoldsEnc(k, key, e, 4 * (nr + 1)) && HoldsDec(k, key, nr, d, 4 * (nr + 1))
    ensures DecBlock(k, RoundKeys(d, nr), EncBlock(k, RoundKeys(e, nr), b)) == b
  {
    if |b| == 16 {
      SchedulesReverse(k, key, nr, e, d);
      CipherUndoes(k);
      DecryptUndoesEncrypt(CipherOf(k), RoundKeys(e, nr), RoundKeys(d, nr), StateAt(b, 0));
      BytesOfState(b);
    }
  }
}
