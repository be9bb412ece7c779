/** The AES context: key schedules and single blocks.

  The tables enter through the field `k`; AesStandard supplies the one the program uses. */
module AesContext {
  import opened AesWords
  import opened AesRounds
  import opened Aes
  import opened AesKeys
  import opened AesExpansion
  import opened AesModes

  const INVALID_KEY_LENGTH := -0x0020

  /** The number of rounds for a key of this many bits; other sizes are refused. */
  function RoundsFor(keysize: int): nat {
    if keysize == 128 then 10 else if keysize == 192 then 12 else if keysize == 256 then 14 else 0
  }

  class Context {
    const k: Field<bv8>
    var nr: nat
    const buf: array<Word<bv8>>

    predicate Valid()
      reads this
    {
      buf.Length == 68 && (nr == 10 || nr == 12 || nr == 14)
    }

    function Keys(): (keys: seq<State<bv8>>)
      requires Valid()
      reads this, buf
      ensures |keys| == nr + 1 && 3 <= |keys| && |keys| % 2 == 1
    {
      RoundKeys(buf[..], nr)
    }

    constructor (field: Field<bv8>)
      ensures k == field && nr == 0 && buf.Length == 68 && fresh(buf)
    {
      k := field;
      nr := 0;
      buf := new Word<bv8>[68];
    }

    /** aes_setkey_enc */
    method SetKeyEnc(key: seq<bv8>, keysize: int) returns (ret: int)
      requires Laws(k) && buf.Length == 68 && (RoundsFor(keysize) != 0 ==> 8 * |key| == keysize)
      modifies this`nr, buf
      ensures RoundsFor(keysize) == 0 ==> ret == INVALID_KEY_LENGTH && nr == old(nr) && buf[..] == old(buf[..])
      ensures RoundsFor(keysize) != 0 ==> ret == 0 && nr == RoundsFor(keysize)
      ensures RoundsFor(keysize) != 0 ==> HoldsEnc(k, KeyWords(key), buf[..], 4 * (nr + 1))
    {
      if keysize != 128 && keysize != 192 && keysize != 256 {
        return INVALID_KEY_LENGTH;
      }
      nr := RoundsFor(keysize);
      ghost var e := ScheduleOf(k, KeyWords(key));
      ExpansionIsSchedule(k, KeyWords(key));
      forall j | 0 <= j < |key| / 4 ensures e(j) == WordAt(key, 4 * j) {
        ExpansionStarts(k, key, j);
      }
      ExpandKey(OpsOf(k), key, keysize / 32, buf, e);
      forall i | 0 <= i < 4 * (nr + 1) ensures HoldsEncAt(k, KeyWords(key), buf[..], i) {
        assert buf[..][i] == e(i);
      }
      ret := 0;
    }

    /** aes_setkey_dec */
    method SetKeyDec(key: seq<bv8>, keysize: int) returns (ret: int)
      requires Laws(k) && buf.Length == 68 && (RoundsFor(keysize) != 0 ==> 8 * |key| == keysize)
      modifies this`nr, buf
      ensures RoundsFor(keysize) == 0 ==> ret == INVALID_KEY_LENGTH && nr == old(nr) && buf[..] == old(buf[..])
      ensures RoundsFor(keysize) != 0 ==> ret == 0 && nr == RoundsFor(keysize)
      ensures RoundsFor(keysize) != 0 ==> HoldsDec(k, KeyWords(key), nr, buf[..], 4 * (nr + 1))
    {
      if keysize != 128 && keysize != 192 && keysize != 256 {
        return INVALID_KEY_LENGTH;
      }
      nr := RoundsFor(keysize);
      var cty := new Context(k);
      ret := cty.SetKeyEnc(key, keysize);
      InverseMirrors(k, KeyWords(key), nr, cty.buf[..]);
      ghost var e := InverseOf(k, KeyWords(key), nr);
      MirrorKeys(w => InvMixLookup(k, w), cty.buf[..], nr, buf, e);
      forall i | 0 <= i < 4 * (nr + 1) ensures HoldsDecAt(k, KeyWords(key), nr, buf[..], i) {
        assert buf[..][i] == e(i);
      }
    }

    /** aes_crypt_ecb: one block from one buffer to another, or within one. */
    method CryptEcb(mode: Mode, input: array<bv8>, from: nat, output: array<bv8>, to: nat, ghost e: seq<bv8> -> seq<bv8>)
      requires Laws(k) && Valid() && Computes(k, Keys(), mode, e)
      requires from + 16 <= input.Length && to + 16 <= output.Length
      modifies output
      ensures |e(old(input[from..from + 16]))| == 16
      ensures output[..] == Splice(old(output[..]), to, e(old(input[from..from + 16])))
    {
      var b := input[from..from + 16];
      var c := Crypt(mode, b, e);
      Store(output, to, c);
    }

    method Crypt(mode: Mode, b: seq<bv8>, ghost e: seq<bv8> -> seq<bv8>) returns (c: seq<bv8>)
      requires Laws(k) && Valid() && Computes(k, Keys(), mode, e) && |b| == 16
      ensures c == e(b) && |c| == 16
    {
      var keys := Keys();
      c := CryptBytes(k, keys, mode, b, e);
    }
  }

  datatype Mode = Decrypting | Encrypting

  function CryptBlock<B>(k: Field<B>, keys: seq<State<B>>, mode: Mode, b: seq<B>): (r: seq<B>)
    requires 2 <= |keys|
    ensures |r| == |b|
  {
    if mode == Decrypting then DecBlock(k, keys, b) else EncBlock(k, keys, b)
  }

  /** The rounds of aes_crypt_ecb. */
  method CryptState<B(!new)>(k: Field<B>, keys: seq<State<B>>, mode: Mode, s: State<B>) returns (x: State<B>)
    requires Laws(k) && 3 <= |keys| && |keys| % 2 == 1
    ensures x == if mode == Decrypting then Decrypt(CipherOf(k), keys, s) else Encrypt(CipherOf(k), keys, s)
  {
    var q := TablesOf(k);
    TablesAgree(k);
    CiphersAgree(q, CipherOf(k), keys, s);
    if mode == Decrypting {
      x := RunRounds(q.add, q.dec, q.decFinal, keys, s);
    } else {
      x := RunRounds(q.add, q.enc, q.encFinal, keys, s);
    }
  }

  /** The block function of a context with these round keys. */
  function BlockCipher<B>(k: Field<B>, keys: seq<State<B>>, mode: Mode): seq<B> -> seq<B>
    requires 2 <= |keys|
  {
    b => CryptBlock(k, keys, mode, b)
  }

  /** e is that function; said so where the definition of the cipher is of no concern. */
  ghost predicate Computes<B(!new)>(k: Field<B>, keys: seq<State<B>>, mode: Mode, e: seq<B> -> seq<B>) {
    && 2 <= |keys|
    && (forall b {:trigger CryptBlock(k, keys, mode, b)} :: CryptBlock(k, keys, mode, b) == e(b))
    && KeepsSize(e)
  }

  lemma BlockCipherComputes<B(!new)>(k: Field<B>, keys: seq<State<B>>, mode: Mode)
    requires 2 <= |keys|
    ensures KeepsSize(BlockCipher(k, keys, mode)) && Computes(k, keys, mode, BlockCipher(k, keys, mode))
  {
  }

  method CryptBytes<B(!new)>(k: Field<B>, keys: seq<State<B>>, mode: Mode, b: seq<B>, ghost e: seq<B> -> seq<B>) returns (c: seq<B>)
    requires Laws(k) && 3 <= |keys| && |keys| % 2 == 1 && |b| == 16 && Computes(k, keys, mode, e)
    ensures c == e(b) && |c| == 16
  {
    var x := CryptState(k, keys, mode, StateAt(b, 0));
    c := Bytes(x);
    assert c == CryptBlock(k, keys, mode, b);
  }

  /** A buffer with some bytes replaced. */
  function Splice<B>(a: seq<B>, i: nat, b: seq<B>): (r: seq<B>)
    requires i + |b| <= |a|
    ensures |r| == |a|
  {
    a[..i] + b + a[i + |b|..]
  }

  /** A sequence that agrees with the buffer outside the replaced part is the buffer with that part replaced. */
  lemma SpliceIs<B>(r: seq<B>, a: seq<B>, i: nat, b: seq<B>)
    requires i + |b| <= |a| == |r| && forall n :: 0 <= n < |a| ==> r[n] == if i <= n < i + |b| then b[n - i] else a[n]
    ensures r == Splice(a, i, b)
  {
  }

  method Store<B>(a: array<B>, i: nat, b: seq<B>)
    requires i + |b| <= a.Length
    modifies a
    ensures a[..] == Splice(old(a[..]), i, b)
  {
    for j := 0 to |b|
      invariant forall n :: 0 <= n < a.Length ==> a[n] == if i <= n < i + j then b[n - i] else old(a[n])
    {
      a[i + j] := b[j];
    }
    SpliceIs(a[..], old(a[..]), i, b);
  }
}
