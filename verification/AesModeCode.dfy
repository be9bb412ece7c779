/** The loops of aes_crypt_cbc, aes_crypt_cfb128 and aes_crypt_ctr. */
module AesModeCode {
  import opened AesWords
  import opened Aes
  import opened AesKeys
  import opened AesContext
  import opened AesModes

  const INVALID_INPUT_LENGTH := -0x0022

  ghost predicate Ready(ctx: Context, mode: Mode, e: seq<bv8> -> seq<bv8>)
    reads ctx, ctx.buf
  {
    Laws(ctx.k) && ctx.Valid() && Computes(ctx.k, ctx.Keys(), mode, e)
  }

  /** A buffer of bytes is not the array of round keys. */
  ghost predicate Apart(ctx: Context, a: array<bv8>) {
    a as object != ctx.buf as object
  }

  // ----- CBC -----

  /** `output[i] = input[i] ^ iv[i]` for one block. */
  method AddBlock(add: (bv8, bv8) -> bv8, input: array<bv8>, output: array<bv8>, at: nat, iv: array<bv8>)
    requires iv.Length == 16 && at + 16 <= input.Length && at + 16 <= output.Length && iv != output
    modifies output
    ensures output[..] == Splice(old(output[..]), at, Sum(add, old(input[at..at + 16]), iv[..]))
  {
    ghost var b := input[at..at + 16];
    for i := 0 to 16
      invariant forall j :: 0 <= j < i ==> output[at + j] == add(b[j], iv[j])
      invariant forall j :: 0 <= j < output.Length && !(at <= j < at + i) ==> output[j] == old(output[j])
      invariant forall j :: i <= j < 16 ==> input[at + j] == b[j]
    {
      output[at + i] := add(input[at + i], iv[i]);
    }
  }

  /** memcpy(iv, a + at, 16) */
  method CopyBlock(a: seq<bv8>, iv: array<bv8>)
    requires iv.Length == 16 && |a| == 16
    modifies iv
    ensures iv[..] == a
  {
    Store(iv, 0, a);
  }

  method CbcDecryptBlock(ctx: Context, iv: array<bv8>, input: array<bv8>, output: array<bv8>, at: nat, ghost d: seq<bv8> -> seq<bv8>)
    requires Ready(ctx, Decrypting, d) && iv.Length == 16 && iv != output && iv != input && Apart(ctx, output) && Apart(ctx, iv)
    requires at + 16 <= input.Length && at + 16 <= output.Length
    modifies iv, output
    ensures |d(old(input[at..at + 16]))| == 16
    ensures output[..] == Splice(old(output[..]), at, Sum(ctx.k.add, d(old(input[at..at + 16])), old(iv[..])))
    ensures iv[..] == old(input[at..at + 16])
  {
    var temp := input[at..at + 16];
    ghost var o := output[..];
    ctx.CryptEcb(Decrypting, input, at, output, at, d);
    SpliceAgain(o, at, d(temp), Sum(ctx.k.add, d(temp), iv[..]));
    AddBlock(ctx.k.add, output, output, at, iv);
    CopyBlock(temp, iv);
  }

  lemma SpliceAgain(o: seq<bv8>, at: nat, x: seq<bv8>, y: seq<bv8>)
    requires |x| == |y| && at + |x| <= |o|
    ensures Splice(o, at, x)[at..at + |x|] == x && Splice(Splice(o, at, x), at, y) == Splice(o, at, y)
  {
    var s := Splice(o, at, x);
    assert s[..at] == o[..at];
    assert s[at + |x|..] == o[at + |x|..];
  }

  method CbcEncryptBlock(ctx: Context, iv: array<bv8>, input: array<bv8>, output: array<bv8>, at: nat, ghost e: seq<bv8> -> seq<bv8>)
    requires Ready(ctx, Encrypting, e) && iv.Length == 16 && iv != output && iv != input && Apart(ctx, output) && Apart(ctx, iv)
    requires at + 16 <= input.Length && at + 16 <= output.Length
    modifies iv, output
    ensures var c := e(Sum(ctx.k.add, old(input[at..at + 16]), old(iv[..])));
      |c| == 16 && output[..] == Splice(old(output[..]), at, c) && iv[..] == c
  {
    AddBlock(ctx.k.add, input, output, at, iv);
    ctx.CryptEcb(Encrypting, output, at, output, at, e);
    CopyBlock(output[at..at + 16], iv);
  }

  /** The buffers in the middle of a call: the bytes before `at` are done, the others as they were. */
  ghost predicate Partly(data: seq<bv8>, before: seq<bv8>, length: nat, at: nat, input: seq<bv8>, output: seq<bv8>, done: seq<bv8>) {
    && at <= length && |input| == |data| && |output| == |before|
    && length <= |data| && length <= |before|
    && input[at..length] == data[at..length]
    && output[..at] == done
    && output[at..] == before[at..]
  }

  /** Some more bytes, within one buffer or from one to another. */
  lemma PartlyNext(data: seq<bv8>, before: seq<bv8>, length: nat, at: nat, to: nat, input: seq<bv8>, output: seq<bv8>, done: seq<bv8>,
                   input': seq<bv8>, output': seq<bv8>, x: seq<bv8>)
    requires Partly(data, before, length, at, input, output, done) && at + |x| == to <= length
    requires output' == Splice(output, at, x) && (input' == input || (input == output && input' == output'))
    ensures Partly(data, before, length, to, input', output', done + x)
  {
    PartIn(input, data, at, to, length);
    PartIn(output, before, at, to, |output|);
    SpliceNext(output, at, to, x);
    if input' == output' {
      SpliceTail(output, at, to, x, length);
    }
  }

  lemma NextMultiple(at: nat, length: nat)
    requires at < length && at % 16 == 0 && length % 16 == 0
    ensures at + 16 <= length && (at + 16) % 16 == 0
  {
  }

  lemma SpliceNext(o: seq<bv8>, at: nat, to: nat, x: seq<bv8>)
    requires at + |x| == to <= |o|
    ensures Splice(o, at, x)[..to] == o[..at] + x && Splice(o, at, x)[to..] == o[to..]
  {
  }

  lemma SpliceTail(o: seq<bv8>, at: nat, to: nat, x: seq<bv8>, length: nat)
    requires at + |x| == to <= length <= |o|
    ensures Splice(o, at, x)[to..length] == o[to..length]
  {
    var s := Splice(o, at, x);
    forall j | to <= j < length ensures s[j] == o[j] {
    }
  }

  lemma PartIn(s: seq<bv8>, t: seq<bv8>, at: nat, to: nat, length: nat)
    requires at <= to <= length <= |s| && length <= |t| && s[at..length] == t[at..length]
    ensures s[at..to] == t[at..to] && s[to..length] == t[to..length]
  {
    SliceOfSlice(s, at, to, length);
    SliceOfSlice(t, at, to, length);
  }

  lemma SliceOfSlice(s: seq<bv8>, at: nat, to: nat, length: nat)
    requires at <= to <= length <= |s|
    ensures s[at..length][..to - at] == s[at..to] && s[at..length][to - at..] == s[to..length]
  {
    var x := s[at..length];
    forall i | 0 <= i < to - at ensures x[..to - at][i] == s[at..to][i] {
    }
    forall i | 0 <= i < length - to ensures x[to - at..][i] == s[to..length][i] {
    }
  }

  lemma FirstIn(s: seq<bv8>, t: seq<bv8>, at: nat, length: nat)
    requires at < length <= |s| && length <= |t| && s[at..length] == t[at..length]
    ensures s[at] == t[at]
  {
    assert s[at] == s[at..length][0] && t[at] == t[at..length][0];
  }

  lemma TakeBlock(s: seq<bv8>, at: nat)
    requires at + 16 <= |s|
    ensures s[..at + 16] == s[..at] + s[at..at + 16]
  {
  }

  lemma CbcDecryptNext(add: (bv8, bv8) -> bv8, d: seq<bv8> -> seq<bv8>, iv: seq<bv8>, data: seq<bv8>, at: nat)
    requires KeepsSize(d) && |iv| == 16 && at % 16 == 0 && at + 16 <= |data|
    ensures CbcDecrypt(add, d, iv, data[..at + 16])
         == CbcDecrypt(add, d, iv, data[..at]) + Sum(add, d(data[at..at + 16]), Previous(iv, data[..at]))
    ensures Previous(iv, data[..at + 16]) == data[at..at + 16]
  {
    TakeBlock(data, at);
    CbcDecryptAppends(add, d, iv, data[..at], data[at..at + 16]);
    assert data[..at + 16][at..] == data[at..at + 16];
  }

  method CbcDecryptAll(ctx: Context, length: nat, iv: array<bv8>, input: array<bv8>, output: array<bv8>, ghost d: seq<bv8> -> seq<bv8>)
    requires Ready(ctx, Decrypting, d) && iv.Length == 16 && iv != output && iv != input && Apart(ctx, output) && Apart(ctx, iv)
    requires length % 16 == 0 && length <= input.Length && length <= output.Length
    modifies iv, output
    ensures output[..length] == CbcDecrypt(ctx.k.add, d, old(iv[..]), old(input[..length]))
    ensures output[length..] == old(output[length..])
    ensures iv[..] == Previous(old(iv[..]), old(input[..length]))
  {
    ghost var data, before, iv0, add := input[..], output[..], iv[..], ctx.k.add;
    var at := 0;
    while at < length
      invariant at % 16 == 0 && at <= length
      invariant Partly(data, before, length, at, input[..], output[..], CbcDecrypt(add, d, iv0, data[..at]))
      invariant iv[..] == Previous(iv0, data[..at])
    {
      ghost var i, o := input[..], output[..];
      NextMultiple(at, length);
      PartIn(i, data, at, at + 16, length);
      CbcDecryptNext(add, d, iv0, data, at);
      ghost var done, x := CbcDecrypt(add, d, iv0, data[..at]), Sum(add, d(data[at..at + 16]), Previous(iv0, data[..at]));
      CbcDecryptBlock(ctx, iv, input, output, at, d);
      PartlyNext(data, before, length, at, at + 16, i, o, done, input[..], output[..], x);
      at := at + 16;
    }
  }

  lemma CbcEncryptNext(add: (bv8, bv8) -> bv8, e: seq<bv8> -> seq<bv8>, iv: seq<bv8>, data: seq<bv8>, at: nat)
    requires KeepsSize(e) && |iv| == 16 && at % 16 == 0 && at + 16 <= |data|
    ensures var c := CbcEncrypt(add, e, iv, data[..at]);
      var x := e(Sum(add, data[at..at + 16], Previous(iv, c)));
      |x| == 16 && CbcEncrypt(add, e, iv, data[..at + 16]) == c + x && Previous(iv, c + x) == x
  {
    assert data[..at + 16][..at] == data[..at] && data[..at + 16][at..] == data[at..at + 16];
    var c := CbcEncrypt(add, e, iv, data[..at]);
    var x := e(Sum(add, data[at..at + 16], Previous(iv, c)));
    assert (c + x)[|c|..] == x;
  }

  method CbcEncryptAll(ctx: Context, length: nat, iv: array<bv8>, input: array<bv8>, output: array<bv8>, ghost e: seq<bv8> -> seq<bv8>)
    requires Ready(ctx, Encrypting, e) && iv.Length == 16 && iv != output && iv != input && Apart(ctx, output) && Apart(ctx, iv)
    requires length % 16 == 0 && length <= input.Length && length <= output.Length
    modifies iv, output
    ensures output[..length] == CbcEncrypt(ctx.k.add, e, old(iv[..]), old(input[..length]))
    ensures output[length..] == old(output[length..])
    ensures iv[..] == Previous(old(iv[..]), output[..length])
  {
    ghost var data, before, iv0, add := input[..], output[..], iv[..], ctx.k.add;
    var at := 0;
    while at < length
      invariant at % 16 == 0 && at <= length
      invariant Partly(data, before, length, at, input[..], output[..], CbcEncrypt(add, e, iv0, data[..at]))
      invariant iv[..] == Previous(iv0, CbcEncrypt(add, e, iv0, data[..at]))
    {
      ghost var i, o := input[..], output[..];
      NextMultiple(at, length);
      PartIn(i, data, at, at + 16, length);
      CbcEncryptNext(add, e, iv0, data, at);
      ghost var done := CbcEncrypt(add, e, iv0, data[..at]);
      ghost var x := e(Sum(add, data[at..at + 16], iv[..]));
      CbcEncryptBlock(ctx, iv, input, output, at, e);
      PartlyNext(data, before, length, at, at + 16, i, o, done, input[..], output[..], x);
      at := at + 16;
    }
  }

  /** aes_crypt_cbc: whole blocks from one buffer to another, or in place. */
  method CryptCbc(ctx: Context, mode: Mode, length: nat, iv: array<bv8>, input: array<bv8>, output: array<bv8>,
                  ghost e: seq<bv8> -> seq<bv8>)
    returns (ret: int)
    requires Ready(ctx, mode, e) && length <= input.Length && length <= output.Length
    requires iv.Length == 16 && iv != output && iv != input && Apart(ctx, output) && Apart(ctx, iv)
    modifies iv, output
    ensures length % 16 != 0 ==> ret == INVALID_INPUT_LENGTH && output[..] == old(output[..]) && iv[..] == old(iv[..])
    ensures length % 16 == 0 ==> ret == 0 && output[length..] == old(output[length..])
    ensures length % 16 == 0 && mode == Encrypting ==>
      && output[..length] == CbcEncrypt(ctx.k.add, e, old(iv[..]), old(input[..length]))
      && iv[..] == Previous(old(iv[..]), output[..length])
    ensures length % 16 == 0 && mode == Decrypting ==>
      && output[..length] == CbcDecrypt(ctx.k.add, e, old(iv[..]), old(input[..length]))
      && iv[..] == Previous(old(iv[..]), old(input[..length]))
  {
    if length % 16 != 0 {
      return INVALID_INPUT_LENGTH;
    }
    if mode == Decrypting {
      CbcDecryptAll(ctx, length, iv, input, output, e);
    } else {
      CbcEncryptAll(ctx, length, iv, input, output, e);
    }
    ret := 0;
  }

  lemma FieldCancels(k: Field<bv8>)
    requires Laws(k)
    ensures Cancels(k.add)
  {
    forall a, b ensures AesModes.CancelAt(k.add, a, b) {
      assert AesWords.CancelAt(k, a, b) && AesWords.CancelAt(k, b, a);
    }
  }

  /** With the schedules of one key, what one context encrypts the other decrypts. */
  lemma CiphersUndo(k: Field<bv8>, key: seq<Word<bv8>>, nr: nat, ew: seq<Word<bv8>>, dw: seq<Word<bv8>>,
                    ek: seq<State<bv8>>, dk: seq<State<bv8>>)
    requires Laws(k) && |key| > 0 && nr > 0
    requires HoldsEnc(k, key, ew, 4 * (nr + 1)) && HoldsDec(k, key, nr, dw, 4 * (nr + 1))
    requires ek == RoundKeys(ew, nr) && dk == RoundKeys(dw, nr)
    ensures Undoes(BlockCipher(k, dk, Decrypting), BlockCipher(k, ek, Encrypting))
  {
    var enc, dec := BlockCipher(k, ek, Encrypting), BlockCipher(k, dk, Decrypting);
    forall b: seq<bv8> | |b| == 16 ensures dec(enc(b)) == b {
      AesKeys.BlockRoundTrip(k, key, nr, ew, dw, b);
    }
  }

  method NewBlock(iv: seq<bv8>) returns (v: array<bv8>)
    requires |iv| == 16
    ensures fresh(v) && v.Length == 16 && v[..] == iv
  {
    v := new bv8[16];
    CopyBlock(iv, v);
  }

  method CbcThereAndBack(enc: Context, dec: Context, iv: seq<bv8>, data: array<bv8>, ghost e: seq<bv8> -> seq<bv8>, ghost d: seq<bv8> -> seq<bv8>)
    requires Ready(enc, Encrypting, e) && Ready(dec, Decrypting, d) && enc.k == dec.k && Undoes(d, e)
    requires Apart(enc, data) && Apart(dec, data) && |iv| == 16 && data.Length % 16 == 0
    modifies data
    ensures data[..] == old(data[..])
  {
    FieldCancels(enc.k);
    CbcRoundTrip(enc.k.add, e, d, iv, data[..]);
    var v := NewBlock(iv);
    var w := NewBlock(iv);
    var n := data.Length;
    TakeAll(data[..]);
    var ret := CryptCbc(enc, Encrypting, n, v, data, data, e);
    TakeAll(data[..]);
    ret := CryptCbc(dec, Decrypting, n, w, data, data, d);
    TakeAll(data[..]);
  }

  /** Encrypting a buffer in place and decrypting it in place restores it, for every key, vector and content. */
  method CbcRestores(k: Field<bv8>, key: seq<bv8>, keysize: int, iv: seq<bv8>, data: array<bv8>)
    requires Laws(k) && RoundsFor(keysize) != 0 && 8 * |key| == keysize && |iv| == 16 && data.Length % 16 == 0
    modifies data
    ensures data[..] == old(data[..])
  {
    var enc := new Context(k);
    var dec := new Context(k);
    assert Apart(enc, data) && Apart(dec, data);
    var ret := enc.SetKeyEnc(key, keysize);
    ret := dec.SetKeyDec(key, keysize);
    assert data[..] == old(data[..]);
    ghost var e, d := BlockCipher(k, enc.Keys(), Encrypting), BlockCipher(k, dec.Keys(), Decrypting);
    CiphersUndo(k, KeyWords(key), enc.nr, enc.buf[..], dec.buf[..], enc.Keys(), dec.Keys());
    BlockCipherComputes(k, enc.Keys(), Encrypting);
    BlockCipherComputes(k, dec.Keys(), Decrypting);
    CbcThereAndBack(enc, dec, iv, data, e, d);
  }

  // ----- CFB -----

  /** The register is encrypted at the start of each block. */
  method RefillRegister(ctx: Context, n: nat, iv: array<bv8>, ghost e: seq<bv8> -> seq<bv8>)
    requires Ready(ctx, Encrypting, e) && iv.Length == 16 && Apart(ctx, iv)
    modifies iv
    ensures iv[..] == if n == 0 then e(old(iv[..])) else old(iv[..])
  {
    if n == 0 {
      ghost var b := iv[..];
      WholeBlock(b);
      ctx.CryptEcb(Encrypting, iv, 0, iv, 0, e);
      SpliceWhole(b, e(b));
    }
  }

  lemma WholeBlock(b: seq<bv8>)
    requires |b| == 16
    ensures b[0..16] == b
  {
  }

  lemma SpliceWhole(b: seq<bv8>, c: seq<bv8>)
    requires |b| == |c|
    ensures Splice(b, 0, c) == c
  {
  }

  method CfbByte(ctx: Context, encrypt: bool, ivOff: nat, iv: array<bv8>, x: bv8, ghost e: seq<bv8> -> seq<bv8>)
    returns (y: bv8, n: nat)
    requires Ready(ctx, Encrypting, e) && iv.Length == 16 && Apart(ctx, iv) && ivOff < 16
    modifies iv
    ensures Move(Feed(iv[..], n), y) == CfbStep(ctx.k.add, e, encrypt, Feed(old(iv[..]), ivOff), x) && n < 16
  {
    n := ivOff;
    RefillRegister(ctx, n, iv, e);
    ghost var r := iv[..];
    y := if encrypt then ctx.k.add(iv[n], x) else ctx.k.add(x, iv[n]);
    iv[n] := if encrypt then y else x;
    assert iv[..] == r[n := if encrypt then y else x];
    n := (n + 1) % 16;
  }

  /** `*output++ = y` */
  method PutByte(a: array<bv8>, i: nat, y: bv8)
    requires i < a.Length
    modifies a
    ensures a[..] == Splice(old(a[..]), i, [y])
  {
    a[i] := y;
  }

  /** aes_crypt_cfb128 */
  method CryptCfb128(ctx: Context, encrypt: bool, length: nat, ivOff: nat, iv: array<bv8>, input: array<bv8>, output: array<bv8>,
                     ghost e: seq<bv8> -> seq<bv8>)
    returns (n: nat)
    requires Ready(ctx, Encrypting, e) && length <= input.Length && length <= output.Length && ivOff < 16
    requires iv.Length == 16 && iv != output && iv != input && Apart(ctx, output) && Apart(ctx, iv)
    modifies iv, output
    ensures var step := Cfb(ctx.k.add, e, encrypt); var f := Feed(old(iv[..]), ivOff);
      && output[..length] == RunOut(step, f, old(input[..length]))
      && Feed(iv[..], n) == RunState(step, f, old(input[..length]))
    ensures output[length..] == old(output[length..])
  {
    ghost var data, before, f, step := input[..], output[..], Feed(iv[..], ivOff), Cfb(ctx.k.add, e, encrypt);
    n := ivOff;
    for at := 0 to length
      invariant n < 16
      invariant Partly(data, before, length, at, input[..], output[..], RunOut(step, f, data[..at]))
      invariant Feed(iv[..], n) == RunState(step, f, data[..at])
    {
      ghost var i, o := input[..], output[..];
      FirstIn(i, data, at, length);
      ghost var done := RunOut(step, f, data[..at]);
      RunAppends(step, f, data[..at], data[at]);
      TakeOneMore(data, at);
      var y;
      y, n := CfbByte(ctx, encrypt, n, iv, input[at], e);
      PutByte(output, at, y);
      PartlyNext(data, before, length, at, at + 1, i, o, done, input[..], output[..], [y]);
    }
  }

  // ----- CTR -----

  function Zeros(g: Digits<bv8>, n: nat): (r: seq<bv8>)
    ensures |r| == n
  {
    seq(n, _ => g.zero)
  }

  /** When the bytes from i on have wrapped, the carry goes into the bytes before i. */
  lemma Carries(g: Digits<bv8>, c: seq<bv8>, i: nat)
    requires 0 < i <= |c| && Increment(g, c) == Increment(g, c[..i]) + Zeros(g, |c| - i)
    ensures g.next(c[i - 1]) == g.zero ==> Increment(g, c) == Increment(g, c[..i - 1]) + Zeros(g, |c| - i + 1)
    ensures g.next(c[i - 1]) != g.zero ==> Increment(g, c) == c[..i - 1] + [g.next(c[i - 1])] + Zeros(g, |c| - i)
  {
    assert c[..i][..i - 1] == c[..i - 1];
    assert Zeros(g, |c| - i + 1) == [g.zero] + Zeros(g, |c| - i);
  }

  /** `if (++nonce_counter[i - 1] != 0) break;` for i from 16 down to 1. */
  method IncrementCounter(g: Digits<bv8>, c: array<bv8>)
    modifies c
    ensures c[..] == Increment(g, old(c[..]))
  {
    ghost var c0 := c[..];
    var i := c.Length;
    assert c0[..i] == c0;
    while i > 0
      invariant 0 <= i <= c.Length
      invariant c[..] == c0[..i] + Zeros(g, |c0| - i)
      invariant Increment(g, c0) == Increment(g, c0[..i]) + Zeros(g, |c0| - i)
    {
      Carries(g, c0, i);
      c[i - 1] := g.next(c[i - 1]);
      if c[i - 1] != g.zero {
        return;
      }
      i := i - 1;
    }
  }

  /** At the start of each block the counter is encrypted for the key stream, and incremented. */
  method RefillStream(ctx: Context, g: Digits<bv8>, n: nat, counter: array<bv8>, stream: array<bv8>, ghost e: seq<bv8> -> seq<bv8>)
    requires Ready(ctx, Encrypting, e) && counter.Length == stream.Length == 16 && counter != stream
    requires Apart(ctx, counter) && Apart(ctx, stream)
    modifies counter, stream
    ensures counter[..] == if n == 0 then Increment(g, old(counter[..])) else old(counter[..])
    ensures stream[..] == if n == 0 then e(old(counter[..])) else old(stream[..])
  {
    if n == 0 {
      ghost var b, s := counter[..], stream[..];
      WholeBlock(b);
      ctx.CryptEcb(Encrypting, counter, 0, stream, 0, e);
      SpliceWhole(s, e(b));
      IncrementCounter(g, counter);
    }
  }

  method CtrByte(ctx: Context, g: Digits<bv8>, ncOff: nat, counter: array<bv8>, stream: array<bv8>, x: bv8, ghost e: seq<bv8> -> seq<bv8>)
    returns (y: bv8, n: nat)
    requires Ready(ctx, Encrypting, e) && counter.Length == stream.Length == 16 && counter != stream && ncOff < 16
    requires Apart(ctx, counter) && Apart(ctx, stream)
    modifies counter, stream
    ensures Move(Ctr(counter[..], stream[..], n), y)
         == CtrStep(ctx.k.add, e, g, Ctr(old(counter[..]), old(stream[..]), ncOff), x) && n < 16
  {
    n := ncOff;
    RefillStream(ctx, g, n, counter, stream, e);
    y := ctx.k.add(x, stream[n]);
    n := (n + 1) % 16;
  }

  /** aes_crypt_ctr */
  method CryptCtr(ctx: Context, g: Digits<bv8>, length: nat, ncOff: nat, counter: array<bv8>, stream: array<bv8>,
                input: array<bv8>, output: array<bv8>, ghost e: seq<bv8> -> seq<bv8>)
    returns (n: nat)
    requires Ready(ctx, Encrypting, e) && length <= input.Length && length <= output.Length && ncOff < 16
    requires counter.Length == stream.Length == 16 && counter != stream && {counter, stream} !! {input, output}
    requires Apart(ctx, output) && Apart(ctx, counter) && Apart(ctx, stream)
    modifies counter, stream, output
    ensures var step := CtrOf(ctx.k.add, e, g); var s := Ctr(old(counter[..]), old(stream[..]), ncOff);
      && output[..length] == RunOut(step, s, old(input[..length]))
      && Ctr(counter[..], stream[..], n) == RunState(step, s, old(input[..length]))
    ensures output[length..] == old(output[length..])
  {
    ghost var data, before := input[..], output[..];
    ghost var s, step := Ctr(counter[..], stream[..], ncOff), CtrOf(ctx.k.add, e, g);
    n := ncOff;
    for at := 0 to length
      invariant n < 16
      invariant Partly(data, before, length, at, input[..], output[..], RunOut(step, s, data[..at]))
      invariant Ctr(counter[..], stream[..], n) == RunState(step, s, data[..at])
    {
      ghost var i, o := input[..], output[..];
      FirstIn(i, data, at, length);
      ghost var done := RunOut(step, s, data[..at]);
      RunAppends(step, s, data[..at], data[at]);
      TakeOneMore(data, at);
      var y;
      y, n := CtrByte(ctx, g, n, counter, stream, input[at], e);
      PutByte(output, at, y);
      PartlyNext(data, before, length, at, at + 1, i, o, done, input[..], output[..], [y]);
    }
  }
}
