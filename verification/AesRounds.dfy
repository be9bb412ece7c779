/** Ciphers that iterate a round, and when decryption undoes encryption.

  A block is first combined with a key; then each round transforms it and adds the next key; the last round is
  simpler.  Decryption has the same shape, with its own rounds and keys. */
module AesRounds {

  /** `mid` is the intermediate form in which the two directions meet, `flip` turns an encryption key into the
      decryption key of the opposite round. */
  datatype Rounds<!S> = Rounds(add: (S, S) -> S, enc: (S, S) -> S, encFinal: (S, S) -> S,
                               dec: (S, S) -> S, decFinal: (S, S) -> S, flip: S -> S, mid: S -> S)

  /** Adding the first key and applying r rounds. */
  function Iterate<S>(add: (S, S) -> S, round: (S, S) -> S, keys: seq<S>, s: S, r: nat): S
    requires r < |keys|
  {
    if r == 0 then add(s, keys[0]) else round(Iterate(add, round, keys, s, r - 1), keys[r])
  }

  function Encrypt<S>(q: Rounds<S>, keys: seq<S>, s: S): S
    requires 2 <= |keys|
  {
    q.encFinal(Iterate(q.add, q.enc, keys, s, |keys| - 2), keys[|keys| - 1])
  }

  function Decrypt<S>(q: Rounds<S>, keys: seq<S>, s: S): S
    requires 2 <= |keys|
  {
    q.decFinal(Iterate(q.add, q.dec, keys, s, |keys| - 2), keys[|keys| - 1])
  }

  /** The keys in reverse order, all but the first and the last one flipped. */
  ghost predicate Reversed<S>(q: Rounds<S>, keys: seq<S>, inverse: seq<S>) {
    && |inverse| == |keys| >= 2
    && inverse[0] == keys[|keys| - 1]
    && inverse[|keys| - 1] == keys[0]
    && forall r :: 0 < r < |keys| - 1 ==> inverse[r] == q.flip(keys[|keys| - 1 - r])
  }

  /** Each decryption step takes back the encryption step at the other end. */
  ghost predicate Undoes<S(!new)>(q: Rounds<S>) {
    forall s, key :: UndoesAt(q, s, key)
  }

  ghost predicate UndoesAt<S>(q: Rounds<S>, s: S, key: S) {
    && q.add(q.encFinal(s, key), key) == q.mid(s)
    && q.dec(q.mid(q.enc(s, key)), q.flip(key)) == q.mid(s)
    && q.decFinal(q.mid(q.add(s, key)), key) == s
  }

  /** After r rounds, decryption has the intermediate form of what encryption had r rounds before its end. */
  lemma {:induction false} RoundsUndone<S(!new)>(q: Rounds<S>, keys: seq<S>, inverse: seq<S>, s: S, r: nat)
    requires Undoes(q) && Reversed(q, keys, inverse) && r <= |keys| - 2
    ensures Iterate(q.add, q.dec, inverse, Encrypt(q, keys, s), r)
         == q.mid(Iterate(q.add, q.enc, keys, s, |keys| - 2 - r))
  {
    var n := |keys| - 2 - r;
    assert UndoesAt(q, Iterate(q.add, q.enc, keys, s, n), keys[n + 1]);
    if r > 0 {
      RoundsUndone(q, keys, inverse, s, r - 1);
    }
  }

  /** Decryption with the reversed keys undoes encryption. */
  lemma DecryptUndoesEncrypt<S(!new)>(q: Rounds<S>, keys: seq<S>, inverse: seq<S>, s: S)
    requires Undoes(q) && Reversed(q, keys, inverse)
    ensures Decrypt(q, inverse, Encrypt(q, keys, s)) == s
  {
    RoundsUndone(q, keys, inverse, s, |keys| - 2);
    assert UndoesAt(q, s, keys[0]);
  }

  // ----- The loop -----

  /** The loop of aes_crypt_ecb: two rounds in each pass, then one round and the last one. */
  method RunRounds<S>(add: (S, S) -> S, round: (S, S) -> S, final: (S, S) -> S, keys: seq<S>, s: S) returns (x: S)
    requires 3 <= |keys| && |keys| % 2 == 1
    ensures x == final(Iterate(add, round, keys, s, |keys| - 2), keys[|keys| - 1])
  {
    var nr := |keys| - 1;
    x := add(s, keys[0]);
    var rk := 1;
    var y;
    var i := nr / 2 - 1;
    while i > 0
      invariant 0 <= i && rk == nr - 1 - 2 * i && 1 <= rk
      invariant x == Iterate(add, round, keys, s, rk - 1)
    {
      y := round(x, keys[rk]);
      x := round(y, keys[rk + 1]);
      rk, i := rk + 2, i - 1;
    }
    y := round(x, keys[rk]);
    x := final(y, keys[rk + 1]);
  }

  /** Rounds that agree everywhere may replace each other. */
  lemma {:induction false} IterateAgrees<S(!new)>(add: (S, S) -> S, f: (S, S) -> S, g: (S, S) -> S, keys: seq<S>, s: S, r: nat)
    requires r < |keys| && forall s, key :: f(s, key) == g(s, key)
    ensures Iterate(add, f, keys, s, r) == Iterate(add, g, keys, s, r)
  {
    if r > 0 {
      IterateAgrees(add, f, g, keys, s, r - 1);
    }
  }

  ghost predicate Agree<S(!new)>(q: Rounds<S>, p: Rounds<S>) {
    && q.add == p.add
    && (forall s, key :: q.enc(s, key) == p.enc(s, key)) && (forall s, key :: q.dec(s, key) == p.dec(s, key))
    && (forall s, key :: q.encFinal(s, key) == p.encFinal(s, key))
    && (forall s, key :: q.decFinal(s, key) == p.decFinal(s, key))
  }

  lemma CiphersAgree<S(!new)>(q: Rounds<S>, p: Rounds<S>, keys: seq<S>, s: S)
    requires Agree(q, p) && 2 <= |keys|
    ensures Encrypt(q, keys, s) == Encrypt(p, keys, s) && Decrypt(q, keys, s) == Decrypt(p, keys, s)
  {
    IterateAgrees(q.add, q.enc, p.enc, keys, s, |keys| - 2);
    IterateAgrees(q.add, q.dec, p.dec, keys, s, |keys| - 2);
  }
}
