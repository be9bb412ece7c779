/** The loops of aes_setkey_enc that expand a key, and why they follow the standard's key expansion. */
module AesExpansion {
  import opened AesWords
  import opened AesKeys
  import opened Arithmetic

  // ----- What the three expansion loops store is the schedule of the standard -----

  /** The first word of a group: RK[0] ^ RCON[i] ^ the substituted, rotated last word. */
  function GroupStart<B>(k: Field<B>, first: Word<B>, last: Word<B>, i: nat): Word<B> {
    Xor(k, Xor(k, first, RoundConstant(k, i)),
        Word(k.fsb(last.b1), k.fsb(last.b2), k.fsb(last.b3), k.fsb(last.b0)))
  }

  /** The standard's derivation at the positions of a group, for keys of four, six and eight words. */
  function GroupDerived<B>(k: Field<B>, nk: nat, i: nat, j: nat, temp: Word<B>): Word<B> {
    if j == 0 then Xor(k, SubWord(k.fsb, RotWord(temp)), RoundConstant(k, i))
    else if nk == 8 && j == 4 then SubWord(k.fsb, temp)
    else temp
  }

  lemma NextGroup(nk: nat, i: nat)
    ensures nk * (i + 1) == nk * i + nk
  {
  }

  /** The derivation d is the one of group i at its place j, which is word q. */
  ghost predicate DerivesAt<B(!new)>(k: Field<B>, nk: nat, d: (nat, Word<B>) -> Word<B>, i: nat, j: nat, q: nat) {
    forall temp :: d(q, temp) == GroupDerived(k, nk, i, j, temp)
  }

  lemma DerivedAt<B(!new)>(k: Field<B>, nk: nat, i: nat, j: nat, q: nat)
    requires (nk == 4 || nk == 6 || nk == 8) && j < nk && q == nk * (i + 1) + j
    ensures DerivesAt(k, nk, DerivedOf(k, nk), i, j, q)
  {
    NextGroup(nk, i);
    DivModUnique(q, nk, i + 1, j);
  }

  // ----- The expansion loops, over any words -----

  /** `start` makes the first word of a group from the first and the last word of the group before it and the number
      of that group. */
  datatype WordOps<!W> = WordOps(xor: (W, W) -> W, sub: W -> W, start: (W, W, nat) -> W)

  ghost predicate StartAt<W>(x: WordOps<W>, e: nat -> W, nk: nat, i: nat, p: nat)
    requires nk > 0
  {
    e(p + nk) == x.start(e(p), e(p + nk - 1), i)
  }

  ghost predicate NextAt<W>(x: WordOps<W>, e: nat -> W, nk: nat, p: nat, j: nat)
    requires 0 < j < nk
  {
    e(p + nk + j) == x.xor(e(p + j), if nk == 8 && j == 4 then x.sub(e(p + nk + j - 1)) else e(p + nk + j - 1))
  }

  /** The recurrence for the group of nk words after group i, which starts at p. */
  ghost predicate Group<W>(x: WordOps<W>, e: nat -> W, nk: nat, i: nat, p: nat)
    requires nk > 0
  {
    StartAt(x, e, nk, i, p) && forall j :: 0 < j < nk ==> NextAt(x, e, nk, p, j)
  }

  ghost predicate IsSchedule<W>(x: WordOps<W>, e: nat -> W, nk: nat)
    requires nk > 0
  {
    forall i: nat :: Group(x, e, nk, i, nk * i)
  }

  /** RK[i] = v, where v continues the schedule. */
  method Put<W>(rk: array<W>, i: nat, v: W, ghost e: nat -> W)
    requires i < rk.Length && v == e(i) && forall j :: 0 <= j < i ==> rk[j] == e(j)
    modifies rk
    ensures forall j :: 0 <= j <= i ==> rk[j] == e(j)
  {
    rk[i] := v;
  }

  method Step128<W>(x: WordOps<W>, rk: array<W>, i: nat, p: nat, ghost e: nat -> W)
    requires p + 8 <= rk.Length && Group(x, e, 4, i, p) && (forall j :: 0 <= j < p + 4 ==> rk[j] == e(j))
    modifies rk
    ensures forall j :: 0 <= j < p + 8 ==> rk[j] == e(j)
  {
    Put(rk, p + 4, x.start(rk[p], rk[p + 3], i), e);
    assert NextAt(x, e, 4, p, 1);
    Put(rk, p + 5, x.xor(rk[p + 1], rk[p + 4]), e);
    assert NextAt(x, e, 4, p, 2);
    Put(rk, p + 6, x.xor(rk[p + 2], rk[p + 5]), e);
    assert NextAt(x, e, 4, p, 3);
    Put(rk, p + 7, x.xor(rk[p + 3], rk[p + 6]), e);
  }

  method Expand128<W>(x: WordOps<W>, rk: array<W>, ghost e: nat -> W)
    requires rk.Length == 68 && IsSchedule(x, e, 4) && (forall j :: 0 <= j < 4 ==> rk[j] == e(j))
    modifies rk
    ensures forall j :: 0 <= j < 44 ==> rk[j] == e(j)
  {
    for i := 0 to 10
      invariant forall j :: 0 <= j < 4 * i + 4 ==> rk[j] == e(j)
    {
      assert Group(x, e, 4, i, 4 * i);
      Step128(x, rk, i, 4 * i, e);
    }
  }

  method Step192<W>(x: WordOps<W>, rk: array<W>, i: nat, p: nat, ghost e: nat -> W)
    requires p + 12 <= rk.Length && Group(x, e, 6, i, p) && (forall j :: 0 <= j < p + 6 ==> rk[j] == e(j))
    modifies rk
    ensures forall j :: 0 <= j < p + 12 ==> rk[j] == e(j)
  {
    Put(rk, p + 6, x.start(rk[p], rk[p + 5], i), e);
    assert NextAt(x, e, 6, p, 1);
    Put(rk, p + 7, x.xor(rk[p + 1], rk[p + 6]), e);
    assert NextAt(x, e, 6, p, 2);
    Put(rk, p + 8, x.xor(rk[p + 2], rk[p + 7]), e);
    assert NextAt(x, e, 6, p, 3);
    Put(rk, p + 9, x.xor(rk[p + 3], rk[p + 8]), e);
    assert NextAt(x, e, 6, p, 4);
    Put(rk, p + 10, x.xor(rk[p + 4], rk[p + 9]), e);
    assert NextAt(x, e, 6, p, 5);
    Put(rk, p + 11, x.xor(rk[p + 5], rk[p + 10]), e);
  }

  method Expand192<W>(x: WordOps<W>, rk: array<W>, ghost e: nat -> W)
    requires rk.Length == 68 && IsSchedule(x, e, 6) && (forall j :: 0 <= j < 6 ==> rk[j] == e(j))
    modifies rk
    ensures forall j :: 0 <= j < 54 ==> rk[j] == e(j)
  {
    for i := 0 to 8
      invariant forall j :: 0 <= j < 6 * i + 6 ==> rk[j] == e(j)
    {
      assert Group(x, e, 6, i, 6 * i);
      Step192(x, rk, i, 6 * i, e);
    }
  }

  method Step256<W>(x: WordOps<W>, rk: array<W>, i: nat, p: nat, ghost e: nat -> W)
    requires p + 16 <= rk.Length && Group(x, e, 8, i, p) && (forall j :: 0 <= j < p + 8 ==> rk[j] == e(j))
    modifies rk
    ensures forall j :: 0 <= j < p + 16 ==> rk[j] == e(j)
  {
    Put(rk, p + 8, x.start(rk[p], rk[p + 7], i), e);
    assert NextAt(x, e, 8, p, 1);
    Put(rk, p + 9, x.xor(rk[p + 1], rk[p + 8]), e);
    assert NextAt(x, e, 8, p, 2);
    Put(rk, p + 10, x.xor(rk[p + 2], rk[p + 9]), e);
    assert NextAt(x, e, 8, p, 3);
    Put(rk, p + 11, x.xor(rk[p + 3], rk[p + 10]), e);
    assert NextAt(x, e, 8, p, 4);
    Put(rk, p + 12, x.xor(rk[p + 4], x.sub(rk[p + 11])), e);
    assert NextAt(x, e, 8, p, 5);
    Put(rk, p + 13, x.xor(rk[p + 5], rk[p + 12]), e);
    assert NextAt(x, e, 8, p, 6);
    Put(rk, p + 14, x.xor(rk[p + 6], rk[p + 13]), e);
    assert NextAt(x, e, 8, p, 7);
    Put(rk, p + 15, x.xor(rk[p + 7], rk[p + 14]), e);
  }

  method Expand256<W>(x: WordOps<W>, rk: array<W>, ghost e: nat -> W)
    requires rk.Length == 68 && IsSchedule(x, e, 8) && (forall j :: 0 <= j < 8 ==> rk[j] == e(j))
    modifies rk
    ensures forall j :: 0 <= j < 64 ==> rk[j] == e(j)
  {
    for i := 0 to 7
      invariant forall j :: 0 <= j < 8 * i + 8 ==> rk[j] == e(j)
    {
      assert Group(x, e, 8, i, 8 * i);
      Step256(x, rk, i, 8 * i, e);
    }
  }

  /** The loading of a key of nk words and its expansion. */
  method ExpandKey<B>(x: WordOps<Word<B>>, key: seq<B>, nk: nat, rk: array<Word<B>>, ghost e: nat -> Word<B>)
    requires rk.Length == 68 && (nk == 4 || nk == 6 || nk == 8) && |key| == 4 * nk && IsSchedule(x, e, nk)
    requires forall j :: 0 <= j < nk ==> e(j) == WordAt(key, 4 * j)
    modifies rk
    ensures forall j :: 0 <= j < 4 * nk + 28 ==> rk[j] == e(j)
  {
    for i := 0 to nk
      invariant forall j :: 0 <= j < i ==> rk[j] == e(j)
    {
      Put(rk, i, WordAt(key, 4 * i), e);
    }
    if nk == 4 {
      Expand128(x, rk, e);
    } else if nk == 6 {
      Expand192(x, rk, e);
    } else {
      Expand256(x, rk, e);
    }
  }

  function OpsOf<B>(k: Field<B>): WordOps<Word<B>> {
    WordOps((v, w) => Xor(k, v, w), w => SubWord(k.fsb, w), (v, w, i) => GroupStart(k, v, w, i))
  }

  function ScheduleOf<B>(k: Field<B>, key: seq<Word<B>>): nat -> Word<B>
    requires |key| > 0
  {
    (i: nat) => Expand(k, key, i)
  }

  lemma ExpansionIsSchedule<B(!new)>(k: Field<B>, key: seq<Word<B>>)
    requires Laws(k) && (|key| == 4 || |key| == 6 || |key| == 8)
    ensures IsSchedule(OpsOf(k), ScheduleOf(k, key), |key|)
  {
    var nk, e := |key|, ScheduleOf(k, key);
    forall i: nat ensures Group(OpsOf(k), e, nk, i, nk * i) {
      forall j: nat | j < nk ensures WordOfGroup(k, e, nk, i, nk * i, j) {
        NextGroup(nk, i);
        ScheduleWord(k, DerivedOf(k, nk), key, e, i, nk * i, j, nk * i + nk + j);
      }
      GroupFollows(k, e, nk, i, nk * i);
    }
  }

  lemma ExpansionStarts<B>(k: Field<B>, key: seq<B>, j: nat)
    requires j < |key| / 4
    ensures ScheduleOf(k, KeyWords(key))(j) == WordAt(key, 4 * j)
  {
  }

  /** Word q of the expansion e with derivation d. */
  ghost predicate FollowsAt<B>(k: Field<B>, d: (nat, Word<B>) -> Word<B>, e: nat -> Word<B>, nk: nat, q: nat) {
    0 < nk <= q ==> e(q) == Xor(k, e(q - nk), d(q, e(q - 1)))
  }

  lemma ExpansionFollows<B(!new)>(k: Field<B>, d: (nat, Word<B>) -> Word<B>, key: seq<Word<B>>, e: nat -> Word<B>, q: nat)
    requires 0 < |key| && forall i: nat :: e(i) == ExpandBy(k, d, key, i)
    ensures FollowsAt(k, d, e, |key|, q)
  {
  }

  /** Word j of the group after the one that starts at p, which is group i. */
  ghost predicate WordOfGroup<B>(k: Field<B>, e: nat -> Word<B>, nk: nat, i: nat, p: nat, j: nat)
    requires nk > 0
  {
    e(p + nk + j) == Xor(k, e(p + j), GroupDerived(k, nk, i, j, e(p + nk + j - 1)))
  }

  lemma ScheduleWord<B(!new)>(k: Field<B>, d: (nat, Word<B>) -> Word<B>, key: seq<Word<B>>, e: nat -> Word<B>,
                              i: nat, p: nat, j: nat, q: nat)
    requires (|key| == 4 || |key| == 6 || |key| == 8) && j < |key| && q == |key| * (i + 1) + j == p + |key| + j
    requires d == DerivedOf(k, |key|) && e == ScheduleOf(k, key)
    ensures WordOfGroup(k, e, |key|, i, p, j)
  {
    DerivedAt(k, |key|, i, j, q);
    ExpansionFollows(k, d, key, e, q);
    WordFollows(k, d, e, |key|, i, p, j, q);
  }

  lemma WordFollows<B(!new)>(k: Field<B>, d: (nat, Word<B>) -> Word<B>, e: nat -> Word<B>, nk: nat, i: nat, p: nat, j: nat, q: nat)
    requires 0 < nk && q == p + nk + j && FollowsAt(k, d, e, nk, q) && DerivesAt(k, nk, d, i, j, q)
    ensures WordOfGroup(k, e, nk, i, p, j)
  {
    assert q - nk == p + j;
  }

  lemma GroupFollows<B(!new)>(k: Field<B>, e: nat -> Word<B>, nk: nat, i: nat, p: nat)
    requires Laws(k) && 0 < nk && forall j: nat :: j < nk ==> WordOfGroup(k, e, nk, i, p, j)
    ensures Group(OpsOf(k), e, nk, i, p)
  {
    assert WordOfGroup(k, e, nk, i, p, 0);
    XorSwaps(k, e(p), RoundConstant(k, i), SubWord(k.fsb, RotWord(e(p + nk - 1))));
    forall j | 0 < j < nk ensures NextAt(OpsOf(k), e, nk, p, j) {
      assert WordOfGroup(k, e, nk, i, p, j);
    }
  }

  // ----- The keys for decryption -----

  /** Word c of round r of the keys for decryption. */
  ghost predicate MirrorAt<W>(f: W -> W, sk: seq<W>, nr: nat, e: nat -> W, r: nat, c: nat)
    requires r <= nr && c < 4 && 4 * (nr + 1) <= |sk|
  {
    e(4 * r + c) == if 0 < r < nr then f(sk[4 * (nr - r) + c]) else sk[4 * (nr - r) + c]
  }

  ghost predicate Mirrors<W>(f: W -> W, sk: seq<W>, nr: nat, e: nat -> W)
    requires 4 * (nr + 1) <= |sk|
  {
    forall r: nat, c: nat :: r <= nr && c < 4 ==> MirrorAt(f, sk, nr, e, r, c)
  }

  /** `*RK++ = *SK++`, four times. */
  method CopyFour<W>(f: W -> W, sk: seq<W>, nr: nat, p: nat, rk: array<W>, ghost e: nat -> W, ghost r: nat)
    requires 4 * (nr + 1) <= |sk| && (r == 0 || r == nr) && p == 4 * r && p + 4 <= rk.Length && Mirrors(f, sk, nr, e)
    requires forall j :: 0 <= j < p ==> rk[j] == e(j)
    modifies rk
    ensures forall j :: 0 <= j < p + 4 ==> rk[j] == e(j)
  {
    var q := 4 * nr - p;
    assert MirrorAt(f, sk, nr, e, r, 0) && MirrorAt(f, sk, nr, e, r, 1);
    assert MirrorAt(f, sk, nr, e, r, 2) && MirrorAt(f, sk, nr, e, r, 3);
    Put(rk, p, sk[q], e);
    Put(rk, p + 1, sk[q + 1], e);
    Put(rk, p + 2, sk[q + 2], e);
    Put(rk, p + 3, sk[q + 3], e);
  }

  /** The copying loops of aes_setkey_dec: SK walks down the rounds while RK walks up. */
  method MirrorKeys<W>(f: W -> W, sk: seq<W>, nr: nat, rk: array<W>, ghost e: nat -> W)
    requires nr > 0 && 4 * (nr + 1) <= |sk| && 4 * (nr + 1) <= rk.Length && Mirrors(f, sk, nr, e)
    modifies rk
    ensures forall j :: 0 <= j < 4 * (nr + 1) ==> rk[j] == e(j)
  {
    CopyFour(f, sk, nr, 0, rk, e, 0);
    var p, q, i := 4, 4 * nr + 4 - 8, nr - 1;
    while i > 0
      invariant 0 <= i < nr && q == 4 * i && p == 4 * (nr - i)
      invariant forall j :: 0 <= j < p ==> rk[j] == e(j)
    {
      for j := 0 to 4
        invariant q == 4 * i + j && p == 4 * (nr - i) + j
        invariant forall t :: 0 <= t < p ==> rk[t] == e(t)
      {
        assert MirrorAt(f, sk, nr, e, nr - i, j);
        Put(rk, p, f(sk[q]), e);
        p, q := p + 1, q + 1;
      }
      i, q := i - 1, q - 8;
    }
    CopyFour(f, sk, nr, p, rk, e, nr);
  }

  /** Looking up the S-box and then the decryption tables: InvMixColumns alone. */
  function InvMixLookup<B>(k: Field<B>, w: Word<B>): Word<B> {
    Lookup(k, k.inv, k.rsb, k.fsb(w.b0), k.fsb(w.b1), k.fsb(w.b2), k.fsb(w.b3))
  }

  lemma InvMixLookupApplies<B(!new)>(k: Field<B>, w: Word<B>)
    requires Laws(k)
    ensures InvMixLookup(k, w) == Apply(k, k.inv, w)
  {
    LookupApplies(k, k.inv, k.rsb, k.fsb(w.b0), k.fsb(w.b1), k.fsb(w.b2), k.fsb(w.b3));
  }

  function InverseOf<B>(k: Field<B>, key: seq<Word<B>>, nr: nat): nat -> Word<B>
    requires |key| > 0
  {
    (i: nat) => if i < 4 * (nr + 1) then InverseWord(k, key, nr, i) else key[0]
  }

  lemma InverseMirrors<B(!new)>(k: Field<B>, key: seq<Word<B>>, nr: nat, sk: seq<Word<B>>)
    requires Laws(k) && |key| > 0 && HoldsEnc(k, key, sk, 4 * (nr + 1))
    ensures Mirrors(w => InvMixLookup(k, w), sk, nr, InverseOf(k, key, nr))
  {
    var f, e := w => InvMixLookup(k, w), InverseOf(k, key, nr);
    forall r: nat, c: nat | r <= nr && c < 4 ensures MirrorAt(f, sk, nr, e, r, c) {
      InverseOfAt(k, key, nr, sk, r, c);
      MirrorFromValue(k, sk, nr, e, r, c);
    }
  }

  lemma InverseOfAt<B>(k: Field<B>, key: seq<Word<B>>, nr: nat, sk: seq<Word<B>>, r: nat, c: nat)
    requires |key| > 0 && HoldsEnc(k, key, sk, 4 * (nr + 1)) && r <= nr && c < 4
    ensures InverseOf(k, key, nr)(4 * r + c)
         == if 0 < r < nr then Apply(k, k.inv, sk[4 * (nr - r) + c]) else sk[4 * (nr - r) + c]
  {
    assert HoldsEncAt(k, key, sk, 4 * (nr - r) + c);
    InverseWordAt(k, key, nr, r, c, 4 * r + c, sk[4 * (nr - r) + c]);
  }

  lemma MirrorFromValue<B(!new)>(k: Field<B>, sk: seq<Word<B>>, nr: nat, e: nat -> Word<B>, r: nat, c: nat)
    requires Laws(k) && r <= nr && c < 4 && 4 * (nr + 1) <= |sk|
    requires e(4 * r + c) == if 0 < r < nr then Apply(k, k.inv, sk[4 * (nr - r) + c]) else sk[4 * (nr - r) + c]
    ensures MirrorAt(w => InvMixLookup(k, w), sk, nr, e, r, c)
  {
    InvMixLookupApplies(k, sk[4 * (nr - r) + c]);
  }
}
