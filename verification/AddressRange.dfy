/** Ranges of addresses, and vectors of them as sets of addresses. */
module AddressRange {

  /** From start to end, both included; a range with start beyond end is invalid and stands for no address. */
  datatype Range = Range(start: nat, end: nat)

  predicate IsValid(r: Range) {
    r.start <= r.end
  }

  predicate Has(r: Range, a: nat) {
    r.start <= a <= r.end
  }

  predicate Overlaps(r: Range, s: Range) {
    r.start <= s.end && s.start <= r.end
  }

  /** next_address and prev_address wrap around at the largest address. */
  function Next(max: nat, r: Range): nat {
    if r.end == max then 0 else r.end + 1
  }

  function Previous(max: nat, r: Range): nat {
    if r.start == 0 then max else r.start - 1
  }

  predicate Touches(max: nat, r: Range, s: Range) {
    Overlaps(r, s) || s.start == Next(max, r) || s.end == Previous(max, r)
  }

  function MinMax(max: nat, r: Range, s: Range): Range {
    var r', s' := if IsValid(r) then r else Range(max, 0), if IsValid(s) then s else Range(max, 0);
    Range(if r'.start < s'.start then r'.start else s'.start, if r'.end > s'.end then r'.end else s'.end)
  }

  predicate Fits(max: nat, r: Range) {
    r.start <= max && r.end <= max
  }

  /** Overlapping or side by side. */
  predicate Meets(r: Range, s: Range) {
    r.start <= s.end + 1 && s.start <= r.end + 1
  }

  /** One begins at the first address and the other one ends at the last. */
  predicate Wraps(max: nat, r: Range, s: Range) {
    (r.end == max && s.start == 0) || (r.start == 0 && s.end == max)
  }

  lemma TouchesMeans(max: nat, r: Range, s: Range)
    requires Fits(max, r) && Fits(max, s) && IsValid(r) && IsValid(s)
    ensures Touches(max, r, s) <==> Meets(r, s) || Wraps(max, r, s)
  {
  }

  // ----- Vectors -----

  ghost predicate HasAt(d: seq<Range>, i: int, a: nat) {
    0 <= i < |d| && IsValid(d[i]) && Has(d[i], a)
  }

  /** The address belongs to some range. */
  ghost predicate Covers(d: seq<Range>, a: nat) {
    exists i :: HasAt(d, i, a)
  }

  ghost predicate AllFit(max: nat, d: seq<Range>) {
    forall i :: 0 <= i < |d| ==> Fits(max, d[i])
  }

  ghost predicate ApartAt(d: seq<Range>, i: int, j: int)
    requires 0 <= i < |d| && 0 <= j < |d|
  {
    i != j && IsValid(d[i]) && IsValid(d[j]) ==> !Meets(d[i], d[j])
  }

  /** No two ranges overlap or lie side by side. */
  ghost predicate Separate(d: seq<Range>) {
    forall i, j :: 0 <= i < |d| && 0 <= j < |d| ==> ApartAt(d, i, j)
  }

  /** No range only seems to touch the new one, by wrapping around. */
  ghost predicate NoFalseTouch(max: nat, d: seq<Range>, r: Range) {
    forall i :: 0 <= i < |d| && IsValid(d[i]) && Wraps(max, d[i], r) ==> Meets(d[i], r)
  }

  // ----- Merging -----

  ghost predicate TouchedAt(max: nat, d: seq<Range>, r: Range, i: int) {
    0 <= i < |d| && IsValid(d[i]) && Touches(max, d[i], r)
  }

  /** m runs from the least to the greatest address of r and the ranges among the first n that touch it. */
  ghost predicate Spans(max: nat, d: seq<Range>, r: Range, n: int, m: Range) {
    && m.start <= r.start && r.end <= m.end
    && (forall i :: 0 <= i < n && TouchedAt(max, d, r, i) ==> m.start <= d[i].start && d[i].end <= m.end)
    && (m.start == r.start || exists i :: 0 <= i < n && TouchedAt(max, d, r, i) && m.start == d[i].start)
    && (m.end == r.end || exists i :: 0 <= i < n && TouchedAt(max, d, r, i) && m.end == d[i].end)
  }

  /** The vector d after the loop of merge has passed n ranges of the vector d0. */
  ghost predicate Merging(max: nat, d0: seq<Range>, r: Range, n: int, found: int, invalid: int, d: seq<Range>) {
    && |d| == |d0| && 0 <= n <= |d| && -1 <= found < n && -1 <= invalid < n && AllFit(max, d)
    && (forall i :: n <= i < |d| ==> d[i] == d0[i])
    && (forall i :: 0 <= i < n && i != found ==> d[i] == if TouchedAt(max, d0, r, i) then Range(max, 0) else d0[i])
    && (found == -1 ==> forall i :: 0 <= i < n ==> !TouchedAt(max, d0, r, i))
    && (found >= 0 ==> TouchedAt(max, d0, r, found) && Spans(max, d0, r, n, d[found]))
    && (invalid >= 0 ==> !IsValid(d0[invalid]))
  }

  /** The vector merge leaves. */
  ghost predicate MergeResult(max: nat, d0: seq<Range>, r: Range, d: seq<Range>) {
    (exists found :: 0 <= found < |d0| && Merging(max, d0, r, |d0|, found, -1, d))
    || ((forall i :: !TouchedAt(max, d0, r, i))
        && (d == d0 + [r] || exists i :: 0 <= i < |d0| && !IsValid(d0[i]) && d == d0[i := r]))
  }

  // One turn of the loop, case by case.

  lemma MergeSkips(max: nat, d0: seq<Range>, r: Range, n: nat, found: int, invalid: int, d: seq<Range>)
    requires Merging(max, d0, r, n, found, invalid, d) && n < |d| && !TouchedAt(max, d0, r, n)
    ensures Merging(max, d0, r, n + 1, found, if IsValid(d[n]) then invalid else n, d)
  {
  }

  lemma MergeFinds(max: nat, d0: seq<Range>, r: Range, n: nat, invalid: int, d: seq<Range>)
    requires Merging(max, d0, r, n, -1, invalid, d) && n < |d| && TouchedAt(max, d0, r, n) && IsValid(r) && Fits(max, r)
    ensures Merging(max, d0, r, n + 1, n, invalid, d[n := MinMax(max, d[n], r)])
  {
    var m := MinMax(max, d[n], r);
    assert Spans(max, d0, r, n + 1, m);
  }

  lemma MergeJoins(max: nat, d0: seq<Range>, r: Range, n: nat, found: int, invalid: int, d: seq<Range>)
    requires Merging(max, d0, r, n, found, invalid, d) && n < |d| && TouchedAt(max, d0, r, n) && IsValid(r) && found >= 0
    ensures Merging(max, d0, r, n + 1, found, invalid, d[found := MinMax(max, d[found], d[n])][n := Range(max, 0)])
  {
    SpanGrows(max, d0, r, n, d[found], MinMax(max, d[found], d[n]));
  }

  lemma SpanGrows(max: nat, d0: seq<Range>, r: Range, n: nat, m: Range, m': Range)
    requires n < |d0| && IsValid(r) && TouchedAt(max, d0, r, n) && Spans(max, d0, r, n, m) && m' == MinMax(max, m, d0[n])
    ensures Spans(max, d0, r, n + 1, m')
  {
    if m'.start == m.start {
      assert m'.start == r.start || exists i :: 0 <= i < n && TouchedAt(max, d0, r, i) && m'.start == d0[i].start;
    } else {
      assert m'.start == d0[n].start;
    }
    if m'.end == m.end {
      assert m'.end == r.end || exists i :: 0 <= i < n && TouchedAt(max, d0, r, i) && m'.end == d0[i].end;
    } else {
      assert m'.end == d0[n].end;
    }
  }

  // What merge leaves.

  ghost predicate Union(d0: seq<Range>, r: Range, d: seq<Range>) {
    forall a :: UnionAt(d0, r, d, a)
  }

  ghost predicate UnionAt(d0: seq<Range>, r: Range, d: seq<Range>, a: nat) {
    Covers(d, a) <==> Covers(d0, a) || Has(r, a)
  }

  /** Every address of the span comes from r or from a range that touches it, if none of these touches falsely. */
  lemma SpanCovered(max: nat, d0: seq<Range>, r: Range, n: int, m: Range, a: nat)
    requires AllFit(max, d0) && Fits(max, r) && IsValid(r) && n <= |d0| && NoFalseTouch(max, d0, r)
    requires Spans(max, d0, r, n, m) && Has(m, a) && !Has(r, a)
    ensures exists i :: 0 <= i < n && TouchedAt(max, d0, r, i) && Has(d0[i], a)
  {
    if a < r.start {
      var i :| 0 <= i < n && TouchedAt(max, d0, r, i) && m.start == d0[i].start;
      TouchesMeans(max, d0[i], r);
      assert Meets(d0[i], r) && Has(d0[i], a);
    } else {
      var i :| 0 <= i < n && TouchedAt(max, d0, r, i) && m.end == d0[i].end;
      TouchesMeans(max, d0[i], r);
      assert Meets(d0[i], r) && Has(d0[i], a);
    }
  }

  lemma FoundUnionAt(max: nat, d0: seq<Range>, r: Range, found: int, d: seq<Range>, a: nat)
    requires max > 0 && AllFit(max, d0) && Fits(max, r) && IsValid(r) && NoFalseTouch(max, d0, r)
    requires found >= 0 && Merging(max, d0, r, |d0|, found, -1, d)
    ensures UnionAt(d0, r, d, a)
  {
    if Has(r, a) {
      assert HasAt(d, found, a);
    } else if Covers(d0, a) {
      var i :| HasAt(d0, i, a);
      assert HasAt(d, if TouchedAt(max, d0, r, i) then found else i, a);
    }
    if Covers(d, a) && !Has(r, a) {
      var i :| HasAt(d, i, a);
      if i == found {
        SpanCovered(max, d0, r, |d0|, d[found], a);
        var j :| 0 <= j < |d0| && TouchedAt(max, d0, r, j) && Has(d0[j], a);
        assert HasAt(d0, j, a);
      } else {
        assert HasAt(d0, i, a);
      }
    }
  }

  lemma AppendedUnionAt(d0: seq<Range>, r: Range, a: nat)
    requires IsValid(r)
    ensures UnionAt(d0, r, d0 + [r], a)
  {
    var d := d0 + [r];
    if Covers(d0, a) {
      var i :| HasAt(d0, i, a);
      assert HasAt(d, i, a);
    }
    if Has(r, a) {
      assert HasAt(d, |d0|, a);
    }
    if Covers(d, a) {
      var i :| HasAt(d, i, a);
      assert i < |d0| ==> HasAt(d0, i, a);
    }
  }

  lemma PlacedUnionAt(d0: seq<Range>, r: Range, k: nat, a: nat)
    requires IsValid(r) && k < |d0| && !IsValid(d0[k])
    ensures UnionAt(d0, r, d0[k := r], a)
  {
    var d := d0[k := r];
    if Covers(d0, a) {
      var i :| HasAt(d0, i, a);
      assert HasAt(d, i, a);
    }
    if Has(r, a) {
      assert HasAt(d, k, a);
    }
    if Covers(d, a) {
      var i :| HasAt(d, i, a);
      assert i != k ==> HasAt(d0, i, a);
    }
  }

  /** A range that touches neither r nor the ranges that meet it does not meet their span. */
  lemma SpanApart(max: nat, d0: seq<Range>, r: Range, m: Range, i: nat)
    requires AllFit(max, d0) && Fits(max, r) && IsValid(r) && Separate(d0) && NoFalseTouch(max, d0, r)
    requires Spans(max, d0, r, |d0|, m) && i < |d0| && IsValid(d0[i]) && !TouchedAt(max, d0, r, i)
    ensures !Meets(d0[i], m)
  {
    var s := d0[i];
    TouchesMeans(max, s, r);
    if s.end < r.start {
      if m.start != r.start {
        var j :| 0 <= j < |d0| && TouchedAt(max, d0, r, j) && m.start == d0[j].start;
        assert ApartAt(d0, i, j);
        TouchesMeans(max, d0[j], r);
      }
    } else {
      if m.end != r.end {
        var j :| 0 <= j < |d0| && TouchedAt(max, d0, r, j) && m.end == d0[j].end;
        assert ApartAt(d0, i, j);
        TouchesMeans(max, d0[j], r);
      }
    }
  }

  lemma FoundSeparate(max: nat, d0: seq<Range>, r: Range, found: int, d: seq<Range>)
    requires max > 0 && AllFit(max, d0) && Fits(max, r) && IsValid(r) && Separate(d0) && NoFalseTouch(max, d0, r)
    requires found >= 0 && Merging(max, d0, r, |d0|, found, -1, d)
    ensures Separate(d)
  {
    forall i, j | 0 <= i < |d| && 0 <= j < |d| ensures ApartAt(d, i, j) {
      if i != j && IsValid(d[i]) && IsValid(d[j]) {
        if i == found {
          SpanApart(max, d0, r, d[found], j);
        } else if j == found {
          SpanApart(max, d0, r, d[found], i);
        } else {
          assert ApartAt(d0, i, j);
        }
      }
    }
  }

  lemma AddedSeparate(max: nat, d0: seq<Range>, r: Range, k: nat, d: seq<Range>)
    requires AllFit(max, d0) && Fits(max, r) && IsValid(r) && Separate(d0) && forall i :: !TouchedAt(max, d0, r, i)
    requires |d| >= |d0| && k < |d| && d[k] == r
    requires forall i :: 0 <= i < |d| && i != k ==> i < |d0| && d[i] == d0[i]
    ensures Separate(d)
  {
    forall i, j | 0 <= i < |d| && 0 <= j < |d| ensures ApartAt(d, i, j) {
      if i != j && IsValid(d[i]) && IsValid(d[j]) {
        if i == k {
          TouchesMeans(max, d0[j], r);
          assert !TouchedAt(max, d0, r, j);
        } else if j == k {
          TouchesMeans(max, d0[i], r);
          assert !TouchedAt(max, d0, r, i);
        } else {
          assert ApartAt(d0, i, j);
        }
      }
    }
  }

  /** If a range touches only by wrapping around, the span swallows addresses that belong to neither. */
  lemma FalseTouchSpoils(max: nat, d0: seq<Range>, r: Range, found: int, d: seq<Range>)
    requires max > 0 && AllFit(max, d0) && Fits(max, r) && IsValid(r) && Separate(d0) && !NoFalseTouch(max, d0, r)
    requires found >= 0 && Merging(max, d0, r, |d0|, found, -1, d)
    ensures exists a :: !UnionAt(d0, r, d, a)
  {
    var i :| 0 <= i < |d0| && IsValid(d0[i]) && Wraps(max, d0[i], r) && !Meets(d0[i], r);
    var s := d0[i];
    TouchesMeans(max, s, r);
    assert TouchedAt(max, d0, r, i);
    var a := if r.end < s.start then s.start - 1 else s.end + 1;
    assert HasAt(d, found, a);
    forall j ensures !HasAt(d0, j, a) {
      assert 0 <= j < |d0| ==> ApartAt(d0, i, j);
    }
    assert !UnionAt(d0, r, d, a);
  }

  /** Merging a range into separate ranges is the union exactly if none touches it only by wrapping around; then the
      ranges stay separate. */
  lemma MergeIsUnion(max: nat, d0: seq<Range>, r: Range, d: seq<Range>)
    requires max > 0 && AllFit(max, d0) && Fits(max, r) && IsValid(r) && Separate(d0) && MergeResult(max, d0, r, d)
    ensures Union(d0, r, d) <==> NoFalseTouch(max, d0, r)
    ensures NoFalseTouch(max, d0, r) ==> Separate(d)
  {
    if found :| 0 <= found < |d0| && Merging(max, d0, r, |d0|, found, -1, d) {
      if NoFalseTouch(max, d0, r) {
        forall a ensures UnionAt(d0, r, d, a) {
          FoundUnionAt(max, d0, r, found, d, a);
        }
        FoundSeparate(max, d0, r, found, d);
      } else {
        FalseTouchSpoils(max, d0, r, found, d);
      }
    } else {
      NothingTouched(max, d0, r);
      if d == d0 + [r] {
        forall a ensures UnionAt(d0, r, d, a) {
          AppendedUnionAt(d0, r, a);
        }
        AddedSeparate(max, d0, r, |d0|, d);
      } else {
        var k :| 0 <= k < |d0| && !IsValid(d0[k]) && d == d0[k := r];
        forall a ensures UnionAt(d0, r, d, a) {
          PlacedUnionAt(d0, r, k, a);
        }
        AddedSeparate(max, d0, r, k, d);
      }
    }
  }

  lemma NothingTouched(max: nat, d0: seq<Range>, r: Range)
    requires AllFit(max, d0) && Fits(max, r) && IsValid(r) && forall i :: !TouchedAt(max, d0, r, i)
    ensures NoFalseTouch(max, d0, r)
  {
    forall i | 0 <= i < |d0| && IsValid(d0[i]) ensures !Wraps(max, d0[i], r) {
      TouchesMeans(max, d0[i], r);
      assert !TouchedAt(max, d0, r, i);
    }
  }

  /** Whatever touches what, merging loses no address. */
  lemma MergeCovers(max: nat, d0: seq<Range>, r: Range, d: seq<Range>, a: nat)
    requires max > 0 && AllFit(max, d0) && Fits(max, r) && IsValid(r) && MergeResult(max, d0, r, d)
    requires Covers(d0, a) || Has(r, a)
    ensures Covers(d, a)
  {
    if found :| 0 <= found < |d0| && Merging(max, d0, r, |d0|, found, -1, d) {
      if Has(r, a) {
        assert HasAt(d, found, a);
      } else {
        var i :| HasAt(d0, i, a);
        assert HasAt(d, if TouchedAt(max, d0, r, i) then found else i, a);
      }
    } else if d == d0 + [r] {
      AppendedUnionAt(d0, r, a);
    } else {
      var k :| 0 <= k < |d0| && !IsValid(d0[k]) && d == d0[k := r];
      PlacedUnionAt(d0, r, k, a);
    }
  }

  /** After a false touch one range holds all addresses. */
  lemma FalseTouchTakesAll(max: nat, d0: seq<Range>, r: Range, d: seq<Range>) returns (found: nat)
    requires max > 0 && AllFit(max, d0) && Fits(max, r) && IsValid(r) && MergeResult(max, d0, r, d)
    requires !NoFalseTouch(max, d0, r)
    ensures found < |d0| && d[found] == Range(0, max) && Merging(max, d0, r, |d0|, found, -1, d)
  {
    var i :| 0 <= i < |d0| && IsValid(d0[i]) && Wraps(max, d0[i], r) && !Meets(d0[i], r);
    TouchesMeans(max, d0[i], r);
    assert TouchedAt(max, d0, r, i);
    found :| 0 <= found < |d0| && Merging(max, d0, r, |d0|, found, -1, d);
  }

  // ----- Excluding -----

  /** d with the range at k replaced by pieces of it that lie apart: one in its place, the other one at slot j, which
      is free or new. */
  ghost predicate Cut(d: seq<Range>, k: nat, x: Range, j: nat, y: Range, d': seq<Range>) {
    && k < |d| && IsValid(d[k]) && j <= |d| && j != k && (j < |d| ==> !IsValid(d[j])) && |d'| >= |d|
    && (IsValid(x) ==> d[k].start <= x.start && x.end <= d[k].end)
    && (IsValid(y) ==> d[k].start <= y.start && y.end <= d[k].end)
    && (IsValid(x) && IsValid(y) ==> !Meets(x, y))
    && |d'| == (if j == |d| && IsValid(y) then |d| + 1 else |d|)
    && d'[k] == x && (j < |d'| && IsValid(y) ==> d'[j] == y)
    && (j < |d| && !IsValid(y) ==> d'[j] == d[j])
    && forall i :: 0 <= i < |d| && i != k && i != j ==> d'[i] == d[i]
  }

  lemma CutSeparate(d: seq<Range>, k: nat, x: Range, j: nat, y: Range, d': seq<Range>)
    requires Separate(d) && Cut(d, k, x, j, y, d')
    ensures Separate(d')
  {
    forall i, l | 0 <= i < |d'| && 0 <= l < |d'| ensures ApartAt(d', i, l) {
      var i', l' := if i == j then k else i, if l == j then k else l;
      assert ApartAt(d, i', l');
    }
  }

  lemma CutCovers(d: seq<Range>, k: nat, x: Range, j: nat, y: Range, d': seq<Range>, a: nat)
    requires Cut(d, k, x, j, y, d') && (Has(d[k], a) <==> (IsValid(x) && Has(x, a)) || (IsValid(y) && Has(y, a)))
    ensures Covers(d', a) <==> Covers(d, a)
  {
    if Covers(d, a) {
      var i :| HasAt(d, i, a);
      if i == k {
        assert HasAt(d', if IsValid(x) && Has(x, a) then k else j, a);
      } else {
        assert HasAt(d', i, a);
      }
    }
    if Covers(d', a) {
      var i :| HasAt(d', i, a);
      assert HasAt(d, if i == j then k else i, a);
    }
  }

  /** d after the loop of exclude has passed n of the ranges of d0. */
  ghost predicate Excluding(max: nat, d0: seq<Range>, e: Range, n: int, invalid: int, d: seq<Range>) {
    && 0 <= n <= |d0| <= |d| && AllFit(max, d) && (Separate(d0) ==> Separate(d))
    && (forall i :: n <= i < |d0| ==> d[i] == d0[i])
    && (forall i :: 0 <= i < |d| && !(n <= i < |d0|) && IsValid(d[i]) ==> !Overlaps(d[i], e))
    && (forall a :: SameOutside(d0, e, d, a))
    && (invalid == -1 || (0 <= invalid < n && !IsValid(d[invalid])))
  }

  ghost predicate SameOutside(d0: seq<Range>, e: Range, d: seq<Range>, a: nat) {
    !Has(e, a) ==> (Covers(d, a) <==> Covers(d0, a))
  }

  lemma ExcludeSkips(max: nat, d0: seq<Range>, e: Range, n: nat, invalid: int, d: seq<Range>)
    requires Excluding(max, d0, e, n, invalid, d) && n < |d0| && (IsValid(d[n]) ==> !Overlaps(d[n], e))
    ensures Excluding(max, d0, e, n + 1, if IsValid(d[n]) then invalid else n, d)
  {
  }

  /** x and y are what is left of s without e. */
  ghost predicate Leaves(max: nat, s: Range, e: Range, x: Range, y: Range) {
    && Fits(max, x) && Fits(max, y) && (IsValid(x) ==> !Overlaps(x, e)) && (IsValid(y) ==> !Overlaps(y, e))
    && forall a :: !Has(e, a) ==> (Has(s, a) <==> (IsValid(x) && Has(x, a)) || (IsValid(y) && Has(y, a)))
  }

  lemma ExcludeCuts(max: nat, d0: seq<Range>, e: Range, n: nat, invalid: int, d: seq<Range>,
                    x: Range, j: nat, y: Range, d': seq<Range>, invalid': int)
    requires Excluding(max, d0, e, n, invalid, d) && n < |d0| && Cut(d, n, x, j, y, d') && Leaves(max, d[n], e, x, y)
    requires !(n <= j < |d0|)
    requires invalid' == -1 || (0 <= invalid' <= n && !IsValid(d'[invalid']))
    ensures Excluding(max, d0, e, n + 1, invalid', d')
  {
    if Separate(d) {
      CutSeparate(d, n, x, j, y, d');
    }
    forall a ensures SameOutside(d0, e, d', a) {
      assert SameOutside(d0, e, d, a);
      if !Has(e, a) {
        CutCovers(d, n, x, j, y, d', a);
      }
    }
  }

  // One turn of the loop for a range that overlaps the excluded one, case by case.

  ghost predicate ExcludesAt(max: nat, d0: seq<Range>, e: Range, n: nat, invalid: int, d: seq<Range>) {
    && Excluding(max, d0, e, n, invalid, d) && n < |d0| && Fits(max, e) && IsValid(e) && max > 0
    && IsValid(d[n]) && Overlaps(d[n], e)
  }

  lemma ExcludeWhole(max: nat, d0: seq<Range>, e: Range, n: nat, invalid: int, d: seq<Range>)
    requires ExcludesAt(max, d0, e, n, invalid, d) && Has(e, d[n].start) && Has(e, d[n].end)
    ensures Excluding(max, d0, e, n + 1, n, d[n := Range(max, 0)])
  {
    ExcludeCuts(max, d0, e, n, invalid, d, Range(max, 0), |d|, Range(max, 0), d[n := Range(max, 0)], n);
  }

  lemma ExcludeHead(max: nat, d0: seq<Range>, e: Range, n: nat, invalid: int, d: seq<Range>)
    requires ExcludesAt(max, d0, e, n, invalid, d) && Has(e, d[n].start) && !Has(e, d[n].end)
    ensures Excluding(max, d0, e, n + 1, invalid, d[n := Range(Next(max, e), d[n].end)])
  {
    var x := Range(Next(max, e), d[n].end);
    ExcludeCuts(max, d0, e, n, invalid, d, x, |d|, Range(max, 0), d[n := x], invalid);
  }

  lemma ExcludeTail(max: nat, d0: seq<Range>, e: Range, n: nat, invalid: int, d: seq<Range>)
    requires ExcludesAt(max, d0, e, n, invalid, d) && !Has(e, d[n].start) && Has(e, d[n].end)
    ensures Excluding(max, d0, e, n + 1, invalid, d[n := Range(d[n].start, Previous(max, e))])
  {
    var x := Range(d[n].start, Previous(max, e));
    ExcludeCuts(max, d0, e, n, invalid, d, x, |d|, Range(max, 0), d[n := x], invalid);
  }

  lemma ExcludeMiddle(max: nat, d0: seq<Range>, e: Range, n: nat, invalid: int, d: seq<Range>)
    requires ExcludesAt(max, d0, e, n, invalid, d) && !Has(e, d[n].start) && !Has(e, d[n].end)
    ensures var x, y := Range(d[n].start, Previous(max, e)), Range(Next(max, e), d[n].end);
      Excluding(max, d0, e, n + 1, -1, if invalid >= 0 then d[n := x][invalid := y] else d[n := x] + [y])
  {
    var x, y := Range(d[n].start, Previous(max, e)), Range(Next(max, e), d[n].end);
    if invalid >= 0 {
      ExcludeCuts(max, d0, e, n, invalid, d, x, invalid, y, d[n := x][invalid := y], -1);
    } else {
      ExcludeCuts(max, d0, e, n, invalid, d, x, |d|, y, d[n := x] + [y], -1);
    }
  }

  ghost predicate Difference(d0: seq<Range>, e: Range, d: seq<Range>) {
    forall a :: DifferenceAt(d0, e, d, a)
  }

  ghost predicate DifferenceAt(d0: seq<Range>, e: Range, d: seq<Range>, a: nat) {
    Covers(d, a) <==> Covers(d0, a) && !Has(e, a)
  }

  lemma ExcludeIsDifference(max: nat, d0: seq<Range>, e: Range, invalid: int, d: seq<Range>)
    requires Excluding(max, d0, e, |d0|, invalid, d)
    ensures Difference(d0, e, d)
  {
    forall a ensures DifferenceAt(d0, e, d, a) {
      assert SameOutside(d0, e, d, a);
      if Has(e, a) {
        forall i ensures !HasAt(d, i, a) {
          assert 0 <= i < |d| && IsValid(d[i]) ==> !Overlaps(d[i], e);
        }
      }
    }
  }
}
