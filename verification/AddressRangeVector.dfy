/** address_range_vector: a set of addresses kept as separate ranges. */
module AddressRangeVector {
  import opened AddressRange

  class Vector {
    /** The largest address. */
    const max: nat
    var data: seq<Range>

    ghost predicate Fitting()
      reads this
    {
      max > 0 && AllFit(max, data)
    }

    ghost predicate Valid()
      reads this
    {
      Fitting() && Separate(data)
    }

    constructor (max: nat)
      requires max > 0
      ensures Valid() && this.max == max && data == []
    {
      this.max := max;
      data := [];
    }

    /** merge: no address is lost, and the result is the union exactly if no range touches the new one only by
        wrapping around.  The consistency check then still succeeds. */
    method Merge(newRange: Range)
      requires Fitting() && Fits(max, newRange)
      modifies this
      ensures Fitting()
      ensures !IsValid(newRange) ==> data == old(data)
      ensures IsValid(newRange) ==> MergeResult(max, old(data), newRange, data)
      ensures IsValid(newRange) ==> forall a :: Covers(old(data), a) || Has(newRange, a) ==> Covers(data, a)
      ensures IsValid(newRange) && old(Valid()) ==> (Union(old(data), newRange, data) <==> NoFalseTouch(max, old(data), newRange))
      ensures IsValid(newRange) && old(Valid()) && NoFalseTouch(max, old(data), newRange) ==> Valid()
      ensures IsValid(newRange) && Consistent(max, old(data)) ==>
        (Consistent(max, data) <==> NoFalseTouch(max, old(data), newRange) || AllTouched(max, old(data), newRange))
    {
      if !IsValid(newRange) {
        return;
      }
      ghost var d0 := data;
      var found, invalid := MergeLoop(newRange);
      if found < 0 {
        Untouched(max, d0, newRange, invalid, data);
        data := if invalid >= 0 then data[invalid := newRange] else data + [newRange];
      } else {
        assert Merging(max, d0, newRange, |d0|, found, -1, data);
      }
      MergeMeans(max, d0, newRange, data);
    }

    /** The loop of merge: where ranges were merged, and which slot is free. */
    method MergeLoop(newRange: Range) returns (found: int, invalid: int)
      requires AllFit(max, data) && Fits(max, newRange) && IsValid(newRange)
      modifies this
      ensures Merging(max, old(data), newRange, |data|, found, invalid, data)
    {
      ghost var d0 := data;
      found, invalid := -1, -1;
      for n := 0 to |data|
        invariant Merging(max, d0, newRange, n, found, invalid, data)
      {
        found, invalid := MergeTurn(newRange, n, found, invalid, d0);
      }
    }

    method MergeTurn(newRange: Range, n: nat, found: int, invalid: int, ghost d0: seq<Range>) returns (found': int, invalid': int)
      requires Merging(max, d0, newRange, n, found, invalid, data) && n < |data| && Fits(max, newRange) && IsValid(newRange)
      modifies this
      ensures Merging(max, d0, newRange, n + 1, found', invalid', data)
    {
      found', invalid' := found, invalid;
      if !IsValid(data[n]) {
        MergeSkips(max, d0, newRange, n, found, invalid, data);
        invalid' := n;
      } else if Touches(max, data[n], newRange) {
        found' := MergeTouching(newRange, n, found, invalid, d0);
      } else {
        MergeSkips(max, d0, newRange, n, found, invalid, data);
      }
    }

    /** One turn of that loop, for a range that touches the new one. */
    method MergeTouching(newRange: Range, n: nat, found: int, ghost invalid: int, ghost d0: seq<Range>) returns (found': int)
      requires Merging(max, d0, newRange, n, found, invalid, data) && n < |data| && TouchedAt(max, d0, newRange, n)
      requires Fits(max, newRange) && IsValid(newRange)
      modifies this
      ensures Merging(max, d0, newRange, n + 1, found', invalid, data)
    {
      var existing := data[n];
      if found >= 0 {
        MergeJoins(max, d0, newRange, n, found, invalid, data);
        data := data[found := MinMax(max, data[found], existing)];
        data := data[n := Range(max, 0)];
        found' := found;
      } else {
        MergeFinds(max, d0, newRange, n, invalid, data);
        data := data[n := MinMax(max, existing, newRange)];
        found' := n;
      }
    }

    /** exclude: the difference.  The consistency check succeeds afterwards exactly if the first and the last address
        do not stay while something between them goes. */
    method Exclude(exclusion: Range)
      requires Fitting() && Fits(max, exclusion)
      modifies this
      ensures Fitting() && (old(Valid()) ==> Valid())
      ensures !IsValid(exclusion) ==> data == old(data)
      ensures IsValid(exclusion) ==> Difference(old(data), exclusion, data)
      ensures IsValid(exclusion) && old(Valid()) ==> (Consistent(max, data) <==> !SplitsEnds(max, old(data), exclusion))
    {
      if !IsValid(exclusion) {
        return;
      }
      ghost var d0 := data;
      var invalid := -1;
      var size := |data|;
      for n := 0 to size
        invariant Excluding(max, d0, exclusion, n, invalid, data)
      {
        var existing := data[n];
        if !IsValid(existing) {
          ExcludeSkips(max, d0, exclusion, n, invalid, data);
          invalid := n;
        } else if !Overlaps(existing, exclusion) {
          ExcludeSkips(max, d0, exclusion, n, invalid, data);
        } else {
          var headExcluded, tailExcluded := Has(exclusion, existing.start), Has(exclusion, existing.end);
          if headExcluded && tailExcluded {
            ExcludeWhole(max, d0, exclusion, n, invalid, data);
            data := data[n := Range(max, 0)];
            invalid := n;
          } else if headExcluded {
            ExcludeHead(max, d0, exclusion, n, invalid, data);
            data := data[n := Range(Next(max, exclusion), existing.end)];
          } else if tailExcluded {
            ExcludeTail(max, d0, exclusion, n, invalid, data);
            data := data[n := Range(existing.start, Previous(max, exclusion))];
          } else {
            ExcludeMiddle(max, d0, exclusion, n, invalid, data);
            data := data[n := Range(existing.start, Previous(max, exclusion))];
            var tail := Range(Next(max, exclusion), existing.end);
            if invalid >= 0 {
              data := data[invalid := tail];
              invalid := -1;
            } else {
              data := data + [tail];
            }
          }
        }
      }
      ExcludeIsDifference(max, d0, exclusion, invalid, data);
      if Separate(d0) {
        ExcludeConsistent(max, d0, exclusion, data);
      }
    }

    /** exclude, for every range of a vector. */
    method ExcludeVector(other: seq<Range>)
      requires Fitting() && AllFit(max, other)
      modifies this
      ensures Fitting() && (old(Valid()) ==> Valid())
      ensures forall a :: Covers(data, a) <==> Covers(old(data), a) && !Covers(other, a)
    {
      NoneCovered(other);
      for n := 0 to |other|
        invariant Fitting() && (old(Valid()) ==> Valid())
        invariant forall a :: Covers(data, a) <==> Covers(old(data), a) && !Covers(other[..n], a)
      {
        ghost var d := data;
        Exclude(other[n]);
        forall a: nat ensures Covers(data, a) <==> Covers(old(data), a) && !Covers(other[..n + 1], a) {
          assert IsValid(other[n]) ==> DifferenceAt(d, other[n], data, a);
          CoversOneMore(other, n, a);
        }
      }
      assert other[..|other|] == other;
    }

    /** merge, for every range of a vector: no address is lost, and the result is the union exactly if the ranges
        that are added do not bring the first and the last address together, or the union is everything anyway. */
    method MergeVector(other: seq<Range>)
      requires Fitting() && AllFit(max, other)
      modifies this
      ensures Fitting()
      ensures forall a :: Covers(old(data), a) || Covers(other, a) ==> Covers(data, a)
      ensures old(Valid()) ==> (UnionAll(old(data), other, data) <==> !Joins(max, old(data), other) || TogetherAll(max, old(data), other))
      ensures old(Valid()) && !Joins(max, old(data), other) ==> Valid()
    {
      ghost var d0, joined := data, false;
      NoneCovered(other);
      for n := 0 to |other|
        invariant MergingAll(max, d0, other[..n], joined, data) && Fitting()
      {
        ghost var d, seen := data, other[..n];
        Merge(other[n]);
        assert other[..n + 1] == seen + [other[n]];
        joined := MergesOne(max, d0, seen, other[n], joined, d, data);
      }
      assert other[..|other|] == other;
      MergedAll(max, d0, other, joined, data);
    }

    /** check_consistency: no two ranges touch, not even by wrapping around. */
    method CheckConsistency() returns (ok: bool)
      ensures ok <==> Consistent(max, data)
    {
      for i := 0 to |data|
        invariant forall k, j :: 0 <= k < i && k < j < |data| ==> !TouchAt(max, data, k, j)
      {
        if IsValid(data[i]) {
          for j := i + 1 to |data|
            invariant forall l :: i < l < j ==> !TouchAt(max, data, i, l)
          {
            if IsValid(data[j]) && Touches(max, data[i], data[j]) {
              assert TouchAt(max, data, i, j);
              return false;
            }
          }
        }
      }
      ok := true;
    }

    /** overlaps: whether some address of the range is in the set; for an invalid range, which stands for no address,
        whether one range holds both its bounds. */
    method OverlapsRange(range: Range) returns (found: bool)
      ensures IsValid(range) ==> (found <==> exists a :: Has(range, a) && Covers(data, a))
      ensures !IsValid(range) ==> (found <==> exists i :: HasAt(data, i, range.start) && HasAt(data, i, range.end))
    {
      found := false;
      for i := 0 to |data|
        invariant forall k :: 0 <= k < i ==> !(IsValid(data[k]) && Overlaps(data[k], range))
      {
        if IsValid(data[i]) && Overlaps(data[i], range) {
          if IsValid(range) {
            CommonAddress(data, i, range);
          } else {
            assert HasAt(data, i, range.start) && HasAt(data, i, range.end);
          }
          return true;
        }
      }
      forall a | Has(range, a) ensures !Covers(data, a) {
        forall i ensures !HasAt(data, i, a) {
          assert 0 <= i < |data| ==> !(IsValid(data[i]) && Overlaps(data[i], range));
        }
      }
    }
  }

  ghost predicate TouchAt(max: nat, d: seq<Range>, i: int, j: int) {
    0 <= i < |d| && 0 <= j < |d| && IsValid(d[i]) && IsValid(d[j]) && Touches(max, d[i], d[j])
  }

  ghost predicate Consistent(max: nat, d: seq<Range>) {
    forall i, j :: 0 <= i < j < |d| ==> !TouchAt(max, d, i, j)
  }

  ghost predicate NoneWrap(max: nat, d: seq<Range>) {
    forall i, j :: 0 <= i < j < |d| && IsValid(d[i]) && IsValid(d[j]) ==> !Wraps(max, d[i], d[j])
  }

  lemma CommonAddress(d: seq<Range>, i: nat, r: Range)
    requires i < |d| && IsValid(d[i]) && IsValid(r) && Overlaps(d[i], r)
    ensures exists a :: Has(r, a) && Covers(d, a)
  {
    var a := if d[i].start < r.start then r.start else d[i].start;
    assert HasAt(d, i, a);
    assert Has(r, a) && Covers(d, a);
  }

  /** The check succeeds exactly for separate ranges of which no two meet by wrapping around. */
  lemma ConsistentMeans(max: nat, d: seq<Range>)
    requires AllFit(max, d)
    ensures Consistent(max, d) <==> Separate(d) && NoneWrap(max, d)
  {
    if Consistent(max, d) {
      forall i, j | 0 <= i < |d| && 0 <= j < |d| ensures ApartAt(d, i, j) {
        if i < j && IsValid(d[i]) && IsValid(d[j]) {
          TouchesMeans(max, d[i], d[j]);
          assert !TouchAt(max, d, i, j);
        } else if j < i && IsValid(d[i]) && IsValid(d[j]) {
          TouchesMeans(max, d[j], d[i]);
          assert !TouchAt(max, d, j, i);
        }
      }
      forall i, j | 0 <= i < j < |d| && IsValid(d[i]) && IsValid(d[j]) ensures !Wraps(max, d[i], d[j]) {
        TouchesMeans(max, d[i], d[j]);
        assert !TouchAt(max, d, i, j);
      }
    }
    if Separate(d) && NoneWrap(max, d) {
      forall i, j | 0 <= i < j < |d| ensures !TouchAt(max, d, i, j) {
        assert ApartAt(d, i, j);
        if IsValid(d[i]) && IsValid(d[j]) {
          TouchesMeans(max, d[i], d[j]);
        }
      }
    }
  }

  // What the check says about the set of addresses.

  ghost predicate CoversAll(max: nat, d: seq<Range>) {
    forall a: nat :: a <= max ==> Covers(d, a)
  }

  lemma OneHolder(max: nat, d: seq<Range>, i: int, j: int)
    requires AllFit(max, d) && NoneWrap(max, d) && HasAt(d, i, 0) && HasAt(d, j, max)
    ensures i == j
  {
    assert Wraps(max, d[i], d[j]) && Wraps(max, d[j], d[i]);
  }

  /** Separate ranges pass the check exactly if they do not hold the first and the last address with a gap between. */
  lemma ConsistentCovers(max: nat, d: seq<Range>)
    requires max > 0 && AllFit(max, d) && Separate(d)
    ensures Consistent(max, d) <==> !(Covers(d, 0) && Covers(d, max)) || CoversAll(max, d)
  {
    ConsistentMeans(max, d);
    if NoneWrap(max, d) && Covers(d, 0) && Covers(d, max) {
      var i, j :| HasAt(d, i, 0) && HasAt(d, j, max);
      OneHolder(max, d, i, j);
      forall a: nat | a <= max ensures Covers(d, a) {
        assert HasAt(d, i, a);
      }
    }
    if !NoneWrap(max, d) {
      var i, j :| 0 <= i < j < |d| && IsValid(d[i]) && IsValid(d[j]) && Wraps(max, d[i], d[j]);
      if d[i].start == 0 && d[j].end == max {
        GapBetween(max, d, i, j);
      } else {
        GapBetween(max, d, j, i);
      }
    }
  }

  lemma GapBetween(max: nat, d: seq<Range>, i: nat, j: nat)
    requires AllFit(max, d) && Separate(d) && i < |d| && j < |d| && i != j && IsValid(d[i]) && IsValid(d[j])
    requires d[i].start == 0 && d[j].end == max
    ensures Covers(d, 0) && Covers(d, max) && !CoversAll(max, d)
  {
    assert HasAt(d, i, 0) && HasAt(d, j, max) && ApartAt(d, i, j);
    var a := d[i].end + 1;
    forall k ensures !HasAt(d, k, a) {
      assert 0 <= k < |d| ==> ApartAt(d, i, k);
    }
    assert a <= max && !Covers(d, a);
  }

  /** The first and the last address are in the set and stay there when e is taken out of it. */
  ghost predicate SplitsEnds(max: nat, d0: seq<Range>, e: Range) {
    Covers(d0, 0) && Covers(d0, max) && 0 < e.start && e.end < max
  }

  lemma ExcludeConsistent(max: nat, d0: seq<Range>, e: Range, d: seq<Range>)
    requires max > 0 && AllFit(max, d) && Separate(d) && Fits(max, e) && IsValid(e) && Difference(d0, e, d)
    ensures Consistent(max, d) <==> !SplitsEnds(max, d0, e)
  {
    ConsistentCovers(max, d);
    assert DifferenceAt(d0, e, d, 0) && DifferenceAt(d0, e, d, max) && DifferenceAt(d0, e, d, e.start);
  }

  /** A vector that passes the check still passes it after exclude, except when a range of all addresses loses
      something in the middle. */
  lemma ExcludeKeepsCheck(max: nat, d0: seq<Range>, e: Range, d: seq<Range>)
    requires max > 0 && AllFit(max, d0) && AllFit(max, d) && Separate(d) && Fits(max, e) && IsValid(e)
    requires Consistent(max, d0) && Difference(d0, e, d)
    ensures Consistent(max, d) <==> !(Range(0, max) in d0 && 0 < e.start && e.end < max)
  {
    ExcludeConsistent(max, d0, e, d);
    ConsistentMeans(max, d0);
    if Covers(d0, 0) && Covers(d0, max) {
      var i, j :| HasAt(d0, i, 0) && HasAt(d0, j, max);
      OneHolder(max, d0, i, j);
      assert d0[i] == Range(0, max);
    }
    if i :| 0 <= i < |d0| && d0[i] == Range(0, max) {
      assert HasAt(d0, i, 0) && HasAt(d0, i, max);
    }
  }

  /** Whatever separate ranges are left when the second address is taken out of all of them, the check rejects them. */
  lemma WholeSplit(max: nat, d: seq<Range>)
    requires max >= 2 && AllFit(max, d) && Separate(d) && Difference([Range(0, max)], Range(1, 1), d)
    ensures Consistent(max, [Range(0, max)]) && !Consistent(max, d)
  {
    var d0 := [Range(0, max)];
    assert d0[0] == Range(0, max);
    ExcludeKeepsCheck(max, d0, Range(1, 1), d);
  }

  ghost predicate AllTouched(max: nat, d: seq<Range>, r: Range) {
    forall i :: 0 <= i < |d| && IsValid(d[i]) ==> TouchedAt(max, d, r, i)
  }

  /** The range r completes the set if it brings one end of the address space to the other, unless by a false touch. */
  lemma EndsMeet(max: nat, d0: seq<Range>, r: Range, a: nat)
    requires AllFit(max, d0) && Fits(max, r) && IsValid(r) && NoFalseTouch(max, d0, r) && a <= max
    requires (r.start == 0 && (r.end == max || Covers(d0, max))) || (r.end == max && Covers(d0, 0))
    ensures Covers(d0, a) || Has(r, a)
  {
    if !Has(r, a) {
      var i :| HasAt(d0, i, if r.start == 0 then max else 0);
      assert Wraps(max, d0[i], r) && Meets(d0[i], r);
      assert HasAt(d0, i, a);
    }
  }

  lemma MergeConsistent(max: nat, d0: seq<Range>, r: Range, d: seq<Range>)
    requires max > 0 && AllFit(max, d0) && AllFit(max, d) && Fits(max, r) && IsValid(r) && MergeResult(max, d0, r, d)
    requires Consistent(max, d0)
    ensures Consistent(max, d) <==> NoFalseTouch(max, d0, r) || AllTouched(max, d0, r)
  {
    ConsistentMeans(max, d0);
    if NoFalseTouch(max, d0, r) {
      MergeIsUnion(max, d0, r, d);
      UnionConsistent(max, d0, r, d);
    } else {
      var found := FalseTouchTakesAll(max, d0, r, d);
      if j :| 0 <= j < |d0| && IsValid(d0[j]) && !TouchedAt(max, d0, r, j) {
        assert TouchAt(max, d, if found < j then found else j, if found < j then j else found);
      }
    }
  }

  lemma UnionConsistent(max: nat, d0: seq<Range>, r: Range, d: seq<Range>)
    requires max > 0 && AllFit(max, d0) && AllFit(max, d) && Fits(max, r) && IsValid(r) && NoFalseTouch(max, d0, r)
    requires Separate(d0) && Separate(d) && Consistent(max, d0) && Union(d0, r, d)
    ensures Consistent(max, d)
  {
    ConsistentCovers(max, d0);
    ConsistentCovers(max, d);
    assert UnionAt(d0, r, d, 0) && UnionAt(d0, r, d, max);
    if Covers(d, 0) && Covers(d, max) {
      forall a: nat | a <= max ensures Covers(d, a) {
        assert UnionAt(d0, r, d, a);
        if r.start == 0 || r.end == max {
          EndsMeet(max, d0, r, a);
        }
      }
    }
  }

  lemma MergeMeans(max: nat, d0: seq<Range>, r: Range, d: seq<Range>)
    requires max > 0 && AllFit(max, d0) && AllFit(max, d) && Fits(max, r) && IsValid(r) && MergeResult(max, d0, r, d)
    ensures forall a :: Covers(d0, a) || Has(r, a) ==> Covers(d, a)
    ensures Separate(d0) ==> (Union(d0, r, d) <==> NoFalseTouch(max, d0, r))
    ensures Separate(d0) && NoFalseTouch(max, d0, r) ==> Separate(d)
    ensures Consistent(max, d0) ==> (Consistent(max, d) <==> NoFalseTouch(max, d0, r) || AllTouched(max, d0, r))
  {
    forall a: nat | Covers(d0, a) || Has(r, a) ensures Covers(d, a) {
      MergeCovers(max, d0, r, d, a);
    }
    if Separate(d0) {
      MergeIsUnion(max, d0, r, d);
    }
    if Consistent(max, d0) {
      MergeConsistent(max, d0, r, d);
    }
  }

  /** Merging the first address into a vector that holds the last one. */
  lemma FalseTouch(max: nat, d: seq<Range>)
    requires max >= 2 && MergeResult(max, [Range(max, max)], Range(0, 0), d)
    ensures !Union([Range(max, max)], Range(0, 0), d)
  {
    var d0 := [Range(max, max)];
    assert IsValid(d0[0]) && Wraps(max, d0[0], Range(0, 0)) && !Meets(d0[0], Range(0, 0));
    MergeIsUnion(max, d0, Range(0, 0), d);
  }

  // Merging a whole vector.

  /** The ranges of `other` add an end of the address space whose opposite end is there or added too. */
  ghost predicate Joins(max: nat, d0: seq<Range>, other: seq<Range>) {
    (Covers(other, 0) && (Covers(d0, max) || Covers(other, max))) || (Covers(other, max) && Covers(d0, 0))
  }

  ghost predicate Together(d0: seq<Range>, other: seq<Range>, a: nat) {
    Covers(d0, a) || Covers(other, a)
  }

  ghost predicate TogetherAll(max: nat, d0: seq<Range>, other: seq<Range>) {
    forall a: nat :: a <= max ==> Together(d0, other, a)
  }

  ghost predicate UnionAll(d0: seq<Range>, other: seq<Range>, d: seq<Range>) {
    forall a: nat :: Covers(d, a) <==> Together(d0, other, a)
  }

  /** d after the ranges `other` were merged into d0; `joined` tells that a false touch occurred. */
  ghost predicate MergingAll(max: nat, d0: seq<Range>, other: seq<Range>, joined: bool, d: seq<Range>) {
    && AllFit(max, d) && (forall a: nat :: Together(d0, other, a) ==> Covers(d, a))
    && (Separate(d0) && joined ==> Joins(max, d0, other) && CoversAll(max, d))
    && (Separate(d0) && !joined ==>
          Separate(d) && UnionAll(d0, other, d) && (Joins(max, d0, other) ==> CoversAll(max, d)))
  }

  lemma TogetherOneMore(d0: seq<Range>, other: seq<Range>, r: Range, a: nat)
    ensures Covers(other + [r], a) <==> Covers(other, a) || (IsValid(r) && Has(r, a))
    ensures Together(d0, other + [r], a) <==> Together(d0, other, a) || (IsValid(r) && Has(r, a))
  {
    var more := other + [r];
    assert more[..|other|] == other && more[..|other| + 1] == more;
    CoversOneMore(more, |other|, a);
  }

  lemma MergesOne(max: nat, d0: seq<Range>, other: seq<Range>, r: Range, joined: bool, d: seq<Range>, d': seq<Range>)
    returns (joined': bool)
    requires max > 0 && AllFit(max, d') && Fits(max, r) && MergingAll(max, d0, other, joined, d)
    requires if IsValid(r) then MergeResult(max, d, r, d') else d' == d
    ensures MergingAll(max, d0, other + [r], joined', d')
  {
    forall a: nat ensures Covers(other + [r], a) <==> Covers(other, a) || (IsValid(r) && Has(r, a))
      ensures Together(d0, other + [r], a) <==> Together(d0, other, a) || (IsValid(r) && Has(r, a))
    {
      TogetherOneMore(d0, other, r, a);
    }
    joined' := joined || (IsValid(r) && !NoFalseTouch(max, d, r));
    if IsValid(r) {
      MergeMeans(max, d, r, d');
      if Separate(d0) && !joined {
        if joined' {
          JoinsFalsely(max, d0, other, r, d, d');
        } else {
          JoinsRightly(max, d0, other, r, d, d');
        }
      }
    }
  }

  lemma JoinsFalsely(max: nat, d0: seq<Range>, other: seq<Range>, r: Range, d: seq<Range>, d': seq<Range>)
    requires max > 0 && AllFit(max, d) && Fits(max, r) && IsValid(r) && MergeResult(max, d, r, d')
    requires UnionAll(d0, other, d) && !NoFalseTouch(max, d, r)
    ensures Joins(max, d0, other + [r]) && CoversAll(max, d')
  {
    var i :| 0 <= i < |d| && IsValid(d[i]) && Wraps(max, d[i], r) && !Meets(d[i], r);
    TogetherOneMore(d0, other, r, 0);
    TogetherOneMore(d0, other, r, max);
    if d[i].end == max && r.start == 0 {
      assert HasAt(d, i, max);
    } else {
      assert HasAt(d, i, 0);
    }
    var found := FalseTouchTakesAll(max, d, r, d');
    forall a: nat | a <= max ensures Covers(d', a) {
      assert HasAt(d', found, a);
    }
  }

  lemma JoinsRightly(max: nat, d0: seq<Range>, other: seq<Range>, r: Range, d: seq<Range>, d': seq<Range>)
    requires max > 0 && AllFit(max, d) && Fits(max, r) && IsValid(r) && Union(d, r, d') && NoFalseTouch(max, d, r)
    requires UnionAll(d0, other, d) && (Joins(max, d0, other) ==> CoversAll(max, d))
    ensures UnionAll(d0, other + [r], d') && (Joins(max, d0, other + [r]) ==> CoversAll(max, d'))
  {
    forall a: nat ensures Covers(d', a) <==> Together(d0, other + [r], a) {
      assert UnionAt(d, r, d', a);
      TogetherOneMore(d0, other, r, a);
    }
    if Joins(max, d0, other + [r]) {
      TogetherOneMore(d0, other, r, 0);
      TogetherOneMore(d0, other, r, max);
      forall a: nat | a <= max ensures Covers(d', a) {
        assert UnionAt(d, r, d', a);
        if !Joins(max, d0, other) {
          EndsMeet(max, d, r, a);
        }
      }
    }
  }

  lemma MergedAll(max: nat, d0: seq<Range>, other: seq<Range>, joined: bool, d: seq<Range>)
    requires MergingAll(max, d0, other, joined, d)
    ensures forall a :: Covers(d0, a) || Covers(other, a) ==> Covers(d, a)
    ensures Separate(d0) ==> (UnionAll(d0, other, d) <==> !Joins(max, d0, other) || TogetherAll(max, d0, other))
    ensures Separate(d0) && !Joins(max, d0, other) ==> Separate(d)
  {
    forall a: nat | Covers(d0, a) || Covers(other, a) ensures Covers(d, a) {
      assert Together(d0, other, a);
    }
    if Separate(d0) && joined && TogetherAll(max, d0, other) {
      forall a: nat ensures Covers(d, a) <==> Together(d0, other, a) {
        if Covers(d, a) {
          var i :| HasAt(d, i, a);
          assert a <= max;
        }
      }
    }
  }

  lemma NoneCovered(other: seq<Range>)
    ensures forall a :: !Covers(other[..0], a)
  {
  }

  lemma CoversOneMore(other: seq<Range>, n: nat, a: nat)
    requires n < |other|
    ensures Covers(other[..n + 1], a) <==> Covers(other[..n], a) || (IsValid(other[n]) && Has(other[n], a))
  {
    if Covers(other[..n], a) {
      var i :| HasAt(other[..n], i, a);
      assert HasAt(other[..n + 1], i, a);
    }
    if IsValid(other[n]) && Has(other[n], a) {
      assert HasAt(other[..n + 1], n, a);
    }
    if Covers(other[..n + 1], a) {
      var i :| HasAt(other[..n + 1], i, a);
      assert i < n ==> HasAt(other[..n], i, a);
    }
  }

  lemma Untouched(max: nat, d0: seq<Range>, r: Range, invalid: int, d: seq<Range>)
    requires Merging(max, d0, r, |d0|, -1, invalid, d)
    ensures d == d0
    ensures MergeResult(max, d0, r, if invalid >= 0 then d0[invalid := r] else d0 + [r])
  {
  }
}
