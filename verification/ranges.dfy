/**
  Half-open ranges of CRYPTO stream offsets: sorting, in-order merging, and the
  canonical list (sorted, non-empty, never touching) that merging produces.
 */
module Ranges {
  import opened Base

  datatype Range = Range(start: nat, end: nat)

  ghost predicate Covers(ranges: seq<Range>, x: nat)
  {
    exists i :: 0 <= i < |ranges| && ranges[i].start <= x < ranges[i].end
  }

  ghost predicate AllNonEmpty(ranges: seq<Range>)
  {
    forall i :: 0 <= i < |ranges| ==> ranges[i].start < ranges[i].end
  }

  /** Sorted, non-empty and separated by at least one uncovered offset. */
  ghost predicate Canonical(ranges: seq<Range>)
  {
    && AllNonEmpty(ranges)
    && forall i, j :: 0 <= i < j < |ranges| ==> ranges[i].end < ranges[j].start
  }

  /** The order of `sort_unstable_by_key(|range| (range.start, range.end))`. */
  predicate AtMost(a: Range, b: Range)
  {
    a.start < b.start || (a.start == b.start && a.end <= b.end)
  }

  ghost predicate Sorted(ranges: seq<Range>)
  {
    forall i, j :: 0 <= i < j < |ranges| ==> AtMost(ranges[i], ranges[j])
  }

  function InsertSorted(range: Range, ranges: seq<Range>): (sorted: seq<Range>)
    ensures multiset(sorted) == multiset(ranges) + multiset{range}
  {
    if |ranges| == 0 || AtMost(range, ranges[0]) then [range] + ranges
    else
      assert ranges == [ranges[0]] + ranges[1..];
      [ranges[0]] + InsertSorted(range, ranges[1..])
  }

  function Sort(ranges: seq<Range>): (sorted: seq<Range>)
    ensures multiset(sorted) == multiset(ranges)
  {
    if |ranges| == 0 then []
    else
      assert ranges == [ranges[0]] + ranges[1..];
      InsertSorted(ranges[0], Sort(ranges[1..]))
  }

  lemma {:induction false} InsertSortedKeepsOrder(range: Range, ranges: seq<Range>)
    requires Sorted(ranges)
    ensures Sorted(InsertSorted(range, ranges))
  {
    if |ranges| != 0 && !AtMost(range, ranges[0]) {
      var tail := InsertSorted(range, ranges[1..]);
      InsertSortedKeepsOrder(range, ranges[1..]);
      forall i | 0 <= i < |tail| ensures AtMost(ranges[0], tail[i]) {
        assert tail[i] in multiset(tail);
        assert tail[i] in multiset(ranges[1..]) || tail[i] == range;
      }
    }
  }

  lemma {:induction false} SortSorts(ranges: seq<Range>)
    ensures Sorted(Sort(ranges))
  {
    if |ranges| != 0 {
      SortSorts(ranges[1..]);
      InsertSortedKeepsOrder(ranges[0], Sort(ranges[1..]));
    }
  }

  lemma SameElementsCoverTheSame(left: seq<Range>, right: seq<Range>)
    requires multiset(left) == multiset(right)
    ensures forall x: nat :: Covers(left, x) <==> Covers(right, x)
    ensures AllNonEmpty(left) ==> AllNonEmpty(right)
  {
    forall i | 0 <= i < |left| ensures left[i] in right {
      assert left[i] in multiset(left);
    }
    forall i | 0 <= i < |right| ensures right[i] in left {
      assert right[i] in multiset(right);
    }
  }

  /** Widening the last range of a merged prefix covers exactly one more range. */
  lemma WidenLast(merged: seq<Range>, range: Range, widened: seq<Range>)
    requires |merged| > 0 && Canonical(merged) && range.start < range.end
    requires var last := merged[|merged| - 1];
      last.start <= range.start <= last.end &&
      widened == merged[..|merged| - 1] + [Range(last.start, Max(last.end, range.end))]
    ensures Canonical(widened)
    ensures forall x: nat :: Covers(widened, x) <==> Covers(merged, x) || range.start <= x < range.end
  {
    var n := |merged| - 1;
    assert forall i :: 0 <= i < n ==> widened[i] == merged[i];
    forall x: nat
      ensures Covers(widened, x) <==> Covers(merged, x) || range.start <= x < range.end
    {
      if Covers(widened, x) {
        var i :| 0 <= i < |widened| && widened[i].start <= x < widened[i].end;
        if i < n { assert merged[i].start <= x < merged[i].end; }
        else { assert merged[n].start <= x < merged[n].end || range.start <= x < range.end; }
      }
      if Covers(merged, x) {
        var i :| 0 <= i < |merged| && merged[i].start <= x < merged[i].end;
        assert widened[i].start <= x < widened[i].end;
      }
      if range.start <= x < range.end {
        assert widened[n].start <= x < widened[n].end;
      }
    }
  }

  lemma AppendSeparate(merged: seq<Range>, range: Range)
    requires Canonical(merged) && range.start < range.end
    requires |merged| > 0 ==> merged[|merged| - 1].end < range.start
    ensures Canonical(merged + [range])
    ensures forall x: nat ::
      Covers(merged + [range], x) <==> Covers(merged, x) || range.start <= x < range.end
  {
    var appended := merged + [range];
    forall x: nat
      ensures Covers(appended, x) <==> Covers(merged, x) || range.start <= x < range.end
    {
      if Covers(merged, x) {
        var i :| 0 <= i < |merged| && merged[i].start <= x < merged[i].end;
        assert appended[i] == merged[i];
      }
      if range.start <= x < range.end { assert appended[|merged|] == range; }
    }
  }

  lemma CoversSplit(ranges: seq<Range>, k: nat)
    requires k < |ranges|
    ensures forall x: nat :: Covers(ranges[..k + 1], x) <==>
      Covers(ranges[..k], x) || ranges[k].start <= x < ranges[k].end
  {
    var shorter, longer := ranges[..k], ranges[..k + 1];
    forall x: nat
      ensures Covers(longer, x) <==> Covers(shorter, x) || ranges[k].start <= x < ranges[k].end
    {
      if Covers(shorter, x) {
        var i :| 0 <= i < |shorter| && shorter[i].start <= x < shorter[i].end;
        assert longer[i] == shorter[i];
      }
      if ranges[k].start <= x < ranges[k].end { assert longer[k] == ranges[k]; }
      if Covers(longer, x) {
        var i :| 0 <= i < |longer| && longer[i].start <= x < longer[i].end;
        if i < k { assert shorter[i] == longer[i]; }
      }
    }
  }

  /** `merge_ranges`: sort, then fold touching neighbours together. */
  method MergeRanges(ranges: seq<Range>) returns (merged: seq<Range>)
    requires AllNonEmpty(ranges)
    ensures Canonical(merged)
    ensures forall x: nat :: Covers(merged, x) <==> Covers(ranges, x)
  {
    var sorted := Sort(ranges);
    SortSorts(ranges);
    SameElementsCoverTheSame(ranges, sorted);
    merged := [];
    for k := 0 to |sorted|
      invariant Canonical(merged)
      invariant forall x: nat :: Covers(merged, x) <==> Covers(sorted[..k], x)
      invariant |merged| > 0 ==> k > 0 && merged[|merged| - 1].start <= sorted[k - 1].start
    {
      var range := sorted[k];
      CoversSplit(sorted, k);
      if |merged| > 0 && range.start <= merged[|merged| - 1].end {
        var last := merged[|merged| - 1];
        var widened := merged[..|merged| - 1] + [Range(last.start, Max(last.end, range.end))];
        assert AtMost(sorted[k - 1], sorted[k]);
        WidenLast(merged, range, widened);
        merged := widened;
      } else {
        AppendSeparate(merged, range);
        merged := merged + [range];
      }
    }
    assert sorted[..|sorted|] == sorted;
  }

  ghost predicate CoversExactly(ranges: seq<Range>, offsets: set<nat>)
  {
    forall x: nat :: Covers(ranges, x) <==> x in offsets
  }

  ghost predicate IsStart(offsets: set<nat>, x: nat)
  {
    x in offsets && (x == 0 || x - 1 !in offsets)
  }

  /** The left edges of a set of offsets: one per maximal run. */
  ghost function Starts(offsets: set<nat>): (starts: set<nat>)
  {
    set x: nat | x in offsets && IsStart(offsets, x)
  }

  ghost function StartSet(ranges: seq<Range>): (starts: set<nat>)
    ensures forall x: nat :: x in starts <==> exists i :: 0 <= i < |ranges| && ranges[i].start == x
  {
    if |ranges| == 0 then {}
    else
      var n := |ranges| - 1;
      assert forall i :: 0 <= i < n ==> ranges[..n][i] == ranges[i];
      StartSet(ranges[..n]) + {ranges[n].start}
  }

  lemma {:induction false} StartSetSize(ranges: seq<Range>)
    requires Canonical(ranges)
    ensures |StartSet(ranges)| == |ranges|
  {
    if |ranges| != 0 {
      var n := |ranges| - 1;
      StartSetSize(ranges[..n]);
      assert ranges[n].start !in StartSet(ranges[..n]);
    }
  }

  lemma RangeStartIsStart(ranges: seq<Range>, offsets: set<nat>, i: nat)
    requires Canonical(ranges) && CoversExactly(ranges, offsets) && i < |ranges|
    ensures IsStart(offsets, ranges[i].start)
  {
    var x := ranges[i].start;
    assert Covers(ranges, x);
    if x != 0 {
      assert Covers(ranges, x - 1) <==> x - 1 in offsets;
    }
  }

  /** A canonical list has exactly one range per maximal run of covered offsets. */
  lemma CanonicalLength(ranges: seq<Range>, offsets: set<nat>)
    requires Canonical(ranges) && CoversExactly(ranges, offsets)
    ensures |ranges| == |Starts(offsets)|
  {
    forall x: nat | x in Starts(offsets) ensures x in StartSet(ranges) {
      assert Covers(ranges, x);
      var i :| 0 <= i < |ranges| && ranges[i].start <= x < ranges[i].end;
      assert x == 0 || (Covers(ranges, x - 1) <==> x - 1 in offsets);
    }
    forall x: nat | x in StartSet(ranges) ensures x in Starts(offsets) {
      var i :| 0 <= i < |ranges| && ranges[i].start == x;
      RangeStartIsStart(ranges, offsets, i);
    }
    assert StartSet(ranges) == Starts(offsets);
    StartSetSize(ranges);
  }

  lemma FirstRange(ranges: seq<Range>, offsets: set<nat>)
    requires |ranges| > 0 && Canonical(ranges) && CoversExactly(ranges, offsets)
    ensures FirstRunIs(ranges[0], offsets)
    ensures CoversExactly(ranges[1..], set x: nat | x in offsets && ranges[0].end <= x)
  {
    assert Covers(ranges, ranges[0].start);
    forall x: nat | ranges[0].start <= x < ranges[0].end ensures x in offsets {
      assert Covers(ranges, x);
    }
    forall x: nat | x in offsets ensures ranges[0].start <= x {
      assert Covers(ranges, x);
    }
    assert Covers(ranges, ranges[0].end) <==> ranges[0].end in offsets;
    TailCovers(ranges, offsets);
  }

  lemma TailCovers(ranges: seq<Range>, offsets: set<nat>)
    requires |ranges| > 0 && Canonical(ranges) && CoversExactly(ranges, offsets)
    ensures CoversExactly(ranges[1..], set x: nat | x in offsets && ranges[0].end <= x)
  {
    var tail := ranges[1..];
    forall x: nat ensures Covers(tail, x) <==> x in offsets && ranges[0].end <= x {
      if Covers(tail, x) {
        var i :| 0 <= i < |tail| && tail[i].start <= x < tail[i].end;
        assert ranges[i + 1] == tail[i];
        assert Covers(ranges, x);
      }
      if x in offsets && ranges[0].end <= x {
        assert Covers(ranges, x);
        var i :| 0 <= i < |ranges| && ranges[i].start <= x < ranges[i].end;
        assert tail[i - 1] == ranges[i];
      }
    }
  }

  ghost predicate FirstRunIs(range: Range, offsets: set<nat>)
  {
    && range.start < range.end && range.start in offsets && range.end !in offsets
    && (forall x: nat :: x in offsets ==> range.start <= x)
    && (forall x: nat :: range.start <= x < range.end ==> x in offsets)
  }

  lemma SameFirst(left: Range, right: Range, offsets: set<nat>)
    requires FirstRunIs(left, offsets) && FirstRunIs(right, offsets)
    ensures left == right
  {
    assert left.start == right.start;
  }

  lemma Rejoin(left: seq<Range>, right: seq<Range>)
    requires |left| > 0 && |right| > 0 && left[0] == right[0] && left[1..] == right[1..]
    ensures left == right
  {
    assert left == [left[0]] + left[1..];
    assert right == [right[0]] + right[1..];
  }

  /** The covered set determines the canonical list. */
  lemma {:induction false} CanonicalUnique(left: seq<Range>, right: seq<Range>, offsets: set<nat>)
    requires Canonical(left) && CoversExactly(left, offsets)
    requires Canonical(right) && CoversExactly(right, offsets)
    ensures left == right
  {
    CanonicalLength(left, offsets);
    CanonicalLength(right, offsets);
    if |left| > 0 {
      FirstRange(left, offsets);
      FirstRange(right, offsets);
      SameFirst(left[0], right[0], offsets);
      CanonicalUnique(left[1..], right[1..], set x: nat | x in offsets && left[0].end <= x);
      Rejoin(left, right);
    }
  }
}
