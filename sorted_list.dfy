/**
 * Point and range lookup in a sorted list of section boundaries
 * (strct/sortedlists/sortedlist.py).
 *
 * A boundary list [s0, s1, ..., sn] stands for the sections
 * [s0, s1), [s1, s2), ..., [s(n-1), sn]: every section is half-open except
 * the last one, which is closed. Points are Python floats, modelled as reals.
 * `SortedList.bisect`, `bisect_left`, `bisect_right` and `index` are modelled
 * as binary searches over the sorted sequence.
 */
module SortedList {
  import opened Wrappers
  import PySeq

  /** The order a `sortedcontainers.SortedList` keeps: non-decreasing. */
  predicate Sorted(s: seq<real>)
  {
    forall i, j :: 0 <= i <= j < |s| ==> s[i] <= s[j]
  }

  /** Boundaries of non-empty sections: no boundary repeats. */
  predicate StrictlyAscending(s: seq<real>)
  {
    forall i, j :: 0 <= i < j < |s| ==> s[i] < s[j]
  }

  /** Point p lies in section i: [s[i], s[i+1]), or [s[i], s[i+1]] for the last section. */
  predicate InSection(s: seq<real>, i: int, p: real)
  {
    0 <= i <= |s| - 2 && s[i] <= p &&
    (p < s[i + 1] || (i == |s| - 2 && p == s[i + 1]))
  }

  /** Section i has a point in common with the closed range [start, end]. */
  predicate SectionOverlaps(s: seq<real>, i: int, start: real, end: real)
  {
    0 <= i <= |s| - 2 && s[i] <= end &&
    (start < s[i + 1] || (i == |s| - 2 && start == s[i + 1]))
  }

  // ---------------------------------------------------------------------------
  // Binary searches of the sorted list
  // ---------------------------------------------------------------------------

  /** Leftmost insertion point of x, searched for in [lo, hi). */
  function BisectLeftIn(s: seq<real>, x: real, lo: nat, hi: nat): (r: nat)
    requires Sorted(s) && lo <= hi <= |s|
    requires forall i :: 0 <= i < lo ==> s[i] < x
    requires forall i :: hi <= i < |s| ==> x <= s[i]
    ensures lo <= r <= hi
    ensures forall i :: 0 <= i < r ==> s[i] < x
    ensures forall i :: r <= i < |s| ==> x <= s[i]
    decreases hi - lo
  {
    if lo == hi then lo
    else
      var mid := (lo + hi) / 2;
      if s[mid] < x then BisectLeftIn(s, x, mid + 1, hi) else BisectLeftIn(s, x, lo, mid)
  }

  /** Rightmost insertion point of x, searched for in [lo, hi). */
  function BisectRightIn(s: seq<real>, x: real, lo: nat, hi: nat): (r: nat)
    requires Sorted(s) && lo <= hi <= |s|
    requires forall i :: 0 <= i < lo ==> s[i] <= x
    requires forall i :: hi <= i < |s| ==> x < s[i]
    ensures lo <= r <= hi
    ensures forall i :: 0 <= i < r ==> s[i] <= x
    ensures forall i :: r <= i < |s| ==> x < s[i]
    decreases hi - lo
  {
    if lo == hi then lo
    else
      var mid := (lo + hi) / 2;
      if s[mid] <= x then BisectRightIn(s, x, mid + 1, hi) else BisectRightIn(s, x, lo, mid)
  }

  /** `SortedList.bisect_left(x)`: the number of items smaller than x. */
  function BisectLeft(s: seq<real>, x: real): (r: nat)
    requires Sorted(s)
    ensures r <= |s|
    ensures forall i :: 0 <= i < r ==> s[i] < x
    ensures forall i :: r <= i < |s| ==> x <= s[i]
  {
    BisectLeftIn(s, x, 0, |s|)
  }

  /** `SortedList.bisect` / `bisect_right(x)`: the number of items not greater than x. */
  function BisectRight(s: seq<real>, x: real): (r: nat)
    requires Sorted(s)
    ensures r <= |s|
    ensures forall i :: 0 <= i < r ==> s[i] <= x
    ensures forall i :: r <= i < |s| ==> x < s[i]
  {
    BisectRightIn(s, x, 0, |s|)
  }

  /** `SortedList.index(x)` for an x that is present: its first position. */
  function Index(s: seq<real>, x: real): (r: nat)
    requires Sorted(s) && x in s
    ensures r < |s| && s[r] == x
    ensures forall j :: 0 <= j < r ==> s[j] < x
  {
    BisectLeft(s, x)
  }

  // ---------------------------------------------------------------------------
  // The four operations
  // ---------------------------------------------------------------------------

  /**
   * `find_point_in_section_list`: the start of the section holding `point`,
   * or None when the point lies outside [s[0], s[-1]].
   */
  function FindPointInSectionList(point: real, s: seq<real>): (r: Option<real>)
    requires Sorted(s) && |s| >= 2
    ensures r.None? <==> point < s[0] || s[|s| - 1] < point
    ensures r.Some? ==> exists i :: InSection(s, i, point) && r.value == s[i]
  {
    if point < s[0] || point > s[|s| - 1] then None
    else if point in s then
      if point == s[|s| - 1] then
        assert InSection(s, |s| - 2, point);
        Some(s[|s| - 2])
      else
        var ind := BisectRight(s, point) - 1;
        assert InSection(s, ind, point);
        if ind == 0 then Some(s[0]) else Some(s[ind])
    else
      // the IndexError handler of the source is unreachable: ind >= 1 here
      var ind := BisectRight(s, point);
      assert InSection(s, ind - 1, point);
      Some(s[ind - 1])
  }

  /**
   * `find_range_ix_in_section_list`: the index range [lo, hi) of the
   * section starts that the range [start, end] touches; [0, 0] when the
   * range lies wholly outside the boundaries.
   */
  function FindRangeIxInSectionList(start: real, end: real, s: seq<real>): (r: (nat, nat))
    requires Sorted(s) && |s| >= 2
    ensures start > s[|s| - 1] || end < s[0] ==> r == (0, 0)
    ensures !(start > s[|s| - 1] || end < s[0]) ==> r.0 <= |s| - 2 && 1 <= r.1 <= |s| - 1
    ensures !(start > s[|s| - 1] || end < s[0]) && start < s[0] ==> r.0 == 0
  {
    if start > s[|s| - 1] || end < s[0] then (0, 0)
    else
      var startSection := if start < s[0] then s[0] else FindPointInSectionList(start, s).value;
      var endSection := if end > s[|s| - 1] then s[|s| - 2] else FindPointInSectionList(end, s).value;
      (Index(s, startSection), Index(s, endSection) + 1)
  }

  /**
   * `find_range_in_section_list`: the slice of section starts at the index
   * range above; empty when the indices cross, as for a start above the end.
   */
  function FindRangeInSectionList(start: real, end: real, s: seq<real>): (r: seq<real>)
    requires Sorted(s) && |s| >= 2
    ensures var (lo, hi) := FindRangeIxInSectionList(start, end, s);
            (lo <= hi ==> r == s[lo..hi]) && (lo > hi ==> r == [])
  {
    var ind := FindRangeIxInSectionList(start, end, s);
    PySeq.Slice(s, ind.0, ind.1)
  }

  /** `find_range_ix_in_point_list`: [bisect_left(start), bisect_right(end)]. */
  function FindRangeIxInPointList(start: real, end: real, s: seq<real>): (r: (nat, nat))
    requires Sorted(s)
    ensures r.0 <= |s| && r.1 <= |s|
    ensures forall i | 0 <= i < r.0 :: s[i] < start
    ensures forall i | r.0 <= i < |s| :: start <= s[i]
    ensures forall i | 0 <= i < r.1 :: s[i] <= end
    ensures forall i | r.1 <= i < |s| :: end < s[i]
    ensures forall i :: 0 <= i < |s| ==> (r.0 <= i < r.1 <==> start <= s[i] <= end)
    ensures start <= end ==> r.0 <= r.1
  {
    var lo, hi := BisectLeft(s, start), BisectRight(s, end);
    assert hi < lo ==> s[hi] < start && end < s[hi];
    (lo, hi)
  }

  // ---------------------------------------------------------------------------
  // Properties of find_point_in_section_list
  // ---------------------------------------------------------------------------

  /** The closed end of the last section belongs to that section: 31 maps to 30 in [5, 8, 30, 31]. */
  lemma FindPointLastBoundary(s: seq<real>)
    requires Sorted(s) && |s| >= 2
    ensures FindPointInSectionList(s[|s| - 1], s) == Some(s[|s| - 2])
  {
  }

  /** A point equal to a boundary other than the last is its own section start, s[0] included. */
  lemma FindPointOnBoundary(s: seq<real>, i: nat)
    requires Sorted(s) && |s| >= 2
    requires i < |s| && s[i] != s[|s| - 1]
    ensures FindPointInSectionList(s[i], s) == Some(s[i])
  {
    var r := FindPointInSectionList(s[i], s);
    var j :| InSection(s, j, s[i]) && r.value == s[j];
    if j > i {
      assert s[i] <= s[j];
    }
  }

  /** A point strictly between boundaries maps to the greatest boundary below it: 27 maps to 8. */
  lemma FindPointBetween(s: seq<real>, point: real)
    requires Sorted(s) && |s| >= 2
    requires s[0] <= point <= s[|s| - 1] && point !in s
    ensures FindPointInSectionList(point, s).Some?
    ensures FindPointInSectionList(point, s).value < point
    ensures forall j :: 0 <= j < |s| && s[j] < point ==> s[j] <= FindPointInSectionList(point, s).value
  {
    var r := FindPointInSectionList(point, s);
    var i :| InSection(s, i, point) && r.value == s[i];
    assert s[i] != point;
    forall j | 0 <= j < |s| && s[j] < point
      ensures s[j] <= s[i]
    {
      if j > i {
        assert s[i + 1] <= s[j];
      }
    }
  }

  /** In a strictly ascending list the sections are disjoint: a point is in at most one. */
  lemma SectionUnique(s: seq<real>, i: int, j: int, p: real)
    requires StrictlyAscending(s)
    requires InSection(s, i, p) && InSection(s, j, p)
    ensures i == j
  {
  }

  /** Strictly ascending boundaries: the result is the start of the one section holding the point. */
  lemma FindPointIsItsSection(s: seq<real>, i: int, p: real)
    requires StrictlyAscending(s) && |s| >= 2
    requires InSection(s, i, p)
    ensures Sorted(s)
    ensures FindPointInSectionList(p, s) == Some(s[i])
  {
    var r := FindPointInSectionList(p, s);
    var j :| InSection(s, j, p) && r.value == s[j];
    SectionUnique(s, i, j, p);
  }

  /** In a strictly ascending list a boundary's first position is its own position. */
  lemma IndexOfBoundary(s: seq<real>, i: nat)
    requires StrictlyAscending(s) && i < |s|
    ensures Sorted(s)
    ensures Index(s, s[i]) == i
  {
  }

  // ---------------------------------------------------------------------------
  // Properties of find_range_ix_in_section_list and find_range_in_section_list
  // ---------------------------------------------------------------------------

  /** A non-empty range that meets the boundaries gives a non-empty index range. */
  lemma RangeIxNonEmpty(start: real, end: real, s: seq<real>)
    requires Sorted(s) && |s| >= 2
    requires start <= end && start <= s[|s| - 1] && s[0] <= end
    ensures FindRangeIxInSectionList(start, end, s).0 < FindRangeIxInSectionList(start, end, s).1
  {
    var last := |s| - 1;
    var r := FindRangeIxInSectionList(start, end, s);
    var lo, b := r.0, r.1 - 1;
    // the start section begins at or below end
    assert s[lo] <= end by {
      if s[0] <= start {
        var i :| InSection(s, i, start) && FindPointInSectionList(start, s).value == s[i];
      }
    }
  }

  /** Strictly ascending boundaries: a range reaching past the last boundary ends at the last section. */
  lemma RangeIxClampsEnd(start: real, end: real, s: seq<real>)
    requires StrictlyAscending(s) && |s| >= 2
    requires start <= s[|s| - 1] && end > s[|s| - 1]
    ensures Sorted(s)
    ensures FindRangeIxInSectionList(start, end, s).1 == |s| - 1
  {
    IndexOfBoundary(s, |s| - 2);
  }

  /**
   * Strictly ascending boundaries, a range that meets them: the index range
   * runs from the section holding start (0 when start is below s[0]) to the
   * section holding end (the last one when end is above s[-1]).
   */
  lemma RangeIxEnds(start: real, end: real, s: seq<real>)
    requires StrictlyAscending(s) && |s| >= 2
    requires start <= s[|s| - 1] && s[0] <= end
    ensures Sorted(s)
    ensures var r := FindRangeIxInSectionList(start, end, s);
      1 <= r.1 &&
      (start < s[0] ==> r.0 == 0) && (s[0] <= start ==> InSection(s, r.0, start)) &&
      (end > s[|s| - 1] ==> r.1 == |s| - 1) && (end <= s[|s| - 1] ==> InSection(s, r.1 - 1, end))
  {
    var last := |s| - 1;
    if s[0] <= start {
      SectionIndexOfPoint(s, start);
    }
    if end > s[last] {
      IndexOfBoundary(s, last - 1);
    } else {
      SectionIndexOfPoint(s, end);
    }
  }

  /** Strictly ascending boundaries: the index of a point's section start is the section holding it. */
  lemma SectionIndexOfPoint(s: seq<real>, p: real)
    requires StrictlyAscending(s) && |s| >= 2
    requires s[0] <= p <= s[|s| - 1]
    ensures Sorted(s)
    ensures FindPointInSectionList(p, s).Some?
    ensures InSection(s, Index(s, FindPointInSectionList(p, s).value), p)
  {
    assert Sorted(s);
    var r := FindPointInSectionList(p, s);
    var j :| InSection(s, j, p) && r.value == s[j];
    IndexOfBoundary(s, j);
  }

  /**
   * Strictly ascending boundaries: the index range holds exactly the
   * sections that have a point in common with [start, end].
   */
  lemma RangeIxIsOverlappingSections(start: real, end: real, s: seq<real>, i: int)
    requires StrictlyAscending(s) && |s| >= 2
    requires start <= end && 0 <= i <= |s| - 2
    ensures Sorted(s)
    ensures var r := FindRangeIxInSectionList(start, end, s);
            r.0 <= i < r.1 <==> SectionOverlaps(s, i, start, end)
  {
    var r := FindRangeIxInSectionList(start, end, s);
    var last := |s| - 1;
    if start > s[last] || end < s[0] {
      assert s[0] <= s[i] && s[i + 1] <= s[last];
    } else {
      RangeIxEnds(start, end, s);
      var a, b := r.0, r.1 - 1;
      // lower end: sections before a end at or below start
      if i < a {
        assert s[i + 1] <= s[a];
      } else if a < i {
        assert s[a + 1] <= s[i + 1];
      }
      // upper end: sections after b start above end
      if b < i {
        assert s[b + 1] <= s[i];
      } else if i < b {
        assert s[i] < s[b];
      }
    }
  }

  /** Strictly ascending: a boundary lies in a slice exactly when its position does. */
  lemma SliceHoldsBoundary(s: seq<real>, lo: nat, hi: nat, i: nat)
    requires StrictlyAscending(s) && lo <= hi <= |s| && i < |s|
    ensures s[i] in s[lo..hi] <==> lo <= i < hi
  {
    if s[i] in s[lo..hi] {
      var k :| 0 <= k < hi - lo && s[lo..hi][k] == s[i];
      assert s[lo + k] == s[i];
    }
    if lo <= i < hi {
      assert s[lo..hi][i - lo] == s[i];
    }
  }

  /**
   * Strictly ascending boundaries: find_range_in_section_list returns the
   * starts of exactly the sections overlapping [start, end].
   */
  lemma RangeIsOverlappingStarts(start: real, end: real, s: seq<real>, i: int)
    requires StrictlyAscending(s) && |s| >= 2 && start <= end
    requires 0 <= i <= |s| - 2
    ensures Sorted(s)
    ensures s[i] in FindRangeInSectionList(start, end, s) <==> SectionOverlaps(s, i, start, end)
  {
    var ix := FindRangeIxInSectionList(start, end, s);
    RangeIxIsOverlappingSections(start, end, s, i);
    if start > s[|s| - 1] || end < s[0] {
      assert FindRangeInSectionList(start, end, s) == s[0..0];
    } else {
      RangeIxNonEmpty(start, end, s);
    }
    SliceHoldsBoundary(s, ix.0, ix.1, i);
  }

  // ---------------------------------------------------------------------------
  // The documented examples, on [5, 8, 30, 31] and [5, 8, 15]
  // ---------------------------------------------------------------------------

  lemma DocumentedPointExamples()
    ensures Sorted([5.0, 8.0, 30.0, 31.0])
    ensures FindPointInSectionList(4.0, [5.0, 8.0, 30.0, 31.0]) == None
    ensures FindPointInSectionList(5.0, [5.0, 8.0, 30.0, 31.0]) == Some(5.0)
    ensures FindPointInSectionList(27.0, [5.0, 8.0, 30.0, 31.0]) == Some(8.0)
    ensures FindPointInSectionList(31.0, [5.0, 8.0, 30.0, 31.0]) == Some(30.0)
  {
    var s := [5.0, 8.0, 30.0, 31.0];
    FindPointIsItsSection(s, 0, 5.0);
    FindPointIsItsSection(s, 1, 27.0);
    FindPointIsItsSection(s, 2, 31.0);
  }

  /** The section list of the documented examples. */
  const Bounds: seq<real> := [5.0, 8.0, 30.0, 31.0]

  lemma BoundsAscending()
    ensures StrictlyAscending(Bounds) && Sorted(Bounds)
  {
  }

  /** The documented `find_range_ix_in_section_list` and `find_range_in_section_list` results on [5, 8, 30, 31]. */
  lemma DocumentedRangeExamples()
    ensures Sorted(Bounds)
    ensures FindRangeIxInSectionList(3.0, 4.0, Bounds) == (0, 0)
    ensures FindRangeIxInSectionList(6.0, 7.0, Bounds) == (0, 1)
    ensures FindRangeIxInSectionList(7.0, 9.0, Bounds) == (0, 2)
    ensures FindRangeIxInSectionList(7.0, 30.0, Bounds) == (0, 3)
    ensures FindRangeIxInSectionList(7.0, 321.0, Bounds) == (0, 3)
    ensures FindRangeIxInSectionList(4.0, 321.0, Bounds) == (0, 3)
    ensures FindRangeInSectionList(7.0, 30.0, Bounds) == [5.0, 8.0, 30.0]
    ensures FindRangeInSectionList(3.0, 4.0, Bounds) == []
  {
    BoundsAscending();
    DocumentedRangeExample(6.0, 7.0, 0, 0);
    DocumentedRangeExample(7.0, 9.0, 0, 1);
    DocumentedRangeExample(7.0, 30.0, 0, 2);
    DocumentedRangeClamped();
    DocumentedSlices();
  }

  /** A documented range on [5, 8, 30, 31] whose ends lie in sections i and j. */
  lemma DocumentedRangeExample(start: real, end: real, i: nat, j: nat)
    requires i <= j <= 2
    requires InSection(Bounds, i, start) && InSection(Bounds, j, end)
    ensures Sorted(Bounds)
    ensures FindRangeIxInSectionList(start, end, Bounds) == (i, j + 1)
  {
    BoundsAscending();
    FindPointIsItsSection(Bounds, i, start);
    FindPointIsItsSection(Bounds, j, end);
    IndexOfBoundary(Bounds, i);
    IndexOfBoundary(Bounds, j);
  }

  /** (4, 321) starts below and ends above the boundaries: all three sections. */
  lemma DocumentedRangeClamped()
    ensures Sorted(Bounds)
    ensures FindRangeIxInSectionList(7.0, 321.0, Bounds) == (0, 3)
    ensures FindRangeIxInSectionList(4.0, 321.0, Bounds) == (0, 3)
  {
    BoundsAscending();
    assert InSection(Bounds, 0, 7.0);
    FindPointIsItsSection(Bounds, 0, 7.0);
    IndexOfBoundary(Bounds, 0);
    IndexOfBoundary(Bounds, 2);
  }

  /** The slices for (7, 30) and (3, 4). */
  lemma DocumentedSlices()
    ensures Sorted(Bounds)
    ensures FindRangeInSectionList(7.0, 30.0, Bounds) == [5.0, 8.0, 30.0]
    ensures FindRangeInSectionList(3.0, 4.0, Bounds) == []
  {
    BoundsAscending();
    DocumentedRangeExample(7.0, 30.0, 0, 2);
    assert Bounds[0..3] == [5.0, 8.0, 30.0];
  }

  /** A start above the end, both in range, crosses the indices: `(30.5, 6)` gives `[2, 1]` and no section starts. */
  lemma CrossedRangeIsEmpty()
    ensures Sorted(Bounds)
    ensures FindRangeIxInSectionList(30.5, 6.0, Bounds) == (2, 1)
    ensures FindRangeInSectionList(30.5, 6.0, Bounds) == []
  {
    BoundsAscending();
    assert InSection(Bounds, 2, 30.5) && InSection(Bounds, 0, 6.0);
    FindPointIsItsSection(Bounds, 2, 30.5);
    FindPointIsItsSection(Bounds, 0, 6.0);
  }

  const Points: seq<real> := [5.0, 8.0, 15.0]

  lemma PointsSorted()
    ensures Sorted(Points)
  {
  }

  /**
   * On `[5, 8, 15]` a start in `(s[i-1], s[i]]` and an end in `[s[j-1], s[j])`
   * (with `s[-1]` and `s[3]` read as minus and plus infinity) give `[i, j]`.
   */
  lemma DocumentedPointListExample(start: real, end: real, i: nat, j: nat)
    requires i <= 3 && j <= 3
    requires (i == 0 || Points[i - 1] < start) && (i == 3 || start <= Points[i])
    requires (j == 0 || Points[j - 1] <= end) && (j == 3 || end < Points[j])
    ensures Sorted(Points)
    ensures FindRangeIxInPointList(start, end, Points) == (i, j)
  {
    PointsSorted();
    var r := FindRangeIxInPointList(start, end, Points);
    assert Points[0] < Points[1] < Points[2];
  }

  /** The documented point-list ranges on `[5, 8, 15]`. */
  lemma DocumentedPointListExamples()
    ensures Sorted(Points)
    ensures FindRangeIxInPointList(3.0, 4.0, Points) == (0, 0)
    ensures FindRangeIxInPointList(3.0, 7.0, Points) == (0, 1)
    ensures FindRangeIxInPointList(3.0, 8.0, Points) == (0, 2)
    ensures FindRangeIxInPointList(4.0, 15.0, Points) == (0, 3)
    ensures FindRangeIxInPointList(4.0, 321.0, Points) == (0, 3)
    ensures FindRangeIxInPointList(6.0, 321.0, Points) == (1, 3)
  {
    DocumentedPointListExample(3.0, 4.0, 0, 0);
    DocumentedPointListExample(3.0, 7.0, 0, 1);
    DocumentedPointListExample(3.0, 8.0, 0, 2);
    DocumentedPointListExample(4.0, 15.0, 0, 3);
    DocumentedPointListExample(4.0, 321.0, 0, 3);
    DocumentedPointListExample(6.0, 321.0, 1, 3);
  }
}
