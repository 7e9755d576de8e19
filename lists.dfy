/**
 * Order-preserving list shifts (strct/lists/_list.py; the legacy
 * strct/list/_list.py holds the same two shift functions, word for word).
 * Python's indexing and slicing rules come from PySeq, so negative and
 * out-of-range arguments behave as they do in the source.
 */
module Lists {
  import opened Wrappers
  import PySeq

  /** `all_but(list_obj, idx)`: the list without position idx, as `list_obj[0:idx] + list_obj[idx+1:]`. */
  function AllBut<T>(s: seq<T>, idx: int): (r: seq<T>)
    ensures 0 <= idx < |s| ==> r == s[..idx] + s[idx + 1..]
    ensures 0 <= idx < |s| ==> |r| == |s| - 1
  {
    PySeq.Slice(s, 0, idx) + PySeq.Slice(s, idx + 1, |s|)
  }

  /**
   * `order_preserving_single_index_shift(arr, index, new_index)`: the four
   * branches of the source, in order; `arr[index]` raises IndexError when
   * index is out of range.
   */
  function IndexShift<T>(arr: seq<T>, index: int, newIndex: int): (r: Result<seq<T>, PyError>)
    ensures r.Ok? <==> -|arr| <= index < |arr|
    ensures r.Err? ==> r.error == IndexError
  {
    match PySeq.At(arr, index)
    case Err(e) => Err(e)
    case Ok(x) =>
      var n := |arr|;
      if newIndex == 0 then
        Ok([x] + PySeq.Slice(arr, 0, index) + PySeq.Slice(arr, index + 1, n))
      else if newIndex == n - 1 then
        Ok(PySeq.Slice(arr, 0, index) + PySeq.Slice(arr, index + 1, n) + [x])
      else if index < newIndex then
        Ok(PySeq.Slice(arr, 0, index) + PySeq.Slice(arr, index + 1, newIndex + 1) + [x] + PySeq.Slice(arr, newIndex + 1, n))
      else
        Ok(PySeq.Slice(arr, 0, newIndex) + [x] + PySeq.Slice(arr, newIndex, index) + PySeq.Slice(arr, index + 1, n))
  }

  /**
   * `order_preserving_single_element_shift(arr, value, new_index)`: shift
   * the first occurrence of value; `arr.index(value)` raises ValueError
   * when value is absent.
   */
  function ElementShift<T(==)>(arr: seq<T>, value: T, newIndex: int): (r: Result<seq<T>, PyError>)
    ensures r.Ok? <==> value in arr
    ensures r.Err? ==> r.error == ValueError
  {
    match PySeq.IndexOf(arr, value)
    case Err(e) => Err(e)
    case Ok(i) => IndexShift(arr, i, newIndex)
  }

  /** Removing one position keeps the others in order: a position before idx stays, one after moves down. */
  lemma AllButPositions<T>(s: seq<T>, idx: nat, j: nat)
    requires idx < |s| && j < |s| - 1
    ensures j < idx ==> AllBut(s, idx)[j] == s[j]
    ensures idx <= j ==> AllBut(s, idx)[j] == s[j + 1]
  {
  }

  /** Removing one position removes exactly that element from the multiset. */
  lemma AllButMultiset<T>(s: seq<T>, idx: nat)
    requires idx < |s|
    ensures multiset(AllBut(s, idx)) + multiset{s[idx]} == multiset(s)
  {
    assert s == s[..idx] + [s[idx]] + s[idx + 1..];
  }

  /**
   * r is arr with `arr[index]` moved to newIndex: same length, the element
   * at newIndex, and the others in their old order.
   */
  ghost predicate MovedTo<T>(arr: seq<T>, index: nat, newIndex: nat, r: seq<T>)
    requires index < |arr| && newIndex < |arr|
  {
    |r| == |arr| && r[newIndex] == arr[index] && AllBut(r, newIndex) == AllBut(arr, index)
  }

  /** Moving arr[index] later, to newIndex: the shape of the source's third branch. */
  lemma MoveLater<T>(arr: seq<T>, index: nat, newIndex: nat)
    requires index < newIndex < |arr|
    ensures MovedTo(arr, index, newIndex, arr[..index] + arr[index + 1..newIndex + 1] + [arr[index]] + arr[newIndex + 1..])
  {
    var a, b, c := arr[..index], arr[index + 1..newIndex + 1], arr[newIndex + 1..];
    var r := a + b + [arr[index]] + c;
    assert |a + b| == newIndex;
    assert r[..newIndex] == a + b && r[newIndex + 1..] == c;
    assert AllBut(r, newIndex) == a + b + c;
    assert arr[index + 1..] == b + c;
    assert AllBut(arr, index) == a + (b + c);
  }

  /** Moving arr[index] earlier (or keeping it), to newIndex: the shape of the source's fourth branch. */
  lemma MoveEarlier<T>(arr: seq<T>, index: nat, newIndex: nat)
    requires newIndex <= index < |arr|
    ensures MovedTo(arr, index, newIndex, arr[..newIndex] + [arr[index]] + arr[newIndex..index] + arr[index + 1..])
  {
    var r := arr[..newIndex] + [arr[index]] + arr[newIndex..index] + arr[index + 1..];
    EarlierSlices(arr, index, newIndex);
    assert AllBut(r, newIndex) == r[..newIndex] + r[newIndex + 1..];
  }

  /** The slices of a move earlier: around newIndex the result holds arr without position index. */
  lemma EarlierSlices<T>(arr: seq<T>, index: nat, newIndex: nat)
    requires newIndex <= index < |arr|
    ensures var r := arr[..newIndex] + [arr[index]] + arr[newIndex..index] + arr[index + 1..];
      |r| == |arr| && r[newIndex] == arr[index] && r[..newIndex] + r[newIndex + 1..] == arr[..index] + arr[index + 1..]
  {
    var a, b, c := arr[..newIndex], arr[newIndex..index], arr[index + 1..];
    var r := a + [arr[index]] + b + c;
    assert |a| == newIndex;
    assert r[..newIndex] == a && r[newIndex + 1..] == b + c;
    assert arr[..index] == a + b;
  }

  /** The first branch (new_index 0) is a move earlier. */
  lemma MoveToFront<T>(arr: seq<T>, index: nat)
    requires index < |arr|
    ensures MovedTo(arr, index, 0, [arr[index]] + arr[..index] + arr[index + 1..])
  {
    MoveEarlier(arr, index, 0);
    assert arr[..0] + [arr[index]] + arr[0..index] + arr[index + 1..] == [arr[index]] + arr[..index] + arr[index + 1..];
  }

  /** The second branch (new_index the last position) is a move later, or no move. */
  lemma MoveToBack<T>(arr: seq<T>, index: nat)
    requires index < |arr|
    ensures MovedTo(arr, index, |arr| - 1, arr[..index] + arr[index + 1..] + [arr[index]])
  {
    var n := |arr|;
    if index < n - 1 {
      MoveLater(arr, index, n - 1);
      assert arr[n..] == [];
      assert arr[index + 1..] == arr[index + 1..n];
      assert arr[..index] + arr[index + 1..n] + [arr[index]] + arr[n..] == arr[..index] + arr[index + 1..] + [arr[index]];
    } else {
      MoveEarlier(arr, index, n - 1);
      assert arr[index + 1..] == [] && arr[n - 1..index] == [];
      assert arr[..n - 1] + [arr[index]] + arr[n - 1..index] + arr[index + 1..] == arr[..index] + arr[index + 1..] + [arr[index]];
    }
  }

  /** In range, the shift is the source's branches on plain slices. */
  lemma IndexShiftInRange<T>(arr: seq<T>, index: nat, newIndex: nat)
    requires index < |arr| && newIndex < |arr|
    ensures IndexShift(arr, index, newIndex) == Ok(
      if newIndex == 0 then [arr[index]] + arr[..index] + arr[index + 1..]
      else if newIndex == |arr| - 1 then arr[..index] + arr[index + 1..] + [arr[index]]
      else if index < newIndex then arr[..index] + arr[index + 1..newIndex + 1] + [arr[index]] + arr[newIndex + 1..]
      else arr[..newIndex] + [arr[index]] + arr[newIndex..index] + arr[index + 1..])
  {
    var n := |arr|;
    assert PySeq.At(arr, index) == Ok(arr[index]);
    assert PySeq.Slice(arr, 0, index) == arr[..index];
    assert PySeq.Slice(arr, index + 1, n) == arr[index + 1..];
    if index < newIndex {
      assert PySeq.Slice(arr, index + 1, newIndex + 1) == arr[index + 1..newIndex + 1];
      assert PySeq.Slice(arr, newIndex + 1, n) == arr[newIndex + 1..];
    } else {
      assert PySeq.Slice(arr, 0, newIndex) == arr[..newIndex];
      assert PySeq.Slice(arr, newIndex, index) == arr[newIndex..index];
    }
  }

  /**
   * For in-range indices the shift keeps the length, puts `arr[index]` at
   * new_index, and deleting position new_index from the result gives
   * `all_but(arr, index)`: every other element keeps its relative order.
   */
  lemma IndexShiftMoves<T>(arr: seq<T>, index: nat, newIndex: nat)
    requires index < |arr| && newIndex < |arr|
    ensures IndexShift(arr, index, newIndex).Ok?
    ensures |IndexShift(arr, index, newIndex).value| == |arr|
    ensures IndexShift(arr, index, newIndex).value[newIndex] == arr[index]
    ensures AllBut(IndexShift(arr, index, newIndex).value, newIndex) == AllBut(arr, index)
  {
    IndexShiftInRange(arr, index, newIndex);
    if newIndex == 0 {
      MoveToFront(arr, index);
    } else if newIndex == |arr| - 1 {
      MoveToBack(arr, index);
    } else if index < newIndex {
      MoveLater(arr, index, newIndex);
    } else {
      MoveEarlier(arr, index, newIndex);
    }
  }

  /** The shift is a permutation: the multiset of elements is unchanged. */
  lemma IndexShiftPermutes<T>(arr: seq<T>, index: nat, newIndex: nat)
    requires index < |arr| && newIndex < |arr|
    ensures multiset(IndexShift(arr, index, newIndex).value) == multiset(arr)
  {
    IndexShiftMoves(arr, index, newIndex);
    var r := IndexShift(arr, index, newIndex).value;
    AllButMultiset(r, newIndex);
    AllButMultiset(arr, index);
  }

  /** Shifting an element to its own index returns the list unchanged, in every branch. */
  lemma IndexShiftToSameIndex<T>(arr: seq<T>, index: nat)
    requires index < |arr|
    ensures IndexShift(arr, index, index) == Ok(arr)
  {
    IndexShiftMoves(arr, index, index);
    MovedInPlace(arr, index, IndexShift(arr, index, index).value);
  }

  /** A list with `arr[i]` at i and the other elements in their old order is arr. */
  lemma MovedInPlace<T>(arr: seq<T>, i: nat, r: seq<T>)
    requires i < |arr| && MovedTo(arr, i, i, r)
    ensures r == arr
  {
    forall j | 0 <= j < |arr| ensures r[j] == arr[j] {
      if j < i {
        AllButPositions(r, i, j);
        AllButPositions(arr, i, j);
      } else if i < j {
        AllButPositions(r, i, j - 1);
        AllButPositions(arr, i, j - 1);
      }
    }
  }

  /** The element shift moves the first occurrence of value, as the index shift does. */
  lemma ElementShiftMovesFirstOccurrence<T>(arr: seq<T>, value: T, newIndex: nat)
    requires value in arr && newIndex < |arr|
    ensures PySeq.IndexOf(arr, value).Ok?
    ensures var i := PySeq.IndexOf(arr, value).value;
      arr[i] == value && value !in arr[..i] &&
      ElementShift(arr, value, newIndex) == IndexShift(arr, i, newIndex)
    ensures ElementShift(arr, value, newIndex).value[newIndex] == value
    ensures multiset(ElementShift(arr, value, newIndex).value) == multiset(arr)
  {
    var i := PySeq.IndexOf(arr, value).value;
    IndexShiftMoves(arr, i, newIndex);
    IndexShiftPermutes(arr, i, newIndex);
  }

  /** The documented examples. */
  lemma DocumentedExamples()
    ensures AllBut([12, 34, 5, 54], 2) == [12, 34, 54]
    ensures AllBut([12, 34, 5, 54], 0) == [34, 5, 54]
    ensures AllBut([12, 34, 5, 54], 3) == [12, 34, 5]
    ensures IndexShift(['a', 'b', 'c', 'd'], 2, 0) == Ok(['c', 'a', 'b', 'd'])
    ensures IndexShift(['a', 'b', 'c', 'd'], 2, 3) == Ok(['a', 'b', 'd', 'c'])
    ensures ElementShift(['a', 'b', 'c', 'd'], 'c', 0) == Ok(['c', 'a', 'b', 'd'])
  {
    var arr := ['a', 'b', 'c', 'd'];
    assert PySeq.Slice(arr, 0, 2) == ['a', 'b'];
    assert PySeq.Slice(arr, 3, 4) == ['d'];
    assert PySeq.Slice(arr, 3, 3) == [];
    assert PySeq.Slice(arr, 4, 4) == [];
    assert PySeq.At(arr, 2) == Ok('c');
    assert IndexShift(arr, 2, 0) == Ok(['c'] + ['a', 'b'] + ['d']);
    assert IndexShift(arr, 2, 3) == Ok(['a', 'b'] + ['d'] + ['c']);
    assert ['c'] + ['a', 'b'] + ['d'] == ['c', 'a', 'b', 'd'];
    assert ['a', 'b'] + ['d'] + ['c'] == ['a', 'b', 'd', 'c'];
    assert PySeq.IndexOf(arr, 'c') == Ok(2) by {
      assert arr[1..][1..] == ['c', 'd'];
    }
  }

  /**
   * A negative index is accepted by `arr[index]` but not re-based in the
   * slices: `index == -1` keeps every element in `arr[index+1:]`, so the
   * result repeats the list.
   */
  lemma NegativeIndexRepeats<T>(arr: seq<T>)
    requires |arr| >= 1
    ensures AllBut(arr, -1) == arr[..|arr| - 1] + arr
    ensures IndexShift(arr, -1, 0) == Ok([arr[|arr| - 1]] + arr[..|arr| - 1] + arr)
  {
    assert PySeq.Slice(arr, 0, -1) == arr[..|arr| - 1];
    assert PySeq.Slice(arr, 0, |arr|) == arr;
  }
}
