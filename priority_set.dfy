/** The first element of a priority list that a set holds (strct/set.py). */
module PrioritySet {
  import opened Wrappers

  /** priority[i] is in the set and no earlier entry of priority is. */
  predicate FirstInSetAt<T>(objSet: set<T>, priority: seq<T>, i: int)
  {
    0 <= i < |priority| && priority[i] in objSet &&
    forall j | 0 <= j < i :: priority[j] !in objSet
  }

  /**
   * `get_priority_elem_in_set(obj_set, priority_list)`: scan priority_list
   * in order and return the first element found in obj_set, or None.
   */
  function GetPriorityElemInSet<T>(objSet: set<T>, priority: seq<T>): (r: Option<T>)
    ensures r.None? <==> forall x | x in priority :: x !in objSet
    ensures r.Some? ==> exists i :: FirstInSetAt(objSet, priority, i) && priority[i] == r.value
  {
    if |priority| == 0 then None
    else if priority[0] in objSet then
      assert FirstInSetAt(objSet, priority, 0);
      Some(priority[0])
    else
      var r := GetPriorityElemInSet(objSet, priority[1..]);
      if r.Some? then
        var i :| FirstInSetAt(objSet, priority[1..], i) && priority[1..][i] == r.value;
        assert FirstInSetAt(objSet, priority, i + 1);
        r
      else
        assert forall x | x in priority :: x == priority[0] || x in priority[1..];
        r
  }

  /** A found element is in both the set and the list, and it is the only first match. */
  lemma {:induction false} FoundIsFirstMatch<T>(objSet: set<T>, priority: seq<T>, i: int)
    requires FirstInSetAt(objSet, priority, i)
    ensures GetPriorityElemInSet(objSet, priority) == Some(priority[i])
    ensures priority[i] in objSet && priority[i] in priority
    decreases |priority|
  {
    if i > 0 {
      assert priority[0] !in objSet;
      assert FirstInSetAt(objSet, priority[1..], i - 1);
      FoundIsFirstMatch(objSet, priority[1..], i - 1);
    }
  }

  /** The documented example: `[4, 8, 1, 3]` against `{3, 2, 7, 8}` gives 8. */
  lemma DocumentedExample()
    ensures GetPriorityElemInSet({3, 2, 7, 8}, [4, 8, 1, 3]) == Some(8)
  {
    FoundIsFirstMatch({3, 2, 7, 8}, [4, 8, 1, 3], 1);
  }
}
