/**
 * The in-place dict mutators of strct/dicts/_dict.py (the legacy
 * strct/dict/_dict.py has the same bodies): `increment_dict_val`,
 * `add_to_dict_val_set`, `add_many_to_dict_val_set`,
 * `add_many_to_dict_val_list`. Each changes the entry at one key and
 * nothing else.
 */
module DictMutators {

  /** A Python dict that callers share and that these functions update in place. */
  class PyDict<K(==), V> {
    var entries: map<K, V>

    constructor (entries: map<K, V>)
      ensures this.entries == entries
    {
      this.entries := entries;
    }
  }

  /** `m.get(k, default)`. */
  function GetOr<K, V>(m: map<K, V>, k: K, default: V): V
  {
    if k in m then m[k] else default
  }

  /** True when m2 equals m1 except, possibly, at key. */
  ghost predicate SameExceptAt<K, V>(m1: map<K, V>, m2: map<K, V>, key: K)
  {
    (forall k | k in m1 && k != key :: k in m2 && m1[k] == m2[k]) &&
    (forall k | k in m2 && k != key :: k in m1)
  }

  /** The dict after `increment_dict_val(dict_obj, key, val)`: `get(key, 0) + val` at key. */
  function Incremented<K>(m: map<K, int>, key: K, val: int): (r: map<K, int>)
    ensures key in r && SameExceptAt(m, r, key)
    ensures key in m ==> r[key] == m[key] + val
    ensures key !in m ==> r[key] == val
  {
    m[key := GetOr(m, key, 0) + val]
  }

  /** `increment_dict_val(dict_obj, key, val)`. */
  method IncrementDictVal<K>(d: PyDict<K, int>, key: K, val: int)
    modifies d
    ensures d.entries == Incremented(old(d.entries), key, val)
  {
    d.entries := d.entries[key := GetOr(d.entries, key, 0) + val];
  }

  /** Two increments of the same key add up. */
  lemma IncrementsAddUp<K>(m: map<K, int>, key: K, a: int, b: int)
    ensures Incremented(Incremented(m, key, a), key, b) == Incremented(m, key, a + b)
  {
  }

  /** The dict after incrementing by 1 once for each element of xs, in order. */
  function CountAll<K>(m: map<K, int>, xs: seq<K>): map<K, int>
    decreases |xs|
  {
    if |xs| == 0 then m else CountAll(Incremented(m, xs[0], 1), xs[1..])
  }

  /**
   * Counting with `increment_dict_val` starting from an empty dict gives the
   * multiplicity of each element: a key is present exactly when it occurs.
   */
  lemma {:induction false} CountAllIsMultiplicity<K>(m: map<K, int>, xs: seq<K>)
    ensures forall k :: k in CountAll(m, xs) <==> k in m || k in xs
    ensures forall k | k in CountAll(m, xs) :: CountAll(m, xs)[k] == GetOr(m, k, 0) + multiset(xs)[k]
    decreases |xs|
  {
    if |xs| > 0 {
      CountAllIsMultiplicity(Incremented(m, xs[0], 1), xs[1..]);
      assert xs == [xs[0]] + xs[1..];
      assert multiset(xs) == multiset{xs[0]} + multiset(xs[1..]);
      forall k ensures k in xs <==> k == xs[0] || k in xs[1..] {
      }
    }
  }

  /** The dict after `add_to_dict_val_set(dict_obj, key, val)`. */
  function AddedToSet<K, T>(m: map<K, set<T>>, key: K, val: T): (r: map<K, set<T>>)
    ensures key in r && SameExceptAt(m, r, key)
    ensures r[key] == GetOr(m, key, {}) + {val}
  {
    m[key := GetOr(m, key, {}) + {val}]
  }

  /** `add_to_dict_val_set(dict_obj, key, val)`: add to the set at key, creating `{val}` if absent. */
  method AddToDictValSet<K, T>(d: PyDict<K, set<T>>, key: K, val: T)
    modifies d
    ensures d.entries == AddedToSet(old(d.entries), key, val)
  {
    if key in d.entries {
      d.entries := d.entries[key := d.entries[key] + {val}];
    } else {
      assert GetOr(d.entries, key, {}) + {val} == {val};
      d.entries := d.entries[key := {val}];
    }
  }

  /** The dict after `add_many_to_dict_val_set(dict_obj, key, val_list)`. */
  function AddedManyToSet<K, T>(m: map<K, set<T>>, key: K, vals: seq<T>): (r: map<K, set<T>>)
    ensures key in r && SameExceptAt(m, r, key)
    ensures GetOr(m, key, {}) <= r[key]
    ensures forall x | x in vals :: x in r[key]
    ensures forall x | x in r[key] :: x in GetOr(m, key, {}) || x in vals
  {
    m[key := GetOr(m, key, {}) + set x | x in vals]
  }

  /** `add_many_to_dict_val_set(dict_obj, key, val_list)`: `update` the set at key, or create `set(val_list)`. */
  method AddManyToDictValSet<K, T>(d: PyDict<K, set<T>>, key: K, vals: seq<T>)
    modifies d
    ensures d.entries == AddedManyToSet(old(d.entries), key, vals)
  {
    if key in d.entries {
      d.entries := d.entries[key := d.entries[key] + set x | x in vals];
    } else {
      assert GetOr(d.entries, key, {}) + (set x | x in vals) == set x | x in vals;
      d.entries := d.entries[key := set x | x in vals];
    }
  }

  /** Adding many values at once is adding them one by one. */
  lemma {:induction false} AddManyIsRepeatedAdd<K, T>(m: map<K, set<T>>, key: K, vals: seq<T>)
    requires |vals| > 0
    ensures AddedManyToSet(m, key, vals) == AddedManyToSet(AddedToSet(m, key, vals[0]), key, vals[1..])
  {
    var before := GetOr(m, key, {});
    assert (set x | x in vals) == {vals[0]} + set x | x in vals[1..];
    assert GetOr(AddedToSet(m, key, vals[0]), key, {}) == before + {vals[0]};
    assert before + (set x | x in vals) == (before + {vals[0]}) + set x | x in vals[1..];
  }

  /** The dict after `add_many_to_dict_val_list(dict_obj, key, val_list)`. */
  function ExtendedList<K, T>(m: map<K, seq<T>>, key: K, vals: seq<T>): (r: map<K, seq<T>>)
    ensures key in r && SameExceptAt(m, r, key)
    ensures |r[key]| == |GetOr(m, key, [])| + |vals|
    ensures r[key][..|GetOr(m, key, [])|] == GetOr(m, key, []) && r[key][|GetOr(m, key, [])|..] == vals
  {
    m[key := GetOr(m, key, []) + vals]
  }

  /** `add_many_to_dict_val_list(dict_obj, key, val_list)`: `extend` the list at key, or create `list(val_list)`. */
  method AddManyToDictValList<K, T>(d: PyDict<K, seq<T>>, key: K, vals: seq<T>)
    modifies d
    ensures d.entries == ExtendedList(old(d.entries), key, vals)
  {
    if key in d.entries {
      d.entries := d.entries[key := d.entries[key] + vals];
    } else {
      d.entries := d.entries[key := vals];
    }
  }

  /** Extending twice is extending once by the concatenation, keeping order. */
  lemma ExtendsCompose<K, T>(m: map<K, seq<T>>, key: K, xs: seq<T>, ys: seq<T>)
    ensures ExtendedList(ExtendedList(m, key, xs), key, ys) == ExtendedList(m, key, xs + ys)
  {
    assert GetOr(m, key, []) + xs + ys == GetOr(m, key, []) + (xs + ys);
  }

  /** The documented examples of `increment_dict_val`. */
  method IncrementExamples()
  {
    var counts := new PyDict(map["a" := 2, "b" := 1]);
    IncrementDictVal(counts, "a", 4);
    assert counts.entries["a"] == 6;
    IncrementDictVal(counts, "d", 4);
    assert counts.entries["d"] == 4;
  }

  /** The documented examples of `add_to_dict_val_set` and `add_many_to_dict_val_set`. */
  method SetExamples()
  {
    var sets := new PyDict(map["a" := {1, 2}]);
    AddToDictValSet(sets, "a", 2);
    assert sets.entries["a"] == {1, 2};
    AddToDictValSet(sets, "a", 3);
    assert sets.entries["a"] == {1, 2, 3};
    AddManyToDictValSet(sets, "b", [2, 3]);
    assert sets.entries["b"] == {2, 3};
  }

  /** The documented examples of `add_many_to_dict_val_list`. */
  method ListExamples()
  {
    var lists := new PyDict(map["a" := [1, 2]]);
    AddManyToDictValList(lists, "a", [2, 3]);
    assert lists.entries["a"] == [1, 2, 2, 3];
    AddManyToDictValList(lists, "b", [2, 3]);
    assert lists.entries["b"] == [2, 3];
  }
}
