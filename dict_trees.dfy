/**
 * Nested dicts seen as trees whose leaves are the non-dict values
 * (strct/dicts/_dict.py): `key_tuple_value_nested_generator` lists the
 * leaves with their key paths, and `deep_merge_dict` merges two trees.
 */
module DictTrees {
  import opened Wrappers
  import opened PyValue
  import opened NestedDicts

  /**
   * `path` leads from the dict `d` through nested dicts, one key per level,
   * to the non-dict value `x`.
   */
  predicate DictPathTo(d: Value, path: seq<Value>, x: Value)
    decreases |path|
  {
    |path| >= 1 && d.Dict? && path[0] in d.entries &&
    if |path| == 1 then !d.entries[path[0]].Dict? && x == d.entries[path[0]]
    else DictPathTo(d.entries[path[0]], path[1..], x)
  }

  /** On a well-formed dict, `get_nested_val` follows such a path to its leaf. */
  lemma {:induction false} DictPathIsNestedVal(d: Value, path: seq<Value>, x: Value)
    requires ValidKeys(d) && DictPathTo(d, path, x)
    ensures GetNestedVal(path, d) == Ok(x)
    decreases |path|
  {
    var v := d.entries[path[0]];
    assert Hashable(path[0]) && ValidKeys(v);
    if |path| > 1 {
      DictPathIsNestedVal(v, path[1..], x);
    }
  }

  /**
   * `key_tuple_value_nested_generator(dict_obj)`: the pairs it yields, as a
   * set (the generator's order is the dict's iteration order). A dict value
   * is descended into, with its key prepended to every key tuple below it;
   * any other value is yielded with the one-key tuple.
   */
  function KeyTupleValues(d: Value): (r: set<(seq<Value>, Value)>)
    ensures forall e | e in r :: |e.0| >= 1 && d.Dict? && e.0[0] in d.entries && !e.1.Dict?
    decreases d, 1
  {
    if !d.Dict? then {}
    else set k, e | k in d.entries && e in YieldedFor(d, k) :: e
  }

  /** What the generator yields for the key `k` of `d`. */
  function YieldedFor(d: Value, k: Value): (r: set<(seq<Value>, Value)>)
    requires d.Dict? && k in d.entries
    ensures forall e | e in r :: |e.0| >= 1 && e.0[0] == k && !e.1.Dict?
    decreases d, 0
  {
    var v := d.entries[k];
    if v.Dict? then set e | e in KeyTupleValues(v) :: ([k] + e.0, e.1)
    else {([k], v)}
  }

  /** The generator yields exactly the key paths to the leaves of the tree. */
  lemma {:induction false} KeyTupleValuesArePaths(d: Value, path: seq<Value>, x: Value)
    ensures (path, x) in KeyTupleValues(d) <==> DictPathTo(d, path, x)
    decreases d
  {
    if (path, x) in KeyTupleValues(d) {
      var k :| k in d.entries && (path, x) in YieldedFor(d, k);
      var v := d.entries[k];
      if v.Dict? {
        var e :| e in KeyTupleValues(v) && (path, x) == ([k] + e.0, e.1);
        KeyTupleValuesArePaths(v, e.0, x);
        assert path[1..] == e.0;
      }
    }
    if DictPathTo(d, path, x) {
      var k := path[0];
      var v := d.entries[k];
      if |path| > 1 {
        KeyTupleValuesArePaths(v, path[1..], x);
        assert [k] + path[1..] == path;
        assert (path, x) in YieldedFor(d, k);
      } else {
        assert path == [k];
        assert (path, x) in YieldedFor(d, k);
      }
    }
  }

  /** Every pair yielded is a path `get_nested_val` follows to a non-dict value. */
  lemma KeyTupleValuesAreNestedVals(d: Value)
    requires ValidKeys(d)
    ensures forall e | e in KeyTupleValues(d) :: |e.0| >= 1 && !e.1.Dict? && GetNestedVal(e.0, d) == Ok(e.1)
  {
    forall e | e in KeyTupleValues(d)
      ensures |e.0| >= 1 && !e.1.Dict? && GetNestedVal(e.0, d) == Ok(e.1)
    {
      KeyTupleValuesArePaths(d, e.0, e.1);
      DictPathIsNestedVal(d, e.0, e.1);
      LeafIsNotDict(d, e.0, e.1);
    }
  }

  lemma {:induction false} LeafIsNotDict(d: Value, path: seq<Value>, x: Value)
    requires DictPathTo(d, path, x)
    ensures !x.Dict?
    decreases |path|
  {
    if |path| > 1 {
      LeafIsNotDict(d.entries[path[0]], path[1..], x);
    }
  }

  /**
   * `deep_merge_dict(base, priority)`: `priority` when either is not a dict;
   * otherwise a copy of `base` in which each key of `priority` is set to the
   * merge of the two values when `base` has the key, and to the value in
   * `priority` when it does not.
   */
  function DeepMerge(base: Value, priority: Value): (r: Value)
    ensures !base.Dict? || !priority.Dict? ==> r == priority
    ensures base.Dict? && priority.Dict? ==>
      r.Dict? && r.entries.Keys == base.entries.Keys + priority.entries.Keys
    ensures base.Dict? && priority.Dict? ==>
      forall k | k in base.entries && k !in priority.entries :: r.entries[k] == base.entries[k]
    ensures base.Dict? && priority.Dict? ==>
      forall k | k in priority.entries && k !in base.entries :: r.entries[k] == priority.entries[k]
    ensures base.Dict? && priority.Dict? ==>
      forall k | k in base.entries && k in priority.entries ::
        r.entries[k] == DeepMerge(base.entries[k], priority.entries[k])
    decreases priority
  {
    if !base.Dict? || !priority.Dict? then priority
    else
      var b, p := base.entries, priority.entries;
      Dict(map k | k in b.Keys + p.Keys ::
        if k in p then (if k in b then DeepMerge(b[k], p[k]) else p[k]) else b[k])
  }

  /** Every leaf of `priority` is a leaf of the merge, at the same path. */
  lemma {:induction false} DeepMergeKeepsPriorityLeaves(base: Value, priority: Value, path: seq<Value>, x: Value)
    requires DictPathTo(priority, path, x)
    ensures DictPathTo(DeepMerge(base, priority), path, x)
    decreases |path|
  {
    if base.Dict? {
      var k := path[0];
      var r := DeepMerge(base, priority);
      var pv := priority.entries[k];
      if k in base.entries {
        assert r.entries[k] == DeepMerge(base.entries[k], pv);
        if |path| > 1 {
          DeepMergeKeepsPriorityLeaves(base.entries[k], pv, path[1..], x);
        }
      } else {
        assert r.entries[k] == pv;
      }
    }
  }

  /** No key of `path` meets a leaf of `priority` (the path leaves `priority`, or runs through its dicts). */
  predicate Unshadowed(priority: Value, path: seq<Value>)
    decreases |path|
  {
    priority.Dict? && |path| >= 1 &&
    (path[0] !in priority.entries || (|path| > 1 && Unshadowed(priority.entries[path[0]], path[1..])))
  }

  /** A leaf of `base` survives the merge unless `priority` has a leaf on its path. */
  lemma {:induction false} DeepMergeKeepsUnshadowedBaseLeaves(base: Value, priority: Value, path: seq<Value>, x: Value)
    requires DictPathTo(base, path, x) && Unshadowed(priority, path)
    ensures DictPathTo(DeepMerge(base, priority), path, x)
    decreases |path|
  {
    var k := path[0];
    var r := DeepMerge(base, priority);
    if k !in priority.entries {
      assert r.entries[k] == base.entries[k];
    } else {
      assert r.entries[k] == DeepMerge(base.entries[k], priority.entries[k]);
      DeepMergeKeepsUnshadowedBaseLeaves(base.entries[k], priority.entries[k], path[1..], x);
    }
  }

  /**
   * Nothing else reaches the merge: each of its leaves is a leaf of
   * `priority`, or a leaf of `base` that `priority` does not shadow.
   */
  lemma {:induction false} DeepMergeLeafOrigin(base: Value, priority: Value, path: seq<Value>, x: Value)
    requires DictPathTo(DeepMerge(base, priority), path, x)
    ensures DictPathTo(priority, path, x) || (DictPathTo(base, path, x) && Unshadowed(priority, path))
    decreases |path|
  {
    if base.Dict? && priority.Dict? {
      var k := path[0];
      var r := DeepMerge(base, priority);
      if k in base.entries && k in priority.entries {
        var b, p := base.entries[k], priority.entries[k];
        assert r.entries[k] == DeepMerge(b, p);
        if |path| > 1 {
          DeepMergeLeafOrigin(b, p, path[1..], x);
        }
      }
    }
  }

  /** Merging a dict with itself gives it back. */
  lemma {:induction false} DeepMergeSelf(d: Value)
    ensures DeepMerge(d, d) == d
    decreases d
  {
    if d.Dict? {
      forall k | k in d.entries ensures DeepMerge(d.entries[k], d.entries[k]) == d.entries[k] {
        DeepMergeSelf(d.entries[k]);
      }
      assert DeepMerge(d, d).entries == d.entries;
    }
  }

  /** The documented example of `key_tuple_value_nested_generator`. */
  lemma KeyTupleValuesExample()
    ensures KeyTupleValues(Dict(map[Str("a") := Int(1), Str("b") := Dict(map[Str("c") := Int(3), Str("d") := Int(4)])])) ==
      {([Str("a")], Int(1)), ([Str("b"), Str("c")], Int(3)), ([Str("b"), Str("d")], Int(4))}
  {
    var inner := Dict(map[Str("c") := Int(3), Str("d") := Int(4)]);
    var d := Dict(map[Str("a") := Int(1), Str("b") := inner]);
    assert YieldedFor(inner, Str("c")) == {([Str("c")], Int(3))};
    assert YieldedFor(inner, Str("d")) == {([Str("d")], Int(4))};
    assert KeyTupleValues(inner) == {([Str("c")], Int(3)), ([Str("d")], Int(4))};
    assert [Str("b")] + [Str("c")] == [Str("b"), Str("c")];
    assert [Str("b")] + [Str("d")] == [Str("b"), Str("d")];
    assert YieldedFor(d, Str("b")) == {([Str("b"), Str("c")], Int(3)), ([Str("b"), Str("d")], Int(4))};
    assert YieldedFor(d, Str("a")) == {([Str("a")], Int(1))};
  }
}
