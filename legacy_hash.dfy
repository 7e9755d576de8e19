/**
 * The legacy, kernel-dependent hashes built on Python's own `hash`:
 * `hash_dict` (strct/dict/_dict.py) and `hash_list` (strct/list/_list.py).
 */
module LegacyHash {
  import opened Wrappers
  import opened PyValue
  import opened Iteration

  /**
   * The hash of item `(k, d.entries[k])`: `hash(item)` when the value is
   * hashable; otherwise, for a dict value, `hash((k, hash_dict(value)))`;
   * for any other unhashable value the `AttributeError` of `.items()` turns
   * into ValueError.
   */
  function ItemHash(h: Builtins, d: Value, k: Value): (r: Result<int, PyError>)
    requires d.Dict? && k in d.entries && ValidKeys(d)
    ensures r.Err? ==> r.error == ValueError
    decreases d, 0
  {
    var v := d.entries[k];
    if Hashable(v) then Ok(h.hash(Tuple([k, v])))
    else if v.Dict? then
      match DictHash(h, v)
      case Ok(inner) => Ok(h.hash(Tuple([k, Int(inner)])))
      case Err(e) => Err(e)
    else Err(ValueError)
  }

  /** Every item of the dict hashes. */
  predicate ItemsHash(h: Builtins, d: Value)
    requires d.Dict? && ValidKeys(d)
    decreases d, 1
  {
    forall k | k in d.entries :: ItemHash(h, d, k).Ok?
  }

  /** `hash_dict(dict_obj)` as a value: the hash of the frozenset of the item hashes. */
  function DictHash(h: Builtins, d: Value): (r: Result<int, PyError>)
    requires d.Dict? && ValidKeys(d)
    ensures r.Err? ==> r.error == ValueError
    decreases d, 2
  {
    if ItemsHash(h, d) then Ok(HashOfHashes(h, set k | k in d.entries :: ItemHash(h, d, k).value))
    else Err(ValueError)
  }

  /**
   * `hash_dict`, with its loop over `dict_obj.items()` in an arbitrary
   * order; the result does not depend on that order.
   */
  method HashDict(h: Builtins, d: Value) returns (r: Result<int, PyError>)
    requires d.Dict? && ValidKeys(d)
    ensures r == DictHash(h, d)
    decreases d
  {
    var m := d.entries;
    var itemHashes: seq<int> := [];
    var remaining := m.Keys;
    while remaining != {}
      invariant remaining <= m.Keys
      invariant forall k | k in m.Keys - remaining :: ItemHash(h, d, k).Ok?
      invariant forall x :: x in itemHashes <==> exists k | k in m.Keys - remaining :: x == ItemHash(h, d, k).value
      decreases remaining
    {
      var k := Pick(remaining);
      var v := m[k];
      var itemHash: int;
      if Hashable(v) {
        itemHash := h.hash(Tuple([k, v]));
      } else if v.Dict? {
        var inner := HashDict(h, v);
        if inner.Err? {
          assert !ItemsHash(h, d) by { assert ItemHash(h, d, k).Err?; }
          return Err(inner.error);
        }
        itemHash := h.hash(Tuple([k, Int(inner.value)]));
      } else {
        assert !ItemsHash(h, d) by { assert ItemHash(h, d, k).Err?; }
        return Err(ValueError);
      }
      assert ItemHash(h, d, k) == Ok(itemHash);
      itemHashes := itemHashes + [itemHash];
      ghost var done := m.Keys - remaining;
      remaining := remaining - {k};
      assert m.Keys - remaining == done + {k};
    }
    assert m.Keys - remaining == m.Keys;
    var all := set k | k in m :: ItemHash(h, d, k).value;
    assert (set x | x in itemHashes) == all by {
      forall y | y in all ensures y in itemHashes {
        var k :| k in m && y == ItemHash(h, d, k).value;
        assert k in m.Keys - remaining;
      }
      forall y | y in itemHashes ensures y in all {
        var k :| k in m.Keys - remaining && y == ItemHash(h, d, k).value;
      }
    }
    r := Ok(HashOfHashes(h, set x | x in itemHashes));
  }

  /** The values `hash_dict` accepts: hashable ones, and dicts of accepted values. */
  predicate NestedHashable(v: Value)
  {
    Hashable(v) || (v.Dict? && forall k | k in v.entries :: NestedHashable(v.entries[k]))
  }

  /**
   * `hash_dict` succeeds exactly when every value, at every depth, is
   * hashable or a dict; otherwise it raises ValueError.
   */
  lemma {:induction false} DictHashOkIff(h: Builtins, d: Value)
    requires d.Dict? && ValidKeys(d)
    ensures DictHash(h, d).Ok? <==> NestedHashable(d)
    ensures DictHash(h, d).Err? ==> DictHash(h, d).error == ValueError
    decreases d
  {
    forall k | k in d.entries
      ensures ItemHash(h, d, k).Ok? <==> NestedHashable(d.entries[k])
      ensures ItemHash(h, d, k).Err? ==> ItemHash(h, d, k).error == ValueError
    {
      var v := d.entries[k];
      if !Hashable(v) && v.Dict? {
        DictHashOkIff(h, v);
      }
    }
    assert !Hashable(d);
  }

  /** A list value anywhere in the top level makes `hash_dict` raise ValueError. */
  lemma ListValueRaises(h: Builtins, d: Value, k: Value)
    requires d.Dict? && ValidKeys(d) && k in d.entries && d.entries[k].List?
    ensures DictHash(h, d) == Err(ValueError)
  {
    assert !ItemHash(h, d, k).Ok?;
  }

  /**
   * An item whose value is a dict is hashed as `(key, hash_dict(value))`:
   * replacing the nested dict by its hash leaves the hash unchanged.
   */
  lemma NestedDictHashedAsPair(h: Builtins, d: Value, k: Value)
    requires d.Dict? && ValidKeys(d) && k in d.entries
    requires d.entries[k].Dict? && DictHash(h, d.entries[k]).Ok?
    ensures ValidKeys(Dict(d.entries[k := Int(DictHash(h, d.entries[k]).value)]))
    ensures DictHash(h, d) == DictHash(h, Dict(d.entries[k := Int(DictHash(h, d.entries[k]).value)]))
  {
    var e := Dict(d.entries[k := Int(DictHash(h, d.entries[k]).value)]);
    assert ValidKeys(e);
    assert !Hashable(d.entries[k]);
    forall j | j in d.entries ensures ItemHash(h, d, j) == ItemHash(h, e, j) {
    }
    assert ItemsHash(h, d) <==> ItemsHash(h, e);
    if ItemsHash(h, d) {
      assert (set j | j in d.entries :: ItemHash(h, d, j).value) == (set j | j in e.entries :: ItemHash(h, e, j).value);
    }
  }

  /** `hash_list(list_obj)`: `hash(frozenset(list_obj))`, TypeError on an unhashable element. */
  function HashList(h: Builtins, xs: seq<Value>): (r: Result<int, PyError>)
    ensures r.Ok? <==> forall x | x in xs :: Hashable(x)
    ensures r.Err? ==> r.error == TypeError
  {
    if forall x | x in xs :: Hashable(x) then Ok(h.hashFrozenset(set x | x in xs)) else Err(TypeError)
  }

  /** `hash_list` depends only on the set of elements: order and repetitions do not matter. */
  lemma HashListDependsOnElementSet(h: Builtins, xs: seq<Value>, ys: seq<Value>)
    requires forall x :: x in xs <==> x in ys
    ensures HashList(h, xs) == HashList(h, ys)
  {
    assert (set x | x in xs) == (set x | x in ys);
  }

  /** Reordering and duplicating elements: the documented consequences for `hash_list`. */
  lemma HashListIgnoresOrderAndDuplicates(h: Builtins, xs: seq<Value>, ys: seq<Value>, i: nat)
    requires multiset(xs) == multiset(ys)
    requires i < |xs|
    ensures HashList(h, xs) == HashList(h, ys)
    ensures HashList(h, xs + [xs[i]]) == HashList(h, xs)
  {
    forall x ensures x in xs <==> x in ys {
      assert x in xs <==> x in multiset(xs);
      assert x in ys <==> x in multiset(ys);
    }
    HashListDependsOnElementSet(h, xs, ys);
    HashListDependsOnElementSet(h, xs + [xs[i]], xs);
  }
}
