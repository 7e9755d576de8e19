/**
 * Reversing dicts (strct/dicts/_dict.py; the legacy strct/dict/_dict.py has
 * the same `reverse_dict`): `reverse_dict`, `reverse_dict_partial`,
 * `reverse_list_valued_dict`. Each loops over the input in iteration order,
 * which a map does not have; the loops here pick keys in any order.
 */
module DictReverse {
  import opened DictMutators
  import opened Iteration

  predicate StrictlyAscending(s: seq<int>)
  {
    forall i, j | 0 <= i < j < |s| :: s[i] < s[j]
  }

  /** A key at which a dict holds a given value. */
  lemma KeyOf<K, V>(d: map<K, V>, v: V) returns (k: K)
    requires v in d.Values
    ensures k in d && d[k] == v
  {
    k :| k in d && d[k] == v;
  }

  /** A non-empty set split into one of its elements and the others. */
  lemma TakeOne<T>(s: set<T>) returns (x: T, rest: set<T>)
    requires s != {}
    ensures x in s && x !in rest && s == rest + {x}
  {
    x :| x in s;
    rest := s - {x};
  }

  predicate IsMin(s: set<int>, m: int)
  {
    m in s && forall y | y in s :: m <= y
  }

  /** Every non-empty finite set of ints has a least element. */
  lemma {:induction false} MinExists(s: set<int>)
    requires s != {}
    ensures exists m :: IsMin(s, m)
    decreases s
  {
    var x, t := TakeOne(s);
    if t == {} {
      forall y | y in s ensures x <= y {
        assert y == x || y in t;
      }
      assert IsMin(s, x);
    } else {
      MinExists(t);
      var m :| IsMin(t, m);
      var w := if x < m then x else m;
      forall y | y in s ensures w <= y {
        assert y == x || y in t;
      }
      assert IsMin(s, w);
    }
  }

  /** `sorted(keys)` of a set of ints: its elements, each once, in ascending order. */
  function SortedSet(s: set<int>): (r: seq<int>)
    ensures StrictlyAscending(r)
    ensures forall k :: k in r <==> k in s
    ensures |r| == |s|
    decreases s
  {
    if s == {} then []
    else
      MinExists(s);
      var m :| IsMin(s, m);
      var rest := SortedSet(s - {m});
      assert forall j | 0 <= j < |rest| :: m < rest[j] by {
        forall j | 0 <= j < |rest| ensures m < rest[j] { assert rest[j] in rest; }
      }
      [m] + rest
  }

  /** The keys of `d` that map to `v`. */
  function KeysOf<V(==)>(d: map<int, V>, v: V): set<int>
  {
    set k | k in d && d[k] == v
  }

  /** What `reverse_dict` returns: each value with the sorted list of its keys. */
  function Reversed<V(==)>(d: map<int, V>): (r: map<V, seq<int>>)
    ensures r.Keys == d.Values
    ensures forall v | v in r :: |r[v]| == |KeysOf(d, v)|
  {
    map v | v in d.Values :: SortedSet(KeysOf(d, v))
  }

  /**
   * The reversed dict has exactly the values of `d` as keys, and each maps
   * to the ascending list of exactly the keys that map to it.
   */
  lemma ReversedIsInverse<V>(d: map<int, V>)
    ensures Reversed(d).Keys == d.Values
    ensures forall v | v in Reversed(d) :: StrictlyAscending(Reversed(d)[v])
    ensures forall v, k | v in Reversed(d) :: k in Reversed(d)[v] <==> k in d && d[k] == v
  {
    var r := Reversed(d);
    forall v | v in r
      ensures StrictlyAscending(r[v]) && forall k :: k in r[v] <==> k in d && d[k] == v
    {
      var keys := KeysOf(d, v);
      assert r[v] == SortedSet(keys);
      assert forall k :: k in keys <==> k in d && d[k] == v;
    }
  }

  /** The dict of sets built by `add_to_dict_val_set` after visiting the keys `ks`. */
  ghost function Grouped<V>(d: map<int, V>, ks: set<int>): map<V, set<int>>
    requires ks <= d.Keys
  {
    map v | v in ValuesAt(d, ks) :: set k | k in ks && d[k] == v
  }

  /** The values of `d` at the keys `ks`. */
  ghost function ValuesAt<V>(d: map<int, V>, ks: set<int>): set<V>
    requires ks <= d.Keys
  {
    set k | k in ks :: d[k]
  }

  /** Visiting one more key adds it to the set of its value. */
  lemma GroupedStep<V>(d: map<int, V>, ks: set<int>, k: int)
    requires ks <= d.Keys && k in d && k !in ks
    ensures Grouped(d, ks + {k}) == AddedToSet(Grouped(d, ks), d[k], k)
  {
    var g, g' := Grouped(d, ks), Grouped(d, ks + {k});
    var a := AddedToSet(g, d[k], k);
    assert g'.Keys == a.Keys by {
      forall v | v in a ensures v in g' {
        if v != d[k] {
          var j :| j in ks && d[j] == v;
        }
      }
      forall v | v in g' ensures v in a {
        var j :| j in ks + {k} && d[j] == v;
        if j != k {
          assert v in g;
        }
      }
    }
    forall v | v in g' ensures g'[v] == a[v] {
      if v == d[k] {
        forall j ensures j in g'[v] <==> j in a[v] {
          if j in ks && d[j] == v { assert v in g; }
        }
      } else {
        var j :| j in ks && d[j] == v;
        assert v in g;
      }
    }
  }

  /**
   * `reverse_dict(dict_obj)`: group the keys by value with
   * `add_to_dict_val_set`, then sort each group. Keys are ints here, so that
   * `sorted` has an order to follow.
   */
  method ReverseDict<V(==)>(d: map<int, V>) returns (r: map<V, seq<int>>)
    ensures r == Reversed(d)
  {
    var newDict := new PyDict<V, set<int>>(map[]);
    var remaining := d.Keys;
    while remaining != {}
      invariant remaining <= d.Keys
      invariant newDict.entries == Grouped(d, d.Keys - remaining)
      decreases remaining
    {
      var k := Pick(remaining);
      GroupedStep(d, d.Keys - remaining, k);
      assert d.Keys - (remaining - {k}) == (d.Keys - remaining) + {k};
      AddToDictValSet(newDict, d[k], k);
      remaining := remaining - {k};
    }
    var groups := newDict.entries;
    assert d.Keys - remaining == d.Keys;
    r := map[];
    var todo := groups.Keys;
    while todo != {}
      invariant todo <= groups.Keys
      invariant r.Keys == groups.Keys - todo
      invariant forall v | v in r :: r[v] == SortedSet(groups[v])
      decreases todo
    {
      var v := Pick(todo);
      r := r[v := SortedSet(groups[v])];
      todo := todo - {v};
    }
    SortedGroupsAreReversed(d, r);
  }

  /** Sorting each group of the finished grouping gives `Reversed`. */
  lemma SortedGroupsAreReversed<V>(d: map<int, V>, r: map<V, seq<int>>)
    requires r.Keys == Grouped(d, d.Keys).Keys
    requires forall v | v in r :: r[v] == SortedSet(Grouped(d, d.Keys)[v])
    ensures r == Reversed(d)
  {
    GroupedAll(d);
  }

  /** After all keys, each value's set is exactly its keys. */
  lemma GroupedAll<V>(d: map<int, V>)
    ensures Grouped(d, d.Keys).Keys == d.Values
    ensures forall v | v in d.Values :: Grouped(d, d.Keys)[v] == KeysOf(d, v)
  {
    var g := Grouped(d, d.Keys);
    forall v | v in d.Values ensures v in g {
      var k := KeyOf(d, v);
    }
  }

  /**
   * `reverse_dict_partial(dict_obj)`: each value maps to one key that maps
   * to it (the last one in iteration order); to the only one when the dict
   * is one-to-one.
   */
  method ReverseDictPartial<K, V(==)>(d: map<K, V>) returns (r: map<V, K>)
    ensures r.Keys == d.Values
    ensures forall v | v in r :: r[v] in d && d[r[v]] == v
    ensures (forall k1, k2 | k1 in d && k2 in d && d[k1] == d[k2] :: k1 == k2) ==>
      forall k | k in d :: r[d[k]] == k
  {
    r := map[];
    var remaining := d.Keys;
    while remaining != {}
      invariant remaining <= d.Keys
      invariant forall v :: v in r <==> exists k | k in d.Keys - remaining :: d[k] == v
      invariant forall v | v in r :: r[v] in d.Keys - remaining && d[r[v]] == v
      decreases remaining
    {
      var k := Pick(remaining);
      r := r[d[k] := k];
      remaining := remaining - {k};
    }
    assert d.Keys - remaining == d.Keys;
    forall v | v in d.Values ensures v in r {
      var k :| k in d && d[k] == v;
    }
  }

  /**
   * `reverse_list_valued_dict(dict_obj)`: each element of a value list maps
   * to a key whose list holds it; to the only one when elements are unique
   * across the whole dict, as the source intends.
   */
  method ReverseListValuedDict<K, V(==)>(d: map<K, seq<V>>) returns (r: map<V, K>)
    ensures forall e :: e in r <==> exists k | k in d :: e in d[k]
    ensures forall e | e in r :: r[e] in d && e in d[r[e]]
    ensures (forall k1, k2, e | k1 in d && k2 in d && e in d[k1] && e in d[k2] :: k1 == k2) ==>
      forall k, e | k in d && e in d[k] :: r[e] == k
  {
    r := map[];
    var remaining := d.Keys;
    while remaining != {}
      invariant remaining <= d.Keys
      invariant forall e :: e in r <==> exists k | k in d.Keys - remaining :: e in d[k]
      invariant forall e | e in r :: r[e] in d.Keys - remaining && e in d[r[e]]
      decreases remaining
    {
      var key := Pick(remaining);
      var elems := d[key];
      ghost var before := r;
      for i := 0 to |elems|
        invariant forall e :: e in r <==> e in before || e in elems[..i]
        invariant forall e | e in r :: (r[e] == key && e in elems) || (e in before && r[e] == before[e])
      {
        r := r[elems[i] := key];
      }
      assert elems[..|elems|] == elems;
      remaining := remaining - {key};
    }
    assert d.Keys - remaining == d.Keys;
  }

  /** A strictly ascending list is determined by its elements. */
  lemma {:induction false} AscendingUnique(a: seq<int>, b: seq<int>)
    requires StrictlyAscending(a) && StrictlyAscending(b)
    requires forall k :: k in a <==> k in b
    ensures a == b
    decreases |a|
  {
    if |a| > 0 { assert a[0] in a; assert a[0] in b; }
    if |b| > 0 { assert b[0] in b; assert b[0] in a; }
    if |a| > 0 {
      assert a[0] == b[0];
      forall k ensures k in a[1..] <==> k in b[1..] {
        if k in a[1..] {
          var i :| 0 <= i < |a[1..]| && a[1..][i] == k;
          assert a[0] < a[i + 1];
          assert k in b;
          assert b == [b[0]] + b[1..];
        }
        if k in b[1..] {
          var i :| 0 <= i < |b[1..]| && b[1..][i] == k;
          assert b[0] < b[i + 1];
          assert k in a;
          assert a == [a[0]] + a[1..];
        }
      }
      AscendingUnique(a[1..], b[1..]);
      assert a == [a[0]] + a[1..] && b == [b[0]] + b[1..];
    }
  }

  /** `sorted` of a set is the one strictly ascending list of its elements. */
  lemma SortedSetIsUnique(s: set<int>, xs: seq<int>)
    requires StrictlyAscending(xs) && forall k :: k in xs <==> k in s
    ensures SortedSet(s) == xs
  {
    AscendingUnique(SortedSet(s), xs);
  }

  /** The documented example of `reverse_dict`, `{'a': 1, 'b': 3, 'c': 1}`, with int keys for the letters. */
  const Example := map[1 := "x", 2 := "z", 3 := "x"]

  lemma ReverseDictExample()
    ensures Reversed(Example) == map["x" := [1, 3], "z" := [2]]
  {
    ExampleGroups();
    SortedSetIsUnique({1, 3}, [1, 3]);
    SortedSetIsUnique({2}, [2]);
  }

  /** The example's values, and the keys that map to each. */
  lemma ExampleGroups()
    ensures Example.Values == {"x", "z"}
    ensures KeysOf(Example, "x") == {1, 3} && KeysOf(Example, "z") == {2}
  {
    var d := Example;
    assert d[1] == "x" && d[2] == "z" && d[3] == "x";
    assert d.Keys == {1, 2, 3};
  }

  /** The documented example of `reverse_dict_partial`. */
  method ReverseDictPartialExample()
  {
    var inverse := map["a" := 1, "b" := 3];
    var part := ReverseDictPartial(inverse);
    assert inverse["a"] == 1 && inverse["b"] == 3;
    assert part[1] == "a" && part[3] == "b";
  }

  /** The documented example of `reverse_list_valued_dict`. */
  method ReverseListValuedDictExample()
  {
    var d := map["a" := [1, 2], "b" := [3, 4]];
    var lists := ReverseListValuedDict(d);
    assert 1 in d["a"] && 2 in d["a"] && 3 in d["b"] && 4 in d["b"];
    assert lists[1] == "a" && lists[2] == "a" && lists[3] == "b" && lists[4] == "b";
  }
}
