/**
 * `flatten_dict` (strct/dicts/_dict.py): a nested dict becomes one flat dict
 * whose keys are the key paths joined by a separator. Dicts are descended
 * into by key, lists and tuples by position (`str(i)`); every other value,
 * strings included, is a leaf. The inner closures write into one dict
 * `flat`, in the dict's iteration order, which a map does not have: the
 * loops here visit keys in any order, and the contracts hold for every
 * order.
 */
module Flatten {
  import opened Wrappers
  import opened PyValue
  import opened NestedDicts
  import opened Iteration

  /** `str(n)` of a natural number: its decimal digits. */
  function NatToStr(n: nat): (r: string)
    ensures |r| >= 1
    ensures forall c | c in r :: '0' <= c <= '9'
    decreases n
  {
    if n < 10 then [Digit(n)] else NatToStr(n / 10) + [Digit(n % 10)]
  }

  function Digit(d: nat): (c: char)
    requires d < 10
    ensures '0' <= c <= '9'
    ensures c as int - '0' as int == d
  {
    "0123456789"[d]
  }

  predicate IsDigits(s: string)
  {
    forall i | 0 <= i < |s| :: '0' <= s[i] <= '9'
  }

  /** The number a string of decimal digits denotes. */
  function DecimalValue(s: string): nat
    requires IsDigits(s)
  {
    if |s| == 0 then 0
    else DecimalValue(s[..|s| - 1]) * 10 + (s[|s| - 1] as int - '0' as int)
  }

  /** `str(n)` spells n in decimal, without a leading zero (except `"0"` itself). */
  lemma {:induction false} NatToStrSpellsN(n: nat)
    ensures IsDigits(NatToStr(n)) && DecimalValue(NatToStr(n)) == n
    ensures NatToStr(n)[0] == '0' ==> n == 0
    decreases n
  {
    var r := NatToStr(n);
    if n >= 10 {
      NatToStrSpellsN(n / 10);
      assert r[..|r| - 1] == NatToStr(n / 10);
      assert r[0] == NatToStr(n / 10)[0];
    }
  }

  /** Distinct positions get distinct names. */
  lemma NatToStrInjective(a: nat, b: nat)
    ensures NatToStr(a) == NatToStr(b) ==> a == b
  {
    NatToStrSpellsN(a);
    NatToStrSpellsN(b);
  }

  /** Every dict key, at every level, is a str, as joining keys with `+` needs. */
  predicate StrKeys(v: Value)
  {
    match v
    case Dict(m) => forall k | k in m :: k.Str? && StrKeys(m[k])
    case List(xs) => forall x | x in xs :: StrKeys(x)
    case Tuple(xs) => forall x | x in xs :: StrKeys(x)
    case _ => true
  }

  /** `_key_reducer(parent, key)`: the key itself at the top, else `parent + separator + key`. */
  function FlatKey(parent: Option<string>, key: string, sep: string): (r: string)
    ensures parent.None? ==> r == key
    ensures parent.Some? ==> |r| == |parent.value| + |sep| + |key|
    ensures parent.Some? ==> r[..|parent.value|] == parent.value && r[|r| - |key|..] == key
  {
    match parent
    case None => key
    case Some(p) => p + sep + key
  }

  /**
   * The entries `_flatten_key_val` writes for the value `v` under the flat
   * key `name`: `(name, v)` for a leaf, the entries of its items otherwise
   * (none at all for an empty dict or list).
   */
  ghost function Entries(v: Value, name: string, sep: string): (r: set<(string, Value)>)
    ensures forall e | e in r :: !IsContainer(e.1)
    decreases v, 2
  {
    if !IsContainer(v) then {(name, v)} else ChildEntries(v, Some(name), sep)
  }

  /** The entries `_flatten(d, parent)` writes for the items of a container. */
  ghost function ChildEntries(v: Value, parent: Option<string>, sep: string): (r: set<(string, Value)>)
    ensures forall e | e in r :: !IsContainer(e.1)
    decreases v, 1
  {
    match v
    case Dict(m) => DictEntries(v, m.Keys, parent, sep)
    case List(xs) => ListEntries(v, |xs|, parent, sep)
    case Tuple(xs) => ListEntries(v, |xs|, parent, sep)
    case _ => {}
  }

  /** The entries written for the keys `ks` of a dict. */
  ghost function DictEntries(v: Value, ks: set<Value>, parent: Option<string>, sep: string): (r: set<(string, Value)>)
    requires v.Dict?
    ensures forall e | e in r :: !IsContainer(e.1)
    decreases v, 0
  {
    set k, e | k in ks && k in v.entries && k.Str? &&
      e in Entries(v.entries[k], FlatKey(parent, k.s, sep), sep) :: e
  }

  /** The entries written for the first n items of a list or tuple, keyed by `str(i)`. */
  ghost function ListEntries(v: Value, n: nat, parent: Option<string>, sep: string): (r: set<(string, Value)>)
    requires (v.List? || v.Tuple?) && n <= |v.elems|
    ensures forall e | e in r :: !IsContainer(e.1)
    decreases v, 0
  {
    set i, e | 0 <= i < n && e in Entries(v.elems[i], FlatKey(parent, NatToStr(i), sep), sep) :: e
  }

  ghost function Names(es: set<(string, Value)>): set<string>
  {
    set e | e in es :: e.0
  }

  /**
   * `out` is `flat` after writing the entries `es` in some order: its keys
   * are the old ones and the names written; a name written maps to one of
   * the values written under it (the last one written wins); every other
   * key keeps its old value.
   */
  ghost predicate Written(out: map<string, Value>, flat: map<string, Value>, es: set<(string, Value)>)
  {
    out.Keys == flat.Keys + Names(es) &&
    (forall k | k in out && k in Names(es) :: (k, out[k]) in es) &&
    (forall k | k in out && k !in Names(es) :: k in flat && out[k] == flat[k])
  }

  /** Writing `es1` then `es2` is writing both. */
  lemma WrittenCompose(flat: map<string, Value>, mid: map<string, Value>, out: map<string, Value>,
                       es1: set<(string, Value)>, es2: set<(string, Value)>)
    requires Written(mid, flat, es1) && Written(out, mid, es2)
    ensures Written(out, flat, es1 + es2)
  {
    assert Names(es1 + es2) == Names(es1) + Names(es2) by {
      forall k | k in Names(es1 + es2) ensures k in Names(es1) + Names(es2) {
        var e :| e in es1 + es2 && e.0 == k;
      }
      forall k | k in Names(es1) + Names(es2) ensures k in Names(es1 + es2) {
        if k in Names(es1) {
          var e :| e in es1 && e.0 == k;
        } else {
          var e :| e in es2 && e.0 == k;
        }
      }
    }
  }

  lemma DictEntriesStep(v: Value, ks: set<Value>, k: Value, parent: Option<string>, sep: string)
    requires v.Dict? && k in v.entries && k.Str?
    ensures DictEntries(v, ks + {k}, parent, sep) ==
      DictEntries(v, ks, parent, sep) + Entries(v.entries[k], FlatKey(parent, k.s, sep), sep)
  {
  }

  lemma ListEntriesStep(v: Value, i: nat, parent: Option<string>, sep: string)
    requires (v.List? || v.Tuple?) && i < |v.elems|
    ensures ListEntries(v, i + 1, parent, sep) ==
      ListEntries(v, i, parent, sep) + Entries(v.elems[i], FlatKey(parent, NatToStr(i), sep), sep)
  {
  }

  /**
   * `_flatten_key_val(key, val, parent)`: descend into a container under the
   * joined key, or write the leaf under it.
   */
  method FlattenKeyVal(key: string, val: Value, parent: Option<string>, sep: string, flat: map<string, Value>)
    returns (out: map<string, Value>)
    requires StrKeys(val)
    ensures Written(out, flat, Entries(val, FlatKey(parent, key, sep), sep))
    decreases val, 2
  {
    var flatKey := FlatKey(parent, key, sep);
    if IsContainer(val) {
      out := FlattenItems(val, Some(flatKey), sep, flat);
    } else {
      out := flat[flatKey := val];
      assert Names({(flatKey, val)}) == {flatKey};
    }
  }

  /** `_flatten(d, parent)`: each item of a dict by key, of a list or tuple by position. */
  method FlattenItems(d: Value, parent: Option<string>, sep: string, flat: map<string, Value>)
    returns (out: map<string, Value>)
    requires IsContainer(d) && StrKeys(d)
    ensures Written(out, flat, ChildEntries(d, parent, sep))
    decreases d, 1
  {
    if d.Dict? {
      out := FlattenDictItems(d, parent, sep, flat);
    } else {
      out := FlattenListItems(d, parent, sep, flat);
    }
  }

  /** The items of a dict, one key at a time. */
  method FlattenDictItems(d: Value, parent: Option<string>, sep: string, flat: map<string, Value>)
    returns (out: map<string, Value>)
    requires d.Dict? && StrKeys(d)
    ensures Written(out, flat, DictEntries(d, d.entries.Keys, parent, sep))
    decreases d, 0
  {
    out := flat;
    assert Names({}) == {};
    var remaining := d.entries.Keys;
    while remaining != {}
      invariant remaining <= d.entries.Keys
      invariant Written(out, flat, DictEntries(d, d.entries.Keys - remaining, parent, sep))
      decreases remaining
    {
      var k := Pick(remaining);
      var before := out;
      out := FlattenKeyVal(k.s, d.entries[k], parent, sep, out);
      WrittenCompose(flat, before, out, DictEntries(d, d.entries.Keys - remaining, parent, sep),
        Entries(d.entries[k], FlatKey(parent, k.s, sep), sep));
      DictEntriesStep(d, d.entries.Keys - remaining, k, parent, sep);
      assert d.entries.Keys - (remaining - {k}) == (d.entries.Keys - remaining) + {k};
      remaining := remaining - {k};
    }
    assert d.entries.Keys - remaining == d.entries.Keys;
  }

  /** The items of a list or tuple, in order of position. */
  method FlattenListItems(d: Value, parent: Option<string>, sep: string, flat: map<string, Value>)
    returns (out: map<string, Value>)
    requires (d.List? || d.Tuple?) && StrKeys(d)
    ensures Written(out, flat, ListEntries(d, |d.elems|, parent, sep))
    decreases d, 0
  {
    out := flat;
    assert Names({}) == {};
    for i := 0 to |d.elems|
      invariant Written(out, flat, ListEntries(d, i, parent, sep))
    {
      var before := out;
      out := FlattenKeyVal(NatToStr(i), d.elems[i], parent, sep, out);
      WrittenCompose(flat, before, out, ListEntries(d, i, parent, sep),
        Entries(d.elems[i], FlatKey(parent, NatToStr(i), sep), sep));
      ListEntriesStep(d, i, parent, sep);
    }
  }

  /**
   * `flatten_dict(dict_obj, separator)`: the flat dict, whose values are
   * never dicts (nor lists). A str or scalar argument raises TypeError.
   * Lists are flattened whatever `flatten_lists` says, so that parameter is
   * not modelled.
   */
  method FlattenDict(obj: Value, sep: string) returns (r: Result<map<string, Value>, PyError>)
    requires StrKeys(obj)
    ensures r.Ok? <==> IsContainer(obj)
    ensures r.Ok? ==> Written(r.value, map[], ChildEntries(obj, None, sep))
    ensures r.Ok? ==> forall k | k in r.value :: !IsContainer(r.value[k])
    ensures r.Err? ==> r.error == TypeError
  {
    if !IsContainer(obj) {
      return Err(TypeError);
    }
    var flat := FlattenItems(obj, None, sep, map[]);
    r := Ok(flat);
  }

  /**
   * When no two leaves join to the same flat key, the flat dict is exactly
   * the leaves: every leaf entry is present with its own value.
   */
  lemma DistinctNamesWrittenExactly(out: map<string, Value>, es: set<(string, Value)>)
    requires Written(out, map[], es)
    requires forall e1, e2 | e1 in es && e2 in es && e1.0 == e2.0 :: e1 == e2
    ensures forall e | e in es :: e.0 in out && out[e.0] == e.1
  {
    forall e | e in es ensures e.0 in out && out[e.0] == e.1 {
      assert e.0 in Names(es);
    }
  }

  /** The documented example: `{'a': 1, 'b': {'g': 4, 'o': 9}, 'x': [4, 'd']}`, flattened with separator `.`. */
  const ExampleInner := Dict(map[Str("g") := Int(4), Str("o") := Int(9)])
  const ExampleList := List([Int(4), Str("d")])
  const Example := Dict(map[Str("a") := Int(1), Str("b") := ExampleInner, Str("x") := ExampleList])

  /** The entries of `{'g': 4, 'o': 9}` under the key `b`. */
  lemma DocumentedExampleDict()
    ensures Entries(ExampleInner, "b", ".") == {("b.g", Int(4)), ("b.o", Int(9))}
  {
    var b := ExampleInner;
    assert FlatKey(Some("b"), "g", ".") == "b.g" && FlatKey(Some("b"), "o", ".") == "b.o";
    assert b.entries.Keys == {Str("g"), Str("o")};
    assert Entries(Int(4), "b.g", ".") == {("b.g", Int(4))};
    assert Entries(Int(9), "b.o", ".") == {("b.o", Int(9))};
  }

  /** The entries of `[4, 'd']` under the key `x`: keyed by position. */
  lemma DocumentedExampleList()
    ensures Entries(ExampleList, "x", ".") == {("x.0", Int(4)), ("x.1", Str("d"))}
  {
    DocumentedExampleListNames();
    DocumentedExampleListItems(FlatKey(Some("x"), NatToStr(0), "."), FlatKey(Some("x"), NatToStr(1), "."));
  }

  /** The positions 0 and 1 under `x` are written as `x.0` and `x.1`. */
  lemma DocumentedExampleListNames()
    ensures FlatKey(Some("x"), NatToStr(0), ".") == "x.0"
    ensures FlatKey(Some("x"), NatToStr(1), ".") == "x.1"
  {
    assert NatToStr(0) == "0" && NatToStr(1) == "1";
  }

  /** The two items of `[4, 'd']` are leaves, written under the names of their positions. */
  lemma DocumentedExampleListItems(n0: string, n1: string)
    requires n0 == FlatKey(Some("x"), NatToStr(0), ".") && n1 == FlatKey(Some("x"), NatToStr(1), ".")
    ensures Entries(ExampleList, "x", ".") == {(n0, Int(4)), (n1, Str("d"))}
  {
    var x := ExampleList;
    assert ListEntries(x, 0, Some("x"), ".") == {};
    ListEntriesStep(x, 0, Some("x"), ".");
    ListEntriesStep(x, 1, Some("x"), ".");
  }

  /** The entries of the example's first key, `a`. */
  lemma DocumentedExampleKeyA()
    ensures DictEntries(Example, {Str("a")}, None, ".") == {("a", Int(1))}
  {
    var d := Example;
    assert FlatKey(None, "a", ".") == "a";
    assert d.entries[Str("a")] == Int(1);
    assert Entries(Int(1), "a", ".") == {("a", Int(1))};
    var none: set<Value> := {};
    assert DictEntries(d, none, None, ".") == {};
    DictEntriesStep(d, none, Str("a"), None, ".");
    assert none + {Str("a")} == {Str("a")};
  }

  /** The entries of the example's keys `a` and `b`. */
  lemma DocumentedExampleFirstKeys()
    ensures DictEntries(Example, {Str("a"), Str("b")}, None, ".") == {("a", Int(1)), ("b.g", Int(4)), ("b.o", Int(9))}
  {
    var d := Example;
    DocumentedExampleKeyA();
    DocumentedExampleDict();
    assert FlatKey(None, "b", ".") == "b";
    assert d.entries[Str("b")] == ExampleInner;
    DictEntriesStep(d, {Str("a")}, Str("b"), None, ".");
    assert {Str("a")} + {Str("b")} == {Str("a"), Str("b")};
  }

  /** The entries of the example: those of `a` and `b`, then those of `x`. */
  lemma DocumentedExampleLastKey()
    ensures ChildEntries(Example, None, ".") ==
      DictEntries(Example, {Str("a"), Str("b")}, None, ".") + Entries(ExampleList, "x", ".")
  {
    var d := Example;
    assert FlatKey(None, "x", ".") == "x";
    assert d.entries[Str("x")] == ExampleList;
    DictEntriesStep(d, {Str("a"), Str("b")}, Str("x"), None, ".");
    assert d.entries.Keys == {Str("a"), Str("b")} + {Str("x")};
  }

  /** The example flattens to `a`, `b.g`, `b.o`, `x.0` and `x.1`. */
  lemma DocumentedExample()
    ensures ChildEntries(Example, None, ".") == ExampleEntries
  {
    DocumentedExampleLastKey();
    DocumentedExampleFirstKeys();
    DocumentedExampleList();
  }

  const ExampleEntries: set<(string, Value)> :=
    {("a", Int(1)), ("b.g", Int(4)), ("b.o", Int(9)), ("x.0", Int(4)), ("x.1", Str("d"))}
  const ExampleFlat := map["a" := Int(1), "b.g" := Int(4), "b.o" := Int(9), "x.0" := Int(4), "x.1" := Str("d")]

  /** Writing the example's entries into an empty dict gives the documented flat dict. */
  lemma DocumentedExampleWritten(out: map<string, Value>)
    requires Written(out, map[], ExampleEntries)
    ensures out == ExampleFlat
  {
    assert Names(ExampleEntries) == ExampleFlat.Keys by {
      forall e | e in ExampleEntries ensures e.0 in ExampleFlat.Keys {}
      forall k | k in ExampleFlat.Keys ensures k in Names(ExampleEntries) {
        assert (k, ExampleFlat[k]) in ExampleEntries;
      }
    }
    forall k | k in out ensures out[k] == ExampleFlat[k] {
      assert (k, out[k]) in ExampleEntries;
    }
  }

  /** `flatten_dict` on the example returns exactly the documented flat dict. */
  method DocumentedExampleFlattened()
  {
    assert StrKeys(ExampleInner) && StrKeys(ExampleList);
    var r := FlattenDict(Example, ".");
    DocumentedExample();
    DocumentedExampleWritten(r.value);
    assert r == Ok(ExampleFlat);
  }
}
