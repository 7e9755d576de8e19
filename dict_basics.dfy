/**
 * Look-ups and union over flat dicts (strct/dicts/_dict.py and the legacy
 * strct/dict/_dict.py): `get_first_val`, `any_in_dict`, `unite_dicts`.
 */
module DictBasics {
  import opened Wrappers

  /** keys[i] is in the dict and no earlier key is. */
  predicate FirstPresentAt<K, V>(keys: seq<K>, d: map<K, V>, i: int)
  {
    0 <= i < |keys| && keys[i] in d && forall j | 0 <= j < i :: keys[j] !in d
  }

  /**
   * `get_first_val(key_tuple, dict_obj)`: the value of the first key of
   * key_tuple present in the dict; KeyError when none is.
   */
  function GetFirstVal<K, V>(keys: seq<K>, d: map<K, V>): (r: Result<V, PyError>)
    ensures r.Err? <==> forall k | k in keys :: k !in d
    ensures r.Err? ==> r.error == KeyError
    ensures r.Ok? ==> exists i :: FirstPresentAt(keys, d, i) && r.value == d[keys[i]]
  {
    if |keys| == 0 then Err(KeyError)
    else if keys[0] in d then
      assert FirstPresentAt(keys, d, 0);
      Ok(d[keys[0]])
    else
      var r := GetFirstVal(keys[1..], d);
      if r.Ok? then
        assert forall i | FirstPresentAt(keys[1..], d, i) :: FirstPresentAt(keys, d, i + 1) && keys[1..][i] == keys[i + 1];
        r
      else
        assert forall k | k in keys :: k == keys[0] || k in keys[1..];
        r
  }

  /** `any_in_dict(key_tuple, dict_obj)`: `any([key in dict_obj for key in key_tuple])`. */
  function AnyInDict<K, V>(keys: seq<K>, d: map<K, V>): (r: bool)
    ensures r <==> exists i | 0 <= i < |keys| :: keys[i] in d
  {
    if |keys| == 0 then false
    else
      assert forall i | 0 <= i < |keys| - 1 :: keys[1..][i] == keys[i + 1];
      keys[0] in d || AnyInDict(keys[1..], d)
  }

  /** `any_in_dict` holds exactly when some key of the tuple is in the dict. */
  lemma {:induction false} AnyInDictIff<K, V>(keys: seq<K>, d: map<K, V>)
    ensures AnyInDict(keys, d) <==> exists k | k in keys :: k in d
    decreases |keys|
  {
    if |keys| > 0 {
      AnyInDictIff(keys[1..], d);
      assert forall k | k in keys :: k == keys[0] || k in keys[1..];
    }
  }

  /** `any_in_dict` holds exactly when `get_first_val` finds a value instead of raising KeyError. */
  lemma AnyInDictIffFirstValFound<K, V>(keys: seq<K>, d: map<K, V>)
    ensures AnyInDict(keys, d) <==> GetFirstVal(keys, d).Ok?
  {
    AnyInDictIff(keys, d);
  }

  /** The position found is the first present key: a later present key never wins. */
  lemma {:induction false} FirstValIsFirstPresent<K, V>(keys: seq<K>, d: map<K, V>, i: int)
    requires FirstPresentAt(keys, d, i)
    ensures GetFirstVal(keys, d) == Ok(d[keys[i]])
    decreases |keys|
  {
    if i > 0 {
      assert FirstPresentAt(keys[1..], d, i - 1);
      FirstValIsFirstPresent(keys[1..], d, i - 1);
    }
  }

  /** The documented examples of `get_first_val` and `any_in_dict` on `{'a': 1, 'c': 2}`. */
  lemma DocumentedExamples()
    ensures GetFirstVal(["a", "b", "c"], map["a" := 1, "c" := 2]) == Ok(1)
    ensures GetFirstVal(["b", "c", "a"], map["a" := 1, "c" := 2]) == Ok(2)
    ensures GetFirstVal(["e"], map["a" := 1, "c" := 2]) == Err(KeyError)
    ensures AnyInDict(["a", "b"], map["a" := 1, "c" := 2])
    ensures !AnyInDict(["b", "g"], map["a" := 1, "c" := 2])
  {
    FirstValIsFirstPresent(["b", "c", "a"], map["a" := 1, "c" := 2], 1);
    assert ["b", "g"][1..] == ["g"];
  }

  /**
   * `unite_dicts(*args)` (and the legacy `unite_dicts(dicts)`, which takes
   * one list): `dict(i for dct in args for i in dct.items())`, where a later
   * item overwrites an earlier one with the same key.
   */
  function UniteDicts<K, V>(dicts: seq<map<K, V>>): (r: map<K, V>)
    ensures forall i | 0 <= i < |dicts| :: dicts[i].Keys <= r.Keys
    ensures |dicts| > 0 ==> forall k | k in dicts[|dicts| - 1] :: r[k] == dicts[|dicts| - 1][k]
  {
    if |dicts| == 0 then map[] else UniteDicts(dicts[..|dicts| - 1]) + dicts[|dicts| - 1]
  }

  /** The dict of the given list that is the last one to hold key k. */
  predicate LastHolderAt<K, V>(dicts: seq<map<K, V>>, k: K, i: int)
  {
    0 <= i < |dicts| && k in dicts[i] && forall j | i < j < |dicts| :: k !in dicts[j]
  }

  /** The united dict holds exactly the union of the keys. */
  lemma {:induction false} UniteDictsKeys<K, V>(dicts: seq<map<K, V>>)
    ensures forall k :: k in UniteDicts(dicts) <==> exists i | 0 <= i < |dicts| :: k in dicts[i]
    decreases |dicts|
  {
    if |dicts| > 0 {
      var n := |dicts|;
      var init := dicts[..n - 1];
      UniteDictsKeys(init);
      forall k ensures k in UniteDicts(dicts) <==> exists i | 0 <= i < n :: k in dicts[i] {
        if exists i | 0 <= i < n :: k in dicts[i] {
          var i :| 0 <= i < n && k in dicts[i];
          if i < n - 1 {
            assert k in init[i];
          }
        }
      }
    }
  }

  /** Each key of the united dict maps to its value in the last dict that holds it. */
  lemma {:induction false} UniteDictsLastWins<K, V>(dicts: seq<map<K, V>>, k: K)
    requires k in UniteDicts(dicts)
    ensures exists i :: LastHolderAt(dicts, k, i) && UniteDicts(dicts)[k] == dicts[i][k]
    decreases |dicts|
  {
    var n := |dicts|;
    var init := dicts[..n - 1];
    if k in dicts[n - 1] {
      assert LastHolderAt(dicts, k, n - 1);
    } else {
      UniteDictsLastWins(init, k);
      var i :| LastHolderAt(init, k, i) && UniteDicts(init)[k] == init[i][k];
      assert LastHolderAt(dicts, k, i);
    }
  }

  /** The documented example: `{'a': 2, 'b': 1}` united with `{'a': 8, 'c': 5}`. */
  lemma UniteDocumentedExample()
    ensures UniteDicts([map["a" := 2, "b" := 1], map["a" := 8, "c" := 5]]) == map["a" := 8, "b" := 1, "c" := 5]
  {
    var ds := [map["a" := 2, "b" := 1], map["a" := 8, "c" := 5]];
    assert ds[..1] == [ds[0]];
    var none: seq<map<string, int>> := [];
    assert ds[..1][..0] == none;
  }
}
