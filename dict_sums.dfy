/**
 * Summing dicts key by key: `sum_num_dicts` (strct/dicts/_dict.py) and the
 * legacy `sum_dicts` (strct/dict/_dict.py), which lets non-numeric values
 * overwrite.
 */
module DictSums {
  import opened Wrappers
  import opened DictMutators
  import opened Iteration
  import DictBasics

  /** The accumulator after adding the values of d into acc, key by key: `acc.get(key, 0) + d[key]`. */
  function AddInto<K>(acc: map<K, int>, d: map<K, int>): map<K, int>
  {
    map k | k in acc.Keys + d.Keys :: GetOr(acc, k, 0) + GetOr(d, k, 0)
  }

  /** The sum dict of a list of dicts, accumulated in list order. */
  function SumMaps<K>(dicts: seq<map<K, int>>): map<K, int>
  {
    if |dicts| == 0 then map[] else AddInto(SumMaps(dicts[..|dicts| - 1]), dicts[|dicts| - 1])
  }

  /** The reference sum: the values of key k over all dicts that hold it. */
  function SumOf<K>(dicts: seq<map<K, int>>, k: K): int
  {
    if |dicts| == 0 then 0 else GetOr(dicts[0], k, 0) + SumOf(dicts[1..], k)
  }

  /** The entries of d whose keys are in ks. */
  function Restrict<K, V>(d: map<K, V>, ks: set<K>): map<K, V>
  {
    map k | k in ks && k in d :: d[k]
  }

  /** SumOf peeled from the back, as the accumulation runs. */
  lemma {:induction false} SumOfSnoc<K>(dicts: seq<map<K, int>>, k: K)
    requires |dicts| > 0
    ensures SumOf(dicts, k) == SumOf(dicts[..|dicts| - 1], k) + GetOr(dicts[|dicts| - 1], k, 0)
    decreases |dicts|
  {
    if |dicts| > 1 {
      assert dicts[1..][..|dicts[1..]| - 1] == dicts[..|dicts| - 1][1..];
      SumOfSnoc(dicts[1..], k);
    }
  }

  /**
   * `sum_num_dicts` maps exactly the keys of the given dicts, each to the
   * sum of its values across all of them.
   */
  lemma {:induction false} SumMapsIsSumPerKey<K>(dicts: seq<map<K, int>>, k: K)
    ensures k in SumMaps(dicts) <==> exists i | 0 <= i < |dicts| :: k in dicts[i]
    ensures k in SumMaps(dicts) ==> SumMaps(dicts)[k] == SumOf(dicts, k)
    decreases |dicts|
  {
    if |dicts| > 0 {
      var n := |dicts|;
      var init := dicts[..n - 1];
      SumMapsIsSumPerKey(init, k);
      SumOfSnoc(dicts, k);
      if k !in SumMaps(init) {
        assert SumOf(init, k) == 0 by {
          SumOfAbsent(init, k);
        }
      }
      if exists i | 0 <= i < n :: k in dicts[i] {
        var i :| 0 <= i < n && k in dicts[i];
        if i < n - 1 {
          assert k in init[i];
        }
      }
    }
  }

  /** A key held by no dict sums to zero. */
  lemma {:induction false} SumOfAbsent<K>(dicts: seq<map<K, int>>, k: K)
    requires forall i | 0 <= i < |dicts| :: k !in dicts[i]
    ensures SumOf(dicts, k) == 0
    decreases |dicts|
  {
    if |dicts| > 0 {
      SumOfAbsent(dicts[1..], k);
    }
  }

  /** One step of the inner loop: adding one more key of d. */
  lemma AddIntoOneMore<K>(start: map<K, int>, d: map<K, int>, done: set<K>, k: K)
    requires k in d && k !in done
    ensures AddInto(start, Restrict(d, done + {k}))
      == AddInto(start, Restrict(d, done))[k := GetOr(AddInto(start, Restrict(d, done)), k, 0) + d[k]]
  {
  }

  /** The inner loop of `sum_num_dicts`: the keys of `d` added into `acc`, in any order. */
  method AddDictInto<K>(acc: map<K, int>, d: map<K, int>) returns (r: map<K, int>)
    ensures r == AddInto(acc, d)
  {
    r := acc;
    var remaining := d.Keys;
    while remaining != {}
      invariant remaining <= d.Keys
      invariant r == AddInto(acc, Restrict(d, d.Keys - remaining))
      decreases remaining
    {
      var k := Pick(remaining);
      AddIntoOneMore(acc, d, d.Keys - remaining, k);
      assert d.Keys - (remaining - {k}) == (d.Keys - remaining) + {k};
      r := r[k := GetOr(r, k, 0) + d[k]];
      remaining := remaining - {k};
    }
    assert Restrict(d, d.Keys - remaining) == d;
  }

  /**
   * `sum_num_dicts(dicts)` (with normalize off): the loop over the dicts in
   * order and, within each dict, over its keys in any order.
   */
  method SumNumDicts<K>(dicts: seq<map<K, int>>) returns (r: map<K, int>)
    ensures r == SumMaps(dicts)
  {
    r := map[];
    for i := 0 to |dicts|
      invariant r == SumMaps(dicts[..i])
    {
      r := AddDictInto(r, dicts[i]);
      assert dicts[..i + 1][..i] == dicts[..i];
    }
    assert dicts[..|dicts|] == dicts;
  }

  /** A value as the legacy `sum_dicts` sees it: a `numbers.Number`, or anything else. */
  datatype Entry<V> = Num(n: int) | Other(v: V)

  /**
   * One key of one dict in the legacy loop: a number is added to
   * `sum_dict.get(key, 0)`, which raises TypeError when the value there is
   * not a number; anything else overwrites.
   */
  function Combine<V>(prev: Option<Entry<V>>, val: Entry<V>): Result<Entry<V>, PyError>
  {
    match val
    case Other(_) => Ok(val)
    case Num(n) =>
      match prev
      case None => Ok(Num(n))
      case Some(Num(a)) => Ok(Num(a + n))
      case Some(Other(_)) => Err(TypeError)
  }

  function Lookup<K, V>(m: map<K, V>, k: K): Option<V>
  {
    if k in m then Some(m[k]) else None
  }

  /** All keys of d combine without error into acc. */
  predicate StepOk<K, V>(acc: map<K, Entry<V>>, d: map<K, Entry<V>>)
  {
    forall k | k in d :: Combine(Lookup(acc, k), d[k]).Ok?
  }

  /** The legacy loop body for one dict: every key of d combined into acc, or TypeError. */
  function StepDict<K, V>(acc: map<K, Entry<V>>, d: map<K, Entry<V>>): Result<map<K, Entry<V>>, PyError>
  {
    if StepOk(acc, d) then
      Ok(map k | k in acc.Keys + d.Keys :: if k in d then Combine(Lookup(acc, k), d[k]).value else acc[k])
    else Err(TypeError)
  }

  /** The legacy `sum_dicts(dicts)` as a value, the dicts taken in order. */
  function SumDictsSpec<K, V>(dicts: seq<map<K, Entry<V>>>): Result<map<K, Entry<V>>, PyError>
  {
    if |dicts| == 0 then Ok(map[])
    else
      match SumDictsSpec(dicts[..|dicts| - 1])
      case Err(e) => Err(e)
      case Ok(acc) => StepDict(acc, dicts[|dicts| - 1])
  }

  /** Once a prefix of the dicts fails, the whole call fails. */
  lemma {:induction false} SumDictsErrPersists<K, V>(dicts: seq<map<K, Entry<V>>>, i: nat)
    requires i <= |dicts| && SumDictsSpec(dicts[..i]).Err?
    ensures SumDictsSpec(dicts) == Err(TypeError)
    decreases |dicts| - i
  {
    if i == |dicts| {
      assert dicts[..i] == dicts;
      SumDictsErrIsTypeError(dicts);
    } else {
      assert dicts[..i + 1][..i] == dicts[..i];
      SumDictsErrPersists(dicts, i + 1);
    }
  }

  /** The only error `sum_dicts` raises is TypeError. */
  lemma {:induction false} SumDictsErrIsTypeError<K, V>(dicts: seq<map<K, Entry<V>>>)
    ensures SumDictsSpec(dicts).Err? ==> SumDictsSpec(dicts).error == TypeError
    decreases |dicts|
  {
    if |dicts| > 0 {
      SumDictsErrIsTypeError(dicts[..|dicts| - 1]);
    }
  }

  /** The inner loop of the legacy `sum_dicts`: the keys of `d` combined into `acc`, in any order. */
  method CombineDictInto<K, V>(acc: map<K, Entry<V>>, d: map<K, Entry<V>>) returns (r: Result<map<K, Entry<V>>, PyError>)
    ensures r == StepDict(acc, d)
  {
    var cur := acc;
    var remaining := d.Keys;
    while remaining != {}
      invariant remaining <= d.Keys
      invariant forall k | k in d.Keys - remaining :: Combine(Lookup(acc, k), d[k]).Ok?
      invariant cur.Keys == acc.Keys + (d.Keys - remaining)
      invariant forall k | k in cur ::
        cur[k] == (if k in d.Keys - remaining then Combine(Lookup(acc, k), d[k]).value else acc[k])
      decreases remaining
    {
      var k := Pick(remaining);
      var val := d[k];
      assert Lookup(cur, k) == Lookup(acc, k);
      if val.Num? {
        if k in cur && cur[k].Other? {
          assert !StepOk(acc, d);
          return Err(TypeError);
        }
        var base := if k in cur then cur[k].n else 0;
        cur := cur[k := Num(base + val.n)];
      } else {
        cur := cur[k := val];
      }
      remaining := remaining - {k};
    }
    assert d.Keys - remaining == d.Keys;
    assert StepOk(acc, d);
    assert StepDict(acc, d).value == cur;
    r := Ok(cur);
  }

  /** `sum_dicts(dicts)` (with normalize off), with the nested loops of the source. */
  method SumDicts<K, V>(dicts: seq<map<K, Entry<V>>>) returns (r: Result<map<K, Entry<V>>, PyError>)
    ensures r == SumDictsSpec(dicts)
  {
    var acc: map<K, Entry<V>> := map[];
    for i := 0 to |dicts|
      invariant SumDictsSpec(dicts[..i]) == Ok(acc)
    {
      var step := CombineDictInto(acc, dicts[i]);
      assert dicts[..i + 1][..i] == dicts[..i];
      if step.Err? {
        SumDictsErrPersists(dicts, i + 1);
        return Err(TypeError);
      }
      acc := step.value;
    }
    assert dicts[..|dicts|] == dicts;
    r := Ok(acc);
  }

  /** The integer values of a dict whose values are all numbers. */
  function Nums<K, V>(d: map<K, Entry<V>>): map<K, int>
    requires forall k | k in d :: d[k].Num?
  {
    map k | k in d :: d[k].n
  }

  predicate AllNum<K, V>(dicts: seq<map<K, Entry<V>>>)
  {
    forall i, k | 0 <= i < |dicts| && k in dicts[i] :: dicts[i][k].Num?
  }

  function AllNums<K, V>(dicts: seq<map<K, Entry<V>>>): (r: seq<map<K, int>>)
    requires AllNum(dicts)
    ensures |r| == |dicts|
    ensures forall i | 0 <= i < |dicts| :: r[i] == Nums(dicts[i])
  {
    if |dicts| == 0 then [] else AllNums(dicts[..|dicts| - 1]) + [Nums(dicts[|dicts| - 1])]
  }

  /** On purely numeric input the legacy `sum_dicts` agrees with `sum_num_dicts`. */
  lemma {:induction false} SumDictsOnNumbers<K, V>(dicts: seq<map<K, Entry<V>>>)
    requires AllNum(dicts)
    ensures SumDictsSpec(dicts).Ok?
    ensures forall k :: k in SumDictsSpec(dicts).value <==> k in SumMaps(AllNums(dicts))
    ensures forall k | k in SumDictsSpec(dicts).value :: SumDictsSpec(dicts).value[k] == Num(SumMaps(AllNums(dicts))[k])
    decreases |dicts|
  {
    if |dicts| > 0 {
      var n := |dicts|;
      var init := dicts[..n - 1];
      SumDictsOnNumbers(init);
      assert AllNums(dicts)[..n - 1] == AllNums(init);
      var sums := SumMaps(AllNums(init));
      var acc := SumDictsSpec(init).value;
      var last := dicts[n - 1];
      assert SumMaps(AllNums(dicts)) == AddInto(sums, Nums(last));
      assert StepOk(acc, last);
      forall k | k in SumDictsSpec(dicts).value
        ensures SumDictsSpec(dicts).value[k] == Num(SumMaps(AllNums(dicts))[k])
      {
        if k in last && k in acc {
          assert acc[k] == Num(sums[k]);
        }
      }
    }
  }

  /** A successful legacy sum got through every prefix, the last dict added by `StepDict`. */
  lemma SumDictsInit<K, V>(dicts: seq<map<K, Entry<V>>>)
    requires |dicts| > 0 && SumDictsSpec(dicts).Ok?
    ensures SumDictsSpec(dicts[..|dicts| - 1]).Ok?
    ensures StepOk(SumDictsSpec(dicts[..|dicts| - 1]).value, dicts[|dicts| - 1])
    ensures SumDictsSpec(dicts) == StepDict(SumDictsSpec(dicts[..|dicts| - 1]).value, dicts[|dicts| - 1])
  {
  }

  /** The numbers the dicts hold under key k, added up. */
  function NumSum<K, V>(dicts: seq<map<K, Entry<V>>>, k: K): int
  {
    if |dicts| == 0 then 0
    else
      var last := dicts[|dicts| - 1];
      NumSum(dicts[..|dicts| - 1], k) + (if k in last && last[k].Num? then last[k].n else 0)
  }

  /**
   * A key that every dict holding it maps to a number is summed: it is in
   * the result exactly when some dict holds it, with the sum of its numbers.
   */
  lemma {:induction false} SumDictsNumKey<K, V>(dicts: seq<map<K, Entry<V>>>, k: K)
    requires SumDictsSpec(dicts).Ok?
    requires forall i | 0 <= i < |dicts| && k in dicts[i] :: dicts[i][k].Num?
    ensures k in SumDictsSpec(dicts).value <==> exists i | 0 <= i < |dicts| :: k in dicts[i]
    ensures k in SumDictsSpec(dicts).value ==> SumDictsSpec(dicts).value[k] == Num(NumSum(dicts, k))
    ensures k !in SumDictsSpec(dicts).value ==> NumSum(dicts, k) == 0
    decreases |dicts|
  {
    if |dicts| > 0 {
      var n := |dicts|;
      var init, last := dicts[..n - 1], dicts[n - 1];
      SumDictsInit(dicts);
      SumDictsNumKey(init, k);
      var acc := SumDictsSpec(init).value;
      assert k in last ==> Combine(Lookup(acc, k), last[k]).Ok?;
      if exists i | 0 <= i < n - 1 :: k in init[i] {
        var i :| 0 <= i < n - 1 && k in init[i];
        assert k in dicts[i];
      }
      if exists i | 0 <= i < n :: k in dicts[i] {
        var i :| 0 <= i < n && k in dicts[i];
        if i < n - 1 {
          assert k in init[i];
        }
      }
    }
  }

  /** Once some dict maps k to a non-number, a successful sum maps k to a non-number. */
  lemma {:induction false} OtherStays<K, V>(dicts: seq<map<K, Entry<V>>>, k: K, i: nat)
    requires SumDictsSpec(dicts).Ok?
    requires i < |dicts| && k in dicts[i] && dicts[i][k].Other?
    ensures k in SumDictsSpec(dicts).value && SumDictsSpec(dicts).value[k].Other?
    decreases |dicts|
  {
    var n := |dicts|;
    var init, last := dicts[..n - 1], dicts[n - 1];
    SumDictsInit(dicts);
    var acc := SumDictsSpec(init).value;
    if i < n - 1 {
      assert init[i] == dicts[i];
      OtherStays(init, k, i);
      assert k in last ==> Combine(Lookup(acc, k), last[k]).Ok?;
    }
  }

  /**
   * A number for k in a later dict than a non-number for k raises TypeError:
   * `sum_dict.get(key, 0) + val` adds a number to the value kept.
   */
  lemma OtherThenNumRaises<K, V>(dicts: seq<map<K, Entry<V>>>, k: K, i: nat, j: nat)
    requires i < j < |dicts|
    requires k in dicts[i] && dicts[i][k].Other?
    requires k in dicts[j] && dicts[j][k].Num?
    ensures SumDictsSpec(dicts) == Err(TypeError)
  {
    var pre := dicts[..j];
    assert dicts[..j + 1][..j] == pre && dicts[..j + 1][j] == dicts[j];
    if SumDictsSpec(pre).Ok? {
      assert pre[i] == dicts[i];
      OtherStays(pre, k, i);
      var acc := SumDictsSpec(pre).value;
      assert Combine(Lookup(acc, k), dicts[j][k]).Err?;
      assert !StepOk(acc, dicts[j]);
    }
    assert SumDictsSpec(dicts[..j + 1]).Err?;
    SumDictsErrPersists(dicts, j + 1);
  }

  /** The legacy loop keeps the non-numeric value of the last dict holding the key. */
  lemma {:induction false} SumDictsLastOtherKept<K, V>(dicts: seq<map<K, Entry<V>>>, k: K, i: nat)
    requires SumDictsSpec(dicts).Ok?
    requires DictBasics.LastHolderAt(dicts, k, i) && dicts[i][k].Other?
    ensures k in SumDictsSpec(dicts).value && SumDictsSpec(dicts).value[k] == dicts[i][k]
    decreases |dicts|
  {
    var n := |dicts|;
    var init := dicts[..n - 1];
    SumDictsInit(dicts);
    if i < n - 1 {
      assert DictBasics.LastHolderAt(init, k, i);
      SumDictsLastOtherKept(init, k, i);
    }
  }

  /** When the last dict holding k maps it to a number, the result is the sum of k's numbers. */
  lemma SumDictsLastNumIsSum<K, V>(dicts: seq<map<K, Entry<V>>>, k: K, i: nat)
    requires SumDictsSpec(dicts).Ok?
    requires DictBasics.LastHolderAt(dicts, k, i) && dicts[i][k].Num?
    ensures k in SumDictsSpec(dicts).value && SumDictsSpec(dicts).value[k] == Num(NumSum(dicts, k))
  {
    forall m | 0 <= m < |dicts| && k in dicts[m] ensures dicts[m][k].Num? {
      if dicts[m][k].Other? {
        OtherThenNumRaises(dicts, k, m, i);
      }
    }
    SumDictsNumKey(dicts, k);
  }

  /** A number after a non-number under the same key raises TypeError (`str + int`). */
  lemma NumberAfterOtherRaises()
    ensures SumDictsSpec([map["a" := Other("x")], map["a" := Num(1)]]) == Err(TypeError)
  {
    OtherThenNumRaises([map["a" := Other("x")], map["a" := Num(1)]], "a", 0, 1);
  }

  /** A non-number and a summed number side by side: `[{a: 'x', b: 1}, {b: 2}]` gives `{a: 'x', b: 3}`. */
  lemma MixedExample()
    ensures SumDictsSpec([map["a" := Other("x"), "b" := Num(1)], map["b" := Num(2)]]) ==
      Ok(map["a" := Other("x"), "b" := Num(3)])
  {
    var ds := [map["a" := Other("x"), "b" := Num(1)], map["b" := Num(2)]];
    var none: seq<map<string, Entry<string>>> := [];
    assert ds[..1] == [ds[0]] && ds[..1][..0] == none;
    var empty: map<string, Entry<string>> := map[];
    assert SumDictsSpec(none) == Ok(empty);
    assert StepOk(empty, ds[0]);
    var first := map["a" := Other("x"), "b" := Num(1)];
    assert StepDict(empty, ds[0]).value == first;
    assert Lookup(first, "b") == Some(Num(1));
    assert StepOk(first, ds[1]);
    assert StepDict(first, ds[1]).value == map["a" := Other("x"), "b" := Num(3)];
  }

}
