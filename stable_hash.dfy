/**
 * The cross-kernel stable hash of nested built-in structures
 * (strct/hash/_hash.py: `_stable_hash_primitive`, `_recursive_stable_hash`,
 * `stable_hash`).
 *
 * A dict is hashed as the frozenset of the hashes of its (key, value) items,
 * each item hashed as a 2-tuple; a list or tuple as the frozenset of its
 * element hashes; a string through SHA-256; numbers through `int()`.
 */
module StableHash {
  import opened Wrappers
  import opened PyValue
  import opened Iteration

  /** Why hashing raised TypeError, with the source's two messages. */
  datatype HashFailure =
    | UnhashableObject(obj: Value)  // "Object ... of unhashable type encountered!"
    | DictUnhashableValues          // "dict includes unhashable values."

  function Pow256(k: nat): (p: nat)
    ensures p >= 1
  {
    if k == 0 then 1 else 256 * Pow256(k - 1)
  }

  /** `int.from_bytes(bs, byteorder='little')`: unsigned, so below 256^|bs|. */
  function LittleEndian(bs: seq<Byte>): (n: nat)
    ensures n < Pow256(|bs|)
  {
    if bs == [] then 0
    else
      var rest := LittleEndian(bs[1..]);
      assert rest + 1 <= Pow256(|bs| - 1);
      assert 256 * (rest + 1) <= 256 * Pow256(|bs| - 1);
      bs[0] + 256 * rest
  }

  /** The UTF-8 encoding of one Unicode scalar value: one byte exactly for ASCII. */
  function Utf8Char(c: char): (bs: seq<Byte>)
    ensures 1 <= |bs| <= 4
    ensures |bs| == 1 <==> c as int < 0x80
    ensures c as int < 0x80 ==> bs == [c as int]
  {
    var n := c as int;
    if n < 0x80 then [n]
    else if n < 0x800 then [0xC0 + n / 0x40, 0x80 + n % 0x40]
    else if n < 0x10000 then [0xE0 + n / 0x1000, 0x80 + (n / 0x40) % 0x40, 0x80 + n % 0x40]
    else [0xF0 + n / 0x40000, 0x80 + (n / 0x1000) % 0x40, 0x80 + (n / 0x40) % 0x40, 0x80 + n % 0x40]
  }

  /** `s.encode('UTF-8')`: between one and four bytes per character. */
  function Utf8Encode(s: string): (bs: seq<Byte>)
    ensures |s| <= |bs| <= 4 * |s|
  {
    if s == [] then [] else Utf8Char(s[0]) + Utf8Encode(s[1..])
  }

  /** The hash of a string: SHA-256 of its UTF-8 bytes, read as a little-endian unsigned integer. */
  function StrDigest(h: Builtins, s: string): (n: nat)
    ensures |h.sha256(Utf8Encode(s))| == 32 ==> n < Pow256(32)
  {
    LittleEndian(h.sha256(Utf8Encode(s)))
  }

  /** `_stable_hash_primitive`: strings, then anything `int()` accepts, then complex numbers. */
  function StableHashPrimitive(h: Builtins, v: Value): (r: Result<int, HashFailure>)
    ensures r.Ok? <==> v.Str? || v.Bool? || v.Int? || v.Float? || v.Complex?
    ensures r.Err? ==> r.error == UnhashableObject(v)
  {
    match v
    case Str(s) => Ok(StrDigest(h, s))
    case Bool(b) => Ok(if b then 1 else 0)
    case Int(i) => Ok(i)
    case Float(f) => Ok(Trunc(f))
    case Complex(re, _) => Ok(Trunc(re))
    case _ => Err(UnhashableObject(v))
  }

  /** The hash of a 2-tuple whose two members hash to a and b. */
  function PairHash(h: Builtins, a: int, b: int): int
  {
    HashOfHashes(h, {a, b})
  }

  /** Every element of the list or tuple hashes. */
  predicate ElementsHash(h: Builtins, v: Value)
    requires v.List? || v.Tuple?
    decreases v, 0
  {
    forall x | x in v.elems :: StableHash(h, x).Ok?
  }

  /** Every item of the dict hashes: its key and its value. */
  predicate ItemsHash(h: Builtins, v: Value)
    requires v.Dict?
    decreases v, 0
  {
    forall k | k in v.entries :: StableHash(h, k).Ok? && StableHash(h, v.entries[k]).Ok?
  }

  /** The element hashes of a list or tuple whose elements all hash. */
  function ElementHashes(h: Builtins, v: Value): set<int>
    requires v.List? || v.Tuple?
    requires ElementsHash(h, v)
    decreases v, 1
  {
    set x | x in v.elems :: StableHash(h, x).value
  }

  /** The item hashes of a dict whose items all hash. */
  function ItemHashes(h: Builtins, v: Value): set<int>
    requires v.Dict? && ItemsHash(h, v)
    decreases v, 1
  {
    set k | k in v.entries :: PairHash(h, StableHash(h, k).value, StableHash(h, v.entries[k]).value)
  }

  /**
   * `stable_hash(obj)`, i.e. `_recursive_stable_hash(obj)`, as a value: a
   * dict goes to the mapping branch, a list or tuple to the iterable branch,
   * everything else (strings included) to `_stable_hash_primitive`. An
   * element that fails makes the iterable branch fall back to hashing the
   * container as a primitive, which fails too.
   */
  function StableHash(h: Builtins, v: Value): (r: Result<int, HashFailure>)
    ensures r.Err? ==> r.error == (if v.Dict? then DictUnhashableValues else UnhashableObject(v))
    decreases v, 2
  {
    match v
    case Dict(_) =>
      if ItemsHash(h, v) then Ok(HashOfHashes(h, ItemHashes(h, v))) else Err(DictUnhashableValues)
    case List(_) =>
      if ElementsHash(h, v) then Ok(HashOfHashes(h, ElementHashes(h, v))) else Err(UnhashableObject(v))
    case Tuple(_) =>
      if ElementsHash(h, v) then Ok(HashOfHashes(h, ElementHashes(h, v))) else Err(UnhashableObject(v))
    case _ => StableHashPrimitive(h, v)
  }

  /**
   * `_recursive_stable_hash`, with the loop that collects `item_hashes` over
   * `obj.items()` and the comprehension over an iterable. Dict items are
   * visited in an arbitrary order: the result is the same whatever the order.
   */
  method RecursiveStableHash(h: Builtins, obj: Value) returns (r: Result<int, HashFailure>)
    ensures r == StableHash(h, obj)
    decreases obj, 1
  {
    match obj {
      case Dict(m) =>
        r := HashMapping(h, obj, m);
      case List(xs) =>
        r := HashIterable(h, obj, xs);
      case Tuple(xs) =>
        r := HashIterable(h, obj, xs);
      case _ =>
        r := StableHashPrimitive(h, obj);
    }
  }

  /**
   * The mapping branch: the hash of each item `(k, v)` as a pair, collected
   * over `obj.items()`; an item that fails raises `DictUnhashableValues`.
   */
  method HashMapping(h: Builtins, obj: Value, m: map<Value, Value>) returns (r: Result<int, HashFailure>)
    requires obj.Dict? && m == obj.entries
    ensures r == StableHash(h, obj)
    decreases obj, 0
  {
    var itemHashes: seq<int> := [];
    var remaining := m.Keys;
    while remaining != {}
      invariant remaining <= m.Keys
      invariant forall k | k in m.Keys - remaining :: StableHash(h, k).Ok? && StableHash(h, m[k]).Ok?
      invariant forall x :: x in itemHashes <==> exists k | k in m.Keys - remaining ::
        x == PairHash(h, StableHash(h, k).value, StableHash(h, m[k]).value)
      decreases remaining
    {
      var k := Pick(remaining);
      var hk := RecursiveStableHash(h, k);
      var hv := RecursiveStableHash(h, m[k]);
      if hk.Err? || hv.Err? {
        return Err(DictUnhashableValues);
      }
      itemHashes := itemHashes + [PairHash(h, hk.value, hv.value)];
      remaining := remaining - {k};
    }
    assert m.Keys - remaining == m.Keys;
    assert (set x | x in itemHashes) == ItemHashes(h, obj) by {
      forall y | y in ItemHashes(h, obj) ensures y in itemHashes {
        var k :| k in m && y == PairHash(h, StableHash(h, k).value, StableHash(h, m[k]).value);
        assert k in m.Keys - remaining;
      }
      forall y | y in itemHashes ensures y in ItemHashes(h, obj) {
        var k :| k in m.Keys - remaining && y == PairHash(h, StableHash(h, k).value, StableHash(h, m[k]).value);
      }
    }
    r := Ok(HashOfHashes(h, set x | x in itemHashes));
  }

  /** The iterable branch: `frozenset([_recursive_stable_hash(i) for i in obj])`. */
  method HashIterable(h: Builtins, obj: Value, xs: seq<Value>) returns (r: Result<int, HashFailure>)
    requires obj.List? || obj.Tuple?
    requires xs == obj.elems
    ensures r == StableHash(h, obj)
    decreases obj, 0
  {
    var hashes: seq<int> := [];
    var i := 0;
    while i < |xs|
      invariant 0 <= i <= |xs|
      invariant forall j | 0 <= j < i :: StableHash(h, xs[j]).Ok?
      invariant |hashes| == i
      invariant forall j | 0 <= j < i :: hashes[j] == StableHash(h, xs[j]).value
    {
      var hx := RecursiveStableHash(h, xs[i]);
      if hx.Err? {
        return Err(UnhashableObject(obj));
      }
      hashes := hashes + [hx.value];
      i := i + 1;
    }
    assert (set x | x in hashes) == ElementHashes(h, obj) by {
      forall y | y in ElementHashes(h, obj) ensures y in hashes {
        var x :| x in xs && y == StableHash(h, x).value;
        var j :| 0 <= j < |xs| && xs[j] == x;
        assert hashes[j] == y;
      }
    }
    r := Ok(HashOfHashes(h, set x | x in hashes));
  }

  /** The values `stable_hash` accepts: no None anywhere inside, and nothing but the modelled kinds. */
  predicate Supported(v: Value)
    decreases v
  {
    match v
    case NoneVal => false
    case List(xs) => forall x | x in xs :: Supported(x)
    case Tuple(xs) => forall x | x in xs :: Supported(x)
    case Dict(m) => forall k | k in m :: Supported(k) && Supported(m[k])
    case _ => true
  }

  /** `stable_hash` succeeds exactly on the supported values and raises TypeError on the rest. */
  lemma {:induction false} StableHashOkIffSupported(h: Builtins, v: Value)
    ensures StableHash(h, v).Ok? <==> Supported(v)
    decreases v
  {
    match v
    case List(xs) =>
      forall x | x in xs ensures StableHash(h, x).Ok? <==> Supported(x) {
        StableHashOkIffSupported(h, x);
      }
    case Tuple(xs) =>
      forall x | x in xs ensures StableHash(h, x).Ok? <==> Supported(x) {
        StableHashOkIffSupported(h, x);
      }
    case Dict(m) =>
      forall k | k in m
        ensures (StableHash(h, k).Ok? <==> Supported(k)) && (StableHash(h, m[k]).Ok? <==> Supported(m[k]))
      {
        StableHashOkIffSupported(h, k);
        StableHashOkIffSupported(h, m[k]);
      }
    case _ =>
  }

  /** Which TypeError is raised: the dict message for a dict, the object message otherwise. */
  lemma FailureMessage(h: Builtins, v: Value)
    requires StableHash(h, v).Err?
    ensures v.Dict? ==> StableHash(h, v).error == DictUnhashableValues
    ensures !v.Dict? ==> StableHash(h, v).error == UnhashableObject(v)
  {
  }

  /** The primitive rules the docstring gives: `int()` for numbers and bools, real part of a complex. */
  lemma PrimitiveRules(h: Builtins)
    ensures StableHash(h, Float(2.2)) == Ok(2)
    ensures StableHash(h, Float(-2.7)) == Ok(-2)
    ensures StableHash(h, Complex(4.0, 5.0)) == Ok(4)
    ensures StableHash(h, Bool(true)) == Ok(1)
    ensures StableHash(h, Bool(false)) == Ok(0)
    ensures StableHash(h, Int(-7)) == Ok(-7)
    ensures StableHash(h, NoneVal) == Err(UnhashableObject(NoneVal))
  {
    assert Trunc(2.2) == 2;
    assert Trunc(-2.7) == -2;
  }

  /** A string hashes to a non-negative number below 2^256 when the digest has SHA-256's 32 bytes. */
  lemma StrHashRange(h: Builtins, s: string)
    requires |h.sha256(Utf8Encode(s))| == 32
    ensures StableHash(h, Str(s)).Ok?
    ensures 0 <= StableHash(h, Str(s)).value < Pow256(32)
  {
    assert StableHash(h, Str(s)) == StableHashPrimitive(h, Str(s));
    assert StableHashPrimitive(h, Str(s)) == Ok(StrDigest(h, s));
  }

  /**
   * A list or tuple is hashed through the set of its elements: two
   * sequences with the same elements, in any order and with any
   * repetitions, hash alike, whether list or tuple.
   */
  lemma {:induction false} IterableHashDependsOnElementSet(h: Builtins, a: Value, b: Value)
    requires a.List? || a.Tuple?
    requires b.List? || b.Tuple?
    requires forall x :: x in a.elems <==> x in b.elems
    ensures StableHash(h, a).Ok? <==> StableHash(h, b).Ok?
    ensures StableHash(h, a).Ok? ==> StableHash(h, a) == StableHash(h, b)
  {
    assert ElementsHash(h, a) <==> ElementsHash(h, b);
    if ElementsHash(h, a) {
      assert ElementHashes(h, a) == ElementHashes(h, b);
    }
  }

  /** Reordering a list does not change whether it hashes, nor its hash. */
  lemma ListHashIgnoresOrder(h: Builtins, xs: seq<Value>, ys: seq<Value>)
    requires multiset(xs) == multiset(ys)
    ensures StableHash(h, List(xs)).Ok? <==> StableHash(h, List(ys)).Ok?
    ensures StableHash(h, List(xs)).Ok? ==> StableHash(h, List(xs)) == StableHash(h, List(ys))
  {
    forall x ensures x in xs <==> x in ys {
      assert x in xs <==> x in multiset(xs);
      assert x in ys <==> x in multiset(ys);
    }
    IterableHashDependsOnElementSet(h, List(xs), List(ys));
  }

  /** Repeating an element of a list does not change whether it hashes, nor its hash. */
  lemma ListHashIgnoresDuplicates(h: Builtins, xs: seq<Value>, i: nat)
    requires i < |xs|
    ensures StableHash(h, List(xs + [xs[i]])).Ok? <==> StableHash(h, List(xs)).Ok?
    ensures StableHash(h, List(xs)).Ok? ==> StableHash(h, List(xs + [xs[i]])) == StableHash(h, List(xs))
  {
    IterableHashDependsOnElementSet(h, List(xs + [xs[i]]), List(xs));
  }

  /** A list and a tuple with the same elements hash alike. */
  lemma ListAndTupleHashAlike(h: Builtins, xs: seq<Value>)
    ensures StableHash(h, List(xs)).Ok? <==> StableHash(h, Tuple(xs)).Ok?
    ensures StableHash(h, List(xs)).Ok? ==> StableHash(h, List(xs)) == StableHash(h, Tuple(xs))
  {
    IterableHashDependsOnElementSet(h, List(xs), Tuple(xs));
  }

  /** The hashes of a dict's items, each hashed as a stand-alone 2-tuple. */
  function ItemTupleHashes(h: Builtins, m: map<Value, Value>): set<int>
    requires forall k | k in m :: StableHash(h, Tuple([k, m[k]])).Ok?
  {
    set k | k in m :: StableHash(h, Tuple([k, m[k]])).value
  }

  /**
   * The mapping branch hashes each `(key, value)` item exactly as the
   * 2-tuple `(key, value)` would be hashed on its own.
   */
  lemma DictItemsHashAsPairs(h: Builtins, m: map<Value, Value>)
    requires StableHash(h, Dict(m)).Ok?
    ensures forall k | k in m :: StableHash(h, Tuple([k, m[k]])).Ok?
    ensures StableHash(h, Dict(m)).value == HashOfHashes(h, ItemTupleHashes(h, m))
  {
    forall k | k in m
      ensures StableHash(h, Tuple([k, m[k]])) == Ok(PairHash(h, StableHash(h, k).value, StableHash(h, m[k]).value))
    {
      var t := Tuple([k, m[k]]);
      assert ElementsHash(h, t);
      assert ElementHashes(h, t) == {StableHash(h, k).value, StableHash(h, m[k]).value};
    }
    var pairs := ItemTupleHashes(h, m);
    forall y | y in pairs ensures y in ItemHashes(h, Dict(m)) {
      var k :| k in m && y == StableHash(h, Tuple([k, m[k]])).value;
    }
    forall y | y in ItemHashes(h, Dict(m)) ensures y in pairs {
      var k :| k in m && y == PairHash(h, StableHash(h, k).value, StableHash(h, m[k]).value);
    }
    assert ItemHashes(h, Dict(m)) == pairs;
  }
}
