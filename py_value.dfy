/**
 * Python values as the hashing and nested-dict helpers see them, and the
 * built-in operations they call that are not modelled here (SHA-256 and
 * Python's own `hash`).
 */
module PyValue {

  /**
   * A Python value. Floats are modelled as exact reals; a dict is a finite
   * map (key order is not part of the value).
   */
  datatype Value =
    | NoneVal
    | Bool(b: bool)
    | Int(i: int)
    | Float(f: real)
    | Complex(re: real, im: real)
    | Str(s: string)
    | List(elems: seq<Value>)
    | Tuple(elems: seq<Value>)
    | Dict(entries: map<Value, Value>)

  type Byte = b: int | 0 <= b < 256

  /**
   * Operations of the Python runtime the source calls as black boxes:
   * `hashlib.sha256(data).digest()`, the built-in `hash` of a hashable value,
   * and `hash` of a frozenset.
   */
  datatype Builtins = Builtins(
    sha256: seq<Byte> -> seq<Byte>,
    hash: Value -> int,
    hashFrozenset: set<Value> -> int)

  /** `hash(frozenset(hashes))` of a collection of ints: duplicates and order are gone before hashing. */
  function HashOfHashes(h: Builtins, hashes: set<int>): int
  {
    h.hashFrozenset(set x | x in hashes :: Int(x))
  }

  /** Python's built-in `hash` accepts the value: no list or dict anywhere inside it. */
  predicate Hashable(v: Value)
  {
    match v
    case List(_) => false
    case Dict(_) => false
    case Tuple(xs) => forall x | x in xs :: Hashable(x)
    case _ => true
  }

  /** A well-formed Python dict: every key, at every level, is hashable. */
  predicate ValidKeys(v: Value)
  {
    match v
    case List(xs) => forall x | x in xs :: ValidKeys(x)
    case Tuple(xs) => forall x | x in xs :: ValidKeys(x)
    case Dict(m) => forall k | k in m :: Hashable(k) && ValidKeys(m[k])
    case _ => true
  }

  /** `int(x)` of a float: truncation toward zero. */
  function Trunc(r: real): (n: int)
    ensures 0.0 <= r ==> 0 <= n && n as real <= r < n as real + 1.0
    ensures r < 0.0 ==> n <= 0 && n as real - 1.0 < r <= n as real
  {
    if r >= 0.0 then r.Floor else -((-r).Floor)
  }
}
