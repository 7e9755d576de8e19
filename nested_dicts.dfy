/**
 * Reading and writing nested dicts by a key path (strct/dicts/_dict.py):
 * `get_nested_val`, `safe_nested_val` and `put_nested_val`, over Python's
 * subscript `obj[key]` and item assignment `obj[key] = value`.
 */
module NestedDicts {
  import opened Wrappers
  import opened PyValue
  import opened PySeq
  import opened DictMutators

  /** A value Python accepts as a list index: an int, or a bool as 0 or 1. */
  function AsIndex(key: Value): (r: Option<int>)
    ensures r.Some? <==> key.Int? || key.Bool?
  {
    match key
    case Int(i) => Some(i)
    case Bool(b) => Some(if b then 1 else 0)
    case _ => None
  }

  /** The position `xs[key]` refers to in a sequence of length n. */
  function Position(key: Value, n: nat): (r: Result<nat, PyError>)
    ensures r.Ok? ==> r.value < n
    ensures r.Err? ==> r.error == TypeError || r.error == IndexError
    ensures r.Ok? <==> AsIndex(key).Some? && -(n as int) <= AsIndex(key).value < n
  {
    match AsIndex(key)
    case None => Err(TypeError)
    case Some(i) => Index(i, n)
  }

  /** A list, tuple or dict: something whose items `put_nested_val` can descend into and change. */
  predicate IsContainer(v: Value)
  {
    v.Dict? || v.List? || v.Tuple?
  }

  /**
   * `obj[key]`: a dict looks the key up (TypeError for an unhashable key,
   * KeyError for a missing one); a list, tuple or str is indexed by an int
   * (TypeError for any other key, IndexError out of range); nothing else is
   * subscriptable.
   */
  function Subscript(obj: Value, key: Value): (r: Result<Value, PyError>)
    ensures r.Err? ==> r.error != ValueError
    ensures r.Err? && r.error == KeyError ==> obj.Dict? && Hashable(key) && key !in obj.entries
    ensures obj.Dict? && key in obj.entries && Hashable(key) ==> r == Ok(obj.entries[key])
    ensures obj.Dict? && !Hashable(key) ==> r == Err(TypeError)
    ensures !(IsContainer(obj) || obj.Str?) ==> r == Err(TypeError)
  {
    match obj
    case Dict(m) =>
      if !Hashable(key) then Err(TypeError)
      else if key in m then Ok(m[key])
      else Err(KeyError)
    case List(xs) =>
      (match Position(key, |xs|)
       case Ok(p) => Ok(xs[p])
       case Err(e) => Err(e))
    case Tuple(xs) =>
      (match Position(key, |xs|)
       case Ok(p) => Ok(xs[p])
       case Err(e) => Err(e))
    case Str(s) =>
      (match Position(key, |s|)
       case Ok(p) => Ok(Str([s[p]]))
       case Err(e) => Err(e))
    case _ => Err(TypeError)
  }

  /**
   * `obj[key] = value`: a dict stores under any hashable key, a list
   * replaces an item in range; tuples, strings and scalars refuse.
   */
  function Assign(obj: Value, key: Value, value: Value): (r: Result<Value, PyError>)
    ensures r.Ok? <==> (obj.Dict? && Hashable(key)) || (obj.List? && Position(key, |obj.elems|).Ok?)
    ensures r.Ok? ==> Subscript(r.value, key) == Ok(value)
    ensures r.Ok? && obj.Dict? ==> r.value.Dict? && SameExceptAt(obj.entries, r.value.entries, key)
    ensures r.Err? ==> r.error == TypeError || r.error == IndexError
  {
    match obj
    case Dict(m) =>
      if Hashable(key) then Ok(Dict(m[key := value])) else Err(TypeError)
    case List(xs) =>
      (match Position(key, |xs|)
       case Ok(p) => Ok(List(xs[p := value]))
       case Err(e) => Err(e))
    case _ => Err(TypeError)
  }

  /**
   * The container after the item `obj[key]` became `child`: how a change
   * made inside a nested dict shows through its parent, which holds it by
   * reference.
   */
  function SetChild(obj: Value, key: Value, child: Value): (r: Value)
    ensures IsContainer(obj) && (Subscript(obj, key).Ok? || Subscript(obj, key) == Err(KeyError)) ==>
      Subscript(r, key) == Ok(child)
    ensures obj.Dict? ==> r.Dict? && SameExceptAt(obj.entries, r.entries, key)
  {
    match obj
    case Dict(m) => Dict(m[key := child])
    case List(xs) =>
      (match Position(key, |xs|)
       case Ok(p) => List(xs[p := child])
       case Err(_) => obj)
    case Tuple(xs) =>
      (match Position(key, |xs|)
       case Ok(p) => Tuple(xs[p := child])
       case Err(_) => obj)
    case _ => obj
  }

  /**
   * `get_nested_val(key_tuple, dict_obj)`: one subscript per key. An empty
   * path raises IndexError (`key_tuple[0]`).
   */
  function GetNestedVal(path: seq<Value>, obj: Value): (r: Result<Value, PyError>)
    ensures r.Err? ==> r.error != ValueError
    ensures |path| == 0 ==> r == Err(IndexError)
    ensures |path| == 1 ==> r == Subscript(obj, path[0])
    decreases |path|
  {
    if |path| == 1 then Subscript(obj, path[0])
    else if |path| == 0 then Err(IndexError)
    else match Subscript(obj, path[0])
      case Ok(child) => GetNestedVal(path[1..], child)
      case Err(e) => Err(e)
  }

  /** Following a longer path is following the shorter one, then one more subscript. */
  lemma {:induction false} GetNestedValOneLevelPerKey(path: seq<Value>, key: Value, obj: Value)
    requires |path| >= 1
    ensures GetNestedVal(path + [key], obj) ==
      match GetNestedVal(path, obj)
      case Ok(x) => Subscript(x, key)
      case Err(e) => Err(e)
    decreases |path|
  {
    assert (path + [key])[0] == path[0];
    if |path| > 1 {
      assert (path + [key])[1..] == path[1..] + [key];
      match Subscript(obj, path[0])
      case Ok(child) => GetNestedValOneLevelPerKey(path[1..], key, child);
      case Err(e) =>
    } else {
      assert (path + [key])[1..] == [key];
    }
  }

  /**
   * `safe_nested_val(key_tuple, dict_obj, default_value)`: the nested value,
   * or the default where `get_nested_val` raises KeyError, IndexError or
   * TypeError, which are all it raises.
   */
  function SafeNestedVal(path: seq<Value>, obj: Value, default: Value): (r: Value)
    ensures GetNestedVal(path, obj).Ok? ==> r == GetNestedVal(path, obj).value
    ensures GetNestedVal(path, obj).Err? ==> r == default
  {
    match GetNestedVal(path, obj)
    case Ok(x) => x
    case Err(e) =>
      assert e == KeyError || e == IndexError || e == TypeError;
      default
  }

  /**
   * `put_nested_val` from `current_dict = cur` on: subscript down the path,
   * creating `{}` where a dict lacks the key, then assign the last key. The
   * result is the new `cur` and the exception raised, if any; changes made
   * before the exception (dicts already created) stay.
   */
  function PutIn(cur: Value, path: seq<Value>, value: Value): (r: (Value, Option<PyError>))
    requires |path| >= 1
    ensures r.1.Some? ==> r.1.value == TypeError || r.1.value == IndexError
    ensures cur.Dict? ==> r.0.Dict? && SameExceptAt(cur.entries, r.0.entries, path[0])
    ensures !IsContainer(cur) ==> r.0 == cur && r.1.Some?
    decreases |path|
  {
    if |path| == 1 then
      match Assign(cur, path[0], value)
      case Ok(c) => (c, None)
      case Err(e) => (cur, Some(e))
    else
      match Subscript(cur, path[0])
      case Ok(child) =>
        var (c, e) := PutIn(child, path[1..], value);
        (SetChild(cur, path[0], c), e)
      case Err(e) =>
        if e == KeyError then
          var (c, e') := PutIn(Dict(map[]), path[1..], value);
          (SetChild(cur, path[0], c), e')
        else (cur, Some(e))
  }

  /** `put_nested_val(dict_obj, key_tuple, value)` on a dict value: the new dict and the exception raised, if any. */
  function PutNested(root: Value, path: seq<Value>, value: Value): (r: (Value, Option<PyError>))
    ensures |path| == 0 ==> r == (root, Some(IndexError))
    ensures root.Dict? ==> r.0.Dict?
    ensures root.Dict? && |path| > 0 ==> SameExceptAt(root.entries, r.0.entries, path[0])
  {
    if |path| == 0 then (root, Some(IndexError)) else PutIn(root, path, value)
  }

  /** After a put that raised nothing, getting the same path yields the value put. */
  lemma {:induction false} GetAfterPutIn(cur: Value, path: seq<Value>, value: Value)
    requires |path| >= 1 && PutIn(cur, path, value).1 == None
    ensures GetNestedVal(path, PutIn(cur, path, value).0) == Ok(value)
    decreases |path|
  {
    if |path| > 1 {
      match Subscript(cur, path[0])
      case Ok(child) =>
        GetAfterPutIn(child, path[1..], value);
      case Err(e) =>
        if e == KeyError {
          GetAfterPutIn(Dict(map[]), path[1..], value);
        }
    }
  }

  /** `put_nested_val` then `get_nested_val` with the same path returns the value put. */
  lemma GetAfterPut(root: Value, path: seq<Value>, value: Value)
    requires PutNested(root, path, value).1 == None
    ensures GetNestedVal(path, PutNested(root, path, value).0) == Ok(value)
  {
    GetAfterPutIn(root, path, value);
  }

  /**
   * The key path `q` leaves `path` at some level: the levels before that
   * are dicts that already hold the shared keys, and at that level `q`
   * takes a different key.
   */
  predicate Diverges(cur: Value, path: seq<Value>, q: seq<Value>)
    decreases |path|
  {
    |path| >= 1 && |q| >= 1 && cur.Dict? &&
    (q[0] != path[0] ||
     (|path| > 1 && |q| > 1 && q[0] in cur.entries && Diverges(cur.entries[q[0]], path[1..], q[1..])))
  }

  /** A put leaves every entry off its path as it was, in the nested dicts along the path too. */
  lemma {:induction false} PutInKeepsOffPath(cur: Value, path: seq<Value>, value: Value, q: seq<Value>)
    requires Diverges(cur, path, q)
    ensures GetNestedVal(q, PutIn(cur, path, value).0) == GetNestedVal(q, cur)
    decreases |path|
  {
    var r := PutIn(cur, path, value).0;
    if q[0] != path[0] {
      assert Subscript(r, q[0]) == Subscript(cur, q[0]);
    } else {
      match Subscript(cur, path[0])
      case Ok(child) =>
        PutInKeepsOffPath(child, path[1..], value, q[1..]);
      case Err(e) =>
    }
  }

  /** `put_nested_val` leaves every key path that leaves its own path at an existing dict unchanged. */
  lemma PutKeepsOffPath(root: Value, path: seq<Value>, value: Value, q: seq<Value>)
    requires Diverges(root, path, q)
    ensures GetNestedVal(q, PutNested(root, path, value).0) == GetNestedVal(q, root)
  {
    PutInKeepsOffPath(root, path, value, q);
  }

  /**
   * A path `put_nested_val` can always follow: every key hashable, and each
   * level a dict, or missing (then created empty).
   */
  predicate Walkable(cur: Value, path: seq<Value>)
    decreases |path|
  {
    |path| >= 1 && cur.Dict? && Hashable(path[0]) &&
    (|path| > 1 ==>
      Walkable(if path[0] in cur.entries then cur.entries[path[0]] else Dict(map[]), path[1..]))
  }

  /** On a walkable path the put succeeds: missing intermediate dicts are created. */
  lemma {:induction false} WalkableSucceeds(cur: Value, path: seq<Value>, value: Value)
    requires Walkable(cur, path)
    ensures PutIn(cur, path, value).1 == None
    decreases |path|
  {
    if |path| > 1 {
      var next := if path[0] in cur.entries then cur.entries[path[0]] else Dict(map[]);
      WalkableSucceeds(next, path[1..], value);
    }
  }

  /** The containers passed on the way down, each with the key followed out of it. */
  datatype Frame = Frame(container: Value, key: Value)

  /** Put the changed innermost value back into each enclosing container, innermost first. */
  function Rebuild(frames: seq<Frame>, c: Value): Value
    decreases |frames|
  {
    if |frames| == 0 then c
    else
      var last := frames[|frames| - 1];
      Rebuild(frames[..|frames| - 1], SetChild(last.container, last.key, c))
  }

  lemma RebuildSnoc(frames: seq<Frame>, f: Frame, c: Value)
    ensures Rebuild(frames + [f], c) == Rebuild(frames, SetChild(f.container, f.key, c))
  {
    assert (frames + [f])[..|frames|] == frames;
  }

  /**
   * After descending `i` keys of `path` from `root`, with `frames` the
   * containers passed and `cur` the current value: the put from `root` is
   * the put from `cur` on the rest of the path, rebuilt into the frames.
   */
  ghost predicate Descended(root: Value, path: seq<Value>, value: Value, frames: seq<Frame>, cur: Value, i: nat)
  {
    i < |path| &&
    PutIn(root, path, value) == (Rebuild(frames, PutIn(cur, path[i..], value).0), PutIn(cur, path[i..], value).1)
  }

  /** Following the key `path[i]` into an existing child, or into a new `{}`, keeps `Descended`. */
  lemma DescendStep(root: Value, path: seq<Value>, value: Value, frames: seq<Frame>, cur: Value, i: nat, next: Value)
    requires i < |path| - 1 && Descended(root, path, value, frames, cur, i)
    requires Subscript(cur, path[i]) == Ok(next) || (Subscript(cur, path[i]) == Err(KeyError) && next == Dict(map[]))
    ensures Descended(root, path, value, frames + [Frame(cur, path[i])], next, i + 1)
  {
    assert path[i..][0] == path[i] && path[i..][1..] == path[i + 1..];
    RebuildSnoc(frames, Frame(cur, path[i]), PutIn(next, path[i + 1..], value).0);
  }

  /** Any other exception from subscripting stops the walk with nothing below `cur` changed. */
  lemma StopStep(root: Value, path: seq<Value>, value: Value, frames: seq<Frame>, cur: Value, i: nat)
    requires i < |path| - 1 && Descended(root, path, value, frames, cur, i)
    requires Subscript(cur, path[i]).Err? && Subscript(cur, path[i]).error != KeyError
    ensures PutIn(root, path, value) == (Rebuild(frames, cur), Some(Subscript(cur, path[i]).error))
  {
    assert path[i..][0] == path[i];
  }

  /** At the last key the put is the assignment into `cur`. */
  lemma AssignStep(root: Value, path: seq<Value>, value: Value, frames: seq<Frame>, cur: Value)
    requires |path| >= 1 && Descended(root, path, value, frames, cur, |path| - 1)
    ensures Assign(cur, path[|path| - 1], value).Ok? ==>
      PutIn(root, path, value) == (Rebuild(frames, Assign(cur, path[|path| - 1], value).value), None)
    ensures Assign(cur, path[|path| - 1], value).Err? ==>
      PutIn(root, path, value) == (Rebuild(frames, cur), Some(Assign(cur, path[|path| - 1], value).error))
  {
    assert path[|path| - 1..] == [path[|path| - 1]];
  }

  /**
   * The walk of `put_nested_val` from `root`: follow all keys but the last,
   * creating `{}` for a missing key, then assign the last key into the
   * innermost value `cur`. `frames` are the containers passed on the way;
   * rebuilding them around `cur` gives the put.
   */
  method Descend(root: Value, path: seq<Value>, value: Value) returns (frames: seq<Frame>, cur: Value, err: Option<PyError>)
    requires |path| >= 1
    ensures PutIn(root, path, value) == (Rebuild(frames, cur), err)
  {
    cur := root;
    frames := [];
    var i := 0;
    err := None;
    assert path[0..] == path;
    while i < |path| - 1
      invariant 0 <= i <= |path| - 1 && |frames| == i
      invariant err == None && Descended(root, path, value, frames, cur, i)
      decreases |path| - i
    {
      match Subscript(cur, path[i]) {
        case Ok(child) =>
          DescendStep(root, path, value, frames, cur, i, child);
          frames := frames + [Frame(cur, path[i])];
          cur := child;
        case Err(e) =>
          if e == KeyError {
            DescendStep(root, path, value, frames, cur, i, Dict(map[]));
            frames := frames + [Frame(cur, path[i])];
            cur := Dict(map[]);
          } else {
            StopStep(root, path, value, frames, cur, i);
            err := Some(e);
            return;
          }
      }
      i := i + 1;
    }
    AssignStep(root, path, value, frames, cur);
    match Assign(cur, path[|path| - 1], value) {
      case Ok(c) => cur := c;
      case Err(e) => err := Some(e);
    }
  }

  /** Store the changed value back into each container passed, innermost first. */
  method StoreBack(frames: seq<Frame>, c: Value) returns (r: Value)
    ensures r == Rebuild(frames, c)
  {
    r := c;
    var j := |frames|;
    assert frames[..j] == frames;
    while j > 0
      invariant 0 <= j <= |frames|
      invariant Rebuild(frames, c) == Rebuild(frames[..j], r)
      decreases j
    {
      assert frames[..j][..j - 1] == frames[..j - 1];
      r := SetChild(frames[j - 1].container, frames[j - 1].key, r);
      j := j - 1;
    }
  }

  /**
   * `put_nested_val(dict_obj, key_tuple, value)` on the dict `d`. The dict
   * afterwards, and the exception raised, are those of `PutNested`.
   */
  method PutNestedVal(d: PyDict<Value, Value>, path: seq<Value>, value: Value) returns (err: Option<PyError>)
    modifies d
    ensures (Dict(d.entries), err) == PutNested(Dict(old(d.entries)), path, value)
  {
    if |path| == 0 {
      return Some(IndexError);
    }
    var frames, cur;
    frames, cur, err := Descend(Dict(d.entries), path, value);
    var r := StoreBack(frames, cur);
    d.entries := r.entries;
  }

  /**
   * The documented examples of `get_nested_val` and `safe_nested_val`.
   * `('d')` is the string `'d'`, which iterates as the one-key path `d`.
   */
  lemma GetDocumentedExamples()
    ensures GetNestedVal([Str("a"), Str("b")], Dict(map[Str("a") := Dict(map[Str("b") := Int(7)])])) == Ok(Int(7))
    ensures SafeNestedVal([Str("a"), Str("c")], Dict(map[Str("a") := Dict(map[Str("b") := Int(7)])]), NoneVal) == NoneVal
    ensures SafeNestedVal([Str("a"), Str("c")], Dict(map[Str("a") := Dict(map[Str("b") := Int(7)])]), Int(5)) == Int(5)
    ensures SafeNestedVal([Str("d")], Dict(map[Str("a") := Dict(map[Str("b") := Int(7)])]), Int(5)) == Int(5)
  {
    var inner := Dict(map[Str("b") := Int(7)]);
    assert Subscript(Dict(map[Str("a") := inner]), Str("a")) == Ok(inner);
    assert [Str("a"), Str("b")][1..] == [Str("b")];
    assert [Str("a"), Str("c")][1..] == [Str("c")];
    assert Subscript(inner, Str("c")) == Err(KeyError);
    assert Subscript(Dict(map[Str("a") := inner]), Str("d")) == Err(KeyError);
  }

  /** `put_nested_val(d, ('a', 'b'), 7)` on `{'a': {'h': 3}}` adds `b` beside `h`. */
  lemma PutDocumentedExample1()
    ensures PutNested(Dict(map[Str("a") := Dict(map[Str("h") := Int(3)])]), [Str("a"), Str("b")], Int(7)) ==
      (Dict(map[Str("a") := Dict(map[Str("h") := Int(3), Str("b") := Int(7)])]), None)
  {
    var inner := Dict(map[Str("h") := Int(3)]);
    var put := Dict(map[Str("h") := Int(3), Str("b") := Int(7)]);
    assert Subscript(Dict(map[Str("a") := inner]), Str("a")) == Ok(inner);
    assert [Str("a"), Str("b")][1..] == [Str("b")];
    assert PutIn(inner, [Str("b")], Int(7)) == (put, None);
    assert SetChild(Dict(map[Str("a") := inner]), Str("a"), put) == Dict(map[Str("a") := put]);
  }

  /** Putting again under the same path overwrites: 7 becomes 12. */
  lemma PutDocumentedExample2()
    ensures PutNested(Dict(map[Str("a") := Dict(map[Str("h") := Int(3), Str("b") := Int(7)])]), [Str("a"), Str("b")], Int(12)) ==
      (Dict(map[Str("a") := Dict(map[Str("h") := Int(3), Str("b") := Int(12)])]), None)
  {
    var inner := Dict(map[Str("h") := Int(3), Str("b") := Int(7)]);
    assert Subscript(Dict(map[Str("a") := inner]), Str("a")) == Ok(inner);
    assert [Str("a"), Str("b")][1..] == [Str("b")];
    var put := Dict(map[Str("h") := Int(3), Str("b") := Int(12)]);
    assert map[Str("h") := Int(3), Str("b") := Int(7)][Str("b") := Int(12)] == map[Str("h") := Int(3), Str("b") := Int(12)];
    assert PutIn(inner, [Str("b")], Int(12)) == (put, None);
    assert SetChild(Dict(map[Str("a") := inner]), Str("a"), put) == Dict(map[Str("a") := put]);
  }

  /** `put_nested_val(d, ('a', 'g', 'z'), 14)` creates the missing dict at `g`. */
  lemma PutDocumentedExample3()
    ensures PutNested(Dict(map[Str("a") := Dict(map[Str("h") := Int(3)])]), [Str("a"), Str("g"), Str("z")], Int(14)) ==
      (Dict(map[Str("a") := Dict(map[Str("h") := Int(3), Str("g") := Dict(map[Str("z") := Int(14)])])]), None)
  {
    var inner := Dict(map[Str("h") := Int(3)]);
    var path := [Str("a"), Str("g"), Str("z")];
    assert path[1..] == [Str("g"), Str("z")] && path[1..][1..] == [Str("z")];
    assert Subscript(Dict(map[Str("a") := inner]), Str("a")) == Ok(inner);
    assert Subscript(inner, Str("g")) == Err(KeyError);
    var z := Dict(map[Str("z") := Int(14)]);
    var put := Dict(map[Str("h") := Int(3), Str("g") := z]);
    assert PutIn(Dict(map[]), [Str("z")], Int(14)) == (z, None);
    assert PutIn(inner, path[1..], Int(14)) == (put, None);
    assert SetChild(Dict(map[Str("a") := inner]), Str("a"), put) == Dict(map[Str("a") := put]);
  }

  /** `put_nested_val(d, ['base'], 88)`: a one-key path (here a list) sets the key of `d` itself. */
  lemma PutDocumentedExample4(m: map<Value, Value>)
    ensures PutNested(Dict(m), [Str("base")], Int(88)) == (Dict(m[Str("base") := Int(88)]), None)
  {
  }

  /**
   * Changes made before an exception stay: putting under `('y', [1])` into
   * `{}` creates `y: {}`, then raises TypeError on the unhashable last key.
   */
  lemma PartialChangeOnError()
    ensures PutNested(Dict(map[]), [Str("y"), List([Int(1)])], Int(0)) ==
      (Dict(map[Str("y") := Dict(map[])]), Some(TypeError))
  {
    var path := [Str("y"), List([Int(1)])];
    assert path[1..] == [List([Int(1)])];
    assert !Hashable(List([Int(1)]));
  }
}
