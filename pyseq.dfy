/** Python's indexing, slicing and `list.index` on sequences. */
module PySeq {
  import opened Wrappers

  /** A slice bound as Python normalises it: negative counts from the end, then clamped to [0, n]. */
  function SliceBound(i: int, n: nat): (r: nat)
    ensures r <= n
    ensures 0 <= i <= n ==> r == i
    ensures i < 0 && -i <= n ==> r == n + i
    ensures i > n ==> r == n
    ensures i < -(n as int) ==> r == 0
  {
    if i < 0 then (if n + i < 0 then 0 else n + i)
    else if i > n then n
    else i
  }

  /**
   * `s[i:j]`: never fails. Both bounds are normalised; the result holds the
   * elements from the first up to the second, none when they cross.
   */
  function Slice<T>(s: seq<T>, i: int, j: int): (r: seq<T>)
    ensures var a, b := SliceBound(i, |s|), SliceBound(j, |s|);
      |r| == (if a < b then b - a else 0) && forall k | 0 <= k < |r| :: r[k] == s[a + k]
    ensures 0 <= i <= j <= |s| ==> r == s[i..j]
    ensures 0 <= j <= i ==> r == []
    ensures |r| <= |s|
  {
    var a, b := SliceBound(i, |s|), SliceBound(j, |s|);
    if a < b then s[a..b] else []
  }

  /** `s[:i] + s[i:] == s` for every integer i, negative or out of range. */
  lemma SliceSplit<T>(s: seq<T>, i: int)
    ensures Slice(s, 0, i) + Slice(s, i, |s|) == s
  {
    var a := SliceBound(i, |s|);
    assert SliceBound(0, |s|) == 0 && SliceBound(|s|, |s|) == |s|;
    assert Slice(s, 0, i) == s[..a];
    assert Slice(s, i, |s|) == s[a..];
  }

  /** The position `s[i]` refers to in a sequence of length n, or IndexError. */
  function Index(i: int, n: nat): (r: Result<nat, PyError>)
    ensures r.Ok? <==> -(n as int) <= i < n
    ensures r.Ok? ==> r.value < n
    ensures r.Ok? && 0 <= i ==> r.value == i
    ensures r.Ok? && i < 0 ==> r.value == n + i
    ensures r.Err? ==> r.error == IndexError
  {
    if 0 <= i < n then Ok(i)
    else if -(n as int) <= i < 0 then Ok(n + i)
    else Err(IndexError)
  }

  /** `s[i]`: negative indices count from the end; anything else out of range raises IndexError. */
  function At<T>(s: seq<T>, i: int): (r: Result<T, PyError>)
    ensures r.Ok? <==> -|s| <= i < |s|
    ensures 0 <= i < |s| ==> r == Ok(s[i])
    ensures -|s| <= i < 0 ==> r == Ok(s[|s| + i])
    ensures r.Err? ==> r.error == IndexError
  {
    if 0 <= i < |s| then Ok(s[i])
    else if -|s| <= i < 0 then Ok(s[|s| + i])
    else Err(IndexError)
  }

  /** `s.index(x)`: the first position holding x, or ValueError. */
  function IndexOf<T(==)>(s: seq<T>, x: T): (r: Result<nat, PyError>)
    ensures r.Ok? <==> x in s
    ensures r.Ok? ==> r.value < |s| && s[r.value] == x && x !in s[..r.value]
    ensures r.Err? ==> r.error == ValueError
  {
    if |s| == 0 then Err(ValueError)
    else if s[0] == x then Ok(0)
    else match IndexOf(s[1..], x)
      case Ok(k) =>
        assert s[1..][..k] == s[1..k + 1];
        assert s[..k + 1] == [s[0]] + s[1..k + 1];
        Ok(k + 1)
      case Err(e) => Err(e)
  }
}
