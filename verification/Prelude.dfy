/** Small shared datatypes and Python's sequence conventions. */
module Prelude {
  datatype Option<+T> = None | Some(value: T)

  datatype Result<+T, +E> = Success(value: T) | Failure(error: E)

  /** Python's `s[:k]`, where a negative bound counts from the end. */
  function Take<T>(s: seq<T>, k: int): (t: seq<T>)
    ensures t <= s
    ensures 0 <= k <= |s| ==> t == s[..k]
  {
    if k >= |s| then s
    else if k >= 0 then s[..k]
    else if -k >= |s| then []
    else s[..|s| + k]
  }

  /** Python's reading of a slice bound: negative bounds count from the end, both ends are clamped. */
  function SliceBound(n: nat, k: int): (b: nat)
    ensures b <= n
  {
    if k >= n then n else if k >= 0 then k else if -k >= n then 0 else n + k
  }

  /** Python's `s[lo:hi]`. */
  function Slice<T>(s: seq<T>, lo: int, hi: int): (t: seq<T>)
    ensures 0 <= lo <= hi <= |s| ==> t == s[lo..hi]
  {
    var a, b := SliceBound(|s|, lo), SliceBound(|s|, hi);
    if a <= b then s[a..b] else []
  }
}
