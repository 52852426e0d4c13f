/** Python slices: negative bounds count from the end, and bounds out of range are cut. */
module Slicing {

  function SliceBound(i: int, n: nat): (b: nat)
    ensures b <= n
  {
    if i < 0 then (if i + n < 0 then 0 else i + n) else if i < n then i else n
  }

  function PySlice<T>(s: seq<T>, start: int, end: int): (r: seq<T>)
    ensures 0 <= start <= end <= |s| ==> r == s[start..end]
    ensures 0 <= start <= |s| < end ==> r == s[start..]
    ensures 0 <= start <= |s| + end < |s| ==> r == s[start..|s| + end]
    ensures start >= |s| || 0 <= end <= start ==> r == []
  {
    var lo, hi := SliceBound(start, |s|), SliceBound(end, |s|);
    if lo <= hi then s[lo..hi] else []
  }
}
