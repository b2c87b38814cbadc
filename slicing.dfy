/** Python's slice forms on sequences, written out because the model depends on their edge cases. */
module Slicing {

  /** `s[start:]`: everything from position `start` on, empty when `start` is past the end. */
  function SliceFrom<T>(s: seq<T>, start: nat): (r: seq<T>)
    ensures start <= |s| ==> |r| == |s| - start && s[..start] + r == s
    ensures forall k :: 0 <= k < |r| ==> start + k < |s| && r[k] == s[start + k]
    ensures start >= |s| ==> r == []
  {
    if start <= |s| then
      assert s[..start] + s[start..] == s;
      s[start..]
    else []
  }

  /** `s[:stop]`: the prefix before position `stop`, where a negative `stop`
      counts back from the end. Python reads `-0` as `0`, so `s[:-0]` is empty. */
  function SliceUpTo<T>(s: seq<T>, stop: int): (r: seq<T>)
    ensures r <= s
    ensures 0 <= stop <= |s| ==> |r| == stop
    ensures stop > |s| ==> r == s
    ensures 0 < -stop <= |s| ==> |r| == |s| + stop
    ensures -stop > |s| ==> r == []
  {
    if stop >= 0 then
      (if stop <= |s| then s[..stop] else s)
    else if -stop <= |s| then s[..|s| + stop]
    else []
  }
}
