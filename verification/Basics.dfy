/** What several tables have in common: bytes, and lists of indices that links run through. */
module Basics {
  type Byte = b: int | 0 <= b < 256

  /** A link of the source that points nowhere. */
  const NIL := -1

  ghost predicate Distinct(s: seq<int>) {
    forall i, j :: 0 <= i < j < |s| ==> s[i] != s[j]
  }

  /** Element k of a list, or NIL when k is off either end: the link that follows k - 1. */
  function At(s: seq<int>, k: int): int {
    if 0 <= k < |s| then s[k] else NIL
  }

  function Without(s: seq<int>, k: int): (t: seq<int>)
    requires 0 <= k < |s|
    ensures |t| == |s| - 1 && forall j :: 0 <= j < |t| ==> t[j] == if j < k then s[j] else s[j + 1]
  {
    s[..k] + s[k + 1..]
  }
}
