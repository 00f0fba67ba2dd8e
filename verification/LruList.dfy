/** The doubly linked chain of idle buffers (src/fs/buf.h:53-55), as a list of table indices. */
module LruList {
  import opened Basics
  import opened BlockTypes

  ghost predicate LinkedAt(b: seq<Buf>, lru: seq<int>, k: int) {
    && 0 <= k < |lru| && 0 <= lru[k] < |b|
    && b[lru[k]].next == At(lru, k + 1) && b[lru[k]].prev == At(lru, k - 1)
  }

  /** front/rear and the next/prev links spell out exactly the list lru. */
  ghost predicate IsLru(b: seq<Buf>, front: int, rear: int, lru: seq<int>) {
    && Distinct(lru)
    && front == At(lru, 0) && rear == At(lru, |lru| - 1)
    && forall k {:trigger LinkedAt(b, lru, k)} :: 0 <= k < |lru| ==> LinkedAt(b, lru, k)
  }

  /** The list holds exactly the buffers nobody uses, leaving out x. */
  ghost predicate Idle(b: seq<Buf>, lru: seq<int>, x: int) {
    forall i :: 0 <= i < |b| ==> (i in lru <==> b[i].count == 0 && i != x)
  }

  /** Only LRU links differ. */
  ghost predicate SameButLru(b: seq<Buf>, c: seq<Buf>) {
    && |b| == |c|
    && forall i :: 0 <= i < |b| ==> c[i] == b[i].(next := c[i].next, prev := c[i].prev)
  }

  /** Only the prev link of n and the next link of p may differ. */
  ghost predicate Relinked(b: seq<Buf>, c: seq<Buf>, n: int, p: int) {
    && SameButLru(b, c)
    && forall i :: 0 <= i < |b| ==> (i != n ==> c[i].prev == b[i].prev) && (i != p ==> c[i].next == b[i].next)
  }

  lemma MemberIsLinked(b: seq<Buf>, front: int, rear: int, lru: seq<int>, i: int) returns (k: int)
    requires IsLru(b, front, rear, lru) && i in lru
    ensures 0 <= k < |lru| && lru[k] == i && LinkedAt(b, lru, k)
  {
    k :| 0 <= k < |lru| && lru[k] == i;
  }

  /** Joining the neighbours of element k takes it out of the list. */
  lemma UnlinkLru(b: seq<Buf>, c: seq<Buf>, front: int, rear: int, lru: seq<int>, k: int, n: int, p: int)
    requires IsLru(b, front, rear, lru) && 0 <= k < |lru|
    requires n == At(lru, k + 1) && p == At(lru, k - 1)
    requires Relinked(b, c, n, p)
    requires n >= 0 ==> n < |c| && c[n].prev == p
    requires p >= 0 ==> p < |c| && c[p].next == n
    ensures IsLru(c, if p >= 0 then front else n, if n >= 0 then rear else p, Without(lru, k))
  {
    var l := Without(lru, k);
    forall j | 0 <= j < |l|
      ensures LinkedAt(c, l, j)
    {
      var o := if j < k then j else j + 1;
      assert l[j] == lru[o];
      assert LinkedAt(b, lru, o);
      assert LinkedAt(b, lru, k);
    }
    if k > 0 { assert LinkedAt(b, lru, k - 1); }
    if k + 1 < |lru| { assert LinkedAt(b, lru, k + 1); }
  }

  lemma PushFront(b: seq<Buf>, c: seq<Buf>, front: int, rear: int, lru: seq<int>, x: int)
    requires IsLru(b, front, rear, lru) && 0 <= x < |b| && x !in lru
    requires |c| == |b| && c[x].prev == NIL && c[x].next == front
    requires forall i :: 0 <= i < |b| && i != x ==>
                c[i].next == b[i].next && c[i].prev == if i == front then x else b[i].prev
    ensures IsLru(c, x, if front == NIL then x else rear, [x] + lru)
  {
    var l := [x] + lru;
    if lru != [] { assert LinkedAt(b, lru, 0); }
    forall j | 0 <= j < |l|
      ensures LinkedAt(c, l, j)
    {
      if j > 0 {
        assert l[j] == lru[j - 1];
        assert LinkedAt(b, lru, j - 1);
        assert lru[j - 1] in lru;
      }
    }
  }

  lemma PushRear(b: seq<Buf>, c: seq<Buf>, front: int, rear: int, lru: seq<int>, x: int)
    requires IsLru(b, front, rear, lru) && 0 <= x < |b| && x !in lru
    requires |c| == |b| && c[x].prev == rear && c[x].next == NIL
    requires forall i :: 0 <= i < |b| && i != x ==>
                c[i].prev == b[i].prev && c[i].next == if i == rear then x else b[i].next
    ensures IsLru(c, if rear == NIL then x else front, x, lru + [x])
  {
    var l := lru + [x];
    if lru != [] { assert LinkedAt(b, lru, |lru| - 1); }
    forall j | 0 <= j < |l|
      ensures LinkedAt(c, l, j)
    {
      if j < |lru| {
        assert l[j] == lru[j];
        assert LinkedAt(b, lru, j);
        assert lru[j] in lru;
      }
    }
  }

  /** The list depends on the links of its members only. */
  lemma LruFrame(b: seq<Buf>, c: seq<Buf>, front: int, rear: int, lru: seq<int>)
    requires IsLru(b, front, rear, lru) && |c| == |b|
    requires forall i :: 0 <= i < |b| ==> c[i].next == b[i].next && c[i].prev == b[i].prev
    ensures IsLru(c, front, rear, lru)
  {
    forall k | 0 <= k < |lru|
      ensures LinkedAt(c, lru, k)
    {
      assert LinkedAt(b, lru, k);
    }
  }
}
