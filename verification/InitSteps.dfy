/** The pool as bf_init builds it: all accessors free, then one for every buffer. */
module InitSteps {
  import opened Basics
  import opened Accessors
  import opened AccessorSteps
  import opened PoolViews

  /** The accessors i, i + 1, .. up to below n, last first. */
  function Descending(n: nat): (l: seq<int>)
    ensures |l| == n && forall k :: 0 <= k < n ==> l[k] == n - 1 - k
  {
    if n == 0 then [] else [n - 1] + Descending(n - 1)
  }

  function Blank(next: int): Acc {
    Acc(0, 0, 0, NIL, next)
  }

  function Repeat<T>(x: T, n: nat): (r: seq<T>)
    ensures |r| == n && forall i :: 0 <= i < n ==> r[i] == x
  {
    seq(n, _ => x)
  }

  function Bare(s: seq<Acc>, head: int, accFree: seq<int>, classes: nat): Pool {
    Pool(s, [], head, Repeat(NIL, classes), accFree, Repeat([], classes), Repeat([], |s|), multiset{}, multiset{})
  }

  /** Nothing is in use and there are no buffers yet. */
  lemma BareInv(s: seq<Acc>, classes: nat)
    requires forall i :: 0 <= i < |s| ==> s[i] == Blank(i - 1)
    ensures Inv(Bare(s, |s| - 1, Descending(|s|), classes))
  {
    hide AccCounts, BufCounts, Shapes, FreeLists, Partition, Repeat, Descending;
    var p := Bare(s, |s| - 1, Descending(|s|), classes);
    UnusedCounts(p);
    BareLists(s, classes);
    forall a | 0 <= a < |s| ensures a in p.accFree { assert p.accFree[|s| - 1 - a] == a; }
    UnusedPartition(p);
  }

  lemma UnusedCounts(p: Pool)
    requires |p.w| == |p.s| && p.t == [] && p.ext == p.spare == multiset{} && forall i :: 0 <= i < |p.s| ==> p.s[i].linkC == 0
    ensures AccCounts(p) && BufCounts(p) && Shapes(p)
  {
    NoRefs(p.s);
    forall a | 0 <= a < |p.s| ensures RefAt(p, a) {}
  }

  lemma UnusedPartition(p: Pool)
    requires p.t == [] && (forall c :: 0 <= c < |p.bufFree| ==> p.bufFree[c] == [])
    requires forall i :: 0 <= i < |p.s| ==> p.s[i].linkC == 0 && p.s[i].buffer == NIL
    requires forall a :: a in p.accFree <==> 0 <= a < |p.s|
    ensures Partition(p)
  {
    forall a ensures !OnBufList(p, a) {}
    forall a, b ensures !KeepsBuf(p, a, b) {}
    forall c, a ensures Listed(p, c, a) {}
  }

  lemma BareLists(s: seq<Acc>, classes: nat)
    requires forall i :: 0 <= i < |s| ==> s[i] == Blank(i - 1)
    ensures FreeLists(Bare(s, |s| - 1, Descending(|s|), classes))
  {
    hide FreeList, Descending, Repeat;
    var p := Bare(s, |s| - 1, Descending(|s|), classes);
    AllFree(s);
    NoneFree(s);
    forall c | 0 <= c < |p.heads| ensures FreeList(p.s, p.heads[c], p.bufFree[c]) {
      assert p.heads[c] == NIL && p.bufFree[c] == [];
    }
  }

  lemma NoneFree(s: seq<Acc>)
    ensures FreeList(s, NIL, [])
  {
  }

  lemma AllFree(s: seq<Acc>)
    requires forall i :: 0 <= i < |s| ==> s[i] == Blank(i - 1)
    ensures FreeList(s, |s| - 1, Descending(|s|))
  {
    hide Descending;
    var l := Descending(|s|);
    forall k | 0 <= k < |l| ensures LinkAt(s, l, k) {}
  }

  lemma {:induction false} NoRefs(s: seq<Acc>)
    requires forall i :: 0 <= i < |s| ==> s[i].linkC == 0
    ensures forall f, key :: Refs(s, f, key) == 0
  {
    if s != [] { NoRefs(s[..|s| - 1]); }
  }

  /** One more buffer of class c, kept by the accessor that was first on the free list. */
  function Added(p: Pool, c: int, data: seq<Byte>): Pool
    requires 0 <= p.accHead < |p.s| && p.accFree != [] && 0 <= c < |p.heads| == |p.bufFree|
  {
    var a := p.accHead;
    p.(s := p.s[a := p.s[a].(linkC := 0, buffer := |p.t|, next := p.heads[c])], t := p.t + [NetBuf(0, c, data)],
       accHead := p.s[a].next, accFree := p.accFree[1..], heads := p.heads[c := a], bufFree := p.bufFree[c := [a] + p.bufFree[c]])
  }

  ghost predicate Unused(p: Pool) {
    Inv(p) && p.ext == p.spare == multiset{} && forall i :: 0 <= i < |p.s| ==> p.s[i].linkC == 0
  }

  lemma AddedLists(p: Pool, c: int, data: seq<Byte>)
    requires Unused(p) && p.accFree != [] && 0 <= c < |p.heads|
    ensures 0 <= p.accHead < |p.s| && p.accHead == p.accFree[0] && p.accHead !in p.accFree[1..] && |p.heads| == |p.bufFree|
    ensures FreeLists(Added(p, c, data))
  {
    hide AccCounts, BufCounts, Shapes;
    FirstFree(p.s, p.accHead, p.accFree);
    var a := p.accHead;
    var q := Added(p, c, data);
    assert a in p.accFree;
    PopFree(p.s, q.s, p.accHead, p.accFree);
    forall d | 0 <= d < |q.heads| ensures FreeList(q.s, q.heads[d], q.bufFree[d]) {
      assert a in p.bufFree[d] ==> OnBufList(p, a);
      SkipFree(p.s, q.s, p.heads[d], p.bufFree[d], a);
      if d == c { PushUnused(q.s, p.heads[d], p.bufFree[d], a); }
    }
  }

  lemma PushUnused(s: seq<Acc>, head: int, l: seq<int>, a: int)
    requires FreeList(s, head, l) && 0 <= a < |s| && a !in l && s[a].linkC == 0 && s[a].next == head
    ensures FreeList(s, a, [a] + l)
  {
    var m := [a] + l;
    forall k | 0 <= k < |m| ensures LinkAt(s, m, k) { if k > 0 { assert LinkAt(s, l, k - 1); } }
  }

  lemma AddedPartition(p: Pool, c: int, data: seq<Byte>)
    requires Unused(p) && p.accFree != [] && 0 <= c < |p.heads|
    requires 0 <= p.accHead < |p.s| && p.accHead == p.accFree[0] && p.accHead !in p.accFree[1..] && |p.heads| == |p.bufFree|
    ensures Partition(Added(p, c, data))
  {
    hide AccCounts, BufCounts, Shapes, FreeLists;
    var a := p.accHead;
    var q := Added(p, c, data);
    assert a in p.accFree;
    assert forall i :: i in p.accFree <==> i == a || i in q.accFree;
    forall i ensures OnBufList(q, i) == (OnBufList(p, i) || i == a) {
      if OnBufList(p, i) { var d :| 0 <= d < |p.bufFree| && i in p.bufFree[d]; assert i in q.bufFree[d]; }
      assert a in q.bufFree[c];
    }
    forall i, b ensures KeepsBuf(q, i, b) == (KeepsBuf(p, i, b) || (i == a && b == |p.t|)) {
      if KeepsBuf(p, i, b) { assert OnBufList(p, i); }
      if KeepsBuf(q, i, b) && i != a { assert Listed(p, q.t[b].cls, i); assert OnBufList(p, i); }
    }
    forall d, i ensures Listed(q, d, i) {
      assert Listed(p, d, i);
      if 0 <= d < |p.bufFree| && i in p.bufFree[d] { assert OnBufList(p, i); }
    }
    forall b | 0 <= b < |q.t| && q.t[b].linkC == 0 ensures exists i :: KeepsBuf(q, i, b) {
      if b == |p.t| {
        assert KeepsBuf(q, a, b);
      } else {
        var i :| KeepsBuf(p, i, b);
        assert KeepsBuf(q, i, b);
      }
    }
  }

  lemma AddedInv(p: Pool, c: int, data: seq<Byte>)
    requires Unused(p) && p.accFree != [] && 0 <= c < |p.heads|
    ensures 0 <= p.accHead < |p.s| && |p.heads| == |p.bufFree|
    ensures Unused(Added(p, c, data)) && |Added(p, c, data).accFree| == |p.accFree| - 1
  {
    AddedLists(p, c, data);
    AddedPartition(p, c, data);
    var q := Added(p, c, data);
    NoRefs(q.s);
    forall i | 0 <= i < |q.s| ensures RefAt(q, i) {}
    forall b | 0 <= b < |q.t| ensures BufAt(q, b) { if b < |p.t| { NoRefs(p.s); assert BufAt(p, b); } }
    hide FreeLists, Partition;
  }

  /** How many buffers there are of the first c classes. */
  function Total(counts: seq<nat>): nat {
    if counts == [] then 0 else Total(counts[..|counts| - 1]) + counts[|counts| - 1]
  }

  lemma {:induction false} TotalGrows(counts: seq<nat>, c: nat)
    requires c <= |counts|
    ensures Total(counts[..c]) <= Total(counts)
  {
    if c == |counts| {
      assert counts[..c] == counts;
    } else {
      assert counts[..|counts| - 1][..c] == counts[..c];
      TotalGrows(counts[..|counts| - 1], c);
    }
  }

  lemma TotalNext(counts: seq<nat>, c: nat)
    requires c < |counts|
    ensures Total(counts[..c + 1]) == Total(counts[..c]) + counts[c]
    ensures Total(counts[..c + 1]) <= Total(counts)
  {
    assert counts[..c + 1][..c] == counts[..c];
    TotalGrows(counts, c + 1);
  }
}
