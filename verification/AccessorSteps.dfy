/** The elementary changes that src/inet/buf.c makes to its tables: each keeps the invariant and what others see. */
module AccessorSteps {
  import opened Basics
  import opened Accessors

  /** Everything seen through references other than a is as it was. */
  ghost predicate KeepsOthers(p: Pool, q: Pool, a: int) {
    forall r :: 0 <= r < |p.s| && p.s[r].linkC > 0 && r != a ==> Keeps(p, q, r)
  }

  /** a is referenced from outside, once, and by nothing in the pool. */
  ghost predicate Sole(p: Pool, a: int) {
    a in p.ext && 0 <= a < |p.s| && p.s[a].linkC == 1
  }

  lemma SoleCount(p: Pool, a: int)
    requires AccCounts(p) && Sole(p, a)
    ensures Refs(p.s, NEXT, a) == 0 && p.ext[a] == 1 && p.spare[a] == 0
    ensures forall c :: 0 <= c < |p.s| && p.s[c].linkC > 0 ==> p.s[c].next != a
  {
    assert RefAt(p, a);
    forall c | 0 <= c < |p.s| && p.s[c].linkC > 0 ensures p.s[c].next != a { RefsHit(p.s, c, NEXT, a); }
  }

  /** A solely referenced accessor is on no chain but its own. */
  lemma SoleApart(p: Pool, a: int, r: int)
    requires AccCounts(p) && Shapes(p) && Sole(p, a) && 0 <= r < |p.s| && p.s[r].linkC > 0 && r != a
    ensures r < |p.w| && a !in p.w[r]
  {
    SoleCount(p, a);
    assert ShapeAt(p, r);
    forall k | 0 <= k < |p.w[r]| ensures p.w[r][k] != a {
      if k > 0 { ChainAt(p, r, k - 1); }
    }
  }

  // ----- giving up the last reference

  function Freed(p: Pool, a: int): Pool
    requires 0 <= a < |p.s| && 0 <= p.s[a].buffer < |p.t| && p.t[p.s[a].buffer].linkC > 0
    requires p.t[p.s[a].buffer].cls < |p.heads| == |p.bufFree|
  {
    var x := p.s[a];
    var b := x.buffer;
    var c := p.t[b].cls;
    var q := p.(t := p.t[b := p.t[b].(linkC := p.t[b].linkC - 1)],
                ext := if x.next == NIL then p.ext - multiset{a} else p.ext - multiset{a} + multiset{x.next});
    if p.t[b].linkC > 1
    then q.(s := p.s[a := x.(linkC := 0, buffer := NIL, next := p.accHead)], accHead := a, accFree := [a] + p.accFree)
    else q.(s := p.s[a := x.(linkC := 0, next := p.heads[c])], heads := p.heads[c := a],
            bufFree := p.bufFree[c := [a] + p.bufFree[c]])
  }

  lemma Freeable(p: Pool, a: int)
    requires BufCounts(p) && Shapes(p) && FreeLists(p) && Partition(p) && 0 <= a < |p.s| && p.s[a].linkC > 0
    ensures 0 <= p.s[a].buffer < |p.t| && p.t[p.s[a].buffer].linkC > 0
    ensures p.t[p.s[a].buffer].cls < |p.heads| == |p.bufFree| && ShapeAt(p, a)
  {
    assert ShapeAt(p, a);
    assert BufAt(p, p.s[a].buffer);
    RefsHit(p.s, a, BUFFER, p.s[a].buffer);
  }

  lemma FreedCounts(p: Pool, a: int)
    requires Inv(p) && Sole(p, a)
    ensures 0 <= p.s[a].buffer < |p.t| && p.t[p.s[a].buffer].linkC > 0
    ensures p.t[p.s[a].buffer].cls < |p.heads| == |p.bufFree|
    ensures AccCounts(Freed(p, a)) && BufCounts(Freed(p, a))
  {
    hide Refs, Partition;
    Freeable(p, a);
    SoleCount(p, a);
    var q := Freed(p, a);
    forall i | 0 <= i < |q.s| ensures RefAt(q, i) {
      assert RefAt(p, i);
      RefsUpdate(p.s, a, q.s[a], NEXT, i);
    }
    forall b | 0 <= b < |q.t| ensures BufAt(q, b) {
      assert BufAt(p, b);
      RefsUpdate(p.s, a, q.s[a], BUFFER, b);
    }
    if p.s[a].next != NIL { NextAlive(p, a); }
  }

  lemma FreedShapes(p: Pool, a: int)
    requires Inv(p) && Sole(p, a)
    requires 0 <= p.s[a].buffer < |p.t| && p.t[p.s[a].buffer].linkC > 0
    requires p.t[p.s[a].buffer].cls < |p.heads| == |p.bufFree|
    ensures Shapes(Freed(p, a)) && KeepsOthers(p, Freed(p, a), a)
  {
    hide Partition, FreeLists, BufCounts;
    var q := Freed(p, a);
    forall i | 0 <= i < |q.s| && q.s[i].linkC > 0 ensures ShapeAt(q, i) { assert ShapeAt(p, i); }
    forall r | 0 <= r < |p.s| && p.s[r].linkC > 0 && r != a ensures Keeps(p, q, r) {
      SoleApart(p, a, r);
      KeepsChain(p, q, r);
    }
  }

  /** Pushing an accessor that has just become unused on a free list. */
  lemma PushFree(s: seq<Acc>, u: seq<Acc>, head: int, l: seq<int>, a: int)
    requires FreeList(s, head, l) && 0 <= a < |s| == |u| && s[a].linkC > 0
    requires u == s[a := u[a]] && u[a].linkC == 0 && u[a].next == head
    ensures FreeList(u, a, [a] + l)
  {
    var m := [a] + l;
    forall k | 0 <= k < |m| ensures LinkAt(u, m, k) { if k > 0 { assert LinkAt(s, l, k - 1); } }
    forall i, j | 0 <= i < j < |m| ensures m[i] != m[j] { assert LinkAt(s, l, j - 1); }
  }

  lemma KeepFree(s: seq<Acc>, u: seq<Acc>, head: int, l: seq<int>, a: int)
    requires FreeList(s, head, l) && 0 <= a < |s| == |u| && s[a].linkC > 0 && u == s[a := u[a]]
    ensures FreeList(u, head, l)
  {
    FreeListFrame(s, u, head, l);
  }

  lemma FreedLists(p: Pool, a: int)
    requires Inv(p) && Sole(p, a)
    requires 0 <= p.s[a].buffer < |p.t| && p.t[p.s[a].buffer].linkC > 0
    requires p.t[p.s[a].buffer].cls < |p.heads| == |p.bufFree|
    ensures FreeLists(Freed(p, a))
  {
    hide Partition, AccCounts, BufCounts, Shapes, FreeList;
    var q := Freed(p, a);
    if p.t[p.s[a].buffer].linkC > 1 { PushFree(p.s, q.s, p.accHead, p.accFree, a); }
    else { KeepFree(p.s, q.s, p.accHead, p.accFree, a); }
    forall c | 0 <= c < |q.heads| ensures FreeList(q.s, q.heads[c], q.bufFree[c]) {
      if p.t[p.s[a].buffer].linkC == 1 && c == p.t[p.s[a].buffer].cls {
        PushFree(p.s, q.s, p.heads[c], p.bufFree[c], a);
      } else {
        KeepFree(p.s, q.s, p.heads[c], p.bufFree[c], a);
      }
    }
  }

  /** The freed accessor leaves its buffer to others that still use it. */
  lemma FreedAlone(p: Pool, a: int)
    requires Inv(p) && Sole(p, a)
    requires 0 <= p.s[a].buffer < |p.t| && p.t[p.s[a].buffer].linkC > 1
    requires p.t[p.s[a].buffer].cls < |p.heads| == |p.bufFree|
    ensures Partition(Freed(p, a))
  {
    hide AccCounts, BufCounts, Shapes, FreeLists;
    var q := Freed(p, a);
    forall i ensures OnBufList(q, i) == OnBufList(p, i) {}
    forall i, d ensures KeepsBuf(q, i, d) == KeepsBuf(p, i, d) {
      if KeepsBuf(p, i, d) { assert OnBufList(p, i); }
      if KeepsBuf(q, i, d) { assert OnBufList(q, i); }
    }
    forall c, i ensures Listed(q, c, i) {
      assert Listed(p, c, i);
      if 0 <= c < |p.bufFree| && i in p.bufFree[c] { assert OnBufList(p, i); }
    }
    forall d | 0 <= d < |q.t| && q.t[d].linkC == 0 ensures exists i :: KeepsBuf(q, i, d) {
      var i :| KeepsBuf(p, i, d);
      assert KeepsBuf(q, i, d);
    }
  }

  /** The freed accessor takes its buffer, which nobody else uses, along to the list of its class. */
  lemma FreedWithBuffer(p: Pool, a: int)
    requires Inv(p) && Sole(p, a)
    requires 0 <= p.s[a].buffer < |p.t| && p.t[p.s[a].buffer].linkC == 1
    requires p.t[p.s[a].buffer].cls < |p.heads| == |p.bufFree|
    ensures Partition(Freed(p, a))
  {
    hide AccCounts, BufCounts, Shapes, FreeLists;
    var q := Freed(p, a);
    var b := p.s[a].buffer;
    var c0 := p.t[b].cls;
    forall i ensures OnBufList(q, i) == (OnBufList(p, i) || i == a) {
      if OnBufList(p, i) { var c :| 0 <= c < |p.bufFree| && i in p.bufFree[c]; assert i in q.bufFree[c]; }
      assert a in q.bufFree[c0];
    }
    forall i, d ensures KeepsBuf(q, i, d) == (KeepsBuf(p, i, d) || (i == a && d == b)) {
      if KeepsBuf(p, i, d) { assert OnBufList(p, i); }
      if KeepsBuf(q, i, d) && i != a { assert Listed(p, p.t[d].cls, i); assert OnBufList(p, i); }
    }
    forall c, i ensures Listed(q, c, i) {
      assert Listed(p, c, i);
      if 0 <= c < |p.bufFree| && i in p.bufFree[c] { assert OnBufList(p, i); }
    }
    forall d | 0 <= d < |q.t| && q.t[d].linkC == 0 ensures exists i :: KeepsBuf(q, i, d) {
      if d == b {
        assert KeepsBuf(q, a, b);
      } else {
        var i :| KeepsBuf(p, i, d);
        assert KeepsBuf(q, i, d);
      }
    }
  }

  /** Giving up the last reference to an accessor hands its reference to the next one over to the caller. */
  lemma FreedInv(p: Pool, a: int)
    requires Inv(p) && Sole(p, a)
    ensures 0 <= p.s[a].buffer < |p.t| && p.t[p.s[a].buffer].linkC > 0
    ensures p.t[p.s[a].buffer].cls < |p.heads| == |p.bufFree|
    ensures Inv(Freed(p, a)) && KeepsOthers(p, Freed(p, a), a)
  {
    hide AccCounts, BufCounts, Shapes, FreeLists, Partition, KeepsOthers;
    FreedCounts(p, a);
    FreedShapes(p, a);
    FreedLists(p, a);
    if p.t[p.s[a].buffer].linkC > 1 { FreedAlone(p, a); } else { FreedWithBuffer(p, a); }
  }

  // ----- a new accessor

  lemma FirstFree(s: seq<Acc>, head: int, l: seq<int>)
    requires FreeList(s, head, l)
    ensures l != [] ==> head == l[0] && 0 <= head < |s| && s[head].linkC == 0 && head !in l[1..]
    ensures head != NIL ==> l != []
  {
    if l != [] { assert LinkAt(s, l, 0); }
  }

  /** Taking the first accessor off its free list. */
  lemma PopFree(s: seq<Acc>, u: seq<Acc>, head: int, l: seq<int>)
    requires FreeList(s, head, l) && l != [] && |s| == |u| && 0 <= head < |s| && u == s[head := u[head]]
    ensures FreeList(u, s[head].next, l[1..])
  {
    assert LinkAt(s, l, 0);
    var m := l[1..];
    forall k | 0 <= k < |m| ensures LinkAt(u, m, k) { assert LinkAt(s, l, k + 1); }
  }

  /** A free accessor, off the list l. */
  lemma SkipFree(s: seq<Acc>, u: seq<Acc>, head: int, l: seq<int>, a: int)
    requires FreeList(s, head, l) && 0 <= a < |s| == |u| && a !in l && u == s[a := u[a]]
    ensures FreeList(u, head, l)
  {
    forall k | 0 <= k < |l| ensures LinkAt(u, l, k) { assert LinkAt(s, l, k) && l[k] in l; }
  }

  /** The first free accessor becomes a live one like x, on a buffer in use; it takes over a reference to x.next. */
  function Spawned(p: Pool, x: Acc): Pool
    requires 0 <= p.accHead < |p.s| == |p.w| && p.accFree != [] && 0 <= x.buffer < |p.t|
  {
    var n := p.accHead;
    p.(s := p.s[n := x.(linkC := 1)], t := p.t[x.buffer := p.t[x.buffer].(linkC := p.t[x.buffer].linkC + 1)],
       accHead := p.s[n].next, accFree := p.accFree[1..], w := p.w[n := [n] + Behind(p.w, x.next)],
       ext := if x.next == NIL then p.ext + multiset{n} else p.ext - multiset{x.next} + multiset{n})
  }

  ghost predicate CanSpawn(p: Pool, x: Acc) {
    && Inv(p) && p.accFree != [] && 0 <= x.buffer < |p.t| && p.t[x.buffer].linkC > 0
    && x.offset + x.length <= |p.t[x.buffer].data| && (x.next == NIL || x.next in p.ext)
  }

  lemma SpawnedCounts(p: Pool, x: Acc)
    requires CanSpawn(p, x)
    ensures 0 <= p.accHead < |p.s| == |p.w| && p.s[p.accHead].linkC == 0
    ensures AccCounts(Spawned(p, x)) && BufCounts(Spawned(p, x))
  {
    hide Partition;
    FirstFree(p.s, p.accHead, p.accFree);
    var n := p.accHead;
    var q := Spawned(p, x);
    assert RefAt(p, n);
    forall i | 0 <= i < |q.s| ensures RefAt(q, i) {
      assert RefAt(p, i);
      RefsUpdate(p.s, n, q.s[n], NEXT, i);
    }
    forall b | 0 <= b < |q.t| ensures BufAt(q, b) {
      assert BufAt(p, b);
      RefsUpdate(p.s, n, q.s[n], BUFFER, b);
    }
  }

  lemma SpawnedShapes(p: Pool, x: Acc)
    requires CanSpawn(p, x) && 0 <= p.accHead < |p.s| == |p.w| && p.s[p.accHead].linkC == 0
    ensures Shapes(Spawned(p, x)) && KeepsAll(p, Spawned(p, x))
  {
    hide Partition, FreeLists, BufCounts;
    var n := p.accHead;
    var q := Spawned(p, x);
    if x.next != NIL { Alive(p, x.next); }
    forall i | 0 <= i < |q.s| && q.s[i].linkC > 0 ensures ShapeAt(q, i) {
      if i != n {
        assert ShapeAt(p, i);
        if p.s[i].next != NIL { NextAlive(p, i); }
      }
    }
    forall r | 0 <= r < |p.s| && p.s[r].linkC > 0 ensures Keeps(p, q, r) { KeepsChain(p, q, r); }
  }

  lemma SpawnedFree(p: Pool, x: Acc)
    requires CanSpawn(p, x) && 0 <= p.accHead < |p.s| == |p.w| && p.s[p.accHead].linkC == 0
    ensures FreeLists(Spawned(p, x)) && Partition(Spawned(p, x))
  {
    hide AccCounts, BufCounts, Shapes;
    var n := p.accHead;
    var q := Spawned(p, x);
    FirstFree(p.s, p.accHead, p.accFree);
    PopFree(p.s, q.s, p.accHead, p.accFree);
    assert n in p.accFree;
    assert forall i :: i in p.accFree <==> i == n || i in q.accFree;
    forall c | 0 <= c < |q.heads| ensures FreeList(q.s, q.heads[c], q.bufFree[c]) {
      assert n in p.bufFree[c] ==> OnBufList(p, n);
      SkipFree(p.s, q.s, p.heads[c], p.bufFree[c], n);
    }
    hide FreeLists;
    SpawnedPartition(p, x);
  }

  lemma SpawnedPartition(p: Pool, x: Acc)
    requires Partition(p) && 0 <= p.accHead < |p.s| == |p.w| && p.s[p.accHead].linkC == 0
    requires p.accFree != [] && 0 <= x.buffer < |p.t| && p.t[x.buffer].linkC > 0
    requires p.accFree[0] == p.accHead && p.accHead !in p.accFree[1..]
    ensures Partition(Spawned(p, x))
  {
    var n := p.accHead;
    var q := Spawned(p, x);
    assert n in p.accFree;
    assert forall i :: i in p.accFree <==> i == n || i in q.accFree;
    forall i ensures OnBufList(q, i) == OnBufList(p, i) {}
    forall i, d ensures KeepsBuf(q, i, d) == KeepsBuf(p, i, d) {
      if KeepsBuf(p, i, d) { assert OnBufList(p, i); }
      if KeepsBuf(q, i, d) { assert OnBufList(q, i); }
    }
    forall c, i ensures Listed(q, c, i) {
      assert Listed(p, c, i);
      if 0 <= c < |p.bufFree| && i in p.bufFree[c] { assert OnBufList(p, i); }
    }
    forall d | 0 <= d < |q.t| && q.t[d].linkC == 0 ensures exists i :: KeepsBuf(q, i, d) {
      var i :| KeepsBuf(p, i, d);
      assert KeepsBuf(q, i, d);
    }
  }

  lemma SpawnedInv(p: Pool, x: Acc)
    requires CanSpawn(p, x)
    ensures 0 <= p.accHead < |p.s| == |p.w| && p.s[p.accHead].linkC == 0
    ensures Inv(Spawned(p, x)) && KeepsAll(p, Spawned(p, x)) && Sole(Spawned(p, x), p.accHead)
  {
    hide AccCounts, BufCounts, Shapes, FreeLists, Partition, KeepsAll;
    SpawnedCounts(p, x);
    SpawnedShapes(p, x);
    SpawnedFree(p, x);
  }

  /** bf_dupacc: a copy of accessor a, with one reference more to the next accessor and to the buffer. */
  function Duped(p: Pool, a: int): Pool
    requires 0 <= p.accHead < |p.s| == |p.w| && p.accFree != [] && 0 <= a < |p.s| && 0 <= p.s[a].buffer < |p.t|
    requires p.s[a].next == NIL || 0 <= p.s[a].next < |p.s|
  {
    Spawned(if p.s[a].next == NIL then p else Incr(p, p.s[a].next), p.s[a])
  }

  lemma KeepsTrans(p: Pool, q: Pool, z: Pool, r: int)
    requires Keeps(p, q, r) && Keeps(q, z, r)
    ensures Keeps(p, z, r)
  {
    forall i | i in p.w[r] ensures SameNode(p, z, i) { assert SameNode(p, q, i) && SameNode(q, z, i); }
  }

  lemma KeepsAllTrans(p: Pool, q: Pool, z: Pool)
    requires KeepsAll(p, q) && KeepsAll(q, z) && |p.s| == |q.s|
    requires forall r :: 0 <= r < |p.s| && p.s[r].linkC > 0 ==> q.s[r].linkC > 0
    ensures KeepsAll(p, z)
  {
    forall r | 0 <= r < |p.s| && p.s[r].linkC > 0 ensures Keeps(p, z, r) { KeepsTrans(p, q, z, r); }
  }

  lemma DupedInv(p: Pool, a: int)
    requires Inv(p) && 0 <= a < |p.s| && p.s[a].linkC > 0 && p.accFree != []
    ensures 0 <= p.accHead < |p.s| == |p.w| && p.s[p.accHead].linkC == 0
    ensures 0 <= p.s[a].buffer < |p.t| && (p.s[a].next == NIL || 0 <= p.s[a].next < |p.s|)
    ensures var q := Duped(p, a);
      && Inv(q) && KeepsAll(p, q) && Sole(q, p.accHead) && Mean(q, p.accHead) == Mean(p, a)
      && q.ext == p.ext + multiset{p.accHead}
  {
    hide BufCounts, FreeLists, Partition;
    Freeable(p, a);
    var x := p.s[a];
    if x.next != NIL { NextAlive(p, a); IncrInv(p, x.next); }
    var p1 := if x.next == NIL then p else Incr(p, x.next);
    SpawnedInv(p1, x);
    var q := Spawned(p1, x);
    KeepsAllTrans(p, p1, q);
    CopyMeans(p, q, a, p.accHead);
  }

  /** A copy of an accessor gives access to the same bytes. */
  lemma CopyMeans(p: Pool, q: Pool, a: int, n: int)
    requires AccCounts(p) && Shapes(p) && 0 <= a < |p.s| && p.s[a].linkC > 0 && KeepsAll(p, q)
    requires |q.t| == |p.t| && 0 <= n < |q.s| && |q.w| == |p.w| == |q.s|
    requires q.s[n] == p.s[a].(linkC := q.s[n].linkC) && q.w[n] == [n] + Behind(p.w, p.s[a].next)
    ensures Mean(q, n) == Mean(p, a)
  {
    assert ShapeAt(p, a) && Keeps(p, q, a);
    assert a in p.w[a] && SameNode(p, q, a);
    assert Slice(q, n) == Slice(p, a);
    assert q.w[n][1..] == Behind(p.w, p.s[a].next) == p.w[a][1..];
    forall i | i in p.w[a][1..] ensures SameNode(p, q, i) { assert i in p.w[a]; }
    SameBytes(p, q, p.w[a][1..]);
    assert q.w[n][0] == n && p.w[a][0] == a;
    assert Mean(q, n) == Slice(q, n) + Bytes(q, q.w[n][1..]);
    assert Mean(p, a) == Slice(p, a) + Bytes(p, p.w[a][1..]);
  }
}
