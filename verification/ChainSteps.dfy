/** Changes of chains: taking buffers, linking, unlinking and rewriting accessors that nobody else can see. */
module ChainSteps {
  import opened Basics
  import opened Accessors
  import opened AccessorSteps

  // ----- a new accessor on a free buffer

  /** The first free buffer of class c becomes a live accessor of its first length bytes. */
  function Alloced(p: Pool, c: int, length: nat): Pool
    requires 0 <= c < |p.heads| == |p.bufFree| && p.bufFree[c] != []
    requires 0 <= p.heads[c] < |p.s| == |p.w| && 0 <= p.s[p.heads[c]].buffer < |p.t|
  {
    var n := p.heads[c];
    var b := p.s[n].buffer;
    p.(s := p.s[n := Acc(1, 0, length, b, NIL)], t := p.t[b := p.t[b].(linkC := 1)],
       heads := p.heads[c := p.s[n].next], bufFree := p.bufFree[c := p.bufFree[c][1..]],
       w := p.w[n := [n]], ext := p.ext + multiset{n})
  }

  ghost predicate CanAlloc(p: Pool, c: int, length: nat) {
    && Inv(p) && 0 <= c < |p.heads| == |p.bufFree| && p.bufFree[c] != []
    && 0 <= p.heads[c] < |p.s| == |p.w| && 0 <= p.s[p.heads[c]].buffer < |p.t|
    && length <= |p.t[p.s[p.heads[c]].buffer].data|
  }

  lemma FirstBuffer(p: Pool, c: int)
    requires Inv(p) && 0 <= c < |p.heads| && p.bufFree[c] != []
    ensures 0 <= p.heads[c] < |p.s| == |p.w| && p.heads[c] == p.bufFree[c][0]
    ensures var b := p.s[p.heads[c]].buffer; 0 <= b < |p.t| && p.t[b].cls == c && p.t[b].linkC == 0
    ensures p.s[p.heads[c]].linkC == 0 && p.heads[c] !in p.bufFree[c][1..] && KeepsBuf(p, p.heads[c], p.s[p.heads[c]].buffer)
  {
    FirstFree(p.s, p.heads[c], p.bufFree[c]);
    assert p.heads[c] in p.bufFree[c] && Listed(p, c, p.heads[c]);
  }

  lemma AllocedCounts(p: Pool, c: int, length: nat)
    requires CanAlloc(p, c, length)
    ensures AccCounts(Alloced(p, c, length)) && BufCounts(Alloced(p, c, length))
  {
    FirstBuffer(p, c);
    hide Partition, FreeLists;
    var n := p.heads[c];
    var q := Alloced(p, c, length);
    assert RefAt(p, n);
    forall i | 0 <= i < |q.s| ensures RefAt(q, i) {
      assert RefAt(p, i);
      RefsUpdate(p.s, n, q.s[n], NEXT, i);
    }
    forall b | 0 <= b < |q.t| ensures BufAt(q, b) {
      assert BufAt(p, b);
      RefsUpdate(p.s, n, q.s[n], BUFFER, b);
    }
  }

  lemma AllocedShapes(p: Pool, c: int, length: nat)
    requires CanAlloc(p, c, length)
    ensures Shapes(Alloced(p, c, length)) && KeepsAll(p, Alloced(p, c, length))
  {
    FirstBuffer(p, c);
    hide Partition, FreeLists, BufCounts;
    var n := p.heads[c];
    var q := Alloced(p, c, length);
    forall i | 0 <= i < |q.s| && q.s[i].linkC > 0 ensures ShapeAt(q, i) {
      if i != n {
        assert ShapeAt(p, i);
        if p.s[i].next != NIL { NextAlive(p, i); }
      }
    }
    forall r | 0 <= r < |p.s| && p.s[r].linkC > 0 ensures Keeps(p, q, r) { KeepsChain(p, q, r); }
  }

  lemma AllocedLists(p: Pool, c: int, length: nat)
    requires CanAlloc(p, c, length)
    ensures FreeLists(Alloced(p, c, length))
  {
    FirstBuffer(p, c);
    hide AccCounts, BufCounts, Shapes;
    var n := p.heads[c];
    var q := Alloced(p, c, length);
    assert OnBufList(p, n);
    SkipFree(p.s, q.s, p.accHead, p.accFree, n);
    PopFree(p.s, q.s, n, p.bufFree[c]);
    forall d | 0 <= d < |q.heads| ensures FreeList(q.s, q.heads[d], q.bufFree[d]) {
      if d != c {
        assert Listed(p, d, n);
        SkipFree(p.s, q.s, p.heads[d], p.bufFree[d], n);
      }
    }
  }

  lemma AllocedPartition(p: Pool, c: int, length: nat)
    requires CanAlloc(p, c, length)
    ensures Partition(Alloced(p, c, length))
  {
    FirstBuffer(p, c);
    hide AccCounts, BufCounts, Shapes, FreeLists;
    var n := p.heads[c];
    var b := p.s[n].buffer;
    var q := Alloced(p, c, length);
    assert OnBufList(p, n);
    forall i ensures i in p.bufFree[c] <==> i == n || i in q.bufFree[c] {}
    forall i ensures OnBufList(q, i) == (OnBufList(p, i) && i != n) {
      if OnBufList(p, i) && i != n { var d :| 0 <= d < |p.bufFree| && i in p.bufFree[d]; assert i in q.bufFree[d]; }
      if OnBufList(q, i) {
        var d :| 0 <= d < |q.bufFree| && i in q.bufFree[d];
        assert i in p.bufFree[d] && Listed(p, d, n);
      }
    }
    forall i, d ensures KeepsBuf(q, i, d) == (KeepsBuf(p, i, d) && i != n) {
      if KeepsBuf(p, i, d) { assert OnBufList(p, i); }
      if KeepsBuf(q, i, d) { assert OnBufList(q, i); }
    }
    forall d, i ensures Listed(q, d, i) {
      assert Listed(p, d, i);
      if 0 <= d < |q.bufFree| && i in q.bufFree[d] { assert OnBufList(q, i) && i in p.bufFree[d]; }
    }
    forall d | 0 <= d < |q.t| && q.t[d].linkC == 0 ensures exists i :: KeepsBuf(q, i, d) {
      var i :| KeepsBuf(p, i, d);
      assert KeepsBuf(q, i, d);
    }
  }

  lemma AllocedInv(p: Pool, c: int, length: nat)
    requires CanAlloc(p, c, length)
    ensures var q := Alloced(p, c, length);
      && Inv(q) && KeepsAll(p, q) && Sole(q, p.heads[c]) && q.w[p.heads[c]] == [p.heads[c]]
  {
    hide AccCounts, BufCounts, Shapes, FreeLists, Partition, KeepsAll;
    AllocedCounts(p, c, length);
    AllocedShapes(p, c, length);
    AllocedLists(p, c, length);
    AllocedPartition(p, c, length);
  }

  // ----- cutting the link behind an accessor

  /** The chain behind a becomes a reference of its own. */
  function Detached(p: Pool, a: int): Pool
    requires 0 <= a < |p.s| == |p.w|
  {
    if p.s[a].next == NIL then p
    else p.(s := p.s[a := p.s[a].(next := NIL)], w := p.w[a := [a]], ext := p.ext + multiset{p.s[a].next})
  }

  lemma DetachedInv(p: Pool, a: int)
    requires Inv(p) && Sole(p, a)
    ensures |p.s| == |p.w|
    ensures var q := Detached(p, a); Inv(q) && KeepsOthers(p, q, a) && Sole(q, a) && q.w[a] == [a]
    ensures Slice(Detached(p, a), a) == Slice(p, a)
  {
    hide Refs;
    assert ShapeAt(p, a);
    var q := Detached(p, a);
    SoleCount(p, a);
    if p.s[a].next != NIL {
      NextAlive(p, a);
      DetachedCounts(p, a);
      hide AccCounts, BufCounts, Shapes;
      FreeListsFrame(p, q);
      PartitionFrame(p, q);
      RelinkShapes(p, q, a);
    } else {
      assert p.w[a] == [a];
      hide FreeLists, Partition, BufCounts;
      forall r | 0 <= r < |p.s| && p.s[r].linkC > 0 && r != a ensures Keeps(p, q, r) { KeepsChain(p, q, r); }
    }
  }

  lemma DetachedCounts(p: Pool, a: int)
    requires AccCounts(p) && BufCounts(p) && Sole(p, a) && |p.s| == |p.w|
    requires p.s[a].next != NIL && 0 <= p.s[a].next < |p.s|
    ensures AccCounts(Detached(p, a)) && BufCounts(Detached(p, a))
  {
    var q := Detached(p, a);
    forall i | 0 <= i < |q.s| ensures RefAt(q, i) { assert RefAt(p, i); RefsUpdate(p.s, a, q.s[a], NEXT, i); }
    forall b | 0 <= b < |q.t| ensures BufAt(q, b) { assert BufAt(p, b); RefsUpdate(p.s, a, q.s[a], BUFFER, b); }
  }

  lemma RelinkShapes(p: Pool, q: Pool, a: int)
    requires AccCounts(p) && Shapes(p) && Sole(p, a)
    requires |p.s| == |q.s| && q == p.(s := q.s, w := q.w, ext := q.ext)
    requires q.s == p.s[a := p.s[a].(next := NIL)] && q.w == p.w[a := [a]]
    ensures Shapes(q) && KeepsOthers(p, q, a)
  {
    SoleCount(p, a);
    forall i | 0 <= i < |q.s| && q.s[i].linkC > 0 ensures ShapeAt(q, i) { assert ShapeAt(p, i); }
    forall r | 0 <= r < |p.s| && p.s[r].linkC > 0 && r != a ensures Keeps(p, q, r) {
      SoleApart(p, a, r);
      KeepsChain(p, q, r);
    }
  }

  // ----- linking a chain behind a private one

  /** The chain of reference b goes behind the private chain of h. */
  function Attached(p: Pool, h: int, b: int): Pool
    requires 0 <= h < |p.w| == |p.s| && 0 <= b < |p.w| && p.w[h] != []
    requires 0 <= p.w[h][|p.w[h]| - 1] < |p.s|
  {
    var t := p.w[h][|p.w[h]| - 1];
    p.(s := p.s[t := p.s[t].(next := b)],
       w := seq(|p.w|, i requires 0 <= i < |p.w| => if i in p.w[h] then p.w[i] + p.w[b] else p.w[i]),
       ext := p.ext - multiset{b})
  }

  ghost predicate CanAttach(p: Pool, h: int, b: int) {
    Inv(p) && Private(p, h) && b in p.ext - multiset{h}
  }

  lemma LastOfPrivate(p: Pool, h: int)
    requires AccCounts(p) && Shapes(p) && Private(p, h)
    ensures 0 <= h < |p.w| == |p.s| && p.w[h] != [] && p.w[h][0] == h
    ensures var t := p.w[h][|p.w[h]| - 1]; 0 <= t < |p.s| && p.s[t].linkC == 1 && p.s[t].next == NIL && t in p.w[h]
    ensures p.w[p.w[h][|p.w[h]| - 1]] == [p.w[h][|p.w[h]| - 1]]
  {
    Alive(p, h);
    assert ShapeAt(p, h);
    ChainAt(p, h, |p.w[h]| - 1);
    assert p.w[h][|p.w[h]| - 1] in p.w[h];
  }

  /** No accessor outside a private chain links into it. */
  lemma PrivateClosed(p: Pool, h: int, c: int)
    requires AccCounts(p) && Shapes(p) && Private(p, h) && 0 <= c < |p.s| && p.s[c].linkC > 0 && c !in p.w[h]
    ensures p.s[c].next !in p.w[h]
  {
    var n := p.s[c].next;
    LastOfPrivate(p, h);
    if k :| 0 <= k < |p.w[h]| && p.w[h][k] == n {
      assert n in p.w[h] && RefAt(p, n);
      RefsHit(p.s, c, NEXT, n);
      if k > 0 {
        ChainAt(p, h, k - 1);
        assert p.w[h][k - 1] in p.w[h];
        RefsTwo(p.s, c, p.w[h][k - 1], NEXT, n);
      }
      assert false;
    }
  }

  lemma AttachedCounts(p: Pool, h: int, b: int)
    requires CanAttach(p, h, b)
    ensures 0 <= h < |p.w| == |p.s| && 0 <= b < |p.w| && p.w[h] != [] && 0 <= p.w[h][|p.w[h]| - 1] < |p.s|
    ensures var q := Attached(p, h, b); AccCounts(q) && BufCounts(q) && FreeLists(q) && Partition(q)
  {
    hide Refs, Private;
    LastOfPrivate(p, h);
    Alive(p, b);
    var q := Attached(p, h, b);
    var t := p.w[h][|p.w[h]| - 1];
    forall i | 0 <= i < |q.s| ensures RefAt(q, i) { assert RefAt(p, i); RefsUpdate(p.s, t, q.s[t], NEXT, i); }
    forall d | 0 <= d < |q.t| ensures BufAt(q, d) { assert BufAt(p, d); RefsUpdate(p.s, t, q.s[t], BUFFER, d); }
    FreeListsFrame(p, q);
    PartitionFrame(p, q);
  }

  lemma AttachedShapes(p: Pool, h: int, b: int)
    requires CanAttach(p, h, b)
    requires 0 <= h < |p.w| == |p.s| && 0 <= b < |p.w| && p.w[h] != [] && 0 <= p.w[h][|p.w[h]| - 1] < |p.s|
    ensures Shapes(Attached(p, h, b))
  {
    hide FreeLists, Partition, BufCounts;
    LastOfPrivate(p, h);
    Alive(p, b);
    assert ShapeAt(p, b);
    var q := Attached(p, h, b);
    var t := p.w[h][|p.w[h]| - 1];
    assert b !in p.w[h] by {
      forall k | 0 <= k < |p.w[h]| ensures p.w[h][k] != b { PrivateApart(p, h, b, k); }
    }
    forall i | 0 <= i < |q.s| && q.s[i].linkC > 0 ensures ShapeAt(q, i) {
      assert ShapeAt(p, i);
      if i in p.w[h] {
        var k :| 0 <= k < |p.w[h]| && p.w[h][k] == i;
        ChainAt(p, h, k);
        AttachedInside(p, h, b, k);
      } else {
        PrivateClosed(p, h, i);
      }
    }
  }

  lemma AttachedInside(p: Pool, h: int, b: int, k: int)
    requires CanAttach(p, h, b) && 0 <= h < |p.w| == |p.s| && 0 <= b < |p.w| && 0 <= k < |p.w[h]|
    requires b !in p.w[h] && 0 <= p.w[h][|p.w[h]| - 1] < |p.s|
    requires var i := p.w[h][k]; 0 <= i < |p.s| && ShapeAt(p, i) && p.w[i] == p.w[h][k..] && p.s[i].next == At(p.w[h], k + 1)
    requires var t := p.w[h][|p.w[h]| - 1]; p.w[t] == [t] && p.s[t].next == NIL
    ensures ShapeAt(Attached(p, h, b), p.w[h][k])
  {
    hide AccCounts, BufCounts, Shapes, FreeLists, Partition;
    var q := Attached(p, h, b);
    var i := p.w[h][k];
    var t := p.w[h][|p.w[h]| - 1];
    assert i in p.w[h];
    if k + 1 < |p.w[h]| {
      assert p.w[h][k + 1] in p.w[h];
      assert i != t;
      assert q.w[i] == p.w[i] + p.w[b];
    } else {
      assert i == t && q.w[t] == [t] + p.w[b];
    }
  }

  lemma AttachedInv(p: Pool, h: int, b: int)
    requires CanAttach(p, h, b)
    ensures 0 <= h < |p.w| == |p.s| && 0 <= b < |p.w| && p.w[h] != [] && 0 <= p.w[h][|p.w[h]| - 1] < |p.s|
    ensures var q := Attached(p, h, b);
      && Inv(q) && q.w[h] == p.w[h] + p.w[b] && Mean(q, h) == Mean(p, h) + Mean(p, b)
      && forall r :: r in p.ext - multiset{h} || r in p.spare ==> Keeps(p, q, r)
  {
    AttachedCounts(p, h, b);
    AttachedShapes(p, h, b);
    hide BufCounts, FreeLists, Partition;
    LastOfPrivate(p, h);
    Alive(p, b);
    var q := Attached(p, h, b);
    var t := p.w[h][|p.w[h]| - 1];
    forall r | r in p.ext - multiset{h} || r in p.spare ensures Keeps(p, q, r) {
      Alive(p, r);
      assert ShapeAt(p, r);
      forall k | 0 <= k < |p.w[h]| ensures p.w[h][k] !in p.w[r] { PrivateApart(p, h, r, k); }
      assert p.w[r][0] == r;
      assert r !in p.w[h];
      KeepsChain(p, q, r);
    }
    AttachedMean(p, q, h, b);
  }

  lemma AttachedMean(p: Pool, q: Pool, h: int, b: int)
    requires 0 <= h < |p.w| == |p.s| && 0 <= b < |p.w| && p.w[h] != [] && 0 <= p.w[h][|p.w[h]| - 1] < |p.s|
    requires q == Attached(p, h, b) && q.w[h] == p.w[h] + p.w[b]
    ensures Mean(q, h) == Mean(p, h) + Mean(p, b)
  {
    var t := p.w[h][|p.w[h]| - 1];
    assert Behind(q.w, h) == p.w[h] + p.w[b];
    BytesConcat(q, p.w[h], p.w[b]);
    RelinkedSlices(p, q, t, b, p.w[h]);
    RelinkedSlices(p, q, t, b, p.w[b]);
  }

  lemma {:induction false} RelinkedSlices(p: Pool, q: Pool, t: int, b: int, l: seq<int>)
    requires 0 <= t < |p.s| && q.s == p.s[t := p.s[t].(next := b)] && q.t == p.t
    ensures Bytes(q, l) == Bytes(p, l)
  {
    hide AccCounts;
    if l != [] {
      assert Slice(q, l[0]) == Slice(p, l[0]);
      RelinkedSlices(p, q, t, b, l[1..]);
    }
  }

  // ----- rewriting a private accessor

  /** Accessor i of a private chain gets another slice; a buffer that only it uses may get other contents. */
  function Rewritten(p: Pool, i: int, offset: nat, length: nat, data: seq<Byte>): Pool
    requires 0 <= i < |p.s| && 0 <= p.s[i].buffer < |p.t|
  {
    var b := p.s[i].buffer;
    p.(s := p.s[i := p.s[i].(offset := offset, length := length)], t := p.t[b := p.t[b].(data := data)])
  }

  ghost predicate CanRewrite(p: Pool, h: int, i: int, offset: nat, length: nat, data: seq<Byte>) {
    && Inv(p) && Private(p, h) && i in p.w[h]
    && 0 <= i < |p.s| && 0 <= p.s[i].buffer < |p.t|
    && var b := p.t[p.s[i].buffer];
       |data| == |b.data| && offset + length <= |data| && (data == b.data || b.linkC == 1)
  }

  /** Another live accessor on a rewritten buffer would be a second one. */
  lemma OthersUnwritten(p: Pool, q: Pool, i: int, r: int)
    requires BufCounts(p) && 0 <= i < |p.s| && p.s[i].linkC > 0 && 0 <= p.s[i].buffer < |p.t|
    requires exists offset, length, data :: q == Rewritten(p, i, offset, length, data)
              && (data == p.t[p.s[i].buffer].data || p.t[p.s[i].buffer].linkC == 1)
    requires 0 <= r < |p.s| && p.s[r].linkC > 0 && r != i
    ensures SameNode(p, q, r)
  {
    if p.s[r].buffer == p.s[i].buffer {
      assert BufAt(p, p.s[i].buffer);
      RefsTwo(p.s, i, r, BUFFER, p.s[i].buffer);
    }
  }

  lemma RewrittenInv(p: Pool, h: int, i: int, offset: nat, length: nat, data: seq<Byte>)
    requires CanRewrite(p, h, i, offset, length, data)
    ensures var q := Rewritten(p, i, offset, length, data);
      && Inv(q) && Private(q, h) && q.w == p.w
      && (forall r :: r in p.ext - multiset{h} || r in p.spare ==> Keeps(p, q, r))
      && (forall j :: j in p.w[h] && j != i ==> SameNode(p, q, j))
      && Slice(q, i) == data[offset..offset + length]
  {
    hide Refs;
    var q := Rewritten(p, i, offset, length, data);
    assert p.s[i].linkC == 1;
    forall j | 0 <= j < |q.s| ensures RefAt(q, j) { assert RefAt(p, j); RefsUpdate(p.s, i, q.s[i], NEXT, j); }
    forall d | 0 <= d < |q.t| ensures BufAt(q, d) { assert BufAt(p, d); RefsUpdate(p.s, i, q.s[i], BUFFER, d); }
    FreeListsFrame(p, q);
    PartitionFrame(p, q);
    hide FreeLists, Partition;
    forall j | 0 <= j < |q.s| && q.s[j].linkC > 0 ensures ShapeAt(q, j) { assert ShapeAt(p, j); }
    RewrittenKeeps(p, h, i, offset, length, data);
  }

  lemma RewrittenKeeps(p: Pool, h: int, i: int, offset: nat, length: nat, data: seq<Byte>)
    requires CanRewrite(p, h, i, offset, length, data)
    ensures var q := Rewritten(p, i, offset, length, data);
      && (forall r :: r in p.ext - multiset{h} || r in p.spare ==> Keeps(p, q, r))
      && (forall j :: j in p.w[h] && j != i ==> SameNode(p, q, j))
  {
    hide FreeLists, Partition;
    var q := Rewritten(p, i, offset, length, data);
    LastOfPrivate(p, h);
    var m :| 0 <= m < |p.w[h]| && p.w[h][m] == i;
    forall r | r in p.ext - multiset{h} || r in p.spare ensures Keeps(p, q, r) {
      Alive(p, r);
      PrivateApart(p, h, r, m);
      forall j | 0 <= j < |p.s| && p.s[j].linkC > 0 && j in p.w[r] ensures SameNode(p, q, j) {
        OthersUnwritten(p, q, i, j);
      }
      KeepsChain(p, q, r);
    }
    forall j | j in p.w[h] && j != i ensures SameNode(p, q, j) { OthersUnwritten(p, q, i, j); }
  }

  /** A solely referenced accessor may be narrowed even when what follows it is shared. */
  lemma RewrittenSole(p: Pool, a: int, offset: nat, length: nat)
    requires Inv(p) && Sole(p, a) && 0 <= p.s[a].buffer < |p.t| && offset + length <= |p.t[p.s[a].buffer].data|
    ensures |p.w| == |p.s|
    ensures var q := Rewritten(p, a, offset, length, p.t[p.s[a].buffer].data);
      && Inv(q) && Sole(q, a) && KeepsOthers(p, q, a)
      && forall j :: j in p.w[a] && j != a ==> SameNode(p, q, j)
  {
    var q := Rewritten(p, a, offset, length, p.t[p.s[a].buffer].data);
    assert q.t == p.t;
    forall j | 0 <= j < |q.s| ensures RefAt(q, j) { assert RefAt(p, j); RefsUpdate(p.s, a, q.s[a], NEXT, j); }
    forall d | 0 <= d < |q.t| ensures BufAt(q, d) { assert BufAt(p, d); RefsUpdate(p.s, a, q.s[a], BUFFER, d); }
    FreeListsFrame(p, q);
    PartitionFrame(p, q);
    hide FreeLists, Partition;
    forall j | 0 <= j < |q.s| && q.s[j].linkC > 0 ensures ShapeAt(q, j) { assert ShapeAt(p, j); }
    forall r | 0 <= r < |p.s| && p.s[r].linkC > 0 && r != a ensures Keeps(p, q, r) {
      SoleApart(p, a, r);
      KeepsChain(p, q, r);
    }
    forall j | j in p.w[a] && j != a ensures SameNode(p, q, j) {
      var k :| 0 <= k < |p.w[a]| && p.w[a][k] == j;
      ChainAt(p, a, k);
    }
  }

  // ----- exchanging the contents of two accessors

  /** The last accessor t of the private chain of h and the lone accessor n exchange what they stand for. */
  function Swapped(p: Pool, t: int, n: int): Pool
    requires 0 <= t < |p.s| && 0 <= n < |p.s|
  {
    p.(s := p.s[t := p.s[n]][n := p.s[t]])
  }

  lemma SwappedCounts(p: Pool, t: int, n: int)
    requires AccCounts(p) && BufCounts(p) && 0 <= t < |p.s| && 0 <= n < |p.s| && t != n
    requires p.s[t].linkC == p.s[n].linkC == 1
    ensures AccCounts(Swapped(p, t, n)) && BufCounts(Swapped(p, t, n))
  {
    var q := Swapped(p, t, n);
    var mid := p.s[t := p.s[n]];
    forall j | 0 <= j < |q.s| ensures RefAt(q, j) {
      assert RefAt(p, j);
      RefsUpdate(p.s, t, p.s[n], NEXT, j);
      RefsUpdate(mid, n, p.s[t], NEXT, j);
    }
    forall d | 0 <= d < |q.t| ensures BufAt(q, d) {
      assert BufAt(p, d);
      RefsUpdate(p.s, t, p.s[n], BUFFER, d);
      RefsUpdate(mid, n, p.s[t], BUFFER, d);
    }
  }

  lemma SwappedInv(p: Pool, h: int, t: int, n: int)
    requires Inv(p) && Private(p, h) && p.w[h] != [] && t == p.w[h][|p.w[h]| - 1]
    requires n in p.ext - multiset{h} && Sole(p, n) && 0 <= n < |p.w| && p.w[n] == [n] && p.s[n].next == NIL
    ensures 0 <= t < |p.s| && t != n
    ensures var q := Swapped(p, t, n);
      && Inv(q) && Private(q, h) && Sole(q, n) && q.w == p.w
      && (forall r :: r in p.ext - multiset{h, n} || r in p.spare ==> Keeps(p, q, r))
      && (forall j :: j in p.w[h] && j != t ==> SameNode(p, q, j))
      && Slice(q, t) == Slice(p, n) && Slice(q, n) == Slice(p, t)
  {
    LastOfPrivate(p, h);
    PrivateApart(p, h, n, |p.w[h]| - 1);
    var q := Swapped(p, t, n);
    SwappedCounts(p, t, n);
    FreeListsFrame(p, q);
    PartitionFrame(p, q);
    hide FreeLists, Partition, BufCounts, AccCounts;
    assert ShapeAt(p, t) && ShapeAt(p, n);
    forall j | 0 <= j < |q.s| && q.s[j].linkC > 0 ensures ShapeAt(q, j) { assert ShapeAt(p, j); }
    SwappedKeeps(p, h, t, n);
  }

  lemma SwappedKeeps(p: Pool, h: int, t: int, n: int)
    requires AccCounts(p) && Shapes(p) && Private(p, h) && p.w[h] != [] && t == p.w[h][|p.w[h]| - 1]
    requires n in p.ext - multiset{h} && Sole(p, n) && 0 <= t < |p.s| && t != n
    ensures var q := Swapped(p, t, n);
      && (forall r :: r in p.ext - multiset{h, n} || r in p.spare ==> Keeps(p, q, r))
      && (forall j :: j in p.w[h] && j != t ==> SameNode(p, q, j))
  {
    var q := Swapped(p, t, n);
    LastOfPrivate(p, h);
    forall r | r in p.ext - multiset{h, n} || r in p.spare ensures Keeps(p, q, r) {
      Alive(p, r);
      PrivateApart(p, h, r, |p.w[h]| - 1);
      SoleCount(p, n);
      SoleApart(p, n, r);
      KeepsChain(p, q, r);
    }
    forall j | j in p.w[h] && j != t ensures SameNode(p, q, j) {
      var k :| 0 <= k < |p.w[h]| && p.w[h][k] == j;
      PrivateApart(p, h, n, k);
      assert ShapeAt(p, n) && p.w[n][0] == n;
    }
  }
}
