/** Accessors and buffers of the network server (src/inet/generic/buf.h), their reference counts and what they mean. */
module Accessors {
  import opened Basics

  /** A slice of a buffer, with a link to the accessor that follows it. */
  datatype Acc = Acc(linkC: nat, offset: nat, length: nat, buffer: int, next: int)

  /** A buffer of one of the size classes. */
  datatype NetBuf = NetBuf(linkC: nat, cls: nat, data: seq<Byte>)

  /** The state of the pool: the two tables, the free lists and their heads; ghost in purpose are
      w, the chain behind each accessor, and the references held outside the pool: ext, and those in spare, which their holders
      give up when asked to. */
  datatype Pool = Pool(s: seq<Acc>, t: seq<NetBuf>, accHead: int, heads: seq<int>, accFree: seq<int>, bufFree: seq<seq<int>>,
                       w: seq<seq<int>>, ext: multiset<int>, spare: multiset<int>)

  datatype Field = NEXT | BUFFER

  function Hit(x: Acc, f: Field, key: int): nat {
    if x.linkC > 0 && (if f == NEXT then x.next == key else x.buffer == key) then 1 else 0
  }

  /** How many live accessors point at key with the given field. */
  ghost function Refs(s: seq<Acc>, f: Field, key: int): nat {
    if s == [] then 0 else Refs(s[..|s| - 1], f, key) + Hit(s[|s| - 1], f, key)
  }

  lemma {:induction false} RefsUpdate(s: seq<Acc>, i: int, v: Acc, f: Field, key: int)
    requires 0 <= i < |s|
    ensures Refs(s[i := v], f, key) == Refs(s, f, key) - Hit(s[i], f, key) + Hit(v, f, key)
  {
    var n := |s| - 1;
    if i == n {
      assert s[i := v][..n] == s[..n];
    } else {
      assert s[i := v][..n] == s[..n][i := v];
      RefsUpdate(s[..n], i, v, f, key);
    }
  }

  lemma {:induction false} RefsHit(s: seq<Acc>, i: int, f: Field, key: int)
    requires 0 <= i < |s|
    ensures Refs(s, f, key) >= Hit(s[i], f, key)
  {
    if i < |s| - 1 { RefsHit(s[..|s| - 1], i, f, key); }
  }

  lemma RefsTwo(s: seq<Acc>, i: int, j: int, f: Field, key: int)
    requires 0 <= i < |s| && 0 <= j < |s| && i != j
    ensures Refs(s, f, key) >= Hit(s[i], f, key) + Hit(s[j], f, key)
  {
    var dead := s[i].(linkC := 0);
    RefsUpdate(s, i, dead, f, key);
    RefsHit(s[i := dead], j, f, key);
  }

  lemma {:induction false} RefsSome(s: seq<Acc>, f: Field, key: int) returns (i: int)
    requires Refs(s, f, key) > 0
    ensures 0 <= i < |s| && Hit(s[i], f, key) == 1
  {
    if Hit(s[|s| - 1], f, key) == 1 { i := |s| - 1; } else { i := RefsSome(s[..|s| - 1], f, key); }
  }

  // ----- the invariant

  ghost predicate RefAt(p: Pool, a: int) {
    0 <= a < |p.s| && p.s[a].linkC == p.ext[a] + p.spare[a] + Refs(p.s, NEXT, a)
  }

  /** Every accessor's link count is the number of references to it. */
  ghost predicate AccCounts(p: Pool) {
    && (forall a {:trigger RefAt(p, a)} :: 0 <= a < |p.s| ==> RefAt(p, a))
    && forall a :: a in p.ext || a in p.spare ==> 0 <= a < |p.s|
  }

  ghost predicate BufAt(p: Pool, b: int) {
    0 <= b < |p.t| && p.t[b].linkC == Refs(p.s, BUFFER, b)
  }

  /** Every buffer's link count is the number of live accessors on it. */
  ghost predicate BufCounts(p: Pool) {
    forall b {:trigger BufAt(p, b)} :: 0 <= b < |p.t| ==> BufAt(p, b)
  }

  function Behind(w: seq<seq<int>>, next: int): seq<int> {
    if 0 <= next < |w| then w[next] else []
  }

  /** A live accessor is a slice of a buffer, and its chain is itself and the chain behind it. */
  ghost predicate ShapeAt(p: Pool, a: int) {
    && 0 <= a < |p.s| && |p.w| == |p.s|
    && var x := p.s[a];
       && 0 <= x.buffer < |p.t| && x.offset + x.length <= |p.t[x.buffer].data|
       && (x.next == NIL || 0 <= x.next < |p.s|)
       && p.w[a] == [a] + Behind(p.w, x.next)
  }

  ghost predicate Shapes(p: Pool) {
    && |p.w| == |p.s|
    && forall a {:trigger ShapeAt(p, a)} :: 0 <= a < |p.s| && p.s[a].linkC > 0 ==> ShapeAt(p, a)
  }

  ghost predicate LinkAt(s: seq<Acc>, l: seq<int>, k: int) {
    0 <= k < |l| && 0 <= l[k] < |s| && s[l[k]].linkC == 0 && s[l[k]].next == At(l, k + 1)
  }

  /** A free list: distinct unused accessors, linked through their next fields. */
  ghost predicate FreeList(s: seq<Acc>, head: int, l: seq<int>) {
    && head == At(l, 0)
    && (forall i, j :: 0 <= i < j < |l| ==> l[i] != l[j])
    && forall k {:trigger LinkAt(s, l, k)} :: 0 <= k < |l| ==> LinkAt(s, l, k)
  }

  ghost predicate FreeLists(p: Pool) {
    && |p.heads| == |p.bufFree|
    && FreeList(p.s, p.accHead, p.accFree)
    && forall c :: 0 <= c < |p.heads| ==> FreeList(p.s, p.heads[c], p.bufFree[c])
  }

  ghost predicate OnBufList(p: Pool, a: int) {
    exists c :: 0 <= c < |p.bufFree| && a in p.bufFree[c]
  }

  /** a is free and keeps a free buffer, on the list of that buffer's class. */
  ghost predicate KeepsBuf(p: Pool, a: int, b: int) {
    && 0 <= a < |p.s| && 0 <= b < |p.t| && p.s[a].buffer == b && p.t[b].linkC == 0
    && p.t[b].cls < |p.bufFree| && a in p.bufFree[p.t[b].cls]
  }

  /** Whatever is on the list of class c keeps a free buffer of that class. */
  ghost predicate Listed(p: Pool, c: int, a: int) {
    0 <= c < |p.bufFree| && a in p.bufFree[c] ==>
      0 <= a < |p.s| && KeepsBuf(p, a, p.s[a].buffer) && p.t[p.s[a].buffer].cls == c
  }

  /** Live, accessor-free and buffer-free accessors partition the table, and every free buffer is kept by one accessor. */
  ghost predicate Partition(p: Pool) {
    && (forall a :: 0 <= a < |p.s| ==> (p.s[a].linkC == 0 <==> a in p.accFree || OnBufList(p, a)))
    && (forall a :: !(a in p.accFree && OnBufList(p, a)))
    && (forall c, a {:trigger Listed(p, c, a)} :: Listed(p, c, a))
    && (forall a :: a in p.accFree ==> 0 <= a < |p.s| && p.s[a].buffer == NIL)
    && (forall a, d, b {:trigger KeepsBuf(p, a, b), KeepsBuf(p, d, b)} :: KeepsBuf(p, a, b) && KeepsBuf(p, d, b) ==> a == d)
    && (forall b :: 0 <= b < |p.t| ==> p.t[b].cls < |p.bufFree| && (p.t[b].linkC == 0 ==> exists a :: KeepsBuf(p, a, b)))
  }

  ghost predicate Inv(p: Pool) {
    AccCounts(p) && BufCounts(p) && Shapes(p) && FreeLists(p) && Partition(p)
  }

  // ----- meaning

  /** The bytes accessor a gives access to. */
  function Slice(p: Pool, a: int): seq<Byte> {
    if 0 <= a < |p.s| && 0 <= p.s[a].buffer < |p.t| && p.s[a].offset + p.s[a].length <= |p.t[p.s[a].buffer].data|
    then p.t[p.s[a].buffer].data[p.s[a].offset..p.s[a].offset + p.s[a].length] else []
  }

  function Bytes(p: Pool, l: seq<int>): seq<Byte> {
    if l == [] then [] else Slice(p, l[0]) + Bytes(p, l[1..])
  }

  /** The byte string a reference stands for. */
  ghost function Mean(p: Pool, a: int): seq<Byte> {
    Bytes(p, Behind(p.w, a))
  }

  /** Accessor i, and the contents of its buffer, are as they were. */
  ghost predicate SameNode(p: Pool, q: Pool, i: int) {
    && 0 <= i < |p.s| && |q.s| == |p.s|
    && q.s[i] == p.s[i].(linkC := q.s[i].linkC)
    && (0 <= p.s[i].buffer < |p.t| ==> p.s[i].buffer < |q.t| && q.t[p.s[i].buffer].data == p.t[p.s[i].buffer].data)
  }

  /** Everything seen through reference r is as it was. */
  ghost predicate Keeps(p: Pool, q: Pool, r: int) {
    && 0 <= r < |p.w| && |q.w| == |p.w| && q.w[r] == p.w[r]
    && forall i :: i in p.w[r] ==> SameNode(p, q, i)
  }

  lemma {:induction false} SameBytes(p: Pool, q: Pool, l: seq<int>)
    requires forall i :: i in l ==> SameNode(p, q, i)
    requires |p.t| == |q.t|
    ensures Bytes(q, l) == Bytes(p, l)
  {
    if l != [] {
      assert SameNode(p, q, l[0]);
      SameBytes(p, q, l[1..]);
    }
  }

  lemma KeepsMean(p: Pool, q: Pool, r: int)
    requires Keeps(p, q, r) && |p.t| == |q.t|
    ensures Mean(q, r) == Mean(p, r)
  {
    SameBytes(p, q, p.w[r]);
  }

  lemma {:induction false} BytesConcat(p: Pool, l: seq<int>, m: seq<int>)
    ensures Bytes(p, l + m) == Bytes(p, l) + Bytes(p, m)
  {
    if l == [] {
      assert l + m == m;
    } else {
      assert (l + m)[1..] == l[1..] + m;
      BytesConcat(p, l[1..], m);
    }
  }

  // ----- chains

  lemma Alive(p: Pool, a: int)
    requires AccCounts(p) && (a in p.ext || a in p.spare)
    ensures 0 <= a < |p.s| && p.s[a].linkC > 0
  {
    assert RefAt(p, a);
  }

  lemma NextAlive(p: Pool, a: int)
    requires AccCounts(p) && Shapes(p) && 0 <= a < |p.s| && p.s[a].linkC > 0 && p.s[a].next != NIL
    ensures var n := p.s[a].next; 0 <= n < |p.s| && p.s[n].linkC > 0 && ShapeAt(p, n)
  {
    assert ShapeAt(p, a);
    var n := p.s[a].next;
    assert RefAt(p, n);
    RefsHit(p.s, a, NEXT, n);
    assert ShapeAt(p, n);
  }

  /** Element k of a chain is live, and the chain from there on is its own. */
  lemma {:induction false} ChainAt(p: Pool, a: int, k: int)
    requires AccCounts(p) && Shapes(p) && 0 <= a < |p.s| && p.s[a].linkC > 0 && 0 <= k < |p.w[a]|
    ensures var i := p.w[a][k];
      && 0 <= i < |p.s| && p.s[i].linkC > 0 && ShapeAt(p, i) && p.w[i] == p.w[a][k..]
      && p.s[i].next == At(p.w[a], k + 1)
    decreases k
  {
    assert ShapeAt(p, a);
    var n := p.s[a].next;
    if k > 0 {
      NextAlive(p, a);
      assert p.w[a][k] == p.w[n][k - 1] && p.w[a][k..] == p.w[n][k - 1..];
      ChainAt(p, n, k - 1);
      assert At(p.w[a], k + 1) == At(p.w[n], k);
    } else if n != NIL {
      NextAlive(p, a);
      assert p.w[a][1] == p.w[n][0];
    }
  }

  /** No accessor on the chain of h is shared. */
  ghost predicate Private(p: Pool, h: int) {
    h in p.ext && 0 <= h < |p.w| && forall i :: i in p.w[h] ==> 0 <= i < |p.s| && p.s[i].linkC == 1
  }

  /** What a private chain holds is on the chain of no other reference. */
  lemma {:induction false} PrivateApart(p: Pool, h: int, r: int, k: int)
    requires AccCounts(p) && Shapes(p) && Private(p, h) && 0 <= k < |p.w[h]|
    requires r in p.ext - multiset{h} || r in p.spare
    ensures 0 <= r < |p.w| && p.w[h][k] !in p.w[r]
    decreases k
  {
    Alive(p, h);
    Alive(p, r);
    var a := p.w[h][k];
    ChainAt(p, h, k);
    assert a in p.w[h] && RefAt(p, a) && p.s[a].linkC == 1;
    if m :| 0 <= m < |p.w[r]| && p.w[r][m] == a {
      assert ShapeAt(p, h) && ShapeAt(p, r);
      if m > 0 { ChainAt(p, r, m - 1); RefsHit(p.s, p.w[r][m - 1], NEXT, a); }
      if k > 0 {
        ChainAt(p, h, k - 1);
        RefsHit(p.s, p.w[h][k - 1], NEXT, a);
        PrivateApart(p, h, r, k - 1);
        if m > 0 { RefsTwo(p.s, p.w[h][k - 1], p.w[r][m - 1], NEXT, a); }
      }
      assert false;
    }
  }

  // ----- frames

  lemma FreeListFrame(s: seq<Acc>, u: seq<Acc>, head: int, l: seq<int>)
    requires FreeList(s, head, l) && |s| == |u|
    requires forall i :: 0 <= i < |s| && s[i].linkC == 0 && i in l ==> u[i] == s[i]
    ensures FreeList(u, head, l)
  {
    forall k | 0 <= k < |l| ensures LinkAt(u, l, k) { assert LinkAt(s, l, k) && l[k] in l; }
  }

  lemma FreeListsFrame(p: Pool, q: Pool)
    requires FreeLists(p) && |p.s| == |q.s|
    requires q.accHead == p.accHead && q.heads == p.heads && q.accFree == p.accFree && q.bufFree == p.bufFree
    requires forall i :: 0 <= i < |p.s| && p.s[i].linkC == 0 ==> q.s[i] == p.s[i]
    ensures FreeLists(q)
  {
    FreeListFrame(p.s, q.s, p.accHead, p.accFree);
    forall c | 0 <= c < |p.heads| ensures FreeList(q.s, q.heads[c], q.bufFree[c]) {
      FreeListFrame(p.s, q.s, p.heads[c], p.bufFree[c]);
    }
  }

  /** The partition depends on which accessors and buffers are free, and on what the free ones keep. */
  lemma PartitionFrame(p: Pool, q: Pool)
    requires Partition(p) && |p.s| == |q.s| && |p.t| == |q.t| && q.accFree == p.accFree && q.bufFree == p.bufFree
    requires forall i :: 0 <= i < |p.s| ==> (q.s[i].linkC == 0 <==> p.s[i].linkC == 0)
    requires forall i :: 0 <= i < |p.s| && p.s[i].linkC == 0 ==> q.s[i].buffer == p.s[i].buffer
    requires forall b :: 0 <= b < |p.t| ==> q.t[b].cls == p.t[b].cls && (q.t[b].linkC == 0 <==> p.t[b].linkC == 0)
    ensures Partition(q)
  {
    forall a ensures OnBufList(q, a) == OnBufList(p, a) {}
    forall a, b ensures KeepsBuf(q, a, b) == KeepsBuf(p, a, b) {
      if KeepsBuf(p, a, b) { assert OnBufList(p, a); }
      if KeepsBuf(q, a, b) { assert OnBufList(q, a); }
    }
    forall c, a ensures Listed(q, c, a) {
      assert Listed(p, c, a);
      if 0 <= c < |p.bufFree| && a in p.bufFree[c] { assert OnBufList(p, a); }
    }
    forall b | 0 <= b < |q.t| && q.t[b].linkC == 0 ensures exists a :: KeepsBuf(q, a, b) {
      var a :| KeepsBuf(p, a, b);
      assert KeepsBuf(q, a, b);
    }
  }

  /** A reference keeps what it sees if no accessor on its chain, nor its buffer, is touched. */
  lemma KeepsChain(p: Pool, q: Pool, r: int)
    requires AccCounts(p) && Shapes(p) && 0 <= r < |p.s| && p.s[r].linkC > 0 && |q.w| == |p.w| && q.w[r] == p.w[r]
    requires forall i :: 0 <= i < |p.s| && p.s[i].linkC > 0 && i in p.w[r] ==> SameNode(p, q, i)
    ensures Keeps(p, q, r)
  {
    forall i | i in p.w[r] ensures SameNode(p, q, i) {
      var k :| 0 <= k < |p.w[r]| && p.w[r][k] == i;
      ChainAt(p, r, k);
    }
  }

  /** Both references and tables see the same pool through every live accessor. */
  ghost predicate KeepsAll(p: Pool, q: Pool) {
    forall r :: 0 <= r < |p.s| && p.s[r].linkC > 0 ==> Keeps(p, q, r)
  }

  // ----- one more reference, one less

  function Incr(p: Pool, a: int): Pool
    requires 0 <= a < |p.s|
  {
    p.(s := p.s[a := p.s[a].(linkC := p.s[a].linkC + 1)], ext := p.ext + multiset{a})
  }

  function Decr(p: Pool, a: int): Pool
    requires 0 <= a < |p.s| && p.s[a].linkC > 0
  {
    p.(s := p.s[a := p.s[a].(linkC := p.s[a].linkC - 1)], ext := p.ext - multiset{a})
  }

  /** Changing the count of a live accessor that stays live, in step with the outside references. */
  lemma Recount(p: Pool, q: Pool, a: int)
    requires Inv(p) && 0 <= a < |p.s| == |q.s| && p.s[a].linkC > 0 && q.s[a].linkC > 0
    requires q == p.(s := p.s[a := p.s[a].(linkC := q.s[a].linkC)], ext := q.ext)
    requires q.ext[a] as int - p.ext[a] as int == q.s[a].linkC as int - p.s[a].linkC as int
    requires forall i :: i != a ==> q.ext[i] == p.ext[i]
    ensures Inv(q) && KeepsAll(p, q)
  {
    assert AccCounts(q) by {
      forall i | 0 <= i < |q.s| ensures RefAt(q, i) {
        assert RefAt(p, i);
        RefsUpdate(p.s, a, q.s[a], NEXT, i);
      }
    }
    assert BufCounts(q) by {
      forall b | 0 <= b < |q.t| ensures BufAt(q, b) {
        assert BufAt(p, b);
        RefsUpdate(p.s, a, q.s[a], BUFFER, b);
      }
    }
    SameFrames(p, q, a);
  }

  /** Shapes, free lists and partition do not depend on counts of live accessors. */
  lemma SameFrames(p: Pool, q: Pool, a: int)
    requires AccCounts(p) && Shapes(p) && FreeLists(p) && Partition(p) && 0 <= a < |p.s| == |q.s|
    requires p.s[a].linkC > 0 && q.s[a].linkC > 0
    requires q == p.(s := p.s[a := p.s[a].(linkC := q.s[a].linkC)], ext := q.ext)
    ensures Shapes(q) && FreeLists(q) && Partition(q) && KeepsAll(p, q)
  {
    forall i | 0 <= i < |q.s| && q.s[i].linkC > 0 ensures ShapeAt(q, i) { assert ShapeAt(p, i); }
    FreeListsFrame(p, q);
    PartitionFrame(p, q);
    forall r | 0 <= r < |p.s| && p.s[r].linkC > 0 ensures Keeps(p, q, r) { KeepsChain(p, q, r); }
  }

  lemma IncrInv(p: Pool, a: int)
    requires Inv(p) && 0 <= a < |p.s| && p.s[a].linkC > 0
    ensures Inv(Incr(p, a)) && KeepsAll(p, Incr(p, a))
  {
    Recount(p, Incr(p, a), a);
  }

  lemma DecrInv(p: Pool, a: int)
    requires Inv(p) && a in p.ext && 0 <= a < |p.s| && p.s[a].linkC > 1
    ensures Inv(Decr(p, a)) && KeepsAll(p, Decr(p, a))
  {
    Recount(p, Decr(p, a), a);
  }
}
