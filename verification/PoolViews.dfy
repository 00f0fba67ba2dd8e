/** What the holders of references see of a pool, and how the elementary changes leave it. */
module PoolViews {
  import opened Basics
  import opened Accessors
  import opened AccessorSteps
  import opened ChainSteps

  /** Sizes of the buffer classes in ascending order; every buffer is as big as its class. */
  ghost predicate Sized(p: Pool, sizes: seq<nat>) {
    && |sizes| == |p.heads| == |p.bufFree| > 0 && sizes[0] > 0
    && (forall i, j :: 0 <= i <= j < |sizes| ==> sizes[i] <= sizes[j])
    && forall b :: 0 <= b < |p.t| ==> p.t[b].cls < |sizes| && |p.t[b].data| == sizes[p.t[b].cls]
  }

  /** Things have been given back: no accessor has gained a reference, and no free list has become shorter. */
  ghost predicate Returned(p: Pool, q: Pool) {
    && |p.s| == |q.s| && |p.accFree| <= |q.accFree| && |p.bufFree| == |q.bufFree|
    && (forall c :: 0 <= c < |p.bufFree| ==> |p.bufFree[c]| <= |q.bufFree[c]|)
    && (forall i :: 0 <= i < |p.s| ==> q.s[i].linkC <= p.s[i].linkC)
    && |p.t| == |q.t| && forall b :: 0 <= b < |p.t| ==> q.t[b].linkC <= p.t[b].linkC
  }

  /** What every reference other than those listed in but stands for is as it was, unless its holder could spare it. */
  ghost predicate KeepsRefs(p: Pool, q: Pool, but: multiset<int>) {
    && |q.t| == |p.t| && |q.s| == |p.s| && q.spare <= p.spare
    && (forall r :: r in p.ext - but ==> r in q.ext && Keeps(p, q, r))
    && forall r :: r in q.spare ==> Keeps(p, q, r)
  }

  /** Holders have given up references that they could spare. */
  ghost predicate Reclaimed(p: Pool, q: Pool) {
    q.ext == p.ext && KeepsRefs(p, q, multiset{}) && Returned(p, q)
  }

  /** Accessors but one, and buffers in use, are exactly as they were. */
  ghost predicate Untouched(p: Pool, q: Pool, but: int) {
    && |p.s| == |q.s| && |p.t| == |q.t| && q.spare == p.spare
    && (forall i :: 0 <= i < |p.s| && i != but ==> q.s[i] == p.s[i])
    && (forall b :: 0 <= b < |p.t| && p.t[b].linkC > 0 ==> q.t[b] == p.t[b])
  }

  /** Accessors in use have the links, counts and slices they had. */
  ghost predicate SameLive(s: seq<Acc>, u: seq<Acc>) {
    |s| == |u| && forall i :: 0 <= i < |s| && s[i].linkC > 0 ==> u[i] == s[i]
  }

  /** No accessor that was in use, but perhaps one, has gained a reference. */
  ghost predicate NoMoreRefs(s: seq<Acc>, u: seq<Acc>, but: int) {
    |s| == |u| && forall i :: 0 <= i < |s| && s[i].linkC > 0 && i != but ==> u[i].linkC <= s[i].linkC
  }

  /** At most used accessors have been taken off the free list, and no buffer. */
  ghost predicate Supplies(p: Pool, q: Pool, used: nat) {
    && |p.accFree| <= |q.accFree| + used && |p.bufFree| == |q.bufFree|
    && forall c :: 0 <= c < |p.bufFree| ==> |p.bufFree[c]| <= |q.bufFree[c]|
  }

  /** Nobody else sees the chain of h or its buffers. */
  ghost predicate Writable(p: Pool, h: int) {
    && Private(p, h)
    && forall i :: i in p.w[h] ==> 0 <= i < |p.s| && 0 <= p.s[i].buffer < |p.t| && p.t[p.s[i].buffer].linkC == 1
  }

  /** a, unused in p, is in q the only accessor of a buffer nobody used, and nothing else has changed. */
  ghost predicate Fresh(p: Pool, q: Pool, a: int) {
    && |q.w| == |q.s| == |p.s| && 0 <= a < |p.s| && p.s[a].linkC == 0
    && Sole(q, a) && q.w[a] == [a] && q.s[a].next == NIL && a !in p.ext
    && 0 <= q.s[a].buffer < |q.t| && q.t[q.s[a].buffer].linkC == 1
    && q.ext == p.ext + multiset{a} && KeepsAll(p, q) && KeepsRefs(p, q, multiset{}) && Untouched(p, q, a)
  }

  /** How many of the biggest buffers suffice for size bytes. */
  ghost function Needed(size: nat, biggest: nat): nat
    requires biggest > 0
  {
    if size == 0 then 0 else 1 + Needed(if size < biggest then 0 else size - biggest, biggest)
  }

  /** n, unused in p, is in q an accessor for s alone, and nothing else that was in use has changed. */
  ghost predicate Lone(p: Pool, q: Pool, n: int, s: seq<Byte>) {
    && |q.w| == |q.s| == |p.s| && 0 <= n < |p.s| && p.s[n].linkC == 0 && n !in p.ext
    && Sole(q, n) && q.w[n] == [n] && q.s[n].next == NIL && Mean(q, n) == s
    && q.ext == p.ext + multiset{n} && KeepsRefs(p, q, multiset{}) && SameLive(p.s, q.s)
  }

  /** The chain of head, built since p0, holds n bytes so far. */
  ghost predicate Building(p0: Pool, p: Pool, head: int, tail: int, n: int) {
    && Writable(p, head) && tail == At(p.w[head], |p.w[head]| - 1) && |Mean(p, head)| == n
    && head !in p0.ext && p.ext == p0.ext + multiset{head} && KeepsRefs(p0, p, multiset{})
    && NoMoreRefs(p0.s, p.s, NIL) && |p.w[head]| > 0
  }

  /** One accessor that nobody else refers to, on a buffer nobody else uses. */
  ghost predicate Contiguous(p: Pool, a: int) {
    && 0 <= a < |p.s| && p.s[a].next == NIL && p.s[a].linkC == 1
    && 0 <= p.s[a].buffer < |p.t| && p.t[p.s[a].buffer].linkC == 1
  }

  lemma BytesAround(p: Pool, l: seq<int>, k: nat)
    requires k < |l|
    ensures Bytes(p, l) == Bytes(p, l[..k]) + Slice(p, l[k]) + Bytes(p, l[k + 1..])
    ensures Bytes(p, l[k..]) == Slice(p, l[k]) + Bytes(p, l[k + 1..])
  {
    hide Slice, Bytes;
    BytesFrom(p, l, k);
    BytesConcat(p, l[..k], l[k..]);
    Split(l, k);
    Join(Bytes(p, l[..k]), Slice(p, l[k]), Bytes(p, l[k + 1..]));
  }

  lemma BytesFrom(p: Pool, l: seq<int>, k: nat)
    requires k < |l|
    ensures Bytes(p, l[k..]) == Slice(p, l[k]) + Bytes(p, l[k + 1..])
  {
    hide Slice;
    assert l[k..] != [] && l[k..][0] == l[k] && l[k..][1..] == l[k + 1..];
  }

  lemma Split(l: seq<int>, k: nat)
    requires k <= |l|
    ensures l == l[..k] + l[k..]
  {
  }

  lemma Join(a: seq<Byte>, b: seq<Byte>, c: seq<Byte>)
    ensures a + (b + c) == a + b + c
  {
  }

  /** No accessor is on a chain twice. */
  lemma ChainDistinct(p: Pool, h: int)
    requires Inv(p) && h in p.ext
    ensures 0 <= h < |p.w| && forall i, j :: 0 <= i < j < |p.w[h]| ==> p.w[h][i] != p.w[h][j]
  {
    Alive(p, h);
    forall i, j | 0 <= i < j < |p.w[h]| ensures p.w[h][i] != p.w[h][j] { ChainAt(p, h, i); ChainAt(p, h, j); }
  }

  /** A chain does not come back to where it started. */
  lemma ChainOnce(p: Pool, a: int)
    requires AccCounts(p) && Shapes(p) && 0 <= a < |p.s| && p.s[a].linkC > 0
    ensures 0 <= a < |p.w| && forall k :: 0 < k < |p.w[a]| ==> p.w[a][k] != a
  {
    forall k | 0 < k < |p.w[a]| ensures p.w[a][k] != a { ChainAt(p, a, k); }
  }

  lemma BytesLeft(p: Pool, l: seq<int>, k: nat)
    requires k <= |l| && Bytes(p, l[k..]) != []
    ensures k < |l|
  {
    assert l[|l|..] == [];
  }

  lemma AllMeans(p: Pool, q: Pool, a: int)
    requires KeepsAll(p, q) && 0 <= a < |p.s| && p.s[a].linkC > 0 && |p.t| == |q.t|
    ensures Mean(q, a) == Mean(p, a)
  {
    assert Keeps(p, q, a);
    KeepsMean(p, q, a);
  }

  /** What nobody else sees remains so when others give things up. */
  lemma StillWritable(p: Pool, q: Pool, h: int)
    requires Inv(q) && Writable(p, h) && h in q.ext && Keeps(p, q, h) && Returned(p, q)
    ensures Writable(q, h)
  {
    Alive(q, h);
    forall i | i in q.w[h]
      ensures 0 <= i < |q.s| && q.s[i].linkC == 1 && 0 <= q.s[i].buffer < |q.t| && q.t[q.s[i].buffer].linkC == 1
    {
      var k :| 0 <= k < |q.w[h]| && q.w[h][k] == i;
      ChainAt(q, h, k);
      assert i in p.w[h] && SameNode(p, q, i);
      Freeable(q, i);
    }
  }

  lemma PrivateStill(p: Pool, q: Pool, h: int, but: int)
    requires Inv(q) && Private(p, h) && h in q.ext && Keeps(p, q, h) && NoMoreRefs(p.s, q.s, but) && but !in p.w[h]
    ensures Private(q, h)
  {
    Alive(q, h);
    forall i | i in q.w[h] ensures 0 <= i < |q.s| && q.s[i].linkC == 1 {
      var k :| 0 <= k < |q.w[h]| && q.w[h][k] == i;
      ChainAt(q, h, k);
      assert i in p.w[h];
    }
  }

  lemma CursorStart(p: Pool, root: int)
    requires Inv(p) && root in p.ext
    ensures 0 <= root < |p.w| && p.w[root] != [] && p.w[root][0] == root && p.w[root][0..] == p.w[root]
    ensures Mean(p, root) == Bytes(p, p.w[root][0..]) && Keeps(p, p, root)
  {
    LiveRef(p, root);
    KeepsChain(p, p, root);
  }

  /** What an accessor on the chain of a kept reference holds. */
  lemma CursorAt(p0: Pool, p: Pool, root: int, k: nat)
    requires Inv(p0) && Inv(p) && root in p0.ext && root in p.ext && Keeps(p0, p, root) && |p.t| == |p0.t|
    requires k < |p0.w[root]|
    ensures var i := p0.w[root][k];
      && 0 <= i < |p.s| == |p0.s| && p.s[i].linkC > 0 && ShapeAt(p, i)
      && p.s[i].length == p0.s[i].length && p.s[i].next == At(p0.w[root], k + 1)
      && Slice(p, i) == Slice(p0, i) && |Slice(p0, i)| == p0.s[i].length
      && Bytes(p0, p0.w[root][k..]) == Slice(p0, i) + Bytes(p0, p0.w[root][k + 1..])
  {
    Alive(p0, root);
    Alive(p, root);
    ChainAt(p0, root, k);
    ChainAt(p, root, k);
    var i := p0.w[root][k];
    assert i in p0.w[root] && SameNode(p0, p, i);
    assert p0.w[root][k..][1..] == p0.w[root][k + 1..];
  }

  lemma LoneRewrite(p: Pool, a: int)
    requires Inv(p) && Sole(p, a) && |p.w| == |p.s| && p.w[a] == [a]
    ensures Private(p, a) && 0 <= p.s[a].buffer < |p.t| && |Slice(p, a)| == p.s[a].length
    ensures p.s[a].offset + p.s[a].length <= |p.t[p.s[a].buffer].data|
    ensures Slice(p, a) == p.t[p.s[a].buffer].data[p.s[a].offset..p.s[a].offset + p.s[a].length]
    ensures forall o: nat, l: nat :: p.s[a].offset <= o && o + l <= p.s[a].offset + p.s[a].length ==>
              CanRewrite(p, a, a, o, l, p.t[p.s[a].buffer].data)
  {
    assert ShapeAt(p, a);
  }

  lemma LoneDone(p0: Pool, p: Pool, q: Pool, a: int)
    requires Inv(q) && KeepsRefs(p0, p, multiset{}) && KeepsRefs(p, q, multiset{a}) && a !in p0.ext
    requires p.ext == p0.ext + multiset{a} && q.ext == p.ext
    requires 0 <= a < |q.w| && q.w[a] == [a]
    ensures KeepsRefs(p0, q, multiset{}) && Mean(q, a) == Slice(q, a)
  {
    KeepsRefsTrans(p0, p, q, multiset{}, multiset{a});
    LoneMean(q, a);
  }

  lemma DetachDone(p: Pool, a: int, sizes: seq<nat>)
    requires Inv(p) && Sole(p, a) && Sized(p, sizes)
    ensures |p.s| == |p.w|
    ensures var q := Detached(p, a);
      && Inv(q) && Sized(q, sizes) && Sole(q, a) && q.w[a] == [a] && q.s[a].next == NIL && Slice(q, a) == Slice(p, a)
      && KeepsRefs(p, q, multiset{a}) && (p.s[a].next == NIL ==> q == p)
      && (p.s[a].next != NIL ==> p.s[a].next != a)
  {
    DetachedInv(p, a);
    SoleCount(p, a);
    var q := Detached(p, a);
    OthersRefs(p, q, a);
  }

  /** What all references but the only one to a lead to is what holders of references see. */
  lemma OthersRefs(p: Pool, q: Pool, a: int)
    requires AccCounts(p) && KeepsOthers(p, q, a) && p.ext[a] == 1 && p.spare[a] == 0 && p.ext - multiset{a} <= q.ext && q.spare == p.spare
    requires |q.s| == |p.s| && |q.t| == |p.t|
    ensures KeepsRefs(p, q, multiset{a})
  {
    forall r | r in p.ext - multiset{a} || r in p.spare ensures Keeps(p, q, r) { Alive(p, r); }
    forall r | r in p.ext - multiset{a} ensures r in q.ext {}
  }

  lemma CopyDone(p0: Pool, p1: Pool, p2: Pool, q: Pool, n: int, next: int)
    requires Inv(p1) && Inv(p2) && Inv(q) && n !in p0.ext && p1.ext == p0.ext + multiset{n} && KeepsRefs(p0, p1, multiset{})
    requires KeepsRefs(p1, p2, multiset{n}) && Sole(p2, n) && p2.w[n] == [n] && p2.s[n].next == NIL
    requires p2.ext == (if next == NIL then p1.ext else p1.ext + multiset{next}) && NIL !in p2.ext
    requires next == NIL || next != n
    requires q.ext == p2.ext - multiset{next} && KeepsRefs(p2, q, multiset{next}) && Returned(p2, q)
    ensures Sole(q, n) && q.ext == p0.ext + multiset{n} && KeepsRefs(p0, q, multiset{})
    ensures |q.w| == |q.s| && q.w[n] == [n] && q.s[n] == p2.s[n] && Slice(q, n) == Slice(p2, n)
  {
    CopyExts(p0.ext, p2.ext, n, next);
    CopyKept(p2, q, n, next);
    hide Inv, Sole, Slice;
    KeepsRefsTrans(p0, p1, p2, multiset{}, multiset{n});
    KeepsRefsTrans(p0, p2, q, multiset{}, multiset{next});
  }

  lemma CopyExts(e: multiset<int>, f: multiset<int>, n: int, next: int)
    requires f == (if next == NIL then e + multiset{n} else e + multiset{n} + multiset{next}) && NIL !in f
    ensures f - multiset{next} == e + multiset{n} && e <= f - multiset{next}
  {
  }

  lemma CopyKept(p: Pool, q: Pool, n: int, next: int)
    requires Inv(p) && Inv(q) && Sole(p, n) && 0 <= n < |p.w| && p.w[n] == [n] && p.s[n].next == NIL && n in q.ext
    requires n in p.ext - multiset{next} && KeepsRefs(p, q, multiset{next}) && Returned(p, q)
    ensures Sole(q, n) && |q.w| == |q.s| && q.w[n] == [n] && q.s[n] == p.s[n] && Slice(q, n) == Slice(p, n)
  {
    assert Keeps(p, q, n) && n in p.w[n];
    assert SameNode(p, q, n);
    Alive(q, n);
  }

  /** Copying an accessor takes a reference to the next one, giving that up again returns it. */
  lemma SameLinks(s0: seq<Acc>, s1: seq<Acc>, s2: seq<Acc>, s3: seq<Acc>, n: int, x: int)
    requires |s0| == |s1| == |s2| == |s3| && 0 <= n < |s0| && s0[n].linkC == 0
    requires x != NIL ==> 0 <= x < |s0| && x != n && s0[x].linkC > 0 && s1[x] == s0[x].(linkC := s0[x].linkC + 1)
    requires forall i :: 0 <= i < |s0| && i != n && i != x ==> s1[i] == s0[i]
    requires s2 == s1[n := s2[n]]
    requires s3 == if x == NIL then s2 else s2[x := s2[x].(linkC := s0[x].linkC)]
    ensures SameLive(s0, s3)
  {
  }

  lemma RewriteDone(p: Pool, h: int, i: int, offset: nat, length: nat, data: seq<Byte>, sizes: seq<nat>)
    requires CanRewrite(p, h, i, offset, length, data) && Sized(p, sizes)
    ensures var q := Rewritten(p, i, offset, length, data);
      && Inv(q) && Sized(q, sizes) && Private(q, h) && q.w == p.w && KeepsRefs(p, q, multiset{h})
      && (forall j :: j in p.w[h] && j != i ==> SameNode(p, q, j))
      && Slice(q, i) == data[offset..offset + length]
  {
    RewrittenInv(p, h, i, offset, length, data);
  }

  lemma LinkDone(p: Pool, h: int, b: int, sizes: seq<nat>)
    requires CanAttach(p, h, b) && Sized(p, sizes)
    ensures 0 <= h < |p.w| == |p.s| && 0 <= b < |p.w| && p.w[h] != [] && 0 <= p.w[h][|p.w[h]| - 1] < |p.s|
    ensures var q := Attached(p, h, b);
      && Inv(q) && Sized(q, sizes) && q.w[h] == p.w[h] + p.w[b] && Mean(q, h) == Mean(p, h) + Mean(p, b)
      && KeepsRefs(p, q, multiset{h, b})
  {
    AttachedInv(p, h, b);
    var q := Attached(p, h, b);
    forall r | r in p.ext - multiset{h, b} ensures r in q.ext && Keeps(p, q, r) {}
  }

  lemma KeepsRefsTrans(p: Pool, q: Pool, z: Pool, but: multiset<int>, also: multiset<int>)
    requires KeepsRefs(p, q, but) && KeepsRefs(q, z, also) && p.ext - but <= q.ext - also
    ensures KeepsRefs(p, z, but)
  {
    forall r | r in p.ext - but ensures r in z.ext && Keeps(p, z, r) {
      assert r in q.ext - also;
      KeepsTrans(p, q, z, r);
    }
    forall r | r in z.spare ensures Keeps(p, z, r) {
      assert r in q.spare;
      KeepsTrans(p, q, z, r);
    }
  }

  /** A lone accessor gives access to its slice. */
  lemma LoneMean(p: Pool, a: int)
    requires 0 <= a < |p.w| && p.w[a] == [a]
    ensures Mean(p, a) == Slice(p, a)
  {
    assert [a][1..] == [];
    assert Bytes(p, [a]) == Slice(p, a) + Bytes(p, [a][1..]);
  }

  lemma FreshPart(p: Pool, q: Pool, a: int)
    requires Inv(q) && Fresh(p, q, a)
    ensures Writable(q, a) && |Mean(q, a)| == q.s[a].length
  {
    assert ShapeAt(q, a);
    LoneMean(q, a);
  }

  lemma FirstPart(p0: Pool, p: Pool, q: Pool, head: int)
    requires Inv(q) && Reclaimed(p0, p) && Fresh(p, q, head)
    ensures Building(p0, q, head, head, q.s[head].length)
  {
    FreshPart(p, q, head);
    hide Inv, Mean;
    KeepsRefsTrans(p0, p, q, multiset{}, multiset{});
  }

  /** What has been built stays when others give things up. */
  lemma BuildingStill(p0: Pool, p: Pool, q: Pool, head: int, tail: int, n: int)
    requires Inv(q) && Building(p0, p, head, tail, n) && Reclaimed(p, q)
    ensures Building(p0, q, head, tail, n) && 0 <= head < |p.s| == |q.s| && q.s[head].length == p.s[head].length
  {
    hide Inv, Mean;
    assert head in p.ext - multiset{} && Keeps(p, q, head);
    LiveRef(q, head);
    assert SameNode(p, q, head);
    StillWritable(p, q, head);
    KeepsMean(p, q, head);
    KeepsRefsTrans(p0, p, q, multiset{}, multiset{});
  }

  /** A pool nobody has asked anything of. */
  lemma ReclaimedNone(p: Pool)
    requires Inv(p)
    ensures Reclaimed(p, p)
  {
    KeepsSelf(p, multiset{});
  }

  lemma ReclaimedTrans(p: Pool, q: Pool, z: Pool)
    requires Reclaimed(p, q) && Reclaimed(q, z)
    ensures Reclaimed(p, z)
  {
    KeepsRefsTrans(p, q, z, multiset{}, multiset{});
    ReturnedTrans(p, q, z);
  }

  /** A reference that is to be given up is one that its holder must not spare any more. */
  function Called(p: Pool, x: int): Pool {
    p.(ext := p.ext + multiset{x}, spare := p.spare - multiset{x})
  }

  lemma CalledInv(p: Pool, x: int, sizes: seq<nat>)
    requires Inv(p) && Sized(p, sizes) && x in p.spare
    ensures Inv(Called(p, x)) && Sized(Called(p, x), sizes)
  {
    var q := Called(p, x);
    forall a | 0 <= a < |q.s| ensures RefAt(q, a) { assert RefAt(p, a); }
    forall b | 0 <= b < |q.t| ensures BufAt(q, b) { assert BufAt(p, b); }
    forall i | 0 <= i < |q.s| && q.s[i].linkC > 0 ensures ShapeAt(q, i) { assert ShapeAt(p, i); }
    FreeListsFrame(p, q);
    PartitionFrame(p, q);
  }

  lemma GivenUp(p: Pool, q: Pool, x: int)
    requires Inv(p) && x in p.spare && KeepsRefs(Called(p, x), q, multiset{x}) && Returned(Called(p, x), q)
    requires q.ext == Called(p, x).ext - multiset{x}
    ensures Reclaimed(p, q) && q.spare <= p.spare - multiset{x}
  {
    hide Inv, Keeps;
    assert Called(p, x).ext - multiset{x} == p.ext;
    forall r | r in p.ext || r in q.spare ensures Keeps(p, q, r) { SameKept(p, Called(p, x), q, r); }
  }

  /** Who holds a reference makes no difference to what it leads to. */
  lemma SameKept(p: Pool, u: Pool, q: Pool, r: int)
    requires Keeps(u, q, r) && u == p.(ext := u.ext, spare := u.spare)
    ensures Keeps(p, q, r)
  {
    forall i | i in p.w[r] ensures SameNode(p, q, i) { assert SameNode(u, q, i); }
  }

  /** What a reference leads to is still in use after others have given things up. */
  lemma StillLive(p: Pool, q: Pool, r: int, a: int)
    requires Inv(q) && Reclaimed(p, q) && r in p.ext && a in Behind(p.w, r)
    ensures 0 <= a < |q.s| == |p.s| && q.s[a].linkC > 0 && a in Behind(q.w, r)
    ensures q.s[a] == p.s[a].(linkC := q.s[a].linkC) && Slice(q, a) == Slice(p, a) && Mean(q, r) == Mean(p, r)
  {
    assert r in p.ext - multiset{} && Keeps(p, q, r);
    Alive(q, r);
    var k :| 0 <= k < |q.w[r]| && q.w[r][k] == a;
    ChainAt(q, r, k);
    assert SameNode(p, q, a);
    KeepsMean(p, q, r);
  }

  /** A fresh accessor does not disturb what has been built. */
  lemma NextPart(p0: Pool, p: Pool, q: Pool, head: int, tail: int, n: int, a: int)
    requires Inv(p) && Inv(q) && Building(p0, p, head, tail, n) && Fresh(p, q, a)
    ensures 0 <= head < |q.w| && Writable(q, head) && Private(q, head) && tail == At(q.w[head], |q.w[head]| - 1)
    ensures |Mean(q, head)| == n && |q.w[head]| > 0
    ensures KeepsRefs(p0, q, multiset{}) && NoMoreRefs(p0.s, q.s, NIL) && q.ext == p0.ext + multiset{head} + multiset{a}
    ensures a in q.ext - multiset{head} && Writable(q, a) && |Mean(q, a)| == q.s[a].length && head != a
    ensures q.w[head] == p.w[head] && |q.w| == |q.s| == |p0.s| && 0 <= a < |p0.s| && a !in p0.ext
    ensures NIL !in q.ext && q.w[a] == [a] && 0 <= tail < |q.s| && head !in p0.ext && q.s[head].length == p.s[head].length
  {
    FreshPart(p, q, a);
    Alive(p, head);
    LastOfPrivate(p, head);
    hide Inv, Mean;
    assert Keeps(p, q, head);
    assert SameNode(p, q, head);
    KeepsMean(p, q, head);
    KeepsRefsTrans(p0, p, q, multiset{}, multiset{});
    forall i | i in q.w[head]
      ensures 0 <= i < |q.s| && q.s[i].linkC == 1 && 0 <= q.s[i].buffer < |q.t| && q.t[q.s[i].buffer].linkC == 1
    {
      assert i in p.w[head];
    }
    NoRefNil(q);
    FreshBefore(p0, p, q, a);
  }

  lemma FreshBefore(p0: Pool, p: Pool, q: Pool, a: int)
    requires NoMoreRefs(p0.s, p.s, NIL) && Fresh(p, q, a)
    ensures NoMoreRefs(p0.s, q.s, NIL)
  {
  }

  lemma LinkedPart(p0: Pool, p: Pool, q: Pool, head: int, tail: int, n: int, a: int)
    requires Writable(p, head) && tail == At(p.w[head], |p.w[head]| - 1) && |Mean(p, head)| == n
    requires |p.w[head]| > 0 && KeepsRefs(p0, p, multiset{}) && NoMoreRefs(p0.s, p.s, NIL)
    requires p.ext == p0.ext + multiset{head} + multiset{a}
    requires Writable(p, a) && head != a && 0 <= a < |p0.s| && a !in p0.ext && head !in p0.ext
    requires p.w[a] == [a] && |Mean(p, a)| == p.s[a].length
    requires 0 <= tail < |p.s| && q.s == p.s[tail := p.s[tail].(next := a)] && q.t == p.t
    requires |q.w| == |p.w| && q.w[head] == p.w[head] + [a] && q.ext == p.ext - multiset{a}
    requires Mean(q, head) == Mean(p, head) + Mean(p, a) && KeepsRefs(p, q, multiset{head, a})
    ensures Building(p0, q, head, a, n + p.s[a].length)
  {
    hide Mean;
    KeepsRefsTrans(p0, p, q, multiset{}, multiset{head, a});
  }

  lemma FirstOfClass(p: Pool, c: nat, sizes: seq<nat>)
    requires Inv(p) && Sized(p, sizes) && c < |sizes| && p.bufFree[c] != []
    ensures 0 <= p.heads[c] < |p.s| == |p.w| && c < |p.bufFree| == |p.heads|
    ensures var b := p.s[p.heads[c]].buffer; 0 <= b < |p.t| && |p.t[b].data| == sizes[c]
    ensures forall n: nat :: n <= sizes[c] ==> CanAlloc(p, c, n)
  {
    FirstBuffer(p, c);
  }

  lemma DupDone(p: Pool, a: int, sizes: seq<nat>)
    requires Inv(p) && 0 <= a < |p.s| && p.s[a].linkC > 0 && p.accFree != [] && Sized(p, sizes)
    ensures 0 <= p.accHead < |p.s| == |p.w| && p.s[p.accHead].linkC == 0 && p.accHead !in p.ext
    ensures 0 <= p.s[a].buffer < |p.t| && (p.s[a].next == NIL || 0 <= p.s[a].next < |p.s|)
    ensures p.s[a].next != p.accHead && (p.s[a].next != NIL ==> p.s[p.s[a].next].linkC > 0) && p.s[a].next != a
    ensures var q := Duped(p, a);
      Sized(q, sizes) && KeepsRefs(p, q, multiset{}) && Slice(q, p.accHead) == Slice(p, a)
  {
    hide Inv, KeepsAll, Mean, Duped, KeepsRefs, Slice, AccCounts, Shapes, BufCounts, FreeLists, Partition;
    InvParts(p);
    DupedInv(p, a);
    FreeIsFree(p, p.accHead);
    if p.s[a].next != NIL { NextAlive(p, a); }
    NoLoop(p, a);
    var q := Duped(p, a);
    DupedSizes(p, a);
    AllKept(p, q);
    DupedSlice(p, a);
    DupedSized(p, q, sizes);
  }

  lemma DupedSlice(p: Pool, a: int)
    requires 0 <= p.accHead < |p.s| == |p.w| && p.accFree != [] && 0 <= a < |p.s| && 0 <= p.s[a].buffer < |p.t|
    requires p.s[a].next == NIL || 0 <= p.s[a].next < |p.s|
    requires p.accHead != a && p.s[a].next != p.accHead
    ensures Slice(Duped(p, a), p.accHead) == Slice(p, a)
  {
  }

  /** No accessor is linked to itself. */
  lemma NoLoop(p: Pool, a: int)
    requires Inv(p) && 0 <= a < |p.s| && p.s[a].linkC > 0
    ensures p.s[a].next != a
  {
    assert ShapeAt(p, a);
    assert |p.w[a]| == 1 + |Behind(p.w, p.s[a].next)|;
  }

  /** A copy of an accessor, table by table. */
  lemma DupedFields(p: Pool, a: int)
    requires 0 <= p.accHead < |p.s| == |p.w| && p.accFree != [] && 0 <= a < |p.s| && 0 <= p.s[a].buffer < |p.t|
    requires p.s[a].next == NIL || 0 <= p.s[a].next < |p.s|
    requires p.accHead != a && p.s[a].next != p.accHead && p.s[a].next != a
    ensures var n, x, b := p.accHead, p.s[a].next, p.s[a].buffer;
      var s1 := if x == NIL then p.s else p.s[x := p.s[x].(linkC := p.s[x].linkC + 1)];
      Duped(p, a) == p.(s := s1[n := p.s[a].(linkC := 1)], t := p.t[b := p.t[b].(linkC := p.t[b].linkC + 1)],
                        accHead := p.s[n].next, accFree := p.accFree[1..], w := p.w[n := [n] + Behind(p.w, x)],
                        ext := p.ext + multiset{n})
  {
  }

  lemma DupedTables(p: Pool, a: int)
    requires 0 <= p.accHead < |p.s| == |p.w| && p.accFree != [] && 0 <= a < |p.s| && 0 <= p.s[a].buffer < |p.t|
    requires p.s[a].next == NIL || 0 <= p.s[a].next < |p.s|
    requires p.accHead != a && p.s[a].next != p.accHead && p.s[a].next != a
    ensures var q, n, x := Duped(p, a), p.accHead, p.s[a].next;
      && |q.s| == |p.s| && q.s[n] == p.s[a].(linkC := 1) && (x != NIL ==> q.s[x] == p.s[x].(linkC := p.s[x].linkC + 1))
      && (forall i :: 0 <= i < |p.s| && i != n && i != x ==> q.s[i] == p.s[i])
      && |q.w| == |p.w| && q.w[n] == [n] + Behind(p.w, x) && (forall i :: 0 <= i < |p.w| && i != n ==> q.w[i] == p.w[i])
      && q.accFree == p.accFree[1..] && q.bufFree == p.bufFree && q.ext == p.ext + multiset{n}
  {
  }

  lemma DupedSizes(p: Pool, a: int)
    requires 0 <= p.accHead < |p.s| == |p.w| && p.accFree != [] && 0 <= a < |p.s| && 0 <= p.s[a].buffer < |p.t|
    requires p.s[a].next == NIL || 0 <= p.s[a].next < |p.s|
    ensures var q := Duped(p, a);
      && |q.s| == |p.s| && |q.t| == |p.t| && q.heads == p.heads && q.bufFree == p.bufFree && q.spare == p.spare
      && forall b :: 0 <= b < |p.t| ==> q.t[b].cls == p.t[b].cls && q.t[b].data == p.t[b].data
  {
  }

  lemma DupedSized(p: Pool, q: Pool, sizes: seq<nat>)
    requires Sized(p, sizes) && |q.t| == |p.t| && q.heads == p.heads && q.bufFree == p.bufFree
    requires forall b :: 0 <= b < |p.t| ==> q.t[b].cls == p.t[b].cls && q.t[b].data == p.t[b].data
    ensures Sized(q, sizes)
  {
  }

  lemma InvParts(p: Pool)
    requires Inv(p)
    ensures AccCounts(p) && BufCounts(p) && Shapes(p) && FreeLists(p) && Partition(p)
  {
  }

  lemma FreeIsFree(p: Pool, n: int)
    requires Inv(p) && 0 <= n < |p.s| && p.s[n].linkC == 0
    ensures n !in p.ext
  {
    assert RefAt(p, n);
  }

  lemma AllKept(p: Pool, q: Pool)
    requires Inv(p) && KeepsAll(p, q) && p.ext <= q.ext && q.spare == p.spare && |p.s| == |q.s| && |p.t| == |q.t|
    ensures KeepsRefs(p, q, multiset{})
  {
    forall r | r in p.ext || r in p.spare ensures Keeps(p, q, r) { Alive(p, r); }
    forall r | r in p.ext ensures r in q.ext {}
  }

  lemma SizedLists(p: Pool, sizes: seq<nat>)
    requires Inv(p) && Sized(p, sizes)
    ensures |sizes| == |p.heads| == |p.bufFree| > 0 && Worth(0, sizes[|sizes| - 1]) == 0
  {
  }

  lemma ClassHead(p: Pool, c: int)
    requires Inv(p) && 0 <= c < |p.heads|
    ensures |p.heads| == |p.bufFree| && (p.heads[c] != NIL <==> p.bufFree[c] != [])
  {
    FirstFree(p.s, p.heads[c], p.bufFree[c]);
  }

  lemma AllocDone(p: Pool, c: int, length: nat, sizes: seq<nat>)
    requires CanAlloc(p, c, length) && Sized(p, sizes)
    ensures p.heads[c] !in p.ext
    ensures Sized(Alloced(p, c, length), sizes) && KeepsRefs(p, Alloced(p, c, length), multiset{})
    ensures Fresh(p, Alloced(p, c, length), p.heads[c])
  {
    FirstBuffer(p, c);
    AllocedInv(p, c, length);
    FreeIsFree(p, p.heads[c]);
    AllKept(p, Alloced(p, c, length));
  }

  lemma NoRefNil(p: Pool)
    requires Inv(p)
    ensures NIL !in p.ext
  {
  }

  lemma KeepsSelf(p: Pool, but: multiset<int>)
    requires Inv(p)
    ensures KeepsRefs(p, p, but) && Returned(p, p)
  {
    forall r | r in p.ext || r in p.spare ensures Keeps(p, p, r) { Alive(p, r); KeepsChain(p, p, r); }
  }

  lemma LiveRef(p: Pool, a: int)
    requires Inv(p) && a in p.ext
    ensures 0 <= a < |p.s| == |p.w| && p.s[a].linkC > 0 && ShapeAt(p, a)
    ensures p.s[a].next != NIL ==> |Behind(p.w, p.s[a].next)| < |Behind(p.w, a)|
  {
    Alive(p, a);
    assert ShapeAt(p, a);
  }

  lemma DecrDone(p0: Pool, p: Pool, a: int, cur: int, sizes: seq<nat>)
    requires Inv(p) && cur in p.ext && 0 <= cur < |p.s| && p.s[cur].linkC > 1 && Sized(p, sizes)
    requires KeepsRefs(p0, p, multiset{a}) && Returned(p0, p) && p.ext - multiset{cur} == p0.ext - multiset{a}
    ensures var q := Decr(p, cur); Sized(q, sizes) && KeepsRefs(p0, q, multiset{a}) && Returned(p0, q)
  {
    var q := Decr(p, cur);
    DecrInv(p, cur);
    AllKeptBut(p, q, cur);
    KeepsRefsTrans(p0, p, q, multiset{a}, multiset{cur});
  }

  lemma AllKeptBut(p: Pool, q: Pool, a: int)
    requires Inv(p) && KeepsAll(p, q) && p.ext - multiset{a} <= q.ext && q.spare == p.spare && |p.s| == |q.s| && |p.t| == |q.t|
    ensures KeepsRefs(p, q, multiset{a})
  {
    forall r | r in p.ext || r in p.spare ensures Keeps(p, q, r) { Alive(p, r); }
    forall r | r in p.ext - multiset{a} ensures r in q.ext {}
  }

  lemma DropDone(p0: Pool, p: Pool, q: Pool, a: int, cur: int, next: int)
    requires Inv(p) && Sole(p, cur) && KeepsOthers(p, q, cur) && Returned(p, q) && |q.t| == |p.t| && |q.s| == |p.s|
    requires q.spare == p.spare && KeepsRefs(p0, p, multiset{a}) && Returned(p0, p) && p.ext - multiset{cur} == p0.ext - multiset{a}
    requires q.ext == p.ext - multiset{cur} + if next == NIL then multiset{} else multiset{next}
    requires next == p.s[cur].next && NIL !in p.ext && Inv(q)
    ensures KeepsRefs(p0, q, multiset{a}) && Returned(p0, q) && q.ext - multiset{next} == p0.ext - multiset{a}
    ensures next != NIL ==> next in q.ext && Behind(q.w, next) == Behind(p.w, next)
    ensures NIL !in q.ext
  {
    SoleCount(p, cur);
    NoRefNil(q);
    ReturnedTrans(p0, p, q);
    if next != NIL { NextAlive(p, cur); }
    hide Inv, Returned;
    DropKeeps(p0, p, q, a, cur);
    assert next != NIL ==> Keeps(p, q, next);
  }

  lemma ReturnedTrans(p: Pool, q: Pool, z: Pool)
    requires Returned(p, q) && Returned(q, z)
    ensures Returned(p, z)
  {
  }

  lemma DropKeeps(p0: Pool, p: Pool, q: Pool, a: int, cur: int)
    requires Inv(p) && Sole(p, cur) && KeepsOthers(p, q, cur) && |q.t| == |p.t| && |q.s| == |p.s|
    requires KeepsRefs(p0, p, multiset{a}) && p.ext - multiset{cur} == p0.ext - multiset{a}
    requires p.ext - multiset{cur} <= q.ext && p.ext[cur] == 1 && p.spare[cur] == 0 && q.spare == p.spare
    ensures KeepsRefs(p0, q, multiset{a})
  {
    OthersRefs(p, q, cur);
    KeepsRefsTrans(p0, p, q, multiset{a}, multiset{cur});
  }

  lemma FreedExt(p: Pool, a: int)
    requires Inv(p) && Sole(p, a)
    ensures 0 <= p.s[a].buffer < |p.t| && p.t[p.s[a].buffer].linkC > 0
    ensures p.t[p.s[a].buffer].cls < |p.heads| == |p.bufFree|
    ensures Freed(p, a).ext == p.ext - multiset{a} + if p.s[a].next == NIL then multiset{} else multiset{p.s[a].next}
    ensures |Freed(p, a).t| == |p.t|
  {
    Freeable(p, a);
  }

  lemma FreedSupply(p: Pool, a: int, sizes: seq<nat>)
    requires Inv(p) && Sole(p, a) && Sized(p, sizes)
    ensures 0 <= p.s[a].buffer < |p.t| && p.t[p.s[a].buffer].linkC > 0
    ensures p.t[p.s[a].buffer].cls < |p.heads| == |p.bufFree|
    ensures Sized(Freed(p, a), sizes) && Returned(p, Freed(p, a))
  {
    Freeable(p, a);
  }

  /** Buffers that hold less than size bytes are fewer than it takes. */
  lemma {:induction false} TooLittle(n: nat, biggest: nat, size: nat)
    requires Worth(n, biggest) < size && biggest > 0
    ensures Needed(size, biggest) > n
    decreases n
  {
    if n > 0 {
      WorthNext(n - 1, biggest);
      TooLittle(n - 1, biggest, size - biggest);
    }
  }

  lemma {:induction false} NeededMore(size: nat, more: nat, biggest: nat)
    requires size <= more && biggest > 0
    ensures Needed(size, biggest) <= Needed(more, biggest)
    decreases more
  {
    if size > 0 { NeededMore(if size < biggest then 0 else size - biggest, if more < biggest then 0 else more - biggest, biggest); }
  }

  lemma TableSizes(p: Pool)
    requires Inv(p)
    ensures |p.w| == |p.s|
  {
  }

  lemma FreshSpare(p: Pool, q: Pool, a: int)
    requires Fresh(p, q, a)
    ensures q.spare == p.spare && |q.w| == |q.s|
  {
  }

  lemma ReclaimedExt(p: Pool, q: Pool)
    requires Reclaimed(p, q)
    ensures q.ext == p.ext
  {
  }

  lemma StillSupplied(p: Pool, q: Pool)
    requires Supplies(p, q, 0)
    ensures p.accFree != [] ==> q.accFree != []
  {
  }

  /** What is on a chain is in use, and gives access to its slice. */
  lemma OnChain(p: Pool, r: int, a: int)
    requires Inv(p) && r in p.ext && a in Behind(p.w, r)
    ensures 0 <= a < |p.s| && p.s[a].linkC > 0 && |Slice(p, a)| == p.s[a].length
  {
    Alive(p, r);
    var k :| 0 <= k < |p.w[r]| && p.w[r][k] == a;
    ChainAt(p, r, k);
  }

  /** What n buffers of a size hold together. */
  function Worth(n: nat, size: nat): nat {
    n * size
  }

  lemma WorthNext(n: nat, size: nat)
    ensures Worth(n + 1, size) == Worth(n, size) + size
  {
  }

  /** What is free again with the last reference to an accessor: the buffer, if nobody else uses it. */
  function FreedBytes(p: Pool, a: int): nat
    requires 0 <= a < |p.s| && 0 <= p.s[a].buffer < |p.t|
  {
    if p.t[p.s[a].buffer].linkC == 1 then |p.t[p.s[a].buffer].data| else 0
  }

  lemma UpdateTwice<T>(s: seq<T>, i: int, x: T, y: T)
    requires 0 <= i < |s|
    ensures s[i := x][i := y] == s[i := y]
  {
  }

  /** Giving up the last reference to an accessor, table by table. */
  lemma FreedFields(p: Pool, a: int)
    requires 0 <= a < |p.s| && 0 <= p.s[a].buffer < |p.t| && p.t[p.s[a].buffer].linkC > 0
    requires p.t[p.s[a].buffer].cls < |p.heads| == |p.bufFree|
    ensures var x, b, c := p.s[a], p.s[a].buffer, p.t[p.s[a].buffer].cls;
      var q := p.(t := p.t[b := p.t[b].(linkC := p.t[b].linkC - 1)],
                  ext := if x.next == NIL then p.ext - multiset{a} else p.ext - multiset{a} + multiset{x.next});
      Freed(p, a) ==
        if p.t[b].linkC > 1
        then q.(s := p.s[a := x.(linkC := 0, buffer := NIL, next := p.accHead)], accHead := a, accFree := [a] + p.accFree)
        else q.(s := p.s[a := x.(linkC := 0, next := p.heads[c])], heads := p.heads[c := a],
                bufFree := p.bufFree[c := [a] + p.bufFree[c]])
  {
  }

  lemma FreedWorth(p: Pool, a: int, sizes: seq<nat>)
    requires Sized(p, sizes) && 0 <= a < |p.s| && 0 <= p.s[a].buffer < |p.t| && p.t[p.s[a].buffer].linkC > 0
    requires p.t[p.s[a].buffer].cls < |p.heads| == |p.bufFree|
    ensures var q, c := Freed(p, a), |sizes| - 1;
      |q.bufFree| == |sizes| && FreedBytes(p, a) + Worth(|p.bufFree[c]|, sizes[c]) >= Worth(|q.bufFree[c]|, sizes[c])
  {
    WorthNext(|p.bufFree[|sizes| - 1]|, sizes[|sizes| - 1]);
  }

  lemma AnyFree(p: Pool)
    requires Inv(p)
    ensures p.accHead != NIL <==> p.accFree != []
  {
    FirstFree(p.s, p.accHead, p.accFree);
  }

  /** A reference that its holder could do without. */
  function Offered(p: Pool, x: int): Pool {
    p.(ext := p.ext - multiset{x}, spare := p.spare + multiset{x})
  }

  lemma OfferedInv(p: Pool, x: int, sizes: seq<nat>)
    requires Inv(p) && Sized(p, sizes) && x in p.ext
    ensures Inv(Offered(p, x)) && Sized(Offered(p, x), sizes)
  {
    var q := Offered(p, x);
    forall a | 0 <= a < |q.s| ensures RefAt(q, a) { assert RefAt(p, a); }
    forall b | 0 <= b < |q.t| ensures BufAt(q, b) { assert BufAt(p, b); }
    forall i | 0 <= i < |q.s| && q.s[i].linkC > 0 ensures ShapeAt(q, i) { assert ShapeAt(p, i); }
    FreeListsFrame(p, q);
    PartitionFrame(p, q);
  }

  lemma NotEmpty(m: multiset<int>)
    requires m != multiset{}
    ensures exists x :: x in m
  {
    assert (forall x :: x !in m) ==> m == multiset{};
  }

  /** Whoever holds a reference that an operation was not given, and has not given it up, sees the same bytes as before. */
  lemma KeptMeans(p: Pool, q: Pool, but: multiset<int>)
    requires KeepsRefs(p, q, but)
    ensures forall r :: r in p.ext - but ==> r in q.ext && Mean(q, r) == Mean(p, r)
    ensures forall r :: r in q.spare ==> r in p.spare && Mean(q, r) == Mean(p, r)
  {
    forall r | r in p.ext - but || r in q.spare ensures Mean(q, r) == Mean(p, r) { KeepsMean(p, q, r); }
  }
}
