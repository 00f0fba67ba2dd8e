/** Finding a byte of a chain, cutting a piece out of it, dropping its head (bf_cut, bf_delhead). */
module CutSteps {
  import opened Basics
  import opened Accessors
  import opened AccessorSteps
  import opened ChainSteps
  import opened PoolViews

  /** Byte offset0 of data is byte offset of accessor cur, the k-th on the chain. */
  ghost predicate Located(p: Pool, data: int, offset0: nat, k: nat, cur: int, offset: nat) {
    && 0 <= data < |p.w| && k < |p.w[data]| && cur == p.w[data][k] && 0 <= cur < |p.s| && offset < p.s[cur].length
    && offset0 < |Mean(p, data)| && offset < |Bytes(p, p.w[data][k..])|
    && Mean(p, data)[offset0..] == Bytes(p, p.w[data][k..])[offset..]
  }

  /** Since p0 the chain of head has been made, for the bytes s, and nothing else can be seen to have changed. */
  ghost predicate Cutting(p0: Pool, p: Pool, head: int, tail: int, s: seq<Byte>) {
    && Private(p, head) && p.w[head] != [] && tail == At(p.w[head], |p.w[head]| - 1) && Mean(p, head) == s
    && head !in p0.ext && p.ext == p0.ext + multiset{head} && KeepsRefs(p0, p, multiset{})
  }

  lemma LonePart(p0: Pool, p: Pool, q: Pool, a: int, n: int, offset: nat, length: nat)
    requires Inv(p0) && Inv(p) && 0 <= a < |p0.s| && 0 <= n < |p0.s| == |p.s| && p0.s[n].linkC == 0 && Sole(p, n)
    requires 0 <= p.s[n].buffer < |p.t| && offset + length <= p.s[n].length
    requires |Slice(p, n)| == p.s[n].length && p.s[n].offset + p.s[n].length <= |p.t[p.s[n].buffer].data|
    requires Slice(p, n) == p.t[p.s[n].buffer].data[p.s[n].offset..p.s[n].offset + p.s[n].length]
    requires Slice(p, n) == Slice(p0, a) && SameLive(p0.s, p.s)
    requires q.s == p.s[n := p.s[n].(offset := p.s[n].offset + offset, length := length)]
    requires p.s[n].offset + offset + length <= |p.t[p.s[n].buffer].data|
    requires Slice(q, n) == p.t[p.s[n].buffer].data[p.s[n].offset + offset..p.s[n].offset + offset + length]
    requires p.s[n].next == NIL && n in q.ext
    ensures Slice(q, n) == Slice(p0, a)[offset..offset + length] && Sole(q, n) && SameLive(p0.s, q.s)
  {
    hide Inv, Slice;
  }

  lemma CutFirstDone(p0: Pool, p: Pool, q: Pool, head: int, s: seq<Byte>)
    requires Reclaimed(p0, p) && Lone(p, q, head, s)
    ensures Cutting(p0, q, head, head, s)
  {
    hide Mean;
    KeepsRefsTrans(p0, p, q, multiset{}, multiset{});
  }

  /** What has been cut so far stays when others give things up. */
  lemma CuttingStill(p0: Pool, p: Pool, q: Pool, head: int, tail: int, s: seq<Byte>)
    requires Inv(q) && Cutting(p0, p, head, tail, s) && Reclaimed(p, q)
    ensures Cutting(p0, q, head, tail, s)
  {
    hide Inv, Mean;
    assert head in p.ext - multiset{} && Keeps(p, q, head);
    assert NIL !in p.w[head];
    PrivateStill(p, q, head, NIL);
    KeepsMean(p, q, head);
    KeepsRefsTrans(p0, p, q, multiset{}, multiset{});
  }

  lemma CutNext(p0: Pool, p: Pool, q: Pool, head: int, tail: int, s: seq<Byte>, n: int, t: seq<Byte>)
    requires Inv(p) && Inv(q) && Cutting(p0, p, head, tail, s) && Lone(p, q, n, t)
    ensures 0 <= head < |q.w| && Private(q, head) && q.w[head] != [] && tail == At(q.w[head], |q.w[head]| - 1)
    ensures Mean(q, head) == s && KeepsRefs(p0, q, multiset{}) && head != n
    ensures n in q.ext - multiset{head} && q.ext == p0.ext + multiset{head} + multiset{n} && n !in p0.ext && head !in p0.ext
    ensures 0 <= n < |q.w| && q.w[n] == [n] && Mean(q, n) == t && Private(q, n)
  {
    hide Mean;
    assert Keeps(p, q, head);
    KeepsMean(p, q, head);
    KeepsRefsTrans(p0, p, q, multiset{}, multiset{});
  }

  lemma CutLinked(p0: Pool, q: Pool, z: Pool, head: int, s: seq<Byte>, n: int, t: seq<Byte>)
    requires 0 <= head < |q.w| && Private(q, head) && Private(q, n) && 0 <= n < |q.w| && q.w[n] == [n] && head != n
    requires Mean(q, head) == s && Mean(q, n) == t && q.w[head] != []
    requires n !in p0.ext && head !in p0.ext && q.ext == p0.ext + multiset{head} + multiset{n} && KeepsRefs(p0, q, multiset{})
    requires |q.s| == |z.s| && |z.w| == |q.w| && z.w[head] == q.w[head] + [n] && z.ext == q.ext - multiset{n}
    requires forall i :: 0 <= i < |q.s| ==> z.s[i].linkC == q.s[i].linkC
    requires Mean(z, head) == Mean(q, head) + Mean(q, n) && KeepsRefs(q, z, multiset{head, n})
    ensures Cutting(p0, z, head, n, s + t)
  {
    hide Mean;
    KeepsRefsTrans(p0, q, z, multiset{}, multiset{head, n});
    assert n in q.w[n];
  }

  lemma CursorNext(p0: Pool, p: Pool, data: int, k: nat)
    requires Inv(p0) && Inv(p) && data in p0.ext && KeepsRefs(p0, p, multiset{}) && k < |Behind(p0.w, data)|
    ensures |p0.w| == |p0.s| == |p.s| && 0 <= data < |p0.w|
    ensures var l := p0.w[data];
      && 0 <= l[k] < |p.s| && p.s[l[k]].next == At(l, k + 1) && (k + 1 < |l| ==> 0 <= l[k + 1] < |p.s|)
  {
    Alive(p0, data);
    assert data in p0.ext - multiset{} && Keeps(p0, p, data);
    CursorAt(p0, p, data, k);
    if k + 1 < |p0.w[data]| { CursorAt(p0, p, data, k + 1); }
  }

  /** bf_cut still finds the chain of data as it was. */
  lemma CutRead(p0: Pool, p: Pool, data: int, head: int, tail: int, s: seq<Byte>, k: nat)
    requires Inv(p0) && Inv(p) && data in p0.ext && Cutting(p0, p, head, tail, s) && k < |Behind(p0.w, data)|
    ensures |p0.w| == |p0.s| == |p.s| && 0 <= data < |p0.w|
    ensures var l := p0.w[data];
      && 0 <= l[k] < |p.s| && p.s[l[k]].next == At(l, k + 1) && (k + 1 < |l| ==> 0 <= l[k + 1] < |p.s|)
      && p.s[l[k]].linkC > 0 && Slice(p, l[k]) == Slice(p0, l[k]) && |Slice(p0, l[k])| == p.s[l[k]].length
      && Bytes(p0, l[k..]) == Slice(p0, l[k]) + Bytes(p0, l[k + 1..])
    ensures data in p.ext && p0.w[data][k] in Behind(p.w, data)
  {
    CursorNext(p0, p, data, k);
    assert data in p0.ext - multiset{} && Keeps(p0, p, data);
    CursorAt(p0, p, data, k);
  }

  lemma LocatedLive(p: Pool, data: int, offset0: nat, k: nat, cur: int, offset: nat)
    requires Inv(p) && data in p.ext && Located(p, data, offset0, k, cur, offset)
    ensures 0 <= data < |p.w| && k < |p.w[data]| && cur == p.w[data][k] && 0 <= cur < |p.s| && offset < p.s[cur].length
    ensures p.s[cur].linkC > 0
  {
    Alive(p, data);
    ChainAt(p, data, k);
  }

  lemma CutDone(p0: Pool, p: Pool, head: int, tail: int, s: seq<Byte>)
    requires Cutting(p0, p, head, tail, s)
    ensures Private(p, head) && Mean(p, head) == s && head !in p0.ext && p.ext == p0.ext + multiset{head}
    ensures KeepsRefs(p0, p, multiset{})
  {
  }

  /** Taking a first part off what is still to be cut. */
  lemma CutStep(all: seq<Byte>, s: seq<Byte>, rest: seq<Byte>, part: seq<Byte>, more: seq<Byte>, length: nat)
    requires rest == part + more && |part| <= length <= |rest| && all == s + rest[..length]
    ensures length - |part| <= |more| && all == (s + part) + more[..length - |part|]
  {
    assert rest[..length] == part + more[..length - |part|];
  }

  lemma CutStart(p: Pool, data: int, offset0: nat, length0: nat, k: nat, cur: int, offset: nat, length: nat)
    requires Inv(p) && data in p.ext && Located(p, data, offset0, k, cur, offset) && offset0 + length0 <= |Mean(p, data)|
    requires length == if length0 >= p.s[cur].length - offset then length0 - (p.s[cur].length - offset) else 0
    ensures 0 <= data < |p.w| && k < |p.w[data]| && p.w[data][k] == cur && length <= length0
    ensures offset + (length0 - length) <= |Slice(p, cur)| && length <= |Bytes(p, p.w[data][k + 1..])|
    ensures Mean(p, data)[offset0..offset0 + length0]
         == Slice(p, cur)[offset..offset + (length0 - length)] + Bytes(p, p.w[data][k + 1..])[..length]
  {
    hide Inv, Mean, Slice, Bytes;
    CursorStart(p, data);
    CursorAt(p, p, data, k);
    CutSeq(Mean(p, data), offset0, Slice(p, cur), Bytes(p, p.w[data][k + 1..]), offset, length0);
  }

  lemma CutSeq(all: seq<Byte>, offset0: nat, part: seq<Byte>, more: seq<Byte>, offset: nat, length0: nat)
    requires offset < |part| && offset0 + length0 <= |all| && all[offset0..] == (part + more)[offset..]
    ensures var length := if length0 >= |part| - offset then length0 - (|part| - offset) else 0;
      && length <= |more| && offset + (length0 - length) <= |part|
      && all[offset0..offset0 + length0] == part[offset..offset + (length0 - length)] + more[..length]
  {
    assert all[offset0..offset0 + length0] == all[offset0..][..length0];
  }

  lemma CutLast(all: seq<Byte>, s: seq<Byte>, part: seq<Byte>, more: seq<Byte>, length: nat)
    requires length <= |part| && all == s + (part + more)[..length]
    ensures all == s + part[..length]
  {
    assert (part + more)[..length] == part[..length];
  }

  /** The accessor a without its first n bytes. */
  function Narrowed(p: Pool, a: int, n: nat): Pool
    requires 0 <= a < |p.s| && 0 <= p.s[a].buffer < |p.t| && n <= p.s[a].length
  {
    Rewritten(p, a, p.s[a].offset + n, p.s[a].length - n, p.t[p.s[a].buffer].data)
  }

  lemma NarrowDone(p: Pool, a: int, n: nat, sizes: seq<nat>)
    requires Inv(p) && Sole(p, a) && n <= p.s[a].length && Sized(p, sizes)
    ensures 0 <= p.s[a].buffer < |p.t|
    ensures n <= |Mean(p, a)|
    ensures var q := Narrowed(p, a, n);
      Inv(q) && Sized(q, sizes) && Sole(q, a) && Mean(q, a) == Mean(p, a)[n..] && KeepsRefs(p, q, multiset{a})
  {
    NarrowRefs(p, a, n);
    NarrowMean(p, Narrowed(p, a, n), a, n);
  }

  lemma NarrowRefs(p: Pool, a: int, n: nat)
    requires Inv(p) && Sole(p, a) && n <= p.s[a].length
    ensures |p.w| == |p.s| && ShapeAt(p, a) && 0 <= p.s[a].buffer < |p.t|
    ensures var q := Narrowed(p, a, n);
      Inv(q) && Sole(q, a) && KeepsRefs(p, q, multiset{a}) && forall j :: j in p.w[a][1..] ==> SameNode(p, q, j)
  {
    hide Inv, SameNode, Rewritten, Keeps, AccCounts, Shapes;
    InvParts(p);
    LiveRef(p, a);
    SliceFits(p, a);
    RewrittenSole(p, a, p.s[a].offset + n, p.s[a].length - n);
    ChainOnce(p, a);
    SoleCount(p, a);
    NarrowedExt(p, a, n);
    OthersRefs(p, Narrowed(p, a, n), a);
    assert forall j :: j in p.w[a][1..] ==> j in p.w[a] && j != a;
  }

  lemma SliceFits(p: Pool, a: int)
    requires ShapeAt(p, a)
    ensures 0 <= p.s[a].buffer < |p.t| && p.s[a].offset + p.s[a].length <= |p.t[p.s[a].buffer].data|
  {
  }

  lemma NarrowedExt(p: Pool, a: int, n: nat)
    requires 0 <= a < |p.s| && 0 <= p.s[a].buffer < |p.t| && n <= p.s[a].length
    ensures var q := Narrowed(p, a, n); q.ext == p.ext && q.spare == p.spare && |q.s| == |p.s| && |q.t| == |p.t|
  {
  }

  lemma NarrowMean(p: Pool, q: Pool, a: int, n: nat)
    requires ShapeAt(p, a) && n <= p.s[a].length && |p.w| == |p.s| && 0 <= p.s[a].buffer < |p.t| && q == Narrowed(p, a, n)
    requires forall j :: j in p.w[a][1..] ==> SameNode(p, q, j)
    ensures n <= |Mean(p, a)| && Mean(q, a) == Mean(p, a)[n..]
  {
    NarrowSlice(p, q, a, n);
    hide Slice, Narrowed, SameNode, Mean, Bytes;
    assert p.w[a] != [] && p.w[a][0] == a;
    SameBytes(p, q, p.w[a][1..]);
    MeanFirst(p, a);
    MeanFirst(q, a);
    DropFirst(Slice(p, a), Bytes(p, p.w[a][1..]), n);
  }

  lemma MeanFirst(p: Pool, a: int)
    requires 0 <= a < |p.w| && p.w[a] != [] && p.w[a][0] == a
    ensures Mean(p, a) == Slice(p, a) + Bytes(p, p.w[a][1..])
  {
  }

  lemma DropFirst(s: seq<Byte>, t: seq<Byte>, n: nat)
    requires n <= |s|
    ensures (s + t)[n..] == s[n..] + t
  {
  }

  lemma NarrowSlice(p: Pool, q: Pool, a: int, n: nat)
    requires ShapeAt(p, a) && n <= p.s[a].length && 0 <= p.s[a].buffer < |p.t| && q == Narrowed(p, a, n)
    ensures n <= |Slice(p, a)| && Slice(q, a) == Slice(p, a)[n..] && q.w == p.w && |q.t| == |p.t|
  {
    assert q.t == p.t;
    var d, o, l := p.t[p.s[a].buffer].data, p.s[a].offset, p.s[a].length;
    assert d[o + n..o + l] == d[o..o + l][n..];
  }

  lemma DelheadFound(p: Pool, data: int, offset0: nat, k: nat, cur: int, offset: nat)
    requires Inv(p) && data in p.ext && Located(p, data, offset0, k, cur, offset)
    ensures 0 <= cur < |p.s| && p.s[cur].linkC > 0 && offset < p.s[cur].length && offset < |Mean(p, cur)|
    ensures Mean(p, cur)[offset..] == Mean(p, data)[offset0..]
  {
    Alive(p, data);
    ChainAt(p, data, k);
  }

  lemma MoveDone(p0: Pool, p1: Pool, p2: Pool, data: int, cur: int)
    requires Inv(p1) && data in p0.ext && KeepsRefs(p0, p1, multiset{}) && p1.ext == p0.ext + multiset{cur} && cur != data
    requires KeepsRefs(p1, p2, multiset{data}) && p2.ext == p1.ext - multiset{data}
    ensures KeepsRefs(p0, p2, multiset{data}) && cur in p2.ext && Mean(p2, cur) == Mean(p1, cur)
    ensures 0 <= cur < |p1.s| == |p2.s| && p2.s[cur].length == p1.s[cur].length && Behind(p2.w, cur) == Behind(p1.w, cur)
  {
    LiveRef(p1, cur);
    hide Mean, Inv;
    assert cur in p1.ext - multiset{data} && Keeps(p1, p2, cur);
    KeepsMean(p1, p2, cur);
    assert p1.w[cur][0] == cur && SameNode(p1, p2, cur);
    KeepsRefsTrans(p0, p1, p2, multiset{data}, multiset{data});
  }

  /** What the search has led to stays when others give things up. */
  lemma DelheadStill(p0: Pool, p: Pool, q: Pool, data: int, cur: int)
    requires Inv(p) && KeepsRefs(p0, p, multiset{data}) && p.ext == p0.ext - multiset{data} + multiset{cur} && Reclaimed(p, q)
    ensures KeepsRefs(p0, q, multiset{data}) && q.ext == p.ext && Mean(q, cur) == Mean(p, cur)
    ensures 0 <= cur < |p.s| == |q.s| && q.s[cur].length == p.s[cur].length
  {
    LiveRef(p, cur);
    hide Inv, Mean;
    KeepsRefsTrans(p0, p, q, multiset{data}, multiset{});
    assert cur in p.ext - multiset{} && Keeps(p, q, cur);
    assert p.w[cur][0] == cur && SameNode(p, q, cur);
    KeepsMean(p, q, cur);
  }

  /** From a reference to one part of a pool to the next: what others see stays throughout. */
  lemma DelheadDone(p0: Pool, p: Pool, q: Pool, z: Pool, data: int, cur: int, r: int)
    requires data in p0.ext && KeepsRefs(p0, p, multiset{data}) && p.ext == p0.ext - multiset{data} + multiset{cur}
    requires KeepsRefs(p, q, multiset{cur}) && q.ext == p.ext - multiset{cur} + multiset{r}
    requires KeepsRefs(q, z, multiset{r}) && z.ext == q.ext
    ensures KeepsRefs(p0, z, multiset{data}) && z.ext == p0.ext - multiset{data} + multiset{r}
  {
    hide KeepsRefs;
    OneForAnother(p0.ext, data, cur);
    KeepsRefsTrans(p0, p, q, multiset{data}, multiset{cur});
    OneForAnother(p.ext, cur, r);
    SameRest(p0.ext, p.ext, q.ext, data, cur, r);
    KeepsRefsTrans(p0, q, z, multiset{data}, multiset{r});
  }

  lemma OneForAnother(e: multiset<int>, a: int, b: int)
    ensures e - multiset{a} <= e - multiset{a} + multiset{b} - multiset{b}
  {
  }

  lemma SameRest(e: multiset<int>, f: multiset<int>, g: multiset<int>, a: int, b: int, c: int)
    requires f == e - multiset{a} + multiset{b} && g == f - multiset{b} + multiset{c}
    ensures g == e - multiset{a} + multiset{c} && e - multiset{a} <= g - multiset{c}
  {
    assert f - multiset{b} == e - multiset{a};
  }

  /** Instead of reference a of p, q has n, to an accessor that nobody else refers to and that is like a. */
  ghost predicate Owned(p: Pool, q: Pool, a: int, n: int) {
    && 0 <= a < |p.s| && 0 <= n < |q.s| == |p.s| && |p.w| == |q.w| == |q.s|
    && Sole(q, n) && q.ext == p.ext - multiset{a} + multiset{n} && q.s[n] == p.s[a].(linkC := 1)
    && Mean(q, n) == Mean(p, a) && KeepsRefs(p, q, multiset{a}) && Behind(q.w, q.s[n].next) == Behind(p.w, p.s[a].next)
    && NoMoreRefs(p.s, q.s, p.s[a].next) && Supplies(p, q, 1)
  }

  lemma OwnedRef(p: Pool, q: Pool, a: int, n: int)
    requires Owned(p, q, a, n)
    ensures Sole(q, n) && q.ext == p.ext - multiset{a} + multiset{n} && KeepsRefs(p, q, multiset{a})
    ensures 0 <= a < |p.s| && 0 <= n < |q.s| && q.s[n] == p.s[a].(linkC := 1) && Mean(q, n) == Mean(p, a)
  {
  }

  lemma OwnAlready(p: Pool, a: int)
    requires Inv(p) && a in p.ext && 0 <= a < |p.s| && p.s[a].linkC == 1
    ensures Owned(p, p, a, a)
  {
    hide Mean;
    assert ShapeAt(p, a);
    KeepsSelf(p, multiset{a});
  }

  lemma UnshareDone(p: Pool, q: Pool, z: Pool, a: int, n: int)
    requires Inv(p) && Inv(z) && a in p.ext && KeepsRefs(p, q, multiset{}) && q.ext == p.ext + multiset{n} && n !in p.ext
    requires KeepsRefs(q, z, multiset{a}) && z.ext == q.ext - multiset{a} && Returned(q, z) && Sole(q, n)
    requires |q.w| == |q.s| && 0 <= n < |q.w| && q.w[n] == [n] + Behind(q.w, q.s[n].next)
    requires 0 <= a < |p.s| && q.s[n] == p.s[a].(linkC := 1) && Mean(q, n) == Mean(p, a) && p.s[n].linkC == 0
    requires Behind(q.w, p.s[a].next) == Behind(p.w, p.s[a].next)
    requires var x := p.s[a].next; forall i :: 0 <= i < |p.s| && i != n && i != x ==> q.s[i] == p.s[i]
    requires p.accFree != [] && q.accFree == p.accFree[1..] && q.bufFree == p.bufFree
    ensures Owned(p, z, a, n)
  {
    hide Mean, Inv;
    LiveRef(p, a);
    KeepsRefsTrans(p, q, z, multiset{a}, multiset{a});
    assert n in q.ext - multiset{a} && Keeps(q, z, n);
    KeepsMean(q, z, n);
    assert q.w[n][0] == n;
    assert SameNode(q, z, n);
    LiveRef(z, n);
    assert z.w[n][1..] == Behind(z.w, z.s[n].next) && q.w[n][1..] == Behind(q.w, q.s[n].next);
  }

  lemma AfterDup(p: Pool, q: Pool, a: int)
    requires Inv(p) && KeepsAll(p, q) && 0 <= a < |p.s| && p.s[a].linkC > 0 && |q.w| == |p.w|
    ensures Behind(q.w, p.s[a].next) == Behind(p.w, p.s[a].next)
  {
    if p.s[a].next != NIL { NextAlive(p, a); assert Keeps(p, q, p.s[a].next); }
  }
}
