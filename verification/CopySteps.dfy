/** Copying bytes into chains that nobody else sees (bf_pack, bf_append). */
module CopySteps {
  import opened Basics
  import opened Accessors
  import opened AccessorSteps
  import opened ChainSteps
  import opened PoolViews
  import opened CutSteps

  /** s with the bytes of block from position pos on. */
  function Over(s: seq<Byte>, pos: nat, block: seq<Byte>): (r: seq<Byte>)
    requires pos + |block| <= |s|
    ensures |r| == |s|
  {
    s[..pos] + block + s[pos + |block|..]
  }

  /** The chain of h has got the bytes of block at byte offset of its k-th accessor. */
  ghost predicate CopiedAt(p: Pool, q: Pool, h: int, k: nat, offset: nat, block: seq<Byte>) {
    && 0 <= h < |p.w| && k < |p.w[h]| && |Bytes(q, p.w[h][k..])| == |Bytes(p, p.w[h][k..])|
    && |Bytes(p, p.w[h][k..])| <= |Mean(p, h)|
    && var pos := |Mean(p, h)| - |Bytes(p, p.w[h][k..])| + offset;
       pos + |block| <= |Mean(p, h)| && Mean(q, h) == Over(Mean(p, h), pos, block)
  }

  lemma Copyable(p: Pool, h: int, k: nat, src: int, sizes: seq<nat>)
    requires Inv(p) && Writable(p, h) && k < |p.w[h]| && Sized(p, sizes) && 0 <= src < |p.s| && p.s[src].linkC > 0
    ensures 0 <= h < |p.w| == |p.s|
    ensures var x := p.s[src];
      && 0 <= x.buffer < |p.t| && x.offset + x.length <= |p.t[x.buffer].data|
      && Slice(p, src) == p.t[x.buffer].data[x.offset..x.offset + x.length]
    ensures 0 <= p.w[h][k] < |p.s|
    ensures var y := p.s[p.w[h][k]]; 0 <= y.buffer < |p.t| && y.offset + y.length <= |p.t[y.buffer].data|
  {
    assert ShapeAt(p, src);
    Alive(p, h);
    ChainAt(p, h, k);
  }

  lemma CopyDoneAt(p: Pool, h: int, k: nat, offset: nat, block: seq<Byte>, data: seq<Byte>, sizes: seq<nat>)
    requires Inv(p) && Writable(p, h) && k < |p.w[h]| && Sized(p, sizes) && 0 <= p.w[h][k] < |p.s|
    requires var y := p.s[p.w[h][k]];
      && 0 <= y.buffer < |p.t| && offset + |block| <= y.length
      && y.offset + y.length <= |p.t[y.buffer].data| && data == Over(p.t[y.buffer].data, y.offset + offset, block)
    ensures var y := p.s[p.w[h][k]]; var q := Rewritten(p, p.w[h][k], y.offset, y.length, data);
      && Inv(q) && Sized(q, sizes) && Writable(q, h) && KeepsRefs(p, q, multiset{h}) && CopiedAt(p, q, h, k, offset, block)
  {
    hide Inv, Slice, Sized, KeepsRefs, Bytes, Over;
    var i := p.w[h][k];
    var y := p.s[i];
    var l := p.w[h];
    assert i in l;
    RewriteDone(p, h, i, y.offset, y.length, data, sizes) by { CanCopy(p, h, k, y.offset, y.length, data); }
    var q := Rewritten(p, i, y.offset, y.length, data);
    ChainDistinct(p, h);
    OverSlice(p.t[y.buffer].data, y.offset, y.length, offset, block);
    SliceBytes(p, i);
    CopyBytes(p, q, h, k, offset, block);
  }

  lemma CanCopy(p: Pool, h: int, k: nat, offset: nat, length: nat, data: seq<Byte>)
    requires Inv(p) && Writable(p, h) && k < |p.w[h]| && 0 <= p.w[h][k] < |p.s|
    requires var b := p.s[p.w[h][k]].buffer; 0 <= b < |p.t| && |data| == |p.t[b].data| && offset + length <= |data|
    ensures CanRewrite(p, h, p.w[h][k], offset, length, data)
  {
    hide Inv;
    assert p.w[h][k] in p.w[h];
  }

  lemma SliceBytes(p: Pool, i: int)
    requires 0 <= i < |p.s| && 0 <= p.s[i].buffer < |p.t| && p.s[i].offset + p.s[i].length <= |p.t[p.s[i].buffer].data|
    ensures Slice(p, i) == p.t[p.s[i].buffer].data[p.s[i].offset..p.s[i].offset + p.s[i].length]
  {
  }

  lemma CopyBytes(p: Pool, q: Pool, h: int, k: nat, offset: nat, block: seq<Byte>)
    requires 0 <= h < |p.w| && k < |p.w[h]| && q.w == p.w && |q.t| == |p.t|
    requires forall i, j :: 0 <= i < j < |p.w[h]| ==> p.w[h][i] != p.w[h][j]
    requires forall j :: j in p.w[h] && j != p.w[h][k] ==> SameNode(p, q, j)
    requires offset + |block| <= |Slice(p, p.w[h][k])| && Slice(q, p.w[h][k]) == Over(Slice(p, p.w[h][k]), offset, block)
    ensures CopiedAt(p, q, h, k, offset, block)
  {
    hide Slice, SameNode, Over;
    var l := p.w[h];
    forall j | j in l[..k] ensures SameNode(p, q, j) { assert j in l; }
    forall j | j in l[k + 1..] ensures SameNode(p, q, j) { assert j in l; }
    SameBytes(p, q, l[..k]);
    SameBytes(p, q, l[k + 1..]);
    BytesAround(p, l, k);
    BytesAround(q, l, k);
    OverAround(Bytes(p, l[..k]), Slice(p, l[k]), Bytes(p, l[k + 1..]), offset, block);
  }

  lemma OverSlice(d: seq<Byte>, o: nat, n: nat, offset: nat, block: seq<Byte>)
    requires o + n <= |d| && offset + |block| <= n
    ensures Over(d, o + offset, block)[o..o + n] == Over(d[o..o + n], offset, block)
  {
    var whole, part := Over(d, o + offset, block), Over(d[o..o + n], offset, block);
    forall i | 0 <= i < n ensures whole[o..o + n][i] == part[i] {
      OverAt(d, o + offset, block, o + i);
      OverAt(d[o..o + n], offset, block, i);
    }
  }

  lemma OverAt(s: seq<Byte>, pos: nat, block: seq<Byte>, i: nat)
    requires pos + |block| <= |s| && i < |s|
    ensures Over(s, pos, block)[i] == if pos <= i < pos + |block| then block[i - pos] else s[i]
  {
  }

  lemma OverAround(a: seq<Byte>, b: seq<Byte>, c: seq<Byte>, offset: nat, block: seq<Byte>)
    requires offset + |block| <= |b|
    ensures a + Over(b, offset, block) + c == Over(a + b + c, |a| + offset, block)
  {
  }

  lemma AlreadyPacked(p: Pool, a: int)
    requires Inv(p) && a in p.ext && 0 <= a < |p.s| && p.s[a].next == NIL && p.s[a].linkC == 1
    requires 0 <= p.s[a].buffer < |p.t| && p.t[p.s[a].buffer].linkC == 1
    ensures Writable(p, a) && |Mean(p, a)| == p.s[a].length
  {
    assert ShapeAt(p, a);
    LoneMean(p, a);
  }

  /** The first n bytes of all, what old stands for, are in the chain of new; nobody else sees a difference. */
  ghost predicate Copying(p0: Pool, p: Pool, all: seq<Byte>, old_acc: int, new_acc: int, n: int) {
    && p.s == p0.s && p.w == p0.w && p.ext == p0.ext && |p.t| == |p0.t| && old_acc in p.ext - multiset{new_acc}
    && Writable(p, new_acc) && KeepsRefs(p0, p, multiset{new_acc}) && Mean(p0, old_acc) == all
    && 0 <= n <= |all| == |Mean(p, new_acc)| && Mean(p, new_acc)[..n] == all[..n]
  }

  /** The bytes of all from n on start at byte offset of cur, the k-th accessor of the chain of a; at the end there is none. */
  ghost predicate Reading(p: Pool, all: seq<Byte>, a: int, k: nat, cur: int, offset: nat, n: int) {
    && 0 <= n <= |all| && 0 <= a < |p.w| && k <= |p.w[a]| && cur == At(p.w[a], k)
    && offset <= |Bytes(p, p.w[a][k..])| && all[n..] == Bytes(p, p.w[a][k..])[offset..]
    && (k < |p.w[a]| ==> offset <= |Slice(p, cur)|)
  }

  /** There is room for size bytes from byte offset of cur on, the k-th accessor of the chain of a. */
  ghost predicate Filling(p: Pool, a: int, k: nat, cur: int, offset: nat, size: int) {
    && 0 <= a < |p.w| && k <= |p.w[a]| && cur == At(p.w[a], k) && |Bytes(p, p.w[a][k..])| == offset + size
    && (k < |p.w[a]| ==> offset <= |Slice(p, cur)|)
  }

  lemma CopyStart(p: Pool, a: int, h: int)
    requires Inv(p) && a in p.ext - multiset{h} && Writable(p, h) && |Mean(p, a)| == |Mean(p, h)|
    requires KeepsRefs(p, p, multiset{h})
    ensures Copying(p, p, Mean(p, a), a, h, 0) && Reading(p, Mean(p, a), a, 0, a, 0, 0)
    ensures Filling(p, h, 0, h, 0, |Mean(p, a)|)
  {
    CursorStart(p, a);
    CursorStart(p, h);
  }

  /** While something is left to copy, both cursors are on accessors, and the next steps lead to the next ones. */
  lemma CopyBounds(p: Pool, q: Pool, all: seq<Byte>, a: int, h: int, ko: nat, kn: nat, co: int, oo: nat, cn: int, on: nat, size: int)
    requires Inv(p) && Inv(q) && 0 < size <= |all| && Copying(p, q, all, a, h, |all| - size)
    requires Reading(p, all, a, ko, co, oo, |all| - size) && Filling(q, h, kn, cn, on, size)
    ensures |p.w| == |p.s| && 0 <= a < |p.w| && 0 <= h < |p.w| && ko < |p.w[a]| && kn < |p.w[h]|
    ensures 0 <= co < |p.s| && p.s[co].linkC > 0 && oo <= p.s[co].length
    ensures 0 <= cn < |p.s| && cn == p.w[h][kn] && on <= p.s[cn].length
    ensures oo == p.s[co].length ==> Reading(p, all, a, ko + 1, p.s[co].next, 0, |all| - size)
    ensures on == p.s[cn].length ==> Filling(q, h, kn + 1, p.s[cn].next, 0, size)
  {
    hide Mean, Slice, KeepsRefs;
    assert p.w[a][|p.w[a]|..] == [] && p.w[h][|p.w[h]|..] == [];
    CursorStart(p, a);
    CursorStart(q, h);
    CursorAt(p, p, a, ko);
    CursorAt(q, q, h, kn);
  }

  lemma CopyStep(p: Pool, q: Pool, z: Pool, all: seq<Byte>, a: int, h: int, ko: nat, kn: nat,
                 co: int, oo: nat, cn: int, on: nat, size: int, n: nat)
    requires Inv(p) && Inv(q) && Inv(z) && 0 < size <= |all| && Copying(p, q, all, a, h, |all| - size)
    requires Reading(p, all, a, ko, co, oo, |all| - size) && Filling(q, h, kn, cn, on, size)
    requires z.s == q.s && z.w == q.w && z.ext == q.ext && Writable(z, h) && KeepsRefs(q, z, multiset{h})
    requires 0 <= a < |p.w| && 0 <= h < |p.w| && ko < |p.w[a]| && kn < |p.w[h]| && 0 <= co < |p.s| && 0 <= cn < |p.s|
    requires oo + n <= p.s[co].length && on + n <= p.s[cn].length && oo + n <= |Slice(q, co)|
    requires CopiedAt(q, z, h, kn, on, Slice(q, co)[oo..oo + n])
    ensures n <= size && Copying(p, z, all, a, h, |all| - size + n)
    ensures Reading(p, all, a, ko, co, oo + n, |all| - size + n) && Filling(z, h, kn, cn, on + n, size - n)
  {
    hide Inv, Slice, Mean, Bytes, KeepsRefs, Over;
    var block := Slice(q, co)[oo..oo + n];
    ReadOn(p, q, all, a, h, ko, co, oo, |all| - size, n);
    FillOn(q, z, h, kn, cn, on, size, n, block);
    GrowPrefix(Mean(q, h), Mean(z, h), all, |all| - size, block);
    KeepsRefsTrans(p, q, z, multiset{h}, multiset{h});
  }

  lemma ReadOn(p: Pool, q: Pool, all: seq<Byte>, a: int, h: int, k: nat, cur: int, offset: nat, done: nat, n: nat)
    requires Inv(p) && Inv(q) && Copying(p, q, all, a, h, done) && Reading(p, all, a, k, cur, offset, done)
    requires k < |p.w[a]| && 0 <= cur < |p.s| && offset + n <= p.s[cur].length && offset + n <= |Slice(q, cur)|
    requires done + n <= |all|
    ensures Reading(p, all, a, k, cur, offset + n, done + n) && Slice(q, cur)[offset..offset + n] == all[done..done + n]
  {
    hide Mean, Slice, Inv, Bytes;
    assert a in p.ext - multiset{h} && Keeps(p, q, a);
    CursorAt(p, q, a, k);
    ReadBlock(all, done, Slice(p, cur), Bytes(p, p.w[a][k + 1..]), offset, n);
  }

  lemma ReadBlock(all: seq<Byte>, done: nat, part: seq<Byte>, more: seq<Byte>, offset: nat, n: nat)
    requires done + n <= |all| && offset + n <= |part| && all[done..] == (part + more)[offset..]
    ensures all[done + n..] == (part + more)[offset + n..] && part[offset..offset + n] == all[done..done + n]
  {
    assert all[done + n..] == all[done..][n..];
    assert all[done..done + n] == all[done..][..n];
    assert (part + more)[offset..][..n] == part[offset..offset + n];
  }

  lemma FillOn(q: Pool, z: Pool, h: int, k: nat, cur: int, offset: nat, size: int, n: nat, block: seq<Byte>)
    requires Inv(q) && Inv(z) && Filling(q, h, k, cur, offset, size) && z.s == q.s && z.w == q.w && z.ext == q.ext
    requires h in q.ext && 0 <= h < |q.w| && k < |q.w[h]| && 0 <= cur < |q.s| && offset + n <= q.s[cur].length && |block| == n
    requires CopiedAt(q, z, h, k, offset, block)
    ensures n <= size && Filling(z, h, k, cur, offset + n, size - n)
    ensures |Mean(q, h)| >= size && Mean(z, h) == Over(Mean(q, h), |Mean(q, h)| - size, block)
  {
    hide Mean, Slice, Inv, Bytes, Over;
    CursorStart(q, h);
    CursorStart(z, h);
    CursorAt(q, q, h, k);
    CursorAt(z, z, h, k);
  }

  lemma GrowPrefix(s: seq<Byte>, t: seq<Byte>, all: seq<Byte>, done: nat, block: seq<Byte>)
    requires |s| == |all| && done + |block| <= |all| && s[..done] == all[..done] && t == Over(s, done, block)
    requires block == all[done..done + |block|]
    ensures |t| == |all| && t[..done + |block|] == all[..done + |block|]
  {
    assert t[..done + |block|] == s[..done] + block;
    assert all[..done + |block|] == all[..done] + block;
  }

  lemma PackReady(p0: Pool, p1: Pool, a: int)
    requires a in p0.ext && KeepsRefs(p0, p1, multiset{})
    ensures Mean(p1, a) == Mean(p0, a)
  {
    assert a in p0.ext - multiset{} && Keeps(p0, p1, a);
    KeepsMean(p0, p1, a);
  }

  lemma PackDone(p0: Pool, p1: Pool, p2: Pool, q: Pool, a: int, h: int)
    requires Inv(p0) && Inv(q) && a in p0.ext && h !in p0.ext && p1.ext == p0.ext + multiset{h} && KeepsRefs(p0, p1, multiset{})
    requires p2.ext == p1.ext && p2.s == p1.s && Writable(p2, h) && KeepsRefs(p1, p2, multiset{h}) && Mean(p2, h) == Mean(p1, a)
    requires q.ext == p2.ext - multiset{a} && KeepsRefs(p2, q, multiset{a}) && Returned(p2, q)
    ensures Mean(q, h) == Mean(p0, a) && KeepsRefs(p0, q, multiset{a}) && q.ext == p0.ext - multiset{a} + multiset{h}
    ensures 0 <= h < |p2.s| == |q.s| && q.s[h].length == p2.s[h].length && Writable(q, h)
  {
    hide Mean, Inv;
    assert h in p2.ext - multiset{a} && Keeps(p2, q, h);
    StillWritable(p2, q, h);
    KeepsMean(p2, q, h);
    assert a in p0.ext - multiset{} && Keeps(p0, p1, a);
    KeepsMean(p0, p1, a);
    KeepsRefsTrans(p0, p1, p2, multiset{}, multiset{h});
    KeepsRefsTrans(p0, p2, q, multiset{a}, multiset{a});
    LiveRef(q, h);
    assert h in p2.w[h] && SameNode(p2, q, h);
  }
}
