/** Putting one chain behind another (bf_append): the chain grown so far, and what is still to be put behind it. */
module JoinSteps {
  import opened Basics
  import opened Accessors
  import opened AccessorSteps
  import opened ChainSteps
  import opened PoolViews
  import opened CutSteps
  import opened CopySteps

  function Opt(x: int): multiset<int> {
    if x == NIL then multiset{} else multiset{x}
  }

  /** Nobody else sees the chain of head, which holds s and ends with tail; there is none as long as s is empty. */
  ghost predicate Headed(p: Pool, head: int, tail: int, s: seq<Byte>) {
    if head == NIL then s == []
    else Private(p, head) && p.w[head] != [] && tail == At(p.w[head], |p.w[head]| - 1) && Mean(p, head) == s
  }

  /** Since p0 the references in but have been turned into head, for s, and cur, for the rest of all. */
  ghost predicate Joining(p0: Pool, p: Pool, but: multiset<int>, head: int, tail: int, cur: int, s: seq<Byte>, all: seq<Byte>) {
    && Headed(p, head, tail, s) && p.ext == p0.ext - but + Opt(head) + Opt(cur) && KeepsRefs(p0, p, but)
    && s + Mean(p, cur) == all
  }

  /** As above, but what cur itself holds is in s already. */
  ghost predicate Passing(p0: Pool, p: Pool, but: multiset<int>, head: int, tail: int, cur: int, s: seq<Byte>, all: seq<Byte>) {
    && Headed(p, head, tail, s) && p.ext == p0.ext - but + Opt(head) + Opt(cur) && KeepsRefs(p0, p, but)
    && 0 <= cur < |p.s| && s + Mean(p, p.s[cur].next) == all
  }

  /** curr has been cut loose, next is what followed it. */
  ghost predicate Taken(p0: Pool, p: Pool, but: multiset<int>, head: int, tail: int, curr: int, next: int, s: seq<Byte>, all: seq<Byte>) {
    && Headed(p, head, tail, s) && p.ext == p0.ext - but + Opt(head) + multiset{curr} + Opt(next) && KeepsRefs(p0, p, but)
    && Sole(p, curr) && head != curr && |p.w| == |p.s| && p.w[curr] == [curr] && p.s[curr].next == NIL
    && s + Slice(p, curr) + Mean(p, next) == all
  }

  lemma HeadedStill(p: Pool, q: Pool, head: int, tail: int, s: seq<Byte>, but: int)
    requires Inv(q) && Headed(p, head, tail, s) && (head != NIL ==> head in q.ext && Keeps(p, q, head) && but !in p.w[head])
    requires NoMoreRefs(p.s, q.s, but) && |p.t| == |q.t|
    ensures Headed(q, head, tail, s)
  {
    hide Inv, Mean;
    if head != NIL {
      PrivateStill(p, q, head, but);
      KeepsMean(p, q, head);
    }
  }

  /** What follows another reference is not on a private chain. */
  lemma NextOutside(p: Pool, h: int, a: int)
    requires Inv(p) && Private(p, h) && a in p.ext - multiset{h}
    ensures 0 <= a < |p.s| && a !in p.w[h] && p.s[a].next !in p.w[h]
  {
    Alive(p, a);
    LastOfPrivate(p, h);
    assert ShapeAt(p, a);
    assert a in p.w[a];
    forall k | 0 <= k < |p.w[h]| ensures p.w[h][k] != a { PrivateApart(p, h, a, k); }
    PrivateClosed(p, h, a);
  }

  /** An accessor is its slice and what follows it. */
  lemma MeanSplit(p: Pool, a: int)
    requires Inv(p) && 0 <= a < |p.s| && p.s[a].linkC > 0
    ensures Mean(p, a) == Slice(p, a) + Mean(p, p.s[a].next) && |Slice(p, a)| == p.s[a].length
    ensures |Behind(p.w, p.s[a].next)| < |Behind(p.w, a)|
  {
    assert ShapeAt(p, a);
    assert p.w[a][1..] == Behind(p.w, p.s[a].next);
  }

  /** A kept reference still leads to the same accessor, and from there to the same rest. */
  lemma BehindKept(p: Pool, q: Pool, a: int)
    requires Inv(p) && Inv(q) && a in p.ext && a in q.ext && Keeps(p, q, a) && |p.t| == |q.t|
    ensures 0 <= a < |p.s| == |q.s| && q.s[a].next == p.s[a].next && q.s[a].length == p.s[a].length
    ensures Slice(q, a) == Slice(p, a) && Mean(q, p.s[a].next) == Mean(p, p.s[a].next) && Mean(q, a) == Mean(p, a)
  {
    LiveRef(p, a);
    LiveRef(q, a);
    MeanSplit(p, a);
    MeanSplit(q, a);
    KeepsMean(p, q, a);
    assert a in p.w[a] && SameNode(p, q, a);
    var l := p.w[a][1..];
    assert Behind(p.w, p.s[a].next) == l == Behind(q.w, q.s[a].next);
    forall i | i in l ensures SameNode(p, q, i) { assert i in p.w[a]; }
    SameBytes(p, q, l);
  }

  /** What any other reference stands for, and how it leads there, is as it was. */
  lemma KeptRef(p: Pool, q: Pool, but: multiset<int>, r: int)
    requires KeepsRefs(p, q, but) && r in p.ext - but
    ensures r in q.ext && Keeps(p, q, r) && Mean(q, r) == Mean(p, r) && Behind(q.w, r) == Behind(p.w, r)
  {
    assert Keeps(p, q, r);
    KeepsMean(p, q, r);
  }

  /** An accessor alone on its chain leads nowhere. */
  lemma LoneNext(p: Pool, n: int)
    requires Inv(p) && n in p.ext && 0 <= n < |p.w| && p.w[n] == [n]
    ensures 0 <= n < |p.s| && p.s[n].next == NIL
  {
    LiveRef(p, n);
    if p.s[n].next != NIL { NextAlive(p, n); }
  }

  lemma NilMean(p: Pool)
    ensures Mean(p, NIL) == []
  {
  }

  lemma JoinStart(p: Pool, first: int)
    requires Inv(p) && first in p.ext
    ensures Joining(p, p, multiset{first}, NIL, NIL, first, [], Mean(p, first))
  {
    hide Mean, Inv;
    NoRefNil(p);
    KeepsSelf(p, multiset{first});
  }

  lemma JoinUnshared(p0: Pool, p: Pool, q: Pool, but: multiset<int>, head: int, tail: int, a: int, n: int, s: seq<Byte>, all: seq<Byte>)
    requires Inv(p) && Inv(q) && Joining(p0, p, but, head, tail, a, s, all) && a != NIL && Owned(p, q, a, n)
    ensures Joining(p0, q, but, head, tail, n, s, all) && head != n && n != NIL && Sole(q, n)
  {
    hide Mean, Inv;
    NoRefNil(q);
    if head != NIL {
      assert a in p.ext - multiset{head};
      NextOutside(p, head, a);
      assert head in p.ext - multiset{a};
      assert Keeps(p, q, head);
    }
    HeadedStill(p, q, head, tail, s, p.s[a].next);
    KeepsRefsTrans(p0, p, q, but, multiset{a});
    SoleOnce(q, n);
  }

  /** What has been put together stays when others give things up, and so does what is to come. */
  lemma JoiningStill(p0: Pool, p: Pool, q: Pool, but: multiset<int>, head: int, tail: int, cur: int, s: seq<Byte>, all: seq<Byte>)
    requires Inv(q) && Joining(p0, p, but, head, tail, cur, s, all) && Reclaimed(p, q)
    ensures Joining(p0, q, but, head, tail, cur, s, all) && (cur != NIL ==> Behind(q.w, cur) == Behind(p.w, cur))
  {
    hide Inv, Mean, KeepsRefs, Headed, Returned, NoMoreRefs;
    NilMean(p);
    NilMean(q);
    ReturnedSupplies(p, q);
    HeadedKept(p, q, head, tail, s, multiset{});
    if cur != NIL { KeptRef(p, q, multiset{}, cur); }
    KeepsRefsTrans(p0, p, q, but, multiset{});
  }

  /** The next accessor is one that nobody else sees, after others may have given things up. */
  lemma JoinOwned(p0: Pool, p: Pool, m: Pool, q: Pool, but: multiset<int>, head: int, tail: int, a: int, n: int,
                  s: seq<Byte>, all: seq<Byte>)
    requires Inv(p) && Inv(m) && Inv(q) && Joining(p0, p, but, head, tail, a, s, all) && a != NIL && a in p.ext
    requires Reclaimed(p, m) && Owned(m, q, a, n)
    ensures Joining(p0, q, but, head, tail, n, s, all) && head != n && n != NIL && Sole(q, n)
    ensures Supplies(p, q, 1) && 0 <= n < |q.s| && |Behind(q.w, q.s[n].next)| < |Behind(p.w, a)|
  {
    hide Inv, Mean, Joining, KeepsRefs, Returned;
    JoiningStill(p0, p, m, but, head, tail, a, s, all);
    JoinUnshared(p0, m, q, but, head, tail, a, n, s, all);
    ReturnedSupplies(p, m);
    SuppliesTrans(p, m, q, 0, 1);
    Alive(m, a) by { InvParts(m); }
    MeanSplit(m, a);
  }

  lemma SoleOnce(p: Pool, a: int)
    requires Inv(p) && Sole(p, a)
    ensures p.ext[a] == 1
  {
    SoleCount(p, a);
  }

  lemma JoinDetached(p0: Pool, p: Pool, q: Pool, but: multiset<int>, head: int, tail: int, n: int, next: int, s: seq<Byte>, all: seq<Byte>)
    requires Inv(p) && Inv(q) && Joining(p0, p, but, head, tail, n, s, all) && head != n && n != NIL && Sole(p, n) && Sole(q, n)
    requires next == p.s[n].next && next != n && q.ext == p.ext + Opt(next) && KeepsRefs(p, q, multiset{n})
    requires |q.w| == |q.s| == |p.s| && q.w[n] == [n] && q.s == p.s[n := p.s[n].(next := NIL)]
    requires Slice(q, n) == Slice(p, n) && Mean(q, next) == Mean(p, next) && Mean(p, n) == Slice(p, n) + Mean(p, next)
    ensures Taken(p0, q, but, head, tail, n, next, s, all)
  {
    hide Mean, Inv, Slice;
    if head != NIL {
      assert head in p.ext - multiset{n} && Keeps(p, q, head);
      assert NIL !in p.w[head];
    }
    HeadedStill(p, q, head, tail, s, NIL);
    KeepsRefsTrans(p0, p, q, but, multiset{n});
  }

  lemma JoinDropped(p0: Pool, p: Pool, q: Pool, but: multiset<int>, head: int, tail: int, curr: int, next: int, s: seq<Byte>, all: seq<Byte>)
    requires Inv(p) && Inv(q) && Taken(p0, p, but, head, tail, curr, next, s, all) && p.s[curr].length == 0
    requires q.ext == p.ext - multiset{curr} && KeepsRefs(p, q, multiset{curr}) && Returned(p, q)
    ensures Joining(p0, q, but, head, tail, next, s, all) && Behind(q.w, next) == Behind(p.w, next)
  {
    hide Mean, Inv, KeepsRefs, Keeps, Returned, Slice, Headed, NoMoreRefs, Supplies, Opt;
    EmptySlice(p, curr);
    NilMean(p);
    NilMean(q);
    ReturnedSupplies(p, q);
    DroppedRefs(p0.ext - but, p.ext, q.ext, head, curr, next);
    HeadedKept(p, q, head, tail, s, multiset{curr});
    KeepsRefsTrans(p0, p, q, but, multiset{curr});
    if next != NIL { KeptRef(p, q, multiset{curr}, next); }
  }

  lemma EmptySlice(p: Pool, a: int)
    requires Inv(p) && 0 <= a < |p.s| && p.s[a].linkC > 0 && p.s[a].length == 0
    ensures Slice(p, a) == []
  {
    assert ShapeAt(p, a);
  }

  /** A chain that nobody else sees remains so when others give things up. */
  lemma HeadedKept(p: Pool, q: Pool, head: int, tail: int, s: seq<Byte>, but: multiset<int>)
    requires Inv(q) && Headed(p, head, tail, s) && KeepsRefs(p, q, but) && NoMoreRefs(p.s, q.s, NIL)
    requires head != NIL ==> head in p.ext - but
    ensures Headed(q, head, tail, s)
  {
    hide Inv, Mean;
    assert head != NIL ==> Keeps(p, q, head) && NIL !in p.w[head];
    HeadedStill(p, q, head, tail, s, NIL);
  }

  lemma DroppedRefs(base: multiset<int>, e: multiset<int>, f: multiset<int>, head: int, curr: int, next: int)
    requires e == base + Opt(head) + multiset{curr} + Opt(next) && f == e - multiset{curr}
    ensures f == base + Opt(head) + Opt(next) && base <= e - multiset{curr}
    ensures (next != NIL ==> next in e - multiset{curr}) && (head != NIL ==> head in e - multiset{curr})
  {
    TakeOut(base, Opt(head), Opt(next), curr);
  }

  lemma JoinFirst(p0: Pool, p: Pool, but: multiset<int>, head: int, tail: int, curr: int, next: int, s: seq<Byte>, all: seq<Byte>)
    requires Inv(p) && Taken(p0, p, but, head, tail, curr, next, s, all) && head == NIL
    ensures Joining(p0, p, but, curr, curr, next, s + Slice(p, curr), all)
  {
    hide Mean, Inv, Slice;
    LoneMean(p, curr);
  }

  lemma CanLink(p0: Pool, p: Pool, but: multiset<int>, head: int, tail: int, curr: int, next: int, s: seq<Byte>, all: seq<Byte>)
    requires Inv(p) && Taken(p0, p, but, head, tail, curr, next, s, all) && head != NIL
    ensures 0 <= head < |p.w| && Private(p, head) && curr in p.ext - multiset{head} && tail == At(p.w[head], |p.w[head]| - 1)
    ensures Mean(p, head) == s && Mean(p, curr) == Slice(p, curr) && Private(p, curr) && Behind(p.w, curr) == [curr]
  {
    hide Mean, Inv, Slice;
    LoneMean(p, curr);
  }

  lemma JoinLinked(p0: Pool, p: Pool, q: Pool, but: multiset<int>, head: int, tail: int, curr: int, next: int, s: seq<Byte>, all: seq<Byte>)
    requires Inv(p) && Inv(q) && Taken(p0, p, but, head, tail, curr, next, s, all) && head != NIL
    requires q.ext == p.ext - multiset{curr} && |q.w| == |p.w| && q.w[head] == p.w[head] + [curr]
    requires |q.s| == |p.s| && forall i :: 0 <= i < |p.s| ==> q.s[i].linkC == p.s[i].linkC
    requires Mean(q, head) == s + Slice(p, curr) && KeepsRefs(p, q, multiset{head, curr})
    ensures Joining(p0, q, but, head, curr, next, s + Slice(p, curr), all) && Behind(q.w, next) == Behind(p.w, next)
  {
    NoRefNil(p);
    NilMean(p);
    NilMean(q);
    hide Mean, Inv, Slice, KeepsRefs, Keeps, Private, Headed;
    LinkedHead(p, q, head, tail, s, curr);
    LinkedRefs(p0.ext - but, p.ext, q.ext, head, curr, next);
    KeepsRefsTrans(p0, p, q, but, multiset{head, curr});
    if next != NIL { KeptRef(p, q, multiset{head, curr}, next); }
  }

  lemma LinkedHead(p: Pool, q: Pool, head: int, tail: int, s: seq<Byte>, curr: int)
    requires Headed(p, head, tail, s) && head != NIL && |q.w| == |p.w| == |p.s| && q.w[head] == p.w[head] + [curr]
    requires Sole(p, curr) && p.w[curr] == [curr] && curr != head && q.ext == p.ext - multiset{curr}
    requires |q.s| == |p.s| && forall i :: 0 <= i < |p.s| ==> q.s[i].linkC == p.s[i].linkC
    requires Mean(q, head) == s + Slice(p, curr)
    ensures Headed(q, head, curr, s + Slice(p, curr))
  {
    hide Mean, Slice;
    assert forall i :: i in q.w[head] ==> i in p.w[head] || i == curr;
  }

  lemma LinkedRefs(base: multiset<int>, e: multiset<int>, f: multiset<int>, head: int, curr: int, next: int)
    requires e == base + Opt(head) + multiset{curr} + Opt(next) && f == e - multiset{curr} && head != NIL
    ensures f == base + Opt(head) + Opt(next) && base <= e - multiset{head, curr}
    ensures next != NIL ==> next in e - multiset{head, curr}
  {
    TakeOut(base, Opt(head), Opt(next), curr);
    TakeTwo(base, Opt(next), head, curr);
  }

  lemma TakeOut(a: multiset<int>, b: multiset<int>, c: multiset<int>, x: int)
    ensures a + b + multiset{x} + c - multiset{x} == a + b + c
  {
  }

  lemma TakeTwo(a: multiset<int>, c: multiset<int>, x: int, y: int)
    ensures a + multiset{x} + multiset{y} + c - multiset{x, y} == a + c
  {
  }

  /** The first chain is done; the second comes up. */
  lemma JoinSecond(p0: Pool, p: Pool, first: int, second: int, head: int, tail: int, s: seq<Byte>)
    requires Inv(p0) && Joining(p0, p, multiset{first}, head, tail, NIL, s, Mean(p0, first)) && first in p0.ext
    requires second in p0.ext - multiset{first}
    ensures Joining(p0, p, multiset{first, second}, head, tail, second, s, Mean(p0, first) + Mean(p0, second))
    ensures second in p.ext && second != NIL && Behind(p.w, second) == Behind(p0.w, second)
  {
    hide Mean, Inv, KeepsRefs, Headed, Keeps, Opt;
    NoRefNil(p0);
    NilMean(p);
    assert s == Mean(p0, first);
    KeptRef(p0, p, multiset{first}, second);
    FewerRefs(p0, p, multiset{first}, multiset{first, second});
    OptCases(second);
    SecondOut(p0.ext, first, second, Opt(head));
  }

  lemma OptCases(x: int)
    requires x != NIL
    ensures Opt(NIL) == multiset{} && Opt(x) == multiset{x}
  {
  }

  lemma SecondOut(e: multiset<int>, first: int, second: int, h: multiset<int>)
    requires second in e - multiset{first} && first in e
    ensures e - multiset{first} + h == e - multiset{first, second} + h + multiset{second}
  {
    assert e - multiset{first} == e - multiset{first, second} + multiset{second};
  }

  /** A reference of nothing but itself is skipped. */
  lemma SkipEmpty(p0: Pool, p: Pool, but: multiset<int>, head: int, tail: int, cur: int, s: seq<Byte>, all: seq<Byte>)
    requires Inv(p) && Joining(p0, p, but, head, tail, cur, s, all) && cur in p.ext && 0 <= cur < |p.s| && p.s[cur].length == 0
    ensures Passing(p0, p, but, head, tail, cur, s, all)
  {
    LiveRef(p, cur);
    hide Inv;
    MeanSplit(p, cur);
  }

  lemma CanPass(p0: Pool, p: Pool, but: multiset<int>, head: int, tail: int, cur: int, s: seq<Byte>, all: seq<Byte>)
    requires Inv(p) && Passing(p0, p, but, head, tail, cur, s, all) && head != NIL
    ensures cur != NIL && cur in p.ext && 0 <= cur < |p.s| && p.s[cur].linkC > 0
    ensures var x := p.s[cur].next; x != NIL ==> 0 <= x < |p.s| && p.s[x].linkC > 0
    ensures |Behind(p.w, p.s[cur].next)| < |Behind(p.w, cur)|
  {
    LiveRef(p, cur);
    if p.s[cur].next != NIL { NextAlive(p, cur); }
  }

  lemma JoinMoved(p0: Pool, p: Pool, q: Pool, but: multiset<int>, head: int, tail: int, cur: int, s: seq<Byte>, all: seq<Byte>)
    requires Inv(p) && Inv(q) && Passing(p0, p, but, head, tail, cur, s, all) && head != NIL && cur != NIL
    requires q.ext == p.ext - multiset{cur} + Opt(p.s[cur].next) && KeepsRefs(p, q, multiset{cur})
    requires NoMoreRefs(p.s, q.s, p.s[cur].next) && Mean(q, p.s[cur].next) == Mean(p, p.s[cur].next)
    ensures Joining(p0, q, but, head, tail, p.s[cur].next, s, all)
  {
    hide Mean, Inv;
    assert cur in p.ext - multiset{head};
    NextOutside(p, head, cur);
    assert head in p.ext - multiset{cur};
    assert Keeps(p, q, head);
    HeadedStill(p, q, head, tail, s, p.s[cur].next);
    KeepsRefsTrans(p0, p, q, but, multiset{cur});
  }

  lemma CanJoin(p0: Pool, p: Pool, but: multiset<int>, head: int, tail: int, cur: int, s: seq<Byte>, all: seq<Byte>)
    requires Inv(p) && Joining(p0, p, but, head, tail, cur, s, all) && head != NIL
    ensures 0 <= head < |p.w| && Private(p, head) && tail == At(p.w[head], |p.w[head]| - 1) && Mean(p, head) == s
    ensures cur != NIL ==> cur in p.ext - multiset{head} && 0 <= cur < |p.s| && p.s[cur].linkC > 0 && ShapeAt(p, cur)
    ensures 0 <= tail < |p.s| && p.s[tail].linkC == 1 && ShapeAt(p, tail) && tail in p.w[head] && tail != cur
    ensures |p.w| == |p.s| && p.w[head] != [] && head in p.ext - Opt(cur)
  {
    if cur != NIL { Alive(p, cur); NextOutside(p, head, cur); }
    LastOfPrivate(p, head);
    hide Mean;
  }

  lemma JoinDone(p0: Pool, p: Pool, q: Pool, but: multiset<int>, head: int, tail: int, cur: int, s: seq<Byte>, all: seq<Byte>)
    requires Joining(p0, p, but, head, tail, cur, s, all) && head != NIL && cur != NIL
    requires q.ext == p.ext - multiset{cur} && Mean(q, head) == s + Mean(p, cur) && KeepsRefs(p, q, multiset{head, cur})
    ensures Mean(q, head) == all && q.ext == p0.ext - but + multiset{head} && KeepsRefs(p0, q, but)
  {
    hide Mean;
    KeepsRefsTrans(p0, p, q, but, multiset{head, cur});
  }

  /** The chain of head has been extended by what cur holds. */
  lemma JoinExtended(p0: Pool, p: Pool, q: Pool, but: multiset<int>, head: int, tail: int, cur: int, s: seq<Byte>, all: seq<Byte>)
    requires Inv(p) && Inv(q) && Joining(p0, p, but, head, tail, cur, s, all) && head != NIL && cur != NIL
    requires Headed(q, head, tail, s + Slice(p, cur)) && KeepsRefs(p, q, multiset{head}) && q.ext == p.ext
    ensures Passing(p0, q, but, head, tail, cur, s + Slice(p, cur), all)
  {
    hide Mean, Inv, Slice;
    assert cur in p.ext - multiset{head} && Keeps(p, q, cur);
    LiveRef(p, cur);
    BehindKept(p, q, cur);
    MeanSplit(p, cur);
    KeepsRefsTrans(p0, p, q, but, multiset{head});
  }

  /** If only the last accessor of a chain changes, by some bytes more, so does what the chain holds. */
  lemma LastGrows(p: Pool, q: Pool, h: int, more: seq<Byte>)
    requires 0 <= h < |p.w| && p.w[h] != [] && |q.w| == |p.w| && q.w[h] == p.w[h] && |q.t| == |p.t|
    requires forall i, j :: 0 <= i < j < |p.w[h]| ==> p.w[h][i] != p.w[h][j]
    requires var t := p.w[h][|p.w[h]| - 1];
      && (forall j :: j in p.w[h] && j != t ==> SameNode(p, q, j)) && Slice(q, t) == Slice(p, t) + more
    ensures Mean(q, h) == Mean(p, h) + more
  {
    hide Slice, SameNode;
    var l, k := p.w[h], |p.w[h]| - 1;
    forall j | j in l[..k] ensures SameNode(p, q, j) { assert j in l; }
    SameBytes(p, q, l[..k]);
    BytesAround(p, l, k);
    BytesAround(q, l, k);
    assert l[k + 1..] == [];
  }

  /** The buffer of tail after moving its bytes to the front and copying block behind them. */
  function Packed(d: seq<Byte>, offset: nat, length: nat, block: seq<Byte>): seq<Byte>
    requires offset + length <= |d| && length + |block| <= |d|
  {
    Over(if offset > 0 then Over(d, 0, d[offset..offset + length]) else d, length, block)
  }

  lemma PackedFront(d: seq<Byte>, offset: nat, length: nat, block: seq<Byte>)
    requires offset + length <= |d| && length + |block| <= |d|
    ensures |Packed(d, offset, length, block)| == |d|
    ensures Packed(d, offset, length, block)[0..length + |block|] == d[offset..offset + length] + block
  {
    hide Over;
    var x := d[offset..offset + length];
    var e := if offset > 0 then Over(d, 0, x) else d;
    if offset > 0 { OverPrefix(d, 0, x); }
    OverPrefix(e, length, block);
  }

  lemma OverPrefix(s: seq<Byte>, pos: nat, block: seq<Byte>)
    requires pos + |block| <= |s|
    ensures Over(s, pos, block)[..pos + |block|] == s[..pos] + block
  {
  }

  lemma InPlaceDone(p: Pool, head: int, tail: int, s: seq<Byte>, block: seq<Byte>, sizes: seq<nat>)
    requires Inv(p) && Sized(p, sizes) && head != NIL && Headed(p, head, tail, s)
    requires 0 <= tail < |p.s| && 0 <= p.s[tail].buffer < |p.t| && p.t[p.s[tail].buffer].linkC == 1
    requires p.s[tail].offset + p.s[tail].length <= |p.t[p.s[tail].buffer].data|
    requires p.s[tail].length + |block| <= |p.t[p.s[tail].buffer].data|
    ensures var x := p.s[tail]; var data := Packed(p.t[x.buffer].data, x.offset, x.length, block);
      var q := Rewritten(p, tail, 0, x.length + |block|, data);
      Inv(q) && Sized(q, sizes) && Headed(q, head, tail, s + block) && KeepsRefs(p, q, multiset{head})
  {
    hide Inv, Mean, Packed, Slice, Sized, AccCounts, Shapes, BufCounts, FreeLists, Partition, KeepsRefs, SameNode, Bytes;
    InvParts(p);
    var x := p.s[tail];
    var data := Packed(p.t[x.buffer].data, x.offset, x.length, block);
    PackedFront(p.t[x.buffer].data, x.offset, x.length, block);
    LastOfPrivate(p, head);
    RewriteDone(p, head, tail, 0, x.length + |block|, data, sizes);
    SliceBytes(p, tail);
    ChainDistinct(p, head);
    LastGrows(p, Rewritten(p, tail, 0, x.length + |block|, data), head, block);
  }

  /** An accessor on the chain of a kept reference still gives access to the same bytes. */
  lemma SliceKept(p: Pool, q: Pool, r: int, a: int)
    requires Keeps(p, q, r) && a in p.w[r] && |p.t| == |q.t|
    ensures Slice(q, a) == Slice(p, a)
  {
    assert SameNode(p, q, a);
  }

  /** bf_append has a fresh accessor for the bytes of tail and of cur. */
  lemma RequestDone(p: Pool, q: Pool, head: int, tail: int, s: seq<Byte>, n: int)
    requires Inv(p) && Inv(q) && head != NIL && Headed(p, head, tail, s) && n !in p.ext && q.ext == p.ext + multiset{n}
    requires KeepsRefs(p, q, multiset{}) && NoMoreRefs(p.s, q.s, NIL)
    ensures Headed(q, head, tail, s) && n in q.ext - multiset{head} && head in q.ext - multiset{n} && head != n
    ensures |q.w| == |p.w| && 0 <= head < |p.w| && q.w[head] == p.w[head]
    ensures forall r :: r in p.ext ==> r in q.ext - multiset{n}
  {
    hide Mean;
    assert head in p.ext - multiset{} && Keeps(p, q, head);
    LastOfPrivate(p, head);
    hide Inv;
    HeadedStill(p, q, head, tail, s, NIL);
  }

  /** After the two copies, tail and the fresh accessor are exchanged. */
  lemma ExchangeDone(p: Pool, head: int, tail: int, s: seq<Byte>, n: int, more: seq<Byte>, sizes: seq<nat>)
    requires Inv(p) && Sized(p, sizes) && head != NIL && Headed(p, head, tail, s) && n in p.ext - multiset{head}
    requires Writable(p, n) && 0 <= n < |p.w| && p.w[n] == [n] && 0 <= tail < |p.s|
    requires Mean(p, n) == Slice(p, tail) + more
    ensures 0 <= n < |p.s| && tail != n && n != NIL
    ensures var q := Swapped(p, tail, n);
      && Inv(q) && Sized(q, sizes) && Headed(q, head, tail, s + more) && KeepsRefs(p, q, multiset{head, n}) && q.ext == p.ext
      && n in q.ext
  {
    hide Inv, Mean, Slice, AccCounts, Shapes, BufCounts, FreeLists, Partition, Keeps, SameNode, Bytes;
    InvParts(p);
    LiveRef(p, n);
    assert n in p.w[n];
    LastOfPrivate(p, head);
    LoneNext(p, n);
    SwappedInv(p, head, tail, n);
    LoneMean(p, n);
    ChainDistinct(p, head);
    LastGrows(p, Swapped(p, tail, n), head, more);
  }

  lemma ExchangedFreed(p: Pool, q: Pool, head: int, tail: int, s: seq<Byte>, n: int)
    requires Inv(q) && head != NIL && Headed(p, head, tail, s) && head in p.ext - multiset{n}
    requires KeepsRefs(p, q, multiset{n}) && Returned(p, q)
    ensures Headed(q, head, tail, s)
  {
    hide Inv, Mean;
    assert Keeps(p, q, head);
    assert NIL !in p.w[head];
    HeadedStill(p, q, head, tail, s, NIL);
  }

  /** From p over the request, the copies and the exchange to the end, only head has changed. */
  lemma ExchangeKeeps(p: Pool, p1: Pool, p2: Pool, p3: Pool, q: Pool, head: int, n: int)
    requires n !in p.ext && p1.ext == p2.ext == p3.ext == p.ext + multiset{n} && q.ext == p3.ext - multiset{n} && head in p.ext
    requires KeepsRefs(p, p1, multiset{}) && KeepsRefs(p1, p2, multiset{n}) && KeepsRefs(p2, p3, multiset{head, n})
    requires KeepsRefs(p3, q, multiset{n})
    ensures KeepsRefs(p, q, multiset{head}) && q.ext == p.ext
  {
    hide KeepsRefs;
    assert KeepsRefs(p, p1, multiset{head}) by { FewerRefs(p, p1, multiset{}, multiset{head}); }
    KeepsRefsTrans(p, p1, p2, multiset{head}, multiset{n});
    KeepsRefsTrans(p, p2, p3, multiset{head}, multiset{head, n});
    KeepsRefsTrans(p, p3, q, multiset{head}, multiset{n});
  }

  lemma FewerRefs(p: Pool, q: Pool, but: multiset<int>, also: multiset<int>)
    requires KeepsRefs(p, q, but) && but <= also
    ensures KeepsRefs(p, q, also)
  {
  }

  lemma TakenRefs(p0: Pool, p: Pool, but: multiset<int>, head: int, tail: int, curr: int, next: int, s: seq<Byte>, all: seq<Byte>)
    requires Inv(p) && Taken(p0, p, but, head, tail, curr, next, s, all)
    ensures curr in p.ext && 0 <= curr < |p.s| && (next != NIL ==> next in p.ext - multiset{curr})
    ensures next != NIL && head != NIL ==> next in p.ext - multiset{head, curr}
  {
    hide Mean, Inv, Slice;
  }

  lemma ReturnedSupplies(p: Pool, q: Pool)
    requires Returned(p, q)
    ensures Supplies(p, q, 0) && NoMoreRefs(p.s, q.s, NIL)
  {
  }

  lemma Sliced(p: Pool, a: int)
    requires Inv(p) && 0 <= a < |p.s| && p.s[a].linkC > 0
    ensures var x := p.s[a];
      && 0 <= x.buffer < |p.t| && x.offset + x.length <= |p.t[x.buffer].data|
      && Slice(p, a) == p.t[x.buffer].data[x.offset..x.offset + x.length]
  {
    assert ShapeAt(p, a);
  }

  /** The only accessor of a buffer has it for itself. */
  lemma OwnBuffer(p: Pool, a: int, c: int)
    requires Inv(p) && 0 <= a < |p.s| && 0 <= c < |p.s| && a != c && p.s[a].linkC > 0 && p.s[c].linkC > 0
    requires 0 <= p.s[a].buffer < |p.t| && p.t[p.s[a].buffer].linkC == 1
    ensures p.s[c].buffer != p.s[a].buffer
  {
    assert BufAt(p, p.s[a].buffer);
    if p.s[c].buffer == p.s[a].buffer { RefsTwo(p.s, a, c, BUFFER, p.s[a].buffer); }
  }

  lemma OverNothing(s: seq<Byte>, pos: nat, block: seq<Byte>)
    requires pos <= |s| && block == []
    ensures Over(s, pos, block) == s
  {
  }

  lemma FillBounds(q: Pool, h: int, k: nat, cur: int, offset: nat, room: int)
    requires Inv(q) && Writable(q, h) && Filling(q, h, k, cur, offset, room) && room > 0
    ensures h in q.ext && |q.w| == |q.s| && 0 <= h < |q.w| && k < |q.w[h]| && 0 <= cur < |q.s| && cur == q.w[h][k] && offset <= q.s[cur].length
    ensures offset == q.s[cur].length ==> Filling(q, h, k + 1, q.s[cur].next, 0, room)
  {
    hide Mean, Slice;
    assert q.w[h][|q.w[h]|..] == [];
    CursorStart(q, h);
    CursorAt(q, q, h, k);
    if k + 1 < |q.w[h]| { CursorAt(q, q, h, k + 1); }
  }

  lemma SourceKept(p: Pool, q: Pool, h: int, r: int, src: int)
    requires Inv(q) && KeepsRefs(p, q, multiset{h}) && r in p.ext - multiset{h} && src in Behind(p.w, r)
    requires q.s == p.s && 0 <= src < |p.s| && p.s[src].linkC > 0
    ensures Slice(q, src) == Slice(p, src) && |Slice(p, src)| == p.s[src].length
  {
    assert Keeps(p, q, r) && SameNode(p, q, src);
    Sliced(q, src);
  }

  lemma FillStep(p: Pool, q: Pool, z: Pool, h: int, k: nat, cur: int, offset: nat, room: nat, from: nat,
                 data: seq<Byte>, done: nat, n: nat)
    requires Inv(q) && Inv(z) && Filling(q, h, k, cur, offset, room - done) && z.s == q.s && z.w == q.w && z.ext == q.ext
    requires h in q.ext && 0 <= h < |q.w| && k < |q.w[h]| && 0 <= cur < |q.s| && offset + n <= q.s[cur].length
    requires done + n <= |data| <= room && from + room == |Mean(p, h)|
    requires Mean(q, h) == Over(Mean(p, h), from, data[..done])
    requires CopiedAt(q, z, h, k, offset, data[done..done + n])
    ensures Filling(z, h, k, cur, offset + n, room - done - n)
    ensures Mean(z, h) == Over(Mean(p, h), from, data[..done + n])
  {
    hide Mean, Inv, Over, Filling, CopiedAt;
    FillOn(q, z, h, k, cur, offset, room - done, n, data[done..done + n]);
    OverMore(Mean(p, h), from, data, done, n);
  }

  lemma OverMore(s: seq<Byte>, from: nat, data: seq<Byte>, done: nat, n: nat)
    requires from + |data| <= |s| && done + n <= |data|
    ensures Over(Over(s, from, data[..done]), from + done, data[done..done + n]) == Over(s, from, data[..done + n])
  {
    var once := Over(s, from, data[..done]);
    var twice, whole := Over(once, from + done, data[done..done + n]), Over(s, from, data[..done + n]);
    forall i | 0 <= i < |s| ensures twice[i] == whole[i] {
      OverAt(s, from, data[..done], i);
      OverAt(once, from + done, data[done..done + n], i);
      OverAt(s, from, data[..done + n], i);
    }
  }

  lemma DetachMeans(p: Pool, a: int)
    requires Inv(p) && Sole(p, a)
    ensures |p.w| == |p.s|
    ensures var q := Detached(p, a); var next := p.s[a].next;
      Mean(q, next) == Mean(p, next) && Behind(q.w, next) == Behind(p.w, next) && Mean(p, a) == Slice(p, a) + Mean(p, next)
  {
    DetachedInv(p, a);
    MeanSplit(p, a);
    SoleCount(p, a);
    if p.s[a].next != NIL {
      NextAlive(p, a);
      assert Keeps(p, Detached(p, a), p.s[a].next);
      KeepsMean(p, Detached(p, a), p.s[a].next);
    }
  }

  lemma WritableRef(p: Pool, h: int)
    requires Writable(p, h)
    ensures h in p.ext && 0 <= h < |p.w|
  {
  }

  lemma JoiningRef(p0: Pool, p: Pool, but: multiset<int>, head: int, tail: int, cur: int, s: seq<Byte>, all: seq<Byte>)
    requires Inv(p) && Joining(p0, p, but, head, tail, cur, s, all) && cur != NIL
    ensures cur in p.ext && 0 <= cur < |p.s| && p.s[cur].linkC > 0
  {
    Alive(p, cur);
    hide Mean;
  }

  lemma JoinedAll(p0: Pool, p: Pool, but: multiset<int>, head: int, tail: int, s: seq<Byte>, all: seq<Byte>)
    requires Joining(p0, p, but, head, tail, NIL, s, all)
    ensures s == all && KeepsRefs(p0, p, but) && p.ext == p0.ext - but + Opt(head) && Mean(p, head) == all
  {
    NilMean(p);
  }

  lemma SuppliesTrans(p: Pool, q: Pool, z: Pool, n: nat, m: nat)
    requires Supplies(p, q, n) && Supplies(q, z, m)
    ensures Supplies(p, z, n + m)
  {
  }

  /** One accessor at most is taken. */
  lemma SuppliedOnce(p: Pool, p1: Pool, p2: Pool, q: Pool)
    requires Supplies(p, p1, 1) && p2.accFree == p1.accFree && p2.bufFree == p1.bufFree && Supplies(p2, q, 0)
    ensures Supplies(p, q, 1)
  {
  }

  /** bf_append: both accessors are in use as before, once there is a fresh one. */
  lemma RequestKept(p: Pool, q: Pool, head: int, tail: int, s: seq<Byte>, cur: int)
    requires Inv(p) && Inv(q) && head != NIL && Headed(p, head, tail, s) && KeepsRefs(p, q, multiset{})
    requires head in p.ext && cur in p.ext && head in q.ext && cur in q.ext
    ensures 0 <= tail < |p.s| == |q.s| && 0 <= cur < |p.s| && q.s[tail].linkC > 0 && q.s[cur].linkC > 0
    ensures q.s[tail].length == p.s[tail].length && q.s[cur].length == p.s[cur].length
  {
    hide Mean, Slice;
    LastOfPrivate(p, head);
    LiveRef(p, cur);
    KeptRef(p, q, multiset{}, head);
    KeptRef(p, q, multiset{}, cur);
    LiveRef(q, cur);
    OnChain(q, head, tail);
    assert SameNode(p, q, tail);
    assert p.w[cur][0] == cur && SameNode(p, q, cur);
  }

  lemma OneOrMore(size: nat, biggest: nat)
    requires 0 < size <= biggest
    ensures Needed(size, biggest) == 1
  {
  }

  lemma FillStart(p: Pool, h: int)
    requires Inv(p) && Writable(p, h)
    ensures Filling(p, h, 0, h, 0, |Mean(p, h)|)
  {
    CursorStart(p, h);
  }

  lemma OverBoth(s: seq<Byte>, a: seq<Byte>, b: seq<Byte>)
    requires |s| == |a| + |b|
    ensures Over(Over(s, 0, a), |a|, b) == a + b
  {
  }

  /** bf_append: what is to be copied is as it was, and on chains that the copies do not touch. */
  lemma BothSources(p: Pool, q: Pool, head: int, tail: int, s: seq<Byte>, cur: int, n: int)
    requires Inv(p) && Inv(q) && head != NIL && Headed(p, head, tail, s) && Headed(q, head, tail, s) && head in p.ext
    requires KeepsRefs(p, q, multiset{}) && cur in p.ext - multiset{head} && p.ext == q.ext - multiset{n} && n in q.ext - multiset{head}
    requires 0 <= tail < |p.s| == |q.s| && 0 <= cur < |p.s| && q.s[tail].linkC > 0 && q.s[cur].linkC > 0
    ensures 0 <= head < |q.w| && tail in q.w[head] && 0 <= cur < |q.w| && cur in q.w[cur]
    ensures head in q.ext - multiset{n} && cur in q.ext - multiset{n}
    ensures Slice(q, cur) == Slice(p, cur)
    ensures |Slice(q, tail)| == q.s[tail].length && |Slice(q, cur)| == q.s[cur].length
  {
    LastOfPrivate(q, head);
    LiveRef(q, cur);
    Sliced(q, tail);
    Sliced(q, cur);
    hide Inv, Mean, Slice;
    KeptRef(p, q, multiset{}, cur);
    assert q.w[cur][0] == cur;
    SliceKept(p, q, cur, cur);
  }

  lemma BothKept(p: Pool, q: Pool, head: int, tail: int, s: seq<Byte>, cur: int, n: int)
    requires Inv(q) && head != NIL && Headed(p, head, tail, s) && KeepsRefs(p, q, multiset{n}) && q.s == p.s && q.w == p.w
    requires head in p.ext - multiset{n} && cur in p.ext - multiset{n} && 0 <= head < |p.w| && 0 <= cur < |p.w|
    requires tail in p.w[head] && cur in p.w[cur]
    ensures Slice(q, cur) == Slice(p, cur) && Slice(q, tail) == Slice(p, tail) && Headed(q, head, tail, s)
  {
    hide Inv, Mean, Slice;
    KeptRef(p, q, multiset{n}, head);
    KeptRef(p, q, multiset{n}, cur);
    SliceKept(p, q, head, tail);
    SliceKept(p, q, cur, cur);
    HeadedStill(p, q, head, tail, s, NIL) by {
      assert NIL !in p.w[head];
    }
  }

  lemma JoiningHeaded(p0: Pool, p: Pool, but: multiset<int>, head: int, tail: int, cur: int, s: seq<Byte>, all: seq<Byte>)
    requires Joining(p0, p, but, head, tail, cur, s, all)
    ensures Headed(p, head, tail, s)
  {
  }

  lemma OneLeft(e: multiset<int>, a: int, b: int)
    requires NIL !in e && (a == NIL || b == NIL) && (a == NIL || a in e) && (b == NIL || b in e)
    ensures e == e - multiset{a, b} + Opt(if a == NIL then b else a)
  {
  }

  /** The first chain held nothing: the second is the result. */
  lemma NothingFirst(p0: Pool, p: Pool, but: multiset<int>, tail: int, second: int, s: seq<Byte>, all: seq<Byte>)
    requires Joining(p0, p, but, NIL, tail, second, s, all)
    ensures Mean(p, second) == all && p.ext == p0.ext - but + Opt(second) && KeepsRefs(p0, p, but)
  {
  }
}
