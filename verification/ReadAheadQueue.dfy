/** The queue of buffers that read-ahead fills and hands to scattered I/O (src/fs/read.c:494-515). */
module ReadAheadQueue {
  import opened Basics
  import opened BlockTypes
  import opened LruList
  import opened HashChains
  import opened ScatteredSort
  import opened Coherence
  import opened SecondLevel
  import opened CacheSteps

  /** Buffer r holds block k for one user more; buffers in use before are kept. */
  ghost predicate ReadFor(b: seq<Buf>, c: seq<Buf>, r: int, k: Key) {
    && |b| == |c| && Holds(c, r, k) && Taken(b, c, [r]) && (b[r].count > 0 ==> Holds(b, r, k))
    && forall i :: 0 <= i < |b| && b[i].count > 0 && i != r ==>
         c[i].data == b[i].data && c[i].Name() == b[i].Name()
  }

  /** The queue so far, and the buffer bp for block that joins it next. */
  ghost predicate Filling(b: seq<Buf>, c: seq<Buf>, q: seq<int>, n: int, bp0: int, bp: int, block: nat, dev: nat) {
    && Queued(c, q, 0, n, dev) && Awaiting(c, bp, dev) && c[bp].blocknr == block
    && (forall m :: 0 <= m < n ==> c[q[m]].blocknr < block)
    && (if n == 0 then bp == bp0 else q[0] == bp0 && |b| == |c| && b[bp].count == 0)
    && (forall m :: 0 < m < n ==> 0 <= q[m] < |b| && b[q[m]].count == 0)
    && KeptHeld(b, c) && (if n == 0 then c == b else Taken(b, c, q[1..n] + [bp]))
  }

  lemma KeptSelf(b: seq<Buf>, d: Disk, nr: int)
    ensures KeptHeld(b, b) && Taken(b, b, []) && KeepsViews(b, d, b, d, nr, Key(NO_DEV, 0))
  {
    hide View;
  }

  /** A list of distinct table indices is no longer than the table. */
  lemma {:induction false} DistinctBound(s: seq<int>, n: nat)
    requires Distinct(s) && forall k :: 0 <= k < |s| ==> 0 <= s[k] < n
    ensures |s| <= n
  {
    if s != [] {
      assert 0 <= s[0] < n;
      if k :| 0 <= k < |s| && s[k] == n - 1 {
        DistinctBound(Without(s, k), n - 1);
      } else {
        DistinctBound(s, n - 1);
      }
    }
  }

  lemma InUse(b: seq<Buf>, front: int, rear: int, lru: seq<int>, bp: int)
    requires IsLru(b, front, rear, lru) && Idle(b, lru, NIL) && 0 <= bp < |b| && b[bp].count > 0
    ensures |lru| < |b|
  {
    forall k | 0 <= k < |lru| ensures 0 <= lru[k] < |b| && lru[k] != bp {
      assert LinkedAt(b, lru, k) && lru[k] in lru;
    }
    DistinctBound(lru + [bp], |b|);
  }

  lemma FillStart(b: seq<Buf>, d: Disk, nr: int, bp: int, block: nat, dev: nat)
    requires Awaiting(b, bp, dev) && b[bp].blocknr == block
    ensures KeptHeld(b, b) && KeepsViews(b, d, b, d, nr, Key(NO_DEV, 0))
    ensures 0 <= bp < |b|
  {
    hide View;
  }

  lemma FillOne(b: seq<Buf>, c: seq<Buf>, q: seq<int>, n: int, bp0: int, bp: int, block: nat, dev: nat)
    requires Filling(b, c, q, n, bp0, bp, block, dev) && n < |q|
    ensures var p := q[n := bp];
      && Queued(c, p, 0, n + 1, dev) && p[0] == bp0 && KeptHeld(b, c) && Taken(b, c, p[1..n + 1])
      && (forall m :: 0 <= m < n + 1 ==> c[p[m]].blocknr <= block)
      && (forall m :: 0 < m < n + 1 ==> 0 <= p[m] < |b| && b[p[m]].count == 0)
  {
    hide Cached;
    if n > 0 { assert q[n := bp][1..n + 1] == q[1..n] + [bp]; }
    forall m | 0 <= m < n ensures q[m] != bp { assert c[q[m]].blocknr < c[bp].blocknr; }
  }

  lemma FillMore(b: seq<Buf>, c: seq<Buf>, e: seq<Buf>, p: seq<int>, n: int, bp0: int, bp: int, block: nat, dev: nat)
    requires n > 0 && Queued(c, p, 0, n, dev) && p[0] == bp0 && KeptHeld(b, c)
    requires forall m :: 0 <= m < n ==> c[p[m]].blocknr < block
    requires forall m :: 0 < m < n ==> 0 <= p[m] < |b| && b[p[m]].count == 0
    requires Taken(b, c, p[1..n]) && Taken(c, e, if bp == NIL then [] else [bp])
    requires StillAwaiting(c, e, dev, block) && KeptHeld(c, e)
    requires bp != NIL ==> Awaiting(e, bp, dev) && e[bp].blocknr == block && c[bp].count == 0
    ensures Queued(e, p, 0, n, dev) && KeptHeld(b, e)
    ensures bp == NIL ==> Taken(b, e, p[1..n])
    ensures bp != NIL ==> Filling(b, e, p, n, bp0, bp, block, dev)
  {
    hide Cached;
    forall m | 0 <= m < n
      ensures Awaiting(e, p[m], dev) && e[p[m]].blocknr == c[p[m]].blocknr
    {
      assert Awaiting(c, p[m], dev);
    }
  }

  lemma ViewsTrans(b: seq<Buf>, d: Disk, c: seq<Buf>, d1: Disk, e: seq<Buf>, d2: Disk, nr: int, nr1: int)
    requires KeepsViews(b, d, c, d1, nr, Key(NO_DEV, 0)) && KeepsViews(c, d1, e, d2, nr1, Key(NO_DEV, 0))
    requires nr1 == nr || nr1 == 0
    ensures KeepsViews(b, d, e, d2, nr, Key(NO_DEV, 0))
  {
    hide View;
  }

  /** Buffers in use keep their data, name and users. */
  ghost predicate KeptHeld(b: seq<Buf>, c: seq<Buf>) {
    && |b| == |c|
    && forall i :: 0 <= i < |b| && b[i].count > 0 ==>
         c[i].data == b[i].data && c[i].Name() == b[i].Name() && c[i].count == b[i].count
  }

  /** Whatever awaits a block other than this one still does. */
  ghost predicate StillAwaiting(b: seq<Buf>, c: seq<Buf>, dev: nat, block: nat) {
    && |b| == |c|
    && forall i :: 0 <= i < |b| && Awaiting(b, i, dev) && b[i].blocknr != block ==>
         Awaiting(c, i, dev) && c[i].blocknr == b[i].blocknr
  }

  lemma IdleExists(b: seq<Buf>, front: int, rear: int, lru: seq<int>)
    requires IsLru(b, front, rear, lru) && |lru| > 0
    ensures front != NIL
  {
    assert LinkedAt(b, lru, 0);
  }

  /** A prefetch that found no valid block leaves a buffer that awaits it. */
  lemma GotPrefetch(b: seq<Buf>, c: seq<Buf>, d: Disk, d1: Disk, nr: int, r: int, k: Key)
    requires k.dev != NO_DEV && Got(b, c, r, k.dev, k.block, PREFETCH) && Presents(b, d, nr, c, r, k, PREFETCH)
    requires if Cached(b, NIL, k) then Holds(b, r, k) && c[r].dev == k.dev else b[r].count == 0
    ensures 0 <= r < |c| == |b| && c[r].count > 0
    ensures c[r].dev == NO_DEV ==>
              && Awaiting(c, r, k.dev) && c[r].blocknr == k.block && b[r].count == 0
              && KeptHeld(b, c) && StillAwaiting(b, c, k.dev, k.block) && Taken(b, c, [r])
  {
    if c[r].dev == NO_DEV {
      forall i | 0 <= i < |b| && Awaiting(b, i, k.dev) && b[i].blocknr != k.block
        ensures Awaiting(c, i, k.dev) && c[i].blocknr == b[i].blocknr
      {
        StillUncached(b, c, r, k, i);
      }
    }
  }

  lemma StillUncached(b: seq<Buf>, c: seq<Buf>, r: int, k: Key, i: int)
    requires |b| == |c| && 0 <= r < |c| && Awaiting(b, i, k.dev) && b[i].blocknr != k.block && i != r
    requires forall m :: 0 <= m < |b| && m != r ==> c[m].Name() == b[m].Name() && c[m].count == b[m].count
    requires c[r].dev == NO_DEV || c[r].Name() == k
    ensures Awaiting(c, i, k.dev)
  {
    var j := Key(k.dev, b[i].blocknr);
    forall m | m != NIL
      ensures !Holds(c, m, j)
    {
      assert !Holds(b, m, j);
    }
  }

  /** A prefetch that found the block cached is undone by putting it back. */
  lemma GivenBack(b: seq<Buf>, c: seq<Buf>, e: seq<Buf>, d: Disk, d1: Disk, d2: Disk, nr: int, r: int, k: Key)
    requires k.dev != NO_DEV && Got(b, c, r, k.dev, k.block, PREFETCH) && Put(c, e, r) && c[r].dev != NO_DEV
    requires if Cached(b, NIL, k) then Holds(b, r, k) && c[r].data == b[r].data else b[r].count == 0
    requires KeepsViews(b, d, c, d1, nr, Key(NO_DEV, 0))
    requires forall j :: View(e, d2, j) == View(c, d1, j)
    ensures StillAwaiting(b, e, k.dev, k.block) && KeptHeld(b, e) && Taken(b, e, [])
    ensures KeepsViews(b, d, e, d2, nr, Key(NO_DEV, 0))
  {
    hide View;
    forall i | 0 <= i < |b| && Awaiting(b, i, k.dev) && b[i].blocknr != k.block
      ensures Awaiting(e, i, k.dev) && e[i].blocknr == b[i].blocknr
    {
      StillUncached(b, c, r, k, i);
      CachedSame(c, e, Key(k.dev, b[i].blocknr));
    }
  }

  lemma GotRead(b: seq<Buf>, c: seq<Buf>, d: Disk, nr: int, r: int, k: Key)
    requires k.dev != NO_DEV && Got(b, c, r, k.dev, k.block, PREFETCH) && Presents(b, d, nr, c, r, k, PREFETCH)
    ensures 0 <= r < |c| && (c[r].dev != NO_DEV && (b[r].count > 0 ==> Holds(b, r, k)) ==> ReadFor(b, c, r, k))
    ensures c[r].dev != NO_DEV && Stable(nr, k) ==> c[r].data == View(b, d, k)
  {
    hide View;
  }

  /** After the read, the buffers that were in use at the start are as they were, and so are all use counts. */
  lemma AheadDone(b: seq<Buf>, b1: seq<Buf>, b2: seq<Buf>, b3: seq<Buf>, q: seq<int>, n: nat, bp: int,
                  dev: nat, block: nat)
    requires Got(b, b1, bp, dev, block, PREFETCH) && KeptHeld(b, b1) && KeptHeld(b1, b2)
    requires 0 < n <= |q| && KeptOutside(b2, b3, q[..n]) && Queued(b2, q, 0, n, dev)
    requires q[0] == bp && 0 <= bp < |b| && b[bp].count == 0
    requires forall m :: 0 < m < n ==> 0 <= q[m] < |b1| && b1[q[m]].count == 0
    requires Taken(b1, b2, q[1..n]) && Given(b2, b3, q[..n])
    ensures KeptHeld(b, b3) && forall i :: 0 <= i < |b| ==> b3[i].count == b[i].count
  {
    assert q[..n] == [bp] + q[1..n];
    assert bp !in q[1..n];
    forall i | 0 <= i < |b| && b[i].count > 0
      ensures i !in q[..n]
    {
      assert forall m :: 0 < m < n ==> q[m] != i;
    }
  }

  lemma ViewsChain(b: seq<Buf>, d: Disk, b1: seq<Buf>, d1: Disk, b2: seq<Buf>, d2: Disk, b3: seq<Buf>, d3: Disk,
                   nr: int, nr1: int, nr2: int)
    requires KeepsViews(b, d, b1, d1, nr, Key(NO_DEV, 0)) && KeepsViews(b1, d1, b2, d2, nr1, Key(NO_DEV, 0))
    requires forall k: Key :: k.dev != NO_DEV ==> View(b3, d3, k) == View(b2, d2, k)
    requires (nr1 == nr || nr1 == 0) && (nr2 == nr1 || nr2 == 0)
    ensures KeepsViews(b, d, b3, d3, nr, Key(NO_DEV, 0))
  {
    hide View;
  }

  lemma AheadRead(b: seq<Buf>, d: Disk, b3: seq<Buf>, d3: Disk, c: seq<Buf>, d4: Disk, nr: int, nr2: int, r: int, k: Key)
    requires forall i :: 0 <= i < |b| == |b3| ==> b3[i].count == b[i].count
    requires k.dev != NO_DEV && KeptHeld(b, b3) && KeepsViews(b, d, b3, d3, nr, Key(NO_DEV, 0)) && (nr2 == nr || nr2 == 0)
    requires r == NIL ==> c == b3 && d4 == d3
    requires r != NIL ==> Got(b3, c, r, k.dev, k.block, NORMAL) && Presents(b3, d3, nr2, c, r, k, NORMAL)
    requires r != NIL ==> KeepsViews(b3, d3, c, d4, nr2, Key(NO_DEV, 0)) && (b3[r].count > 0 ==> Holds(b3, r, k))
    ensures KeepsViews(b, d, c, d4, nr, Key(NO_DEV, 0))
    ensures r == NIL ==> KeptHeld(b, c) && Taken(b, c, []) && (AllInUse(b3) ==> AllInUse(b))
    ensures r != NIL ==> ReadFor(b, c, r, k) && (Stable(nr, k) ==> c[r].data == View(b, d, k))
  {
    hide View;
  }

  lemma KeptAll(b: seq<Buf>, q: seq<int>, n: nat)
    requires n <= |q|
    ensures KeptOutside(b, b, q[..n]) && Given(b, b, q[..0])
  {
  }

  lemma KeptTrans(b: seq<Buf>, c: seq<Buf>, d: seq<Buf>, q: seq<int>, lo: int, mid: int, n: int)
    requires 0 <= lo <= mid <= n <= |q| && Distinct(q[..n])
    requires KeptOutside(b, c, q[..n]) && KeptOutside(c, d, q[..n])
    requires Given(b, c, q[..lo]) && Given(c, d, q[lo..mid])
    ensures KeptOutside(b, d, q[..n]) && Given(b, d, q[..mid])
  {
    assert q[..mid] == q[..lo] + q[lo..mid];
    forall i | i in q[..lo]
      ensures i !in q[lo..mid]
    {
      var m :| 0 <= m < lo && q[m] == i;
      forall a | lo <= a < mid ensures q[a] != i { assert q[..n][a] != q[..n][m]; }
    }
  }

  lemma KeptByBoth(b: seq<Buf>, c: seq<Buf>, d: seq<Buf>, q: seq<int>, lo: int, mid: int, hi: int)
    requires 0 <= lo <= mid <= hi <= |q| && KeptOutside(b, c, q[lo..mid]) && KeptOutside(c, d, q[..hi])
    requires SameButUnnamed(b, c) && Given(c, d, q[lo..mid])
    ensures KeptOutside(b, d, q[..hi]) && Given(b, d, q[lo..mid])
  {
    forall i | i in q[lo..mid] ensures i in q[..hi] {
      var m :| 0 <= m < mid - lo && q[lo..mid][m] == i;
      assert q[..hi][lo + m] == i;
    }
  }

  lemma KeptSameMembers(b: seq<Buf>, c: seq<Buf>, p: seq<int>, q: seq<int>, n: int)
    requires Rearranged(p, q, n) && KeptOutside(b, c, q[..n]) && Given(b, c, q[..n])
    ensures KeptOutside(b, c, p[..n]) && Given(b, c, p[..n])
  {
    SameMembers(p, q, n);
  }

  lemma {:induction false} OnceInDistinct(s: seq<int>, x: int)
    requires Distinct(s)
    ensures multiset(s)[x] <= 1
  {
    if s != [] {
      var n := |s| - 1;
      assert s == s[..n] + [s[n]];
      OnceInDistinct(s[..n], x);
      if s[n] == x { assert x !in s[..n]; assert x !in multiset(s[..n]); }
    }
  }

  lemma Repeated(s: seq<int>, i: int, j: int)
    requires 0 <= i < j < |s|
    ensures s[i] == s[j] ==> multiset(s)[s[i]] >= 2
  {
    assert s == s[..j] + s[j..] && s[..j][i] == s[i] && s[j..][0] == s[j];
    assert s[i] in multiset(s[..j]) && s[j] in multiset(s[j..]);
  }

  lemma RearrangedDistinct(p: seq<int>, q: seq<int>, n: int)
    requires Rearranged(p, q, n) && Distinct(p[..n])
    ensures Distinct(q[..n])
  {
    var s := q[..n];
    forall i, j | 0 <= i < j < n
      ensures s[i] != s[j]
    {
      OnceInDistinct(p[..n], s[i]);
      Repeated(s, i, j);
    }
  }

  lemma QueuedIsQueue(b: seq<Buf>, q: seq<int>, n: int, dev: nat)
    requires Queued(b, q, 0, n, dev)
    ensures Queue(b, q, n) && n <= |q|
  {
    forall i | 0 <= i < n ensures 0 <= q[i] < |b| { assert Awaiting(b, q[i], dev); }
  }

  lemma QueuedRearranged(b: seq<Buf>, p: seq<int>, q: seq<int>, n: int, dev: nat)
    requires Queued(b, p, 0, n, dev) && Rearranged(p, q, n)
    ensures Queued(b, q, 0, n, dev) && Distinct(q[..n])
  {
    assert Distinct(p[..n]);
    RearrangedDistinct(p, q, n);
    SameMembers(p, q, n);
    forall i | 0 <= i < n
      ensures Awaiting(b, q[i], dev) && exists a :: 0 <= a < n && p[a] == q[i]
    {
      assert q[..n][i] in q[..n];
      assert q[i] in p[..n];
      var a :| 0 <= a < n && p[..n][a] == q[i];
      assert p[a] == q[i] && Awaiting(b, p[a], dev);
    }
    forall i, j | 0 <= i < j < n
      ensures q[i] != q[j] && b[q[i]].blocknr != b[q[j]].blocknr
    {
      assert q[..n][i] != q[..n][j];
      var a :| 0 <= a < n && p[a] == q[i];
      var c :| 0 <= c < n && p[c] == q[j];
    }
  }

  /** Buffers outside the queue keep their data, name and users. */
  ghost predicate KeptOutside(b: seq<Buf>, c: seq<Buf>, q: seq<int>) {
    && |b| == |c|
    && forall i :: 0 <= i < |b| && i !in q ==>
         c[i].data == b[i].data && c[i].Name() == b[i].Name() && c[i].count == b[i].count
  }

  lemma QueuedFirst(b: seq<Buf>, q: seq<int>, base: int, lo: int, hi: int, dev: nat)
    requires Queued(b, q, lo, hi, dev) && 0 <= base <= lo < hi && Distinct(q[..hi])
    ensures Awaiting(b, q[lo], dev) && q[lo] !in q[base..lo]
  {
    forall m | base <= m < lo ensures q[m] != q[lo] { assert q[..hi][m] != q[..hi][lo]; }
  }

  lemma HarvestedRest(b: seq<Buf>, c: seq<Buf>, q: seq<int>, lo: int, hi: int, dev: nat)
    requires Queued(b, q, lo, hi, dev) && lo < hi && Harvested(b, c, q[lo], dev)
    ensures Queued(c, q, lo + 1, hi, dev)
  {
    forall i | lo < i < hi
      ensures Awaiting(c, q[i], dev)
    {
      assert Awaiting(b, q[i], dev) && Awaiting(b, q[lo], dev);
      var k := Key(dev, b[q[i]].blocknr);
      forall m | m != NIL
        ensures !Holds(c, m, k)
      {
        assert !Holds(b, m, k);
      }
    }
  }

  lemma HarvestedArrived(b: seq<Buf>, c: seq<Buf>, q: seq<int>, lo: int, m: int, hi: int, dev: nat, disk: Disk)
    requires Queued(b, q, lo, hi, dev) && lo < m < hi && Harvested(b, c, q[lo], dev)
    requires Arrived(b, disk, q[m], dev)
    ensures Arrived(c, disk, q[m], dev)
  {
  }

  lemma HarvestedKept(b: seq<Buf>, c: seq<Buf>, d: seq<Buf>, q: seq<int>, base: int, lo: int, hi: int, dev: nat)
    requires 0 <= base <= lo < hi <= |q| && KeptOutside(b, c, q[..hi]) && Harvested(c, d, q[lo], dev)
    requires Given(b, c, q[base..lo]) && q[lo] !in q[base..lo]
    ensures KeptOutside(b, d, q[..hi]) && Given(b, d, q[base..lo + 1])
  {
    assert q[..hi][lo] == q[lo];
    assert q[base..lo + 1] == q[base..lo] + [q[lo]];
  }

  /** The buffers listed in q have one user less. */
  ghost predicate Given(b: seq<Buf>, c: seq<Buf>, q: seq<int>) {
    |b| == |c| && forall i :: 0 <= i < |b| ==> c[i].count as int == b[i].count - if i in q then 1 else 0
  }

  /** The buffers listed in q have one user more. */
  ghost predicate Taken(b: seq<Buf>, c: seq<Buf>, q: seq<int>) {
    |b| == |c| && forall i :: 0 <= i < |b| ==> c[i].count == b[i].count + if i in q then 1 else 0
  }

  lemma QueuedSplit(b: seq<Buf>, q: seq<int>, lo: int, hi: int, dev: nat)
    requires Queued(b, q, lo, hi, dev)
    ensures hi <= |q| && forall m :: lo <= m <= hi ==> Queued(b, q, lo, m, dev)
    ensures forall i :: lo <= i < hi ==> 0 <= q[i] < |b|
  {
  }

  lemma UnnamedViews(b: seq<Buf>, c: seq<Buf>, disk: Disk)
    requires Unique(b) && SameButUnnamed(b, c)
    ensures forall k: Key :: k.dev != NO_DEV ==> View(c, disk, k) == View(b, disk, k)
  {
    forall i, k ensures Holds(b, i, k) == Holds(c, i, k) {}
    forall k: Key | k.dev != NO_DEV
      ensures View(c, disk, k) == View(b, disk, k)
    {
      CachedSame(b, c, k);
      if Cached(b, NIL, k) {
        var i :| i != NIL && Holds(b, i, k);
        ViewHeld(b, disk, k, i);
        ViewHeld(c, disk, k, i);
      }
    }
  }

  lemma UnnamedQueue(b: seq<Buf>, c: seq<Buf>, q: seq<int>, lo: int, hi: int, dev: nat)
    requires Queued(b, q, lo, hi, dev) && SameButUnnamed(b, c)
    ensures Queued(c, q, lo, hi, dev)
  {
    forall i | lo <= i < hi
      ensures Awaiting(c, q[i], dev)
    {
      assert Awaiting(b, q[i], dev);
      CachedSame(b, c, Key(dev, b[q[i]].blocknr));
    }
  }

  /** Buffer i is in use, bears no device, and block (dev, blocknr) is not cached. */
  ghost predicate Awaiting(b: seq<Buf>, i: int, dev: nat) {
    && 0 <= i < |b| && dev != NO_DEV && b[i].dev == NO_DEV && b[i].count > 0
    && !Cached(b, NIL, Key(dev, b[i].blocknr))
  }

  /** Entries lo..hi of the queue await different blocks of dev. */
  ghost predicate Queued(b: seq<Buf>, q: seq<int>, lo: int, hi: int, dev: nat) {
    && 0 <= lo <= hi <= |q|
    && (forall i :: lo <= i < hi ==> Awaiting(b, q[i], dev))
    && forall i, j :: lo <= i < j < hi ==> q[i] != q[j] && b[q[i]].blocknr != b[q[j]].blocknr
  }

  lemma QueueStays(b: seq<Buf>, c: seq<Buf>, q: seq<int>, n: int)
    requires Queue(b, q, n) && |c| == |b|
    ensures Queue(c, q, n)
  {
  }

  /** The data of block (dev, blocknr) has been read into buffer i. */
  ghost predicate Arrived(b: seq<Buf>, disk: Disk, i: int, dev: nat) {
    0 <= i < |b| && b[i].data == Rd(disk, Key(dev, b[i].blocknr))
  }

  /** Only data of buffers without a device differs. */
  ghost predicate SameButUnnamed(b: seq<Buf>, c: seq<Buf>) {
    && |b| == |c|
    && forall i :: 0 <= i < |b| ==> c[i] == b[i].(data := c[i].data) && (b[i].dev != NO_DEV ==> c[i].data == b[i].data)
  }

  /** Buffer x has been given back, perhaps valid for its block of dev. */
  ghost predicate Harvested(b: seq<Buf>, c: seq<Buf>, x: int, dev: nat) {
    && |b| == |c| && 0 <= x < |b|
    && (forall i :: 0 <= i < |b| && i != x ==>
         c[i].data == b[i].data && c[i].Name() == b[i].Name() && c[i].count == b[i].count)
    && c[x].blocknr == b[x].blocknr && c[x].count == b[x].count - 1 && (c[x].dev == NO_DEV || c[x].dev == dev)
  }

  lemma UnnamedOne(b: seq<Buf>, c: seq<Buf>, d: seq<Buf>, disk: Disk, q: seq<int>, x: int, dev: nat)
    requires SameButUnnamed(b, c) && KeptOutside(b, c, q) && x in q && 0 <= x < |c| && c[x].dev == NO_DEV
    requires d == c[x := c[x].(data := Rd(disk, Key(dev, c[x].blocknr)))]
    ensures SameButUnnamed(b, d) && KeptOutside(b, d, q)
  {
  }

  lemma ArrivedFrame(b: seq<Buf>, c: seq<Buf>, disk: Disk, i: int, x: int, dev: nat)
    requires Arrived(b, disk, i, dev) && |b| == |c| && 0 <= x < |b|
    requires c == b[x := b[x].(data := Rd(disk, Key(dev, b[x].blocknr)))]
    ensures Arrived(c, disk, i, dev)
  {
  }

  lemma UnnamedData(b: seq<Buf>, c: seq<Buf>, disk: Disk, x: int, dev: nat, t: seq<Buf2>, nr: int, idx: int)
    requires 0 <= x < |b| == |c| && b[x].dev == NO_DEV && c == b[x := b[x].(data := Rd(disk, Key(dev, b[x].blocknr)))]
    requires Unique(b) && Clean(b, disk, NIL) && RamOut(b, nr, NIL) && Agrees(b, NIL, t, nr, idx, disk)
    ensures Unique(c) && Clean(c, disk, NIL) && RamOut(c, nr, NIL) && Agrees(c, NIL, t, nr, idx, disk)
    ensures Arrived(c, disk, x, dev)
  {
    hide Agrees, Rd, View;
    forall i, k ensures Holds(b, i, k) == Holds(c, i, k) {}
    forall i | 0 <= i < |c| ensures CleanAt(c, disk, i) { assert CleanAt(b, disk, i); }
    forall k ensures Cached(c, NIL, k) == Cached(b, NIL, k) { CachedSame(b, c, k); }
    AgreesFrame(b, NIL, c, NIL, t, nr, idx, disk, disk);
  }

  lemma CachedSame(b: seq<Buf>, c: seq<Buf>, k: Key)
    requires |b| == |c| && forall i :: 0 <= i < |b| ==> c[i].Name() == b[i].Name()
    ensures Cached(c, NIL, k) == Cached(b, NIL, k)
  {
    if Cached(b, NIL, k) { var i :| i != NIL && Holds(b, i, k); assert Holds(c, i, k); }
    if Cached(c, NIL, k) { var i :| i != NIL && Holds(c, i, k); assert Holds(b, i, k); }
  }

  lemma Validated(b: seq<Buf>, c: seq<Buf>, disk: Disk, x: int, dev: nat, t: seq<Buf2>, nr: int, idx: int)
    requires Awaiting(b, x, dev) && Arrived(b, disk, x, dev) && c == b[x := b[x].(dev := dev)]
    requires dev == DEV_RAM ==> nr == 0
    requires Unique(b) && Clean(b, disk, NIL) && RamOut(b, nr, NIL) && Agrees(b, NIL, t, nr, idx, disk)
    ensures Unique(c) && Clean(c, disk, NIL) && RamOut(c, nr, NIL) && Agrees(c, NIL, t, nr, idx, disk)
    ensures forall k: Key :: k.dev != NO_DEV ==> View(c, disk, k) == View(b, disk, k)
  {
    hide Agrees, Rd, View;
    Reuse(b, c, disk, x, Key(dev, b[x].blocknr));
    CleanAll(c, disk, x);
    UnnamedAgrees(b, x, t, nr, idx, disk);
    ReuseAgrees(b, c, x, t, nr, idx, disk);
  }
}
