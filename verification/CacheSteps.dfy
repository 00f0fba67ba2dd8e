/** Effects of the single steps of the cache on the table, the lists, the two levels and the disk. */
module CacheSteps {
  import opened Basics
  import opened BlockTypes
  import opened LruList
  import opened HashChains
  import opened ScatteredSort
  import opened Coherence
  import opened SecondLevel

  /** Only hash links differ. */
  ghost predicate SameButHash(b: seq<Buf>, c: seq<Buf>) {
    |b| == |c| && forall i :: 0 <= i < |b| ==> c[i] == b[i].(hash := c[i].hash)
  }

  /** The names of the queued buffers, in queue order. */
  ghost function Names(b: seq<Buf>, q: seq<int>): seq<Key>
    requires forall i :: 0 <= i < |q| ==> 0 <= q[i] < |b|
  {
    seq(|q|, i requires 0 <= i < |q| => b[q[i]].Name())
  }

  /** b with the dirty bits of the buffers listed in q cleared. */
  ghost predicate Cleaned(b: seq<Buf>, c: seq<Buf>, q: seq<int>) {
    |b| == |c| && forall i :: 0 <= i < |b| ==> c[i] == b[i].(dirty := b[i].dirty && i !in q)
  }

  ghost predicate PoolSlot(b: Buf, next: int, prev: int, hash: int) {
    b == Buf([], next, prev, hash, NO_BLOCK, NO_DEV, false, 0)
  }

  lemma PoolLists(b: seq<Buf>, n: int, heads: seq<int>, chains: seq<seq<int>>, lru: seq<int>)
    requires |b| == n > 0 && |lru| == n && |heads| == |chains| > 0
    requires forall i :: 0 <= i < n ==> lru[i] == i && PoolSlot(b[i], At(lru, i + 1), At(lru, i - 1), At(lru, i + 1))
    requires forall h :: 0 <= h < |chains| ==>
               chains[h] == (if h == 0 then lru else []) && heads[h] == if h == 0 then 0 else NIL
    ensures IsLru(b, 0, n - 1, lru) && Idle(b, lru, NIL) && HashOk(b, heads, chains, NIL)
  {
    forall k | 0 <= k < n ensures LinkedAt(b, lru, k) && ChainedAt(b, lru, k) {}
    assert forall i :: i in lru ==> 0 <= i < n;
    assert forall i :: 0 <= i < n ==> i == lru[i];
    forall h | 0 <= h < |chains| ensures IsChain(b, heads[h], chains[h]) {
      if h == 0 { assert chains[h] == lru; }
    }
    forall i, h | 0 <= h < |chains| ensures OnChain(b, chains, NIL, i, h) {
      if 0 <= i < n { assert Slot(b[i].blocknr, |chains|) == 0; }
    }
  }

  /** While no buffer has a name and there is no second level, the cache shows the disk. */
  lemma Nameless(b: seq<Buf>, t: seq<Buf2>, disk: Disk)
    requires forall i :: 0 <= i < |b| ==> b[i].dev == NO_DEV
    requires forall i :: 0 <= i < |t| ==> t[i] == Buf2(0, NO_DEV, 0)
    ensures Unique(b) && Clean(b, disk, NIL) && Counted(t, 0, 0) && RamOut(b, 0, NIL) && Agrees(b, NIL, t, 0, 0, disk)
    ensures forall k: Key :: View(b, disk, k) == Rd(disk, k)
  {
  }

  /** Entry q is entry p, emptied if it belonged to the device. */
  ghost predicate Dropped(p: Buf2, q: Buf2, device: nat) {
    q.blocknr == p.blocknr && q.dev == if p.dev == device then NO_DEV else p.dev
  }

  lemma InvalidateKeeps(b: seq<Buf>, c: seq<Buf>, disk: Disk, device: nat,
                        t: seq<Buf2>, u: seq<Buf2>, nr: int, idx: int)
    requires |b| == |c| && device != NO_DEV && |t| == |u|
    requires forall i :: 0 <= i < |b| ==> c[i] == if b[i].dev == device then b[i].(dev := NO_DEV) else b[i]
    requires Counted(u, nr, idx) && forall s :: 0 <= s < nr ==> Dropped(t[s], u[s], device)
    requires Unique(b) && Clean(b, disk, NIL) && RamOut(b, nr, NIL) && Agrees(b, NIL, t, nr, idx, disk)
    ensures Unique(c) && Clean(c, disk, NIL) && RamOut(c, nr, NIL) && Agrees(c, NIL, u, nr, idx, disk)
    ensures forall k: Key :: k.dev != NO_DEV ==>
              View(c, disk, k) == if k.dev == device then Rd(disk, k) else View(b, disk, k)
  {
    forall i, k: Key ensures Holds(c, i, k) <==> Holds(b, i, k) && k.dev != device {}
    forall i | 0 <= i < |c| ensures CleanAt(c, disk, i) { assert CleanAt(b, disk, i); }
    forall k: Key ensures k.dev != NO_DEV ==> Cached(c, NIL, k) == (k.dev != device && Cached(b, NIL, k))
    {
      if k.dev != device && Cached(b, NIL, k) { var i :| i != NIL && Holds(b, i, k); assert Holds(c, i, k); }
    }
    forall k: Key | k.dev != NO_DEV
      ensures View(c, disk, k) == if k.dev == device then Rd(disk, k) else View(b, disk, k)
    {
      if k.dev != device && Cached(b, NIL, k) {
        var i :| i != NIL && Holds(b, i, k);
        ViewHeld(b, disk, k, i);
        ViewHeld(c, disk, k, i);
      }
    }
    if nr > 0 {
      forall k: Key | k.dev != NO_DEV && k.dev != DEV_RAM && !Cached(c, NIL, k)
        ensures AgreesAt(u, nr, idx, disk, k)
      {
        NewestDropped(t, u, nr, idx, device, k, 0);
        assert k.dev != device ==> AgreesAt(t, nr, idx, disk, k);
      }
    }
  }

  lemma StoreKeeps(b: seq<Buf>, c: seq<Buf>, disk: Disk, x: int, data: Block, t: seq<Buf2>, nr: int, idx: int)
    requires 0 <= x < |b| && c == b[x := b[x].(data := data, dirty := true)]
    requires Unique(b) && Clean(b, disk, x) && RamOut(b, nr, NIL) && Agrees(b, NIL, t, nr, idx, disk)
    ensures Unique(c) && Clean(c, disk, NIL) && RamOut(c, nr, NIL) && Agrees(c, NIL, t, nr, idx, disk)
    ensures forall k :: View(c, disk, k) == if Holds(c, x, k) then data else View(b, disk, k)
  {
    hide Agrees;
    forall i, k ensures Holds(b, i, k) == Holds(c, i, k) {}
    forall k ensures Cached(c, NIL, k) == Cached(b, NIL, k) {
      if Cached(b, NIL, k) { var i :| i != NIL && Holds(b, i, k); assert Holds(c, i, k); }
    }
    forall i | 0 <= i < |c| ensures CleanAt(c, disk, i) { if i != x { assert CleanAt(b, disk, i); } }
    forall k ensures View(c, disk, k) == if Holds(c, x, k) then data else View(b, disk, k)
    {
      if Cached(b, NIL, k) {
        var i :| i != NIL && Holds(b, i, k);
        ViewHeld(b, disk, k, i);
        ViewHeld(c, disk, k, i);
      } else if Holds(c, x, k) {
        HeldIsCached(c, x, k);
      }
    }
    AgreesFrame(b, NIL, c, NIL, t, nr, idx, disk, disk);
  }

  lemma AllClean(b: seq<Buf>, disk: Disk)
    requires Clean(b, disk, NIL)
    requires forall i :: 0 <= i < |b| && b[i].dev != NO_DEV ==> !b[i].dirty
    ensures forall k :: Rd(disk, k) == View(b, disk, k)
  {
    forall k ensures Rd(disk, k) == View(b, disk, k)
    {
      if Cached(b, NIL, k) {
        var i :| i != NIL && Holds(b, i, k) && View(b, disk, k) == b[i].data;
        assert CleanAt(b, disk, i);
      }
    }
  }

  lemma EmptySecondLevel(b: seq<Buf>, t: seq<Buf2>, nr: int, disk: Disk)
    requires 0 <= nr <= |t| && |t| > 0 && forall i :: 0 <= i < |t| ==> t[i] == Buf2(0, NO_DEV, 0)
    ensures Counted(t, nr, 0) && Agrees(b, NIL, t, nr, 0, disk)
  {
    forall h | 0 <= h < |t| ensures CountAt(t, nr, h) { LiveNone(t, nr, h); }
  }

  lemma {:induction false} LiveNone(t: seq<Buf2>, n: int, h: int)
    requires 0 <= n <= |t| && |t| > 0 && forall i :: 0 <= i < |t| ==> t[i] == Buf2(0, NO_DEV, 0)
    ensures Live(t, n, h) == 0
  {
    if n > 0 { LiveNone(t, n - 1, h); }
  }

  /** Buffer x has one user less; LRU links may differ. */
  ghost predicate Released(b: seq<Buf>, c: seq<Buf>, x: int) {
    && |b| == |c|
    && forall i :: 0 <= i < |b| ==>
         c[i] == b[i].(next := c[i].next, prev := c[i].prev, count := if i == x then c[i].count else b[i].count)
         && (i == x ==> c[i].count == b[i].count - 1)
  }

  /** Buffer x has one user less; it may have been written out. */
  ghost predicate Put(b: seq<Buf>, c: seq<Buf>, x: int) {
    && |b| == |c|
    && forall i :: 0 <= i < |b| ==>
         && c[i].data == b[i].data && c[i].Name() == b[i].Name() && (c[i].dirty ==> b[i].dirty)
         && c[i].count == if i == x then b[i].count - 1 else b[i].count
  }

  lemma RearIsBuffer(b: seq<Buf>, front: int, rear: int, lru: seq<int>)
    requires IsLru(b, front, rear, lru)
    ensures if lru == [] then front == rear == NIL else 0 <= rear < |b| && rear in lru
  {
    if lru != [] { assert LinkedAt(b, lru, |lru| - 1); }
  }

  lemma PutContents(b: seq<Buf>, c: seq<Buf>, disk: Disk, t: seq<Buf2>, nr: int, idx: int)
    requires |b| == |c|
    requires forall i :: 0 <= i < |b| ==> c[i] == b[i].(next := c[i].next, prev := c[i].prev, count := c[i].count)
    requires Unique(b) && Clean(b, disk, NIL) && RamOut(b, nr, NIL) && Agrees(b, NIL, t, nr, idx, disk)
    ensures Unique(c) && Clean(c, disk, NIL) && RamOut(c, nr, NIL) && Agrees(c, NIL, t, nr, idx, disk)
    ensures forall k :: View(c, disk, k) == View(b, disk, k)
  {
    hide Agrees, Rd, View;
    assert SameCore(b, c, NIL);
    ViewFrame(b, c, disk);
    forall i | 0 <= i < |c| ensures CleanAt(c, disk, i) { assert CleanAt(b, disk, i); }
    forall j ensures Cached(c, NIL, j) == Cached(b, NIL, j) { SameCached(b, c, NIL, j); }
    AgreesFrame(b, NIL, c, NIL, t, nr, idx, disk, disk);
  }

  /** Writing a valid buffer to its block changes no contents anyone sees. */
  lemma WriteKeeps(b: seq<Buf>, c: seq<Buf>, disk: Disk, after: Disk, x: int, t: seq<Buf2>, nr: int, idx: int)
    requires 0 <= x < |b| && b[x].dev != NO_DEV && c == b[x := b[x].(dirty := false)]
    requires after == disk[b[x].Name() := b[x].data]
    requires Unique(b) && Clean(b, disk, NIL) && RamOut(b, nr, NIL) && Agrees(b, NIL, t, nr, idx, disk) && Counted(t, nr, idx)
    ensures Unique(c) && Clean(c, after, NIL) && RamOut(c, nr, NIL) && Agrees(c, NIL, t, nr, idx, after)
    ensures forall k :: View(c, after, k) == View(b, disk, k)
  {
    hide Agrees, Counted;
    forall i, k ensures Holds(b, i, k) == Holds(c, i, k) {}
    forall k ensures Cached(c, NIL, k) == Cached(b, NIL, k) {
      if Cached(b, NIL, k) { var i :| i != NIL && Holds(b, i, k); assert Holds(c, i, k); }
    }
    assert Holds(b, x, b[x].Name());
    HeldIsCached(b, x, b[x].Name());
    forall i | 0 <= i < |c|
      ensures CleanAt(c, after, i)
    {
      assert CleanAt(b, disk, i);
      assert b[i].dev != NO_DEV ==> Holds(b, i, b[i].Name());
    }
    forall k ensures View(c, after, k) == View(b, disk, k)
    {
      if Cached(b, NIL, k) {
        var i :| i != NIL && Holds(b, i, k);
        ViewHeld(b, disk, k, i);
        ViewHeld(c, after, k, i);
      }
    }
    if nr > 0 { AgreesFrame(b, NIL, c, NIL, t, nr, idx, disk, after); }
    else { NegativeAgrees(c, t, nr, idx, after); }
  }

  lemma NegativeAgrees(b: seq<Buf>, t: seq<Buf2>, nr: int, idx: int, disk: Disk)
    requires nr <= 0
    ensures Agrees(b, NIL, t, nr, idx, disk)
  {
  }

  lemma HeldIsCached(b: seq<Buf>, i: int, k: Key)
    requires Holds(b, i, k)
    ensures Cached(b, NIL, k)
  {
    assert i != NIL;
  }

  lemma FrontIsBuffer(b: seq<Buf>, front: int, rear: int, lru: seq<int>)
    requires IsLru(b, front, rear, lru) && Idle(b, lru, NIL)
    ensures front != NIL ==> 0 <= front < |b|
    ensures front == NIL ==> AllInUse(b)
  {
    if lru != [] { assert LinkedAt(b, lru, 0); }
  }

  ghost predicate AllInUse(b: seq<Buf>) {
    forall i :: 0 <= i < |b| ==> b[i].count > 0
  }

  /** The state after a hit. */
  lemma ClaimDone(b: seq<Buf>, c: seq<Buf>, disk: Disk, x: int, k: Key, only_search: Mode,
                  t: seq<Buf2>, nr: int, idx: int)
    requires Holds(b, x, k) && SameButLru(b[x := b[x].(count := b[x].count + 1)], c)
    requires Unique(b) && Clean(b, disk, NIL) && RamOut(b, nr, NIL) && Agrees(b, NIL, t, nr, idx, disk)
    ensures Got(b, c, x, k.dev, k.block, only_search)
    ensures 0 <= x < |c| && c[x].dev == k.dev != NO_DEV && c[x].data == b[x].data
    ensures Unique(c) && Clean(c, disk, NIL) && Clean(c, disk, x) && RamOut(c, nr, NIL) && Agrees(c, NIL, t, nr, idx, disk)
    ensures KeepsViews(b, disk, c, disk, nr, Unsettled(k.dev, k.block, only_search))
    ensures Presents(b, disk, nr, c, x, k, only_search)
  {
    hide Agrees, Rd, View;
    assert SameCore(b, c, NIL);
    ViewFrame(b, c, disk);
    ViewHeld(b, disk, k, x);
    forall i | 0 <= i < |c| ensures CleanAt(c, disk, i) { assert CleanAt(b, disk, i); }
    forall j ensures Cached(c, NIL, j) == Cached(b, NIL, j) { SameCached(b, c, NIL, j); }
    AgreesFrame(b, NIL, c, NIL, t, nr, idx, disk, disk);
  }

  /** What every get_block call does to the table: buffer r, named (dev, block), has one user more. */
  ghost predicate Got(b: seq<Buf>, c: seq<Buf>, r: int, dev: nat, block: nat, only_search: Mode) {
    && |b| == |c| && 0 <= r < |c|
    && (forall i :: 0 <= i < |b| && i != r ==>
         c[i].data == b[i].data && c[i].Name() == b[i].Name() && c[i].count == b[i].count && (c[i].dirty ==> b[i].dirty))
    && c[r].count == b[r].count + 1 && c[r].blocknr == block
    && (c[r].dev == dev || (only_search == PREFETCH && c[r].dev == NO_DEV))
  }

  /** The RAM disk belongs to the second level while that is enabled; any other block has settled contents. */
  ghost predicate Stable(nr: int, k: Key) {
    k.dev != NO_DEV && (k.dev != DEV_RAM || nr == 0)
  }

  /** The block whose contents the caller of get_block has taken upon itself to write. */
  ghost function Unsettled(dev: nat, block: nat, only_search: Mode): Key {
    if only_search == NO_READ then Key(dev, block) else Key(NO_DEV, 0)
  }

  /** All settled blocks but one present the same contents as before. */
  ghost predicate KeepsViews(b: seq<Buf>, disk: Disk, c: seq<Buf>, after: Disk, nr: int, but: Key) {
    forall k :: Stable(nr, k) && k != but ==> View(c, after, k) == View(b, disk, k)
  }

  /** Buffer r has the contents block k had; a prefetch may leave r without a device, if k is not cached. */
  ghost predicate Presents(b: seq<Buf>, disk: Disk, nr: int, c: seq<Buf>, r: int, k: Key, only_search: Mode) {
    && 0 <= r < |c|
    && (c[r].dev != NO_DEV && only_search != NO_READ && Stable(nr, k) ==> c[r].data == View(b, disk, k))
    && (c[r].dev == NO_DEV && k.dev != NO_DEV ==> !Cached(c, NIL, k))
  }

  /** Names, data and use counts are kept; dirty bits may have been cleared. */
  ghost predicate SameNames(b: seq<Buf>, c: seq<Buf>) {
    && |b| == |c|
    && forall i :: 0 <= i < |b| ==>
         c[i].data == b[i].data && c[i].Name() == b[i].Name() && c[i].count == b[i].count && (c[i].dirty ==> b[i].dirty)
  }

  lemma LinksContents(b: seq<Buf>, c: seq<Buf>, disk: Disk, t: seq<Buf2>, nr: int, idx: int)
    requires SameButLinks(b, c) && Unique(b) && Clean(b, disk, NIL) && RamOut(b, nr, NIL) && Agrees(b, NIL, t, nr, idx, disk)
    ensures Unique(c) && Clean(c, disk, NIL) && RamOut(c, nr, NIL) && Agrees(c, NIL, t, nr, idx, disk)
    ensures forall k :: View(c, disk, k) == View(b, disk, k)
  {
    hide Agrees, Rd;
    ViewFrame(b, c, disk);
    forall i | 0 <= i < |c| ensures CleanAt(c, disk, i) { assert CleanAt(b, disk, i); }
    forall k ensures Cached(c, NIL, k) == Cached(b, NIL, k) { SameCached(b, c, NIL, k); }
    AgreesFrame(b, NIL, c, NIL, t, nr, idx, disk, disk);
  }

  /** The lists do not depend on dirty bits, data or device numbers. */
  lemma ListsFrame(b: seq<Buf>, c: seq<Buf>, front: int, rear: int, lru: seq<int>,
                   heads: seq<int>, chains: seq<seq<int>>, x: int, y: int)
    requires IsLru(b, front, rear, lru) && Idle(b, lru, x) && HashOk(b, heads, chains, y) && |b| == |c|
    requires forall i :: 0 <= i < |b| ==>
               c[i] == b[i].(data := c[i].data, dev := c[i].dev, dirty := c[i].dirty)
    ensures IsLru(c, front, rear, lru) && Idle(c, lru, x) && HashOk(c, heads, chains, y)
  {
    hide HashOk, IsLru;
    LruFrame(b, c, front, rear, lru);
    HashFrame(b, c, heads, chains, y);
  }

  lemma DirtyKeepsStructure(b: seq<Buf>, c: seq<Buf>, front: int, rear: int, lru: seq<int>,
                            heads: seq<int>, chains: seq<seq<int>>, x: int)
    requires IsLru(b, front, rear, lru) && Idle(b, lru, x) && HashOk(b, heads, chains, x) && SameButDirty(b, c)
    ensures IsLru(c, front, rear, lru) && Idle(c, lru, x) && HashOk(c, heads, chains, x)
  {
    hide HashOk, IsLru, Idle;
    ListsFrame(b, c, front, rear, lru, heads, chains, x, x);
  }

  lemma NamesKept(b: seq<Buf>, c: seq<Buf>, d: seq<Buf>, x: int)
    requires SameButLinks(b, c) && SameButDirty(c, d) && 0 <= x < |c| && c[x].count == 0
    ensures SameNames(b, d) && d[x].count == 0
  {
  }

  lemma InstallKeeps(b0: seq<Buf>, b: seq<Buf>, c: seq<Buf>, x: int, k: Key, front: int, rear: int, lru: seq<int>,
                     t: seq<Buf2>, nr: int, idx: int, disk: Disk)
    requires SameNames(b0, b) && IsLru(b, front, rear, lru) && Idle(b, lru, x) && Agrees(b, x, t, nr, idx, disk)
    requires 0 <= x < |b| == |c| && b[x].count == 0
    requires c == b[x := b[x].(dev := k.dev, blocknr := k.block, count := b[x].count + 1, hash := c[x].hash)]
    requires k.dev != NO_DEV ==> !Cached(b0, NIL, k)
    ensures IsLru(c, front, rear, lru) && Idle(c, lru, NIL) && Agrees(c, x, t, nr, idx, disk)
    ensures k.dev != NO_DEV ==> !Cached(c, x, k)
  {
    hide Agrees, Rd;
    LruFrame(b, c, front, rear, lru);
    forall j ensures Cached(c, x, j) == Cached(b, x, j) { SameCached(b, c, x, j); }
    AgreesFrame(b, x, c, x, t, nr, idx, disk, disk);
    UncachedKept(b0, b, k);
    CachedOthers(b, x, k);
  }

  lemma LoadKeeps(b: seq<Buf>, c: seq<Buf>, front: int, rear: int, lru: seq<int>,
                  heads: seq<int>, chains: seq<seq<int>>, x: int)
    requires IsLru(b, front, rear, lru) && Idle(b, lru, NIL) && HashOk(b, heads, chains, NIL) && 0 <= x < |b|
    requires |b| == |c| && c == b[x := b[x].(data := c[x].data, dev := c[x].dev, dirty := c[x].dirty)]
    ensures IsLru(c, front, rear, lru) && Idle(c, lru, NIL) && HashOk(c, heads, chains, NIL)
  {
    hide HashOk, IsLru, Idle;
    ListsFrame(b, c, front, rear, lru, heads, chains, NIL, NIL);
  }

  /** The state after a replacement, from the state b of the table after the eviction. */
  lemma ReplaceDone(b0: seq<Buf>, d0: Disk, b: seq<Buf>, c: seq<Buf>, disk: Disk, x: int, k: Key, only_search: Mode,
                    t: seq<Buf2>, nr: int, after: int, idx: int)
    requires SameNames(b0, b) && 0 <= x < |b| == |c| && b[x].count == 0
    requires Unique(b) && Clean(b, disk, NIL) && Expendable(b, disk, x)
    requires RamOut(b, nr, NIL) && Agrees(b, x, t, nr, idx, disk) && Counted(t, nr, idx)
    requires forall j: Key :: j.dev != DEV_RAM || nr == 0 ==> View(b, disk, j) == View(b0, d0, j)
    requires k.dev != NO_DEV ==> !Cached(b0, NIL, k)
    requires c == b[x := b[x].(dev := c[x].dev, blocknr := k.block, count := 1, hash := c[x].hash, data := c[x].data,
                               dirty := c[x].dirty)]
    requires c[x].dev == k.dev || (only_search == PREFETCH && c[x].dev == NO_DEV)
    requires c[x].dev != NO_DEV && only_search != NO_READ ==> c[x].data == Rd(disk, c[x].Name())
    requires after == if k.dev == DEV_RAM then 0 else nr
    ensures Got(b0, c, x, k.dev, k.block, only_search)
    ensures Unique(c) && Clean(c, disk, if only_search == NO_READ then x else NIL)
    ensures RamOut(c, after, NIL) && Agrees(c, NIL, t, after, idx, disk) && Counted(t, after, idx)
    ensures KeepsViews(b0, d0, c, disk, nr, Unsettled(k.dev, k.block, only_search))
    ensures Presents(b0, d0, nr, c, x, k, only_search)
  {
    hide Agrees, Rd, View, Counted, HashOk, IsLru, Unique;
    assert k.dev != NO_DEV ==> !Cached(b, NIL, k) by { UncachedKept(b0, b, k); }
    Reuse(b, c, disk, x, k);
    if k.dev == DEV_RAM { DisabledAgrees(c, NIL, t, after, idx, disk); }
    else { ReuseAgrees(b, c, x, t, nr, idx, disk); }
    CountedDisabled(t, nr, after, idx);
    if only_search != NO_READ { CleanAll(c, disk, x); }
    SameCached(b, c, x, k);
    CachedOthers(b, x, k);
    CachedOthers(c, x, k);
  }

  lemma UncachedKept(b: seq<Buf>, c: seq<Buf>, k: Key)
    requires SameNames(b, c)
    ensures Cached(c, NIL, k) == Cached(b, NIL, k)
  {
    if Cached(b, NIL, k) { var i :| i != NIL && Holds(b, i, k); assert Holds(c, i, k); }
    if Cached(c, NIL, k) { var i :| i != NIL && Holds(c, i, k); assert Holds(b, i, k); }
  }

  lemma CountedDisabled(t: seq<Buf2>, nr: int, after: int, idx: int)
    requires Counted(t, nr, idx) && (after == nr || after == 0)
    ensures Counted(t, after, idx)
  {
  }

  lemma CleanAll(c: seq<Buf>, disk: Disk, x: int)
    requires Clean(c, disk, x) && 0 <= x < |c|
    requires c[x].dev != NO_DEV ==> c[x].data == Rd(disk, c[x].Name())
    ensures Clean(c, disk, NIL)
  {
    forall i | 0 <= i < |c| ensures CleanAt(c, disk, i) {}
  }

  lemma WithoutMembers(s: seq<int>, k: int)
    requires Distinct(s) && 0 <= k < |s|
    ensures forall i :: i in Without(s, k) <==> i in s && i != s[k]
  {
    forall i ensures i in Without(s, k) <==> i in s && i != s[k] { InWithout(s, k, i); }
  }

  /** Only links differ. */
  ghost predicate SameButLinks(b: seq<Buf>, c: seq<Buf>) {
    |b| == |c| && forall i :: 0 <= i < |b| ==> c[i] == b[i].(next := c[i].next, prev := c[i].prev, hash := c[i].hash)
  }

  /** Dirty bits may have been cleared; nothing else differs. */
  ghost predicate SameButDirty(b: seq<Buf>, c: seq<Buf>) {
    |b| == |c| && forall i :: 0 <= i < |b| ==> c[i] == b[i].(dirty := c[i].dirty) && (c[i].dirty ==> b[i].dirty)
  }

  /** Storing on the RAM disk is not seen while the first level has no block of it. */
  lemma RamChanged(b: seq<Buf>, disk: Disk, after: Disk, nr: int, bp: int)
    requires Unique(b) && Clean(b, disk, NIL) && RamOut(b, nr, NIL) && Expendable(b, disk, bp)
    requires forall k: Key :: k.dev != DEV_RAM || nr == 0 ==> Rd(after, k) == Rd(disk, k)
    requires nr >= 0
    ensures Clean(b, after, NIL) && Expendable(b, after, bp)
    ensures forall k: Key :: k.dev != DEV_RAM || nr == 0 ==> View(b, after, k) == View(b, disk, k)
  {
    forall i | 0 <= i < |b|
      ensures CleanAt(b, after, i)
    {
      assert CleanAt(b, disk, i);
    }
    forall k: Key | k.dev != DEV_RAM || nr == 0
      ensures View(b, after, k) == View(b, disk, k)
    {
      if Cached(b, NIL, k) {
        var i :| i != NIL && Holds(b, i, k);
        ViewHeld(b, disk, k, i);
        ViewHeld(b, after, k, i);
      }
    }
  }

  lemma DisabledAgrees(b: seq<Buf>, x: int, b2: seq<Buf2>, nr: int, idx: int, disk: Disk)
    requires nr == 0
    ensures Agrees(b, x, b2, nr, idx, disk)
  {
  }

  lemma OtherBlocks(disk: Disk, k: Key, d: Block)
    ensures forall j :: j != k ==> Rd(disk[k := d], j) == Rd(disk, j)
  {
  }

  lemma CleanedIsFlushed(b: seq<Buf>, c: seq<Buf>, q: seq<int>, dev: nat)
    requires Cleaned(b, c, q) && DirtyOf(b, q, dev)
    ensures Flushed(b, c, dev)
  {
  }

  lemma FlushAgrees(b: seq<Buf>, c: seq<Buf>, b2: seq<Buf2>, nr: int, idx: int, disk: Disk, after: Disk, dev: nat)
    requires Flushed(b, c, dev) && RamOut(b, nr, NIL) && Agrees(b, NIL, b2, nr, idx, disk)
    requires forall k :: !Cached(b, NIL, k) ==> Rd(after, k) == Rd(disk, k)
    ensures RamOut(c, nr, NIL) && Agrees(c, NIL, b2, nr, idx, after)
  {
    forall i, k ensures Holds(b, i, k) == Holds(c, i, k) {}
    forall k ensures Cached(b, NIL, k) == Cached(c, NIL, k) {
      if Cached(b, NIL, k) { var i :| i != NIL && Holds(b, i, k); assert Holds(c, i, k); }
    }
    AgreesFrame(b, NIL, c, NIL, b2, nr, idx, disk, after);
  }

  lemma NoNames(b: seq<Buf>, q: seq<int>, i: int)
    requires 0 <= i <= |q| && forall j :: 0 <= j < |q| ==> 0 <= q[j] < |b|
    ensures Names(b, q[i..i]) == []
  {
  }

  /** One block more has been written. */
  lemma WrittenOne(disk: Disk, b: seq<Buf>, q: seq<int>, base: int, i: int)
    requires 0 <= base <= i < |q| && forall j :: 0 <= j < |q| ==> 0 <= q[j] < |b|
    ensures WriteBack(disk, b, q[..i + 1]) == WriteBack(disk, b, q[..i])[b[q[i]].Name() := b[q[i]].data]
    ensures Names(b, q[base..i + 1]) == Names(b, q[base..i]) + [b[q[i]].Name()]
  {
    assert q[..i + 1][..i] == q[..i];
  }

  lemma NamesSplit(b: seq<Buf>, q: seq<int>, n: int, i: int, j: int)
    requires 0 <= i <= j <= n && Queue(b, q, n)
    ensures Names(b, q[..i]) + Names(b, q[i..j]) == Names(b, q[..j])
  {
  }

  lemma NothingWritten(disk: Disk, b: seq<Buf>, q: seq<int>)
    ensures Names(b, q[..0]) == [] && WriteBack(disk, b, q[..0]) == disk && Cleaned(b, b, q[..0])
  {
  }

  lemma SameMembers(p: seq<int>, q: seq<int>, n: int)
    requires Rearranged(p, q, n)
    ensures forall i :: i in q[..n] <==> i in p[..n]
  {
    forall i ensures i in q[..n] <==> i in p[..n] {
      assert i in q[..n] <==> i in multiset(q[..n]);
      assert i in p[..n] <==> i in multiset(p[..n]);
    }
  }

  lemma QueueKeepsDevice(b: seq<Buf>, p: seq<int>, q: seq<int>, n: int, dev: nat)
    requires Queue(b, p, n) && Queue(b, q, n) && Rearranged(p, q, n)
    requires forall i :: 0 <= i < n ==> b[p[i]].dev == dev
    ensures forall i :: 0 <= i < n ==> b[q[i]].dev == dev
  {
    SameMembers(p, q, n);
    forall i | 0 <= i < n
      ensures b[q[i]].dev == dev
    {
      assert q[..n][i] in p[..n];
    }
  }

  lemma QueueKeepsDirty(b: seq<Buf>, p: seq<int>, q: seq<int>, n: int, dev: nat)
    requires Queue(b, p, n) && Queue(b, q, n) && Rearranged(p, q, n) && DirtyOf(b, p[..n], dev)
    ensures DirtyOf(b, q[..n], dev)
  {
    SameMembers(p, q, n);
    forall i | 0 <= i < n
      ensures b[q[i]].dev == dev && b[q[i]].dirty
    {
      assert q[..n][i] in p[..n];
    }
  }
}
