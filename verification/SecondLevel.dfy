/** The FIFO of evicted blocks on the RAM disk (src/fs/cache2.c), as a table read backwards from its index. */
module SecondLevel {
  import opened Basics
  import opened BlockTypes
  import opened Coherence

  const DEV_RAM: nat := 0x100

  datatype Buf2 = Buf2(blocknr: nat, dev: nat, count: int)

  /** (block) & (MAX_BUF2 - 1), for a table of n slots. */
  function Hash2(block: nat, n: int): (h: int)
    requires n > 0
    ensures 0 <= h < n
  {
    block % n
  }

  /** The slot looked at in step t of the backward search: idx - 1 first, idx itself last. */
  function Back(idx: int, t: int, nr: int): int {
    if t < idx then idx - 1 - t else nr + idx - 1 - t
  }

  /** The newest slot for block k among steps t, t + 1, ...; NIL if there is none. */
  ghost function NewestFrom(b2: seq<Buf2>, nr: int, idx: int, k: Key, t: int): (s: int)
    requires 0 <= idx < nr <= |b2| && 0 <= t <= nr
    ensures s == NIL || (0 <= s < nr && b2[s].dev == k.dev && b2[s].blocknr == k.block)
    decreases nr - t
  {
    if t == nr then NIL
    else
      var s := Back(idx, t, nr);
      if b2[s].dev == k.dev && b2[s].blocknr == k.block then s else NewestFrom(b2, nr, idx, k, t + 1)
  }

  ghost function Newest(b2: seq<Buf2>, nr: int, idx: int, k: Key): int
    requires 0 <= idx < nr <= |b2|
  {
    NewestFrom(b2, nr, idx, k, 0)
  }

  /** Live entries of the first n slots whose block number hashes to h. */
  ghost function Live(b2: seq<Buf2>, n: int, h: int): nat
    requires 0 <= n <= |b2| && |b2| > 0
  {
    if n == 0 then 0
    else Live(b2, n - 1, h) + if b2[n - 1].dev != NO_DEV && Hash2(b2[n - 1].blocknr, |b2|) == h then 1 else 0
  }

  ghost predicate CountAt(b2: seq<Buf2>, nr: int, h: int) {
    0 <= h < |b2| && 0 <= nr <= |b2| && b2[h].count == Live(b2, nr, h)
  }

  /** b2_count of every hash slot counts the live entries with that hash, while the cache is enabled. */
  ghost predicate Counted(b2: seq<Buf2>, nr: int, idx: int) {
    && 0 <= nr <= |b2|
    && (nr > 0 ==> 0 <= idx < nr && forall h {:trigger CountAt(b2, nr, h)} :: 0 <= h < |b2| ==> CountAt(b2, nr, h))
  }

  /** Writes of the file server to the RAM disk would be mixed up with the cache. */
  ghost predicate RamOut(b: seq<Buf>, nr: int, x: int) {
    nr > 0 ==> forall i :: 0 <= i < |b| && i != x ==> b[i].dev != DEV_RAM
  }

  ghost predicate AgreesAt(b2: seq<Buf2>, nr: int, idx: int, disk: Disk, k: Key)
    requires 0 <= idx < nr <= |b2|
  {
    var s := Newest(b2, nr, idx, k);
    s != NIL ==> Rd(disk, Key(DEV_RAM, s)) == Rd(disk, k)
  }

  /** The newest copy of any block outside the first level (x not counted as part of it) equals the disk. */
  ghost predicate Agrees(b: seq<Buf>, x: int, b2: seq<Buf2>, nr: int, idx: int, disk: Disk) {
    0 < nr <= |b2| && 0 <= idx < nr ==>
      forall k: Key {:trigger AgreesAt(b2, nr, idx, disk, k)} ::
        k.dev != NO_DEV && k.dev != DEV_RAM && !Cached(b, x, k) ==> AgreesAt(b2, nr, idx, disk, k)
  }

  lemma {:induction false} LiveNames(b2: seq<Buf2>, c2: seq<Buf2>, n: int, h: int)
    requires 0 <= n <= |b2| == |c2| && |b2| > 0
    requires forall s :: 0 <= s < n ==> c2[s].dev == b2[s].dev && c2[s].blocknr == b2[s].blocknr
    ensures Live(c2, n, h) == Live(b2, n, h)
  {
    if n > 0 { LiveNames(b2, c2, n - 1, h); }
  }

  /** Renaming one slot moves one unit between two counts. */
  lemma {:induction false} LiveStep(b2: seq<Buf2>, c2: seq<Buf2>, n: int, h: int, s: int)
    requires 0 <= s < n <= |b2| == |c2|
    requires forall r :: 0 <= r < n && r != s ==> c2[r].dev == b2[r].dev && c2[r].blocknr == b2[r].blocknr
    ensures Live(c2, n, h) == Live(b2, n, h)
              - (if b2[s].dev != NO_DEV && Hash2(b2[s].blocknr, |b2|) == h then 1 else 0)
              + (if c2[s].dev != NO_DEV && Hash2(c2[s].blocknr, |b2|) == h then 1 else 0)
  {
    if s == n - 1 { LiveNames(b2, c2, n - 1, h); } else { LiveStep(b2, c2, n - 1, h, s); }
  }

  /** Entry s has another name, and the counts of both names say so. */
  lemma CountsMoved(b2: seq<Buf2>, c2: seq<Buf2>, nr: int, s: int)
    requires 0 <= s < nr <= |b2| == |c2| && forall h {:trigger CountAt(b2, nr, h)} :: 0 <= h < |b2| ==> CountAt(b2, nr, h)
    requires forall r :: 0 <= r < nr && r != s ==> c2[r].dev == b2[r].dev && c2[r].blocknr == b2[r].blocknr
    requires forall h :: 0 <= h < |b2| ==>
      c2[h].count == b2[h].count
                     - (if b2[s].dev != NO_DEV && Hash2(b2[s].blocknr, |b2|) == h then 1 else 0)
                     + (if c2[s].dev != NO_DEV && Hash2(c2[s].blocknr, |b2|) == h then 1 else 0)
    ensures forall h {:trigger CountAt(c2, nr, h)} :: 0 <= h < |c2| ==> CountAt(c2, nr, h)
  {
    forall h | 0 <= h < |c2| ensures CountAt(c2, nr, h) {
      assert CountAt(b2, nr, h);
      LiveStep(b2, c2, nr, h, s);
    }
  }

  lemma {:induction false} LiveEntry(b2: seq<Buf2>, n: int, s: int)
    requires 0 <= s < n <= |b2| && b2[s].dev != NO_DEV
    ensures Live(b2, n, Hash2(b2[s].blocknr, |b2|)) > 0
  {
    if s < n - 1 { LiveEntry(b2, n - 1, s); }
  }

  /** A count of zero means there is nothing to find: the early exit of the search is exact. */
  lemma ZeroCountMeansAbsent(b2: seq<Buf2>, nr: int, idx: int, k: Key)
    requires Counted(b2, nr, idx) && nr > 0 && k.dev != NO_DEV
    requires b2[Hash2(k.block, |b2|)].count == 0
    ensures Newest(b2, nr, idx, k) == NIL
  {
    var s := Newest(b2, nr, idx, k);
    if s != NIL {
      assert CountAt(b2, nr, Hash2(k.block, |b2|));
      LiveEntry(b2, nr, s);
    }
  }

  /** Slots that step t onwards do not rename keep their answer. */
  lemma {:induction false} NewestNames(b2: seq<Buf2>, c2: seq<Buf2>, nr: int, idx: int, k: Key, t: int)
    requires 0 <= idx < nr <= |b2| == |c2| && 0 <= t <= nr
    requires forall s :: 0 <= s < nr ==> c2[s].dev == b2[s].dev && c2[s].blocknr == b2[s].blocknr
    ensures NewestFrom(c2, nr, idx, k, t) == NewestFrom(b2, nr, idx, k, t)
    decreases nr - t
  {
    if t < nr { NewestNames(b2, c2, nr, idx, k, t + 1); }
  }

  function Next(idx: int, nr: int): int {
    if idx + 1 == nr then 0 else idx + 1
  }

  /** Search step t + 1 after storing at idx looks where step t looked before. */
  lemma {:induction false} NewestShift(b2: seq<Buf2>, c2: seq<Buf2>, nr: int, idx: int, k: Key, t: int)
    requires 0 <= idx < nr <= |b2| == |c2| && 0 <= t < nr
    requires forall s :: 0 <= s < nr && s != idx ==> c2[s].dev == b2[s].dev && c2[s].blocknr == b2[s].blocknr
    ensures var s := NewestFrom(c2, nr, Next(idx, nr), k, t + 1);
            s != NIL ==> s != idx && s == NewestFrom(b2, nr, idx, k, t)
    decreases nr - t
  {
    if t + 1 < nr {
      assert Back(Next(idx, nr), t + 1, nr) == Back(idx, t, nr) != idx;
      NewestShift(b2, c2, nr, idx, k, t + 1);
    }
  }

  /** After storing at idx, that slot is the newest for its block; any other answer was the answer before. */
  lemma NewestStored(b2: seq<Buf2>, c2: seq<Buf2>, nr: int, idx: int, k: Key)
    requires 0 <= idx < nr <= |b2| == |c2|
    requires forall s :: 0 <= s < nr && s != idx ==> c2[s].dev == b2[s].dev && c2[s].blocknr == b2[s].blocknr
    ensures var s := Newest(c2, nr, Next(idx, nr), k);
            if c2[idx].dev == k.dev && c2[idx].blocknr == k.block then s == idx
            else s != NIL ==> s != idx && s == Newest(b2, nr, idx, k)
  {
    assert Back(Next(idx, nr), 0, nr) == idx;
    NewestShift(b2, c2, nr, idx, k, 0);
  }

  /** Dropping entries never makes an older copy visible for a block whose entries are kept. */
  lemma {:induction false} NewestDropped(b2: seq<Buf2>, c2: seq<Buf2>, nr: int, idx: int, dev: nat, k: Key, t: int)
    requires 0 <= idx < nr <= |b2| == |c2| && 0 <= t <= nr && k.dev != NO_DEV && dev != NO_DEV
    requires forall s :: 0 <= s < nr ==>
               c2[s].blocknr == b2[s].blocknr && c2[s].dev == if b2[s].dev == dev then NO_DEV else b2[s].dev
    ensures NewestFrom(c2, nr, idx, k, t) == if k.dev == dev then NIL else NewestFrom(b2, nr, idx, k, t)
    decreases nr - t
  {
    if t < nr { NewestDropped(b2, c2, nr, idx, dev, k, t + 1); }
  }

  /** Storing the evicted buffer x keeps the agreement, with x out of the first level. */
  lemma StoreAgrees(b: seq<Buf>, x: int, b2: seq<Buf2>, c2: seq<Buf2>, nr: int, idx: int, disk: Disk, after: Disk)
    requires 0 <= idx < nr <= |b2| == |c2| && 0 <= x < |b| && b[x].dev != NO_DEV && b[x].dev != DEV_RAM
    requires Agrees(b, NIL, b2, nr, idx, disk) && b[x].data == Rd(disk, b[x].Name())
    requires after == disk[Key(DEV_RAM, idx) := b[x].data]
    requires c2[idx].dev == b[x].dev && c2[idx].blocknr == b[x].blocknr
    requires forall s :: 0 <= s < nr && s != idx ==> c2[s].dev == b2[s].dev && c2[s].blocknr == b2[s].blocknr
    ensures Agrees(b, x, c2, nr, Next(idx, nr), after)
  {
    forall k: Key | k.dev != NO_DEV && k.dev != DEV_RAM && !Cached(b, x, k)
      ensures AgreesAt(c2, nr, Next(idx, nr), after, k)
    {
      NewestStored(b2, c2, nr, idx, k);
      if k != b[x].Name() {
        assert !Cached(b, NIL, k);
        assert AgreesAt(b2, nr, idx, disk, k);
      }
    }
  }

  /** Only blocks in the first level changed on disk, and no RAM disk slot did. */
  lemma AgreesFrame(b: seq<Buf>, x: int, c: seq<Buf>, y: int, b2: seq<Buf2>, nr: int, idx: int, disk: Disk, after: Disk)
    requires Agrees(b, x, b2, nr, idx, disk)
    requires nr > 0 ==> forall s: nat :: Rd(after, Key(DEV_RAM, s)) == Rd(disk, Key(DEV_RAM, s))
    requires nr > 0 ==> forall k: Key :: k.dev != DEV_RAM && !Cached(c, y, k) ==> !Cached(b, x, k) && Rd(after, k) == Rd(disk, k)
    ensures Agrees(c, y, b2, nr, idx, after)
  {
    if 0 < nr <= |b2| && 0 <= idx < nr {
      forall k: Key | k.dev != NO_DEV && k.dev != DEV_RAM && !Cached(c, y, k)
        ensures AgreesAt(b2, nr, idx, after, k)
      {
        assert AgreesAt(b2, nr, idx, disk, k);
      }
    }
  }

  /** A buffer that left the agreement may come back under any name: fewer blocks are outside the first level. */
  lemma ReuseAgrees(b: seq<Buf>, c: seq<Buf>, x: int, b2: seq<Buf2>, nr: int, idx: int, disk: Disk)
    requires Agrees(b, x, b2, nr, idx, disk) && SameCore(b, c, x)
    ensures Agrees(c, NIL, b2, nr, idx, disk)
  {
    forall k: Key | !Cached(c, NIL, k)
      ensures !Cached(b, x, k)
    {
      SameCached(b, c, x, k);
      CachedOthers(c, x, k);
    }
    AgreesFrame(b, x, c, NIL, b2, nr, idx, disk, disk);
  }

  /** A buffer that is valid for no block does not matter to the agreement. */
  lemma UnnamedAgrees(b: seq<Buf>, x: int, b2: seq<Buf2>, nr: int, idx: int, disk: Disk)
    requires Agrees(b, NIL, b2, nr, idx, disk) && 0 <= x < |b| && b[x].dev == NO_DEV
    ensures Agrees(b, x, b2, nr, idx, disk)
  {
    forall k: Key | !Cached(b, x, k)
      ensures !Cached(b, NIL, k)
    {
      CachedOthers(b, x, k);
    }
    AgreesFrame(b, NIL, b, x, b2, nr, idx, disk, disk);
  }
}
