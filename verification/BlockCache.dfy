/** The buffer cache of src/fs/cache.c with its second level, src/fs/cache2.c, over an abstract disk. */
module BlockCache {
  import opened Basics
  import opened BlockTypes
  import opened LruList
  import opened HashChains
  import opened ScatteredSort
  import opened Coherence
  import opened SecondLevel
  import opened CacheSteps
  import opened ReadAheadQueue

  /** One entry of an I/O vector: nbytes is what the driver left undone. */
  datatype IoReq = IoReq(block: nat, data: Block, nbytes: nat)

  const BLOCK_SIZE: nat := 1024

  /** The largest unsigned int: a count of blocks that is decremented past zero starts from here. */
  const UINT_MAX: nat := 0xFFFF_FFFF

  class BlockCache {
    const buf: array<Buf>
    const buf_hash: array<int>
    const buf2: array<Buf2>
    const NR_IOREQS: nat
    var front: int
    var rear: int
    var bufs_in_use: int
    var nr_buf2: int
    var buf2_idx: int
    var disk: Disk
    ghost var lru: seq<int>
    ghost var chains: seq<seq<int>>
    /** Every block written to a device by scattered I/O, in order. */
    ghost var log: seq<Key>

    /** Lists and tables: x is neither in use nor idle, y is on no hash chain. */
    ghost predicate Structure(x: int, y: int)
      reads this, buf, buf_hash
    {
      && buf.Length > 0 && NR_IOREQS > 0
      && IsLru(buf[..], front, rear, lru) && Idle(buf[..], lru, x)
      && HashOk(buf[..], buf_hash[..], chains, y)
      && bufs_in_use == buf.Length - |lru|
    }

    /** What the two levels and the disk hold; buffer x may be CLEAN without equalling the disk. */
    ghost predicate Contents(x: int)
      reads this, buf, buf2
    {
      && buf2.Length > 0
      && Unique(buf[..]) && Clean(buf[..], disk, x)
      && Counted(buf2[..], nr_buf2, buf2_idx) && RamOut(buf[..], nr_buf2, NIL)
      && Agrees(buf[..], NIL, buf2[..], nr_buf2, buf2_idx, disk)
    }

    ghost predicate Valid()
      reads this, buf, buf_hash, buf2
    {
      Structure(NIL, NIL) && Contents(NIL)
    }

    /** rm_lru */
    method RmLru(bp: int, ghost k: int)
      requires IsLru(buf[..], front, rear, lru) && 0 <= k < |lru| && bp == lru[k]
      modifies this`front, this`rear, this`bufs_in_use, this`lru, buf
      ensures IsLru(buf[..], front, rear, lru) && lru == Without(old(lru), k)
      ensures SameButLru(old(buf[..]), buf[..])
      ensures bufs_in_use == old(bufs_in_use) + 1
    {
      assert LinkedAt(buf[..], lru, k);
      if k > 0 { assert LinkedAt(buf[..], lru, k - 1); }
      if k + 1 < |lru| { assert LinkedAt(buf[..], lru, k + 1); }
      bufs_in_use := bufs_in_use + 1;
      var next_ptr := buf[bp].next;
      var prev_ptr := buf[bp].prev;
      if prev_ptr != NIL {
        buf[prev_ptr] := buf[prev_ptr].(next := next_ptr);
      } else {
        front := next_ptr;
      }
      if next_ptr != NIL {
        buf[next_ptr] := buf[next_ptr].(prev := prev_ptr);
      } else {
        rear := prev_ptr;
      }
      UnlinkLru(old(buf[..]), buf[..], old(front), old(rear), lru, k, next_ptr, prev_ptr);
      lru := Without(lru, k);
    }

    /** The search of the hash chain that opens get_block. */
    method Search(dev: nat, block: nat) returns (bp: int)
      requires dev != NO_DEV && HashOk(buf[..], buf_hash[..], chains, NIL)
      ensures bp == NIL ==> !Cached(buf[..], NIL, Key(dev, block))
      ensures bp != NIL ==> Holds(buf[..], bp, Key(dev, block))
    {
      var h := Slot(block, buf_hash.Length);
      ghost var k, ch := 0, chains[h];
      assert IsChain(buf[..], buf_hash[h], ch);
      bp := buf_hash[h];
      while bp != NIL
        invariant 0 <= k <= |ch| && bp == At(ch, k)
        invariant forall j :: 0 <= j < k ==> !Holds(buf[..], ch[j], Key(dev, block))
        decreases |ch| - k
      {
        assert ChainedAt(buf[..], ch, k);
        if buf[bp].blocknr == block && buf[bp].dev == dev { return; }
        bp := buf[bp].hash;
        k := k + 1;
      }
      assert k < |ch| ==> ChainedAt(buf[..], ch, k);
      forall i | i != NIL
        ensures !Holds(buf[..], i, Key(dev, block))
      {
        assert OnChain(buf[..], chains, NIL, i, h);
      }
    }

    /** get_block: remove the buffer just taken from its hash chain. */
    method Unhash(bp: int)
      requires 0 <= bp < buf.Length && HashOk(buf[..], buf_hash[..], chains, NIL)
      modifies buf, buf_hash, this`chains
      ensures HashOk(buf[..], buf_hash[..], chains, bp)
      ensures SameButHash(old(buf[..]), buf[..])
    {
      var h := Slot(buf[bp].blocknr, buf_hash.Length);
      ghost var ch := chains[h];
      assert IsChain(buf[..], buf_hash[h], ch) && OnChain(buf[..], chains, NIL, bp, h);
      ghost var k :| 0 <= k < |ch| && ch[k] == bp;
      assert ChainedAt(buf[..], ch, k);
      var prev_ptr := buf_hash[h];
      if prev_ptr == bp {
        buf_hash[h] := buf[bp].hash;
      } else {
        ghost var m := 0;
        assert ChainedAt(buf[..], ch, 0) && ChainedAt(buf[..], ch, 1);
        while buf[prev_ptr].hash != NIL
          invariant 0 <= m < k && prev_ptr == ch[m]
          invariant ChainedAt(buf[..], ch, m) && ChainedAt(buf[..], ch, m + 1)
          invariant buf[..] == old(buf[..])
          decreases |ch| - m
        {
          if buf[prev_ptr].hash == bp {
            assert m + 1 == k;
            buf[prev_ptr] := buf[prev_ptr].(hash := buf[bp].hash);
            break;
          } else {
            prev_ptr := buf[prev_ptr].hash;
            m := m + 1;
            assert ChainedAt(buf[..], ch, m + 1);
          }
        }
      }
      Unchain(old(buf[..]), buf[..], old(buf_hash[..]), buf_hash[..], chains, h, k, bp);
      chains := chains[h := Without(ch, k)];
    }

    /** dev_io on a vector of writes: requests are carried out in order and left with nothing undone. */
    method DevIoWrite(dev: nat, iovec: array<IoReq>, n: nat,
                      ghost was: Disk, ghost b: seq<Buf>, ghost q: seq<int>, ghost base: nat)
      requires n <= iovec.Length && base + n <= |q|
      requires forall i :: 0 <= i < |q| ==> 0 <= q[i] < |b| && b[q[i]].dev == dev
      requires forall i :: 0 <= i < n ==>
                 iovec[i].block == b[q[base + i]].blocknr && iovec[i].data == b[q[base + i]].data
      requires disk == WriteBack(was, b, q[..base])
      modifies iovec, this`disk, this`log
      ensures disk == WriteBack(was, b, q[..base + n])
      ensures log == old(log) + Names(b, q[base..base + n])
      ensures forall i :: 0 <= i < n ==> iovec[i].nbytes == 0
    {
      hide WriteBack, Names;
      var i := 0;
      NoNames(b, q, base);
      while i < n
        invariant 0 <= i <= n
        invariant disk == WriteBack(was, b, q[..base + i])
        invariant log == old(log) + Names(b, q[base..base + i])
        invariant forall m :: 0 <= m < i ==> iovec[m].nbytes == 0
        invariant forall m :: 0 <= m < n ==>
                    iovec[m].block == b[q[base + m]].blocknr && iovec[m].data == b[q[base + m]].data
      {
        WrittenOne(was, b, q, base, base + i);
        disk := disk[Key(dev, iovec[i].block) := iovec[i].data];
        log := log + [Key(dev, iovec[i].block)];
        iovec[i] := iovec[i].(nbytes := 0);
        i := i + 1;
      }
    }

    /** rw_scattered: fill the vector with the next batch of the queue. */
    method FillVector(bufq: array<int>, base: nat, bufqsize: nat, iovec: array<IoReq>) returns (j: nat)
      requires base <= bufqsize && Queue(buf[..], bufq[..], bufqsize)
      modifies iovec
      ensures j <= iovec.Length && base + j <= bufqsize
      ensures j == iovec.Length || base + j == bufqsize
      ensures forall i :: 0 <= i < j ==>
                iovec[i] == IoReq(buf[bufq[base + i]].blocknr, buf[bufq[base + i]].data, BLOCK_SIZE)
    {
      j := 0;
      while j < iovec.Length && j < bufqsize - base
        invariant j <= iovec.Length && base + j <= bufqsize
        invariant forall i :: 0 <= i < j ==>
                    iovec[i] == IoReq(buf[bufq[base + i]].blocknr, buf[bufq[base + i]].data, BLOCK_SIZE)
      {
        var bp := bufq[base + j];
        iovec[j] := IoReq(buf[bp].blocknr, buf[bp].data, BLOCK_SIZE);
        j := j + 1;
      }
    }

    /** rw_scattered, WRITING: harvest the results of one batch. */
    method HarvestWrites(bufq: array<int>, base: nat, j: nat, ghost b: seq<Buf>)
      requires Queue(buf[..], bufq[..], base + j) && |b| == buf.Length
      requires Cleaned(b, buf[..], bufq[..base])
      modifies buf
      ensures Cleaned(b, buf[..], bufq[..base + j])
    {
      var i := 0;
      while i < j
        invariant 0 <= i <= j && Queue(buf[..], bufq[..], base + j)
        invariant Cleaned(b, buf[..], bufq[..base + i])
      {
        var bp := bufq[base + i];
        assert bufq[..base + i + 1] == bufq[..base + i] + [bp];
        buf[bp] := buf[bp].(dirty := false);
        i := i + 1;
      }
    }

    /** rw_scattered, WRITING: one batch of at most NR_IOREQS requests. */
    method WriteBatch(dev: nat, bufq: array<int>, base: nat, bufqsize: nat, iovec: array<IoReq>,
                      ghost was: Disk, ghost b: seq<Buf>) returns (j: nat)
      requires base <= bufqsize && Queue(buf[..], bufq[..], bufqsize) && |b| == buf.Length
      requires forall i :: 0 <= i < bufqsize ==> b[bufq[i]].dev == dev
      requires disk == WriteBack(was, b, bufq[..base]) && Cleaned(b, buf[..], bufq[..base])
      modifies buf, iovec, this`disk, this`log
      ensures j <= iovec.Length && base + j <= bufqsize && (j == iovec.Length || base + j == bufqsize)
      ensures disk == WriteBack(was, b, bufq[..base + j]) && Cleaned(b, buf[..], bufq[..base + j])
      ensures log == old(log) + Names(b, bufq[base..base + j])
    {
      hide WriteBack;
      ghost var q := bufq[..bufqsize];
      j := FillVector(bufq, base, bufqsize, iovec);
      assert q[..base] == bufq[..base] && q[..base + j] == bufq[..base + j];
      assert q[base..base + j] == bufq[base..base + j];
      DevIoWrite(dev, iovec, j, was, b, q, base);
      HarvestWrites(bufq, base, j, b);
    }

    /** rw_scattered, WRITING: sorts the queue and writes it back in batches of at most NR_IOREQS. */
    method RwScatteredWrite(dev: nat, bufq: array<int>, bufqsize: nat)
      requires NR_IOREQS > 0 && Queue(buf[..], bufq[..], bufqsize)
      requires forall i :: 0 <= i < bufqsize ==> buf[bufq[i]].dev == dev
      modifies bufq, buf, this`disk, this`log
      ensures Queue(old(buf[..]), bufq[..], bufqsize) && SortedQueue(old(buf[..]), bufq[..], bufqsize)
      ensures Rearranged(old(bufq[..]), bufq[..], bufqsize)
      ensures disk == WriteBack(old(disk), old(buf[..]), bufq[..bufqsize])
      ensures log == old(log) + Names(old(buf[..]), bufq[..bufqsize])
      ensures Cleaned(old(buf[..]), buf[..], bufq[..bufqsize])
    {
      hide SortedQueue, Rearranged, Names, WriteBack, Cleaned;
      ghost var b, q0 := buf[..], bufq[..];
      ShellSort(buf, bufq, bufqsize);
      ghost var q := bufq[..];
      QueueKeepsDevice(b, q0, q, bufqsize, dev);
      var iovec := new IoReq[NR_IOREQS](_ => IoReq(0, [], 0));
      var base := 0;
      NothingWritten(disk, b, q);
      while base < bufqsize
        invariant 0 <= base <= bufqsize && q == bufq[..]
        invariant disk == WriteBack(old(disk), b, q[..base])
        invariant log == old(log) + Names(b, q[..base])
        invariant Cleaned(b, buf[..], q[..base])
      {
        var j := WriteBatch(dev, bufq, base, bufqsize, iovec, old(disk), b);
        NamesSplit(b, q, bufqsize, base, base + j);
        base := base + j;
      }
    }

    /** flushall: collect the dirty blocks of one device. */
    method GatherDirty(dev: nat, dirty: array<int>) returns (ndirty: nat)
      requires dirty.Length == buf.Length
      modifies dirty
      ensures ndirty <= dirty.Length && DirtyOf(buf[..], dirty[..ndirty], dev)
    {
      ndirty := 0;
      var bp := 0;
      while bp < buf.Length
        invariant 0 <= ndirty <= bp <= buf.Length
        invariant forall i :: 0 <= i < ndirty ==> 0 <= dirty[i] < bp && buf[dirty[i]].dev == dev && buf[dirty[i]].dirty
        invariant forall i :: 0 <= i < bp && buf[i].dev == dev && buf[i].dirty ==> i in dirty[..ndirty]
      {
        if buf[bp].dirty && buf[bp].dev == dev {
          ghost var q := dirty[..ndirty];
          dirty[ndirty] := bp;
          ndirty := ndirty + 1;
          assert dirty[..ndirty] == q + [bp];
        }
        bp := bp + 1;
      }
    }

    /** flushall */
    method FlushAll(dev: nat)
      requires dev != NO_DEV && Contents(NIL) && NR_IOREQS > 0
      modifies buf, this`disk, this`log
      ensures Flushed(old(buf[..]), buf[..], dev) && Contents(NIL)
      ensures forall k :: View(buf[..], disk, k) == View(old(buf[..]), old(disk), k)
      ensures forall k :: !Cached(old(buf[..]), NIL, k) ==> Rd(disk, k) == Rd(old(disk), k)
    {
      hide Agrees, Counted, WriteBack, SortedQueue, Rearranged, View, Unique, Clean;
      var dirty := new int[buf.Length](_ => 0);
      ghost var b := buf[..];
      var ndirty := GatherDirty(dev, dirty);
      ghost var q := dirty[..];
      RwScatteredWrite(dev, dirty, ndirty);
      QueueKeepsDirty(b, q, dirty[..], ndirty, dev);
      CleanedIsFlushed(b, buf[..], dirty[..ndirty], dev);
      FlushKeeps(b, buf[..], old(disk), dirty[..ndirty], dev);
      FlushAgrees(b, buf[..], buf2[..], nr_buf2, buf2_idx, old(disk), disk, dev);
    }

    /** put_block2 */
    method PutBlock2(bp: int)
      requires Contents(NIL) && Expendable(buf[..], disk, bp) && buf[bp].dev != NO_DEV
      modifies buf2, this`buf2_idx, this`disk
      ensures Counted(buf2[..], nr_buf2, buf2_idx)
      ensures Agrees(buf[..], bp, buf2[..], nr_buf2, buf2_idx, disk)
      ensures forall k: Key :: k.dev != DEV_RAM || nr_buf2 == 0 ==> Rd(disk, k) == Rd(old(disk), k)
    {
      hide Agrees, Unique, Clean, Rd;
      if nr_buf2 == 0 {
        DisabledAgrees(buf[..], bp, buf2[..], nr_buf2, buf2_idx, disk);
        return;
      }
      var b := buf2_idx;
      buf2_idx := buf2_idx + 1;
      if buf2_idx == nr_buf2 { buf2_idx := 0; }
      disk := disk[Key(DEV_RAM, b) := buf[bp].data];
      StoreSlot(b, buf[bp].dev, buf[bp].blocknr);
      StoreAgrees(buf[..], bp, old(buf2[..]), buf2[..], nr_buf2, b, old(disk), disk);
      OtherBlocks(old(disk), Key(DEV_RAM, b), buf[bp].data);
    }

    /** put_block2: name slot b, keeping b2_count in step. */
    method StoreSlot(b: int, dev: nat, blocknr: nat)
      requires 0 <= b < nr_buf2 <= buf2.Length && dev != NO_DEV
      requires forall h {:trigger CountAt(buf2[..], nr_buf2, h)} :: 0 <= h < buf2.Length ==> CountAt(buf2[..], nr_buf2, h)
      modifies buf2
      ensures buf2[b].dev == dev && buf2[b].blocknr == blocknr
      ensures forall s :: 0 <= s < buf2.Length && s != b ==>
                buf2[s].dev == old(buf2[s].dev) && buf2[s].blocknr == old(buf2[s].blocknr)
      ensures forall h {:trigger CountAt(buf2[..], nr_buf2, h)} :: 0 <= h < buf2.Length ==> CountAt(buf2[..], nr_buf2, h)
    {
      hide CountAt, Hash2;
      ghost var was := buf2[..];
      if buf2[b].dev != NO_DEV {
        var h := Hash2(buf2[b].blocknr, buf2.Length);
        buf2[h] := buf2[h].(count := buf2[h].count - 1);
      }
      buf2[b] := buf2[b].(dev := dev);
      buf2[b] := buf2[b].(blocknr := blocknr);
      var h' := Hash2(buf2[b].blocknr, buf2.Length);
      buf2[h'] := buf2[h'].(count := buf2[h'].count + 1);
      CountsMoved(was, buf2[..], nr_buf2, b);
    }

    /** get_block2: search backwards, as there may be older versions. */
    method SearchBack(bp: int) returns (b: int)
      requires 0 <= bp < buf.Length && 0 <= buf2_idx < nr_buf2 <= buf2.Length
      ensures b == Newest(buf2[..], nr_buf2, buf2_idx, buf[bp].Name())
    {
      ghost var k := buf[bp].Name();
      ghost var t := 0;
      b := buf2_idx;
      while true
        invariant 0 <= t < nr_buf2
        invariant b == if t == 0 then buf2_idx else Back(buf2_idx, t - 1, nr_buf2)
        invariant Newest(buf2[..], nr_buf2, buf2_idx, k) == NewestFrom(buf2[..], nr_buf2, buf2_idx, k, t)
        decreases nr_buf2 - t
      {
        if b == 0 { b := nr_buf2; }
        b := b - 1;
        if buf2[b].blocknr == buf[bp].blocknr && buf2[b].dev == buf[bp].dev { return; }
        if b == buf2_idx { return NIL; }
        t := t + 1;
      }
    }

    /** get_block2: fills buffer bp from its newest copy on the RAM disk, if there is one. */
    method GetBlock2(bp: int, only_search: Mode) returns (hit: bool)
      requires 0 <= bp < buf.Length && buf[bp].dev != NO_DEV && buf2.Length > 0
      requires !Cached(buf[..], bp, buf[bp].Name())
      requires Counted(buf2[..], nr_buf2, buf2_idx)
      requires Agrees(buf[..], bp, buf2[..], nr_buf2, buf2_idx, disk)
      modifies buf, this`nr_buf2
      ensures nr_buf2 == if buf[bp].dev == DEV_RAM then 0 else old(nr_buf2)
      ensures buf[..] == old(buf[..])[bp := old(buf[bp]).(data := buf[bp].data)]
      ensures if hit then buf[bp].data == Rd(disk, buf[bp].Name()) else buf[bp].data == old(buf[bp].data)
      ensures hit <==> old(nr_buf2) != 0 && buf[bp].dev != DEV_RAM && only_search != NO_READ
                       && Newest(buf2[..], nr_buf2, buf2_idx, buf[bp].Name()) != NIL
    {
      hide Live, Cached, NewestFrom;
      if buf[bp].dev == DEV_RAM { nr_buf2 := 0; }
      ghost var k := buf[bp].Name();
      if nr_buf2 == 0 || only_search == NO_READ { return false; }
      if buf2[Hash2(buf[bp].blocknr, buf2.Length)].count == 0 {
        ZeroCountMeansAbsent(buf2[..], nr_buf2, buf2_idx, k);
        return false;
      }
      var b := SearchBack(bp);
      if b == NIL { return false; }
      assert AgreesAt(buf2[..], nr_buf2, buf2_idx, disk, k);
      buf[bp] := buf[bp].(data := Rd(disk, Key(DEV_RAM, b)));
      return true;
    }

    /** rw_block, READING */
    method ReadBlock(bp: int)
      requires 0 <= bp < buf.Length
      modifies buf
      ensures buf[..] == old(buf[..])[bp := old(buf[bp]).(data := buf[bp].data, dirty := false)]
      ensures buf[bp].data == if buf[bp].dev != NO_DEV then Rd(disk, buf[bp].Name()) else old(buf[bp].data)
    {
      if buf[bp].dev != NO_DEV {
        buf[bp] := buf[bp].(data := Rd(disk, buf[bp].Name()));
      }
      buf[bp] := buf[bp].(dirty := false);
    }

    /** rw_block, WRITING */
    method WriteBlock(bp: int)
      requires 0 <= bp < buf.Length
      modifies buf, this`disk
      ensures buf[..] == old(buf[..])[bp := old(buf[bp]).(dirty := false)]
      ensures disk == if buf[bp].dev != NO_DEV then old(disk)[buf[bp].Name() := buf[bp].data] else old(disk)
    {
      if buf[bp].dev != NO_DEV {
        disk := disk[buf[bp].Name() := buf[bp].data];
      }
      buf[bp] := buf[bp].(dirty := false);
    }

    /** get_block: write the evicted buffer out, with all dirty blocks of its device, and keep it in the second level. */
    method Evict(bp: int)
      requires 0 <= bp < buf.Length && NR_IOREQS > 0 && Contents(NIL)
      modifies buf, buf2, this`disk, this`log, this`buf2_idx
      ensures Unique(buf[..]) && Clean(buf[..], disk, NIL) && Expendable(buf[..], disk, bp)
      ensures SameButDirty(old(buf[..]), buf[..])
      ensures buf2.Length > 0 && Counted(buf2[..], nr_buf2, buf2_idx) && RamOut(buf[..], nr_buf2, NIL)
      ensures Agrees(buf[..], bp, buf2[..], nr_buf2, buf2_idx, disk)
      ensures forall k: Key :: k.dev != DEV_RAM || nr_buf2 == 0 ==> View(buf[..], disk, k) == View(old(buf[..]), old(disk), k)
    {
      assert nr_buf2 >= 0;
      hide Agrees, Counted, Unique, View, Cached;
      if buf[bp].dev != NO_DEV {
        if buf[bp].dirty { FlushAll(buf[bp].dev); }
        ghost var before := disk;
        assert CleanAt(buf[..], disk, bp);
        PutBlock2(bp);
        RamChanged(buf[..], before, disk, nr_buf2, bp);
      } else {
        UnnamedAgrees(buf[..], bp, buf2[..], nr_buf2, buf2_idx, disk);
      }
    }

    /** get_block: a buffer that is on no chain gets a name, and becomes the first on the chain of that name. */
    method Install(bp: int, dev: nat, block: nat)
      requires 0 <= bp < buf.Length && HashOk(buf[..], buf_hash[..], chains, bp)
      modifies buf, buf_hash, this`chains
      ensures HashOk(buf[..], buf_hash[..], chains, NIL)
      ensures buf[..] == old(buf[..])[bp := old(buf[bp]).(dev := dev, blocknr := block,
                                        count := old(buf[bp].count) + 1, hash := buf[bp].hash)]
    {
      buf[bp] := buf[bp].(dev := dev);
      buf[bp] := buf[bp].(blocknr := block);
      buf[bp] := buf[bp].(count := buf[bp].count + 1);
      var b := Slot(buf[bp].blocknr, buf_hash.Length);
      buf[bp] := buf[bp].(hash := buf_hash[b]);
      buf_hash[b] := bp;
      Rechain(old(buf[..]), buf[..], old(buf_hash[..]), chains, bp);
      chains := chains[b := [bp] + chains[b]];
    }

    /** get_block: contents for a buffer just named, from the second level or from the device, as far as they are wanted. */
    method Load(bp: int, only_search: Mode)
      requires 0 <= bp < buf.Length && buf2.Length > 0
      requires buf[bp].dev != NO_DEV ==> !Cached(buf[..], bp, buf[bp].Name())
      requires Counted(buf2[..], nr_buf2, buf2_idx)
      requires Agrees(buf[..], bp, buf2[..], nr_buf2, buf2_idx, disk)
      modifies buf, this`nr_buf2
      ensures nr_buf2 == if old(buf[bp].dev) == DEV_RAM then 0 else old(nr_buf2)
      ensures buf[..] == old(buf[..])[bp := old(buf[bp]).(data := buf[bp].data, dev := buf[bp].dev,
                                        dirty := buf[bp].dirty)]
      ensures buf[bp].dev == old(buf[bp].dev) || (only_search == PREFETCH && buf[bp].dev == NO_DEV)
      ensures buf[bp].dev != NO_DEV && only_search != NO_READ ==> buf[bp].data == Rd(disk, buf[bp].Name())
    {
      if buf[bp].dev != NO_DEV {
        var hit := GetBlock2(bp, only_search);
        if hit {
        } else if only_search == PREFETCH {
          buf[bp] := buf[bp].(dev := NO_DEV);
        } else if only_search == NORMAL {
          ReadBlock(bp);
        }
      }
    }

    /** get_block: the block needed has been found. */
    method Claim(bp: int)
      requires Structure(NIL, NIL) && 0 <= bp < buf.Length
      modifies buf, this`front, this`rear, this`bufs_in_use, this`lru
      ensures Structure(NIL, NIL)
      ensures SameButLru(old(buf[..])[bp := old(buf[bp]).(count := old(buf[bp].count) + 1)], buf[..])
    {
      hide HashOk;
      ghost var b := buf[..];
      if buf[bp].count == 0 {
        ghost var k := MemberIsLinked(buf[..], front, rear, lru, bp);
        RmLru(bp, k);
        WithoutMembers(old(lru), k);
      }
      ghost var c := buf[..];
      buf[bp] := buf[bp].(count := buf[bp].count + 1);
      LruFrame(c, buf[..], front, rear, lru);
      HashFrame(b, buf[..], buf_hash[..], chains, NIL);
    }

    /** get_block: take the oldest block off both of its lists. */
    method TakeFront() returns (bp: int)
      requires Structure(NIL, NIL) && front != NIL
      modifies buf, buf_hash, this`front, this`rear, this`bufs_in_use, this`lru, this`chains
      ensures 0 <= bp < buf.Length && bp == old(front) && Structure(bp, bp)
      ensures SameButLinks(old(buf[..]), buf[..]) && buf[bp].count == 0 && bufs_in_use == old(bufs_in_use) + 1
    {
      hide HashOk;
      ghost var b := buf[..];
      bp := front;
      assert LinkedAt(b, lru, 0) && bp in lru;
      RmLru(bp, 0);
      WithoutMembers(old(lru), 0);
      HashFrame(b, buf[..], buf_hash[..], chains, NIL);
      ghost var c := buf[..];
      Unhash(bp);
      LruFrame(c, buf[..], front, rear, lru);
    }

    /** get_block, when the block is not on its hash chain: evict the oldest idle buffer and fetch into it. */
    method Replace(dev: nat, block: nat, only_search: Mode) returns (bp: int)
      requires Valid() && front != NIL
      requires dev != NO_DEV ==> !Cached(buf[..], NIL, Key(dev, block))
      modifies this, buf, buf_hash, buf2
      ensures Got(old(buf[..]), buf[..], bp, dev, block, only_search) && bp == old(front)
      ensures Structure(NIL, NIL) && Contents(if only_search == NO_READ then bp else NIL)
      ensures nr_buf2 == if dev == DEV_RAM then 0 else old(nr_buf2)
      ensures old(buf[..])[bp].count == 0 && bufs_in_use == old(bufs_in_use) + 1
      ensures KeepsViews(old(buf[..]), old(disk), buf[..], disk, old(nr_buf2), Unsettled(dev, block, only_search))
      ensures Presents(old(buf[..]), old(disk), old(nr_buf2), buf[..], bp, Key(dev, block), only_search)
    {
      hide IsLru, Idle, HashOk, Unique, Clean, Counted, RamOut, Agrees, View, Cached, Rd;
      hide Got, KeepsViews, Presents, SameButLinks, SameButDirty;
      ghost var b0, d0, nr := buf[..], disk, nr_buf2;
      bp := TakeFront();
      ghost var b1 := buf[..];
      LinksContents(b0, b1, disk, buf2[..], nr_buf2, buf2_idx);
      Evict(bp);
      ghost var b2 := buf[..];
      DirtyKeepsStructure(b1, b2, front, rear, lru, buf_hash[..], chains, bp);
      NamesKept(b0, b1, b2, bp);
      Install(bp, dev, block);
      ghost var b3 := buf[..];
      InstallKeeps(b0, b2, b3, bp, Key(dev, block), front, rear, lru, buf2[..], nr_buf2, buf2_idx, disk);
      Load(bp, only_search);
      LoadKeeps(b3, buf[..], front, rear, lru, buf_hash[..], chains, bp);
      ReplaceDone(b0, d0, b2, buf[..], disk, bp, Key(dev, block), only_search, buf2[..], nr, nr_buf2, buf2_idx);
    }

    /** get_block. NIL stands for the panic "all buffers in use". */
    method GetBlock(dev: nat, block: nat, only_search: Mode) returns (bp: int)
      requires Valid()
      modifies this, buf, buf_hash, buf2
      ensures bp == NIL <==> old(front) == NIL && (dev == NO_DEV || !Cached(old(buf[..]), NIL, Key(dev, block)))
      ensures bp == NIL ==> Valid() && buf[..] == old(buf[..]) && disk == old(disk) && nr_buf2 == old(nr_buf2)
      ensures bp == NIL ==> AllInUse(old(buf[..]))
      ensures bp != NIL ==> Got(old(buf[..]), buf[..], bp, dev, block, only_search)
      ensures bp != NIL ==> Structure(NIL, NIL) && Contents(if only_search == NO_READ then bp else NIL)
      ensures bp != NIL ==>
                KeepsViews(old(buf[..]), old(disk), buf[..], disk, old(nr_buf2), Unsettled(dev, block, only_search))
      ensures bp != NIL ==> Presents(old(buf[..]), old(disk), old(nr_buf2), buf[..], bp, Key(dev, block), only_search)
      ensures nr_buf2 == old(nr_buf2) || (nr_buf2 == 0 && dev == DEV_RAM)
      ensures bp != NIL ==>
                if dev != NO_DEV && Cached(old(buf[..]), NIL, Key(dev, block))
                then Holds(old(buf[..]), bp, Key(dev, block)) && buf[bp].dev == dev && buf[bp].data == old(buf[..])[bp].data
                else old(buf[..])[bp].count == 0 && bufs_in_use == old(bufs_in_use) + 1
                     && (dev == DEV_RAM ==> nr_buf2 == 0)
    {
      hide IsLru, Idle, HashOk, Unique, Clean, Counted, RamOut, Agrees, View, Cached, Rd;
      hide Got, KeepsViews, Presents, SameButLru, AllInUse;
      ghost var b := buf[..];
      if dev != NO_DEV {
        bp := Search(dev, block);
        if bp != NIL {
          HeldIsCached(b, bp, Key(dev, block));
          Claim(bp);
          ClaimDone(b, buf[..], disk, bp, Key(dev, block), only_search, buf2[..], nr_buf2, buf2_idx);
          return;
        }
      }
      FrontIsBuffer(b, front, rear, lru);
      if front == NIL { return NIL; }
      bp := Replace(dev, block, only_search);
    }

    /** put_block: put the buffer back at the front of the LRU chain, to be evicted next. */
    method PutFront(bp: int)
      requires IsLru(buf[..], front, rear, lru) && 0 <= bp < buf.Length && bp !in lru
      modifies buf, this`front, this`rear, this`lru
      ensures IsLru(buf[..], front, rear, lru) && lru == [bp] + old(lru) && front == bp
      ensures SameButLru(old(buf[..]), buf[..])
    {
      assert lru != [] ==> LinkedAt(buf[..], lru, 0);
      assert front != bp;
      ghost var b := buf[..];
      buf[bp] := buf[bp].(prev := NIL);
      buf[bp] := buf[bp].(next := front);
      if front == NIL {
        rear := bp;
      } else {
        buf[front] := buf[front].(prev := bp);
      }
      PushFront(b, buf[..], front, old(rear), lru, bp);
      front := bp;
      lru := [bp] + lru;
    }

    /** put_block: put the buffer back at the rear of the LRU chain, to be evicted last. */
    method PutRear(bp: int)
      requires IsLru(buf[..], front, rear, lru) && 0 <= bp < buf.Length && bp !in lru
      modifies buf, this`front, this`rear, this`lru
      ensures IsLru(buf[..], front, rear, lru) && lru == old(lru) + [bp] && rear == bp
      ensures SameButLru(old(buf[..]), buf[..])
    {
      RearIsBuffer(buf[..], front, rear, lru);
      assert rear != bp;
      ghost var b := buf[..];
      buf[bp] := buf[bp].(prev := rear);
      buf[bp] := buf[bp].(next := NIL);
      if rear == NIL {
        front := bp;
      } else {
        buf[rear] := buf[rear].(next := bp);
      }
      PushRear(b, buf[..], old(front), rear, lru, bp);
      rear := bp;
      lru := lru + [bp];
    }

    /** put_block: there is one use fewer now; an unused buffer goes back on the LRU chain. */
    method Release(bp: int, one_shot: bool)
      requires Structure(NIL, NIL) && 0 <= bp < buf.Length && buf[bp].count > 0
      modifies buf, this`front, this`rear, this`lru, this`bufs_in_use
      ensures Structure(NIL, NIL) && Released(old(buf[..]), buf[..], bp)
      ensures bufs_in_use == old(bufs_in_use) - if buf[bp].count == 0 then 1 else 0
      ensures buf[bp].count == 0 ==> if one_shot then front == bp else rear == bp
    {
      hide IsLru, HashOk;
      ghost var b := buf[..];
      buf[bp] := buf[bp].(count := buf[bp].count - 1);
      ghost var c := buf[..];
      LruFrame(b, c, front, rear, lru);
      if buf[bp].count == 0 {
        bufs_in_use := bufs_in_use - 1;
        if one_shot { PutFront(bp); } else { PutRear(bp); }
      }
      HashFrame(b, buf[..], buf_hash[..], chains, NIL);
    }

    /** put_block, without a write. */
    method GiveBack(bp: int, one_shot: bool)
      requires Valid() && 0 <= bp < buf.Length && buf[bp].count > 0
      modifies buf, this`front, this`rear, this`lru, this`bufs_in_use
      ensures Valid() && Released(old(buf[..]), buf[..], bp)
      ensures forall k :: View(buf[..], disk, k) == View(old(buf[..]), disk, k)
      ensures bufs_in_use <= old(bufs_in_use)
      ensures buf[bp].count == 0 ==> if one_shot then front == bp else rear == bp
    {
      hide IsLru, Idle, HashOk, Unique, Clean, Counted, RamOut, Agrees, View, Cached, Rd;
      ghost var b := buf[..];
      Release(bp, one_shot);
      PutContents(b, buf[..], disk, buf2[..], nr_buf2, buf2_idx);
    }

    /** put_block, WRITE_IMMED */
    method WriteThrough(bp: int)
      requires Valid() && 0 <= bp < buf.Length && buf[bp].dev != NO_DEV
      modifies buf, this`disk
      ensures Valid() && buf[..] == old(buf[..])[bp := old(buf[bp]).(dirty := false)]
      ensures forall k :: View(buf[..], disk, k) == View(old(buf[..]), old(disk), k)
    {
      hide IsLru, Idle, HashOk, Unique, Clean, Counted, RamOut, Agrees, View, Cached, Rd;
      ghost var c, d := buf[..], disk;
      WriteBlock(bp);
      ListsFrame(c, buf[..], front, rear, lru, buf_hash[..], chains, NIL, NIL);
      WriteKeeps(c, buf[..], d, disk, bp, buf2[..], nr_buf2, buf2_idx);
    }

    /** put_block; the two flags are the ONE_SHOT and WRITE_IMMED bits of the block type. */
    method PutBlock(bp: int, one_shot: bool, write_immed: bool)
      requires Valid() && (bp == NIL || (0 <= bp < buf.Length && buf[bp].count > 0))
      modifies buf, this`front, this`rear, this`lru, this`bufs_in_use, this`disk
      ensures Valid() && Put(old(buf[..]), buf[..], bp)
      ensures forall k :: View(buf[..], disk, k) == View(old(buf[..]), old(disk), k)
      ensures !write_immed ==> disk == old(disk)
      ensures bufs_in_use <= old(bufs_in_use)
      ensures bp != NIL && buf[bp].count == 0 ==>
                if one_shot then front == bp else rear == bp
      ensures bp != NIL && buf[bp].count == 0 && write_immed && buf[bp].dev != NO_DEV ==> !buf[bp].dirty
    {
      if bp == NIL { return; }
      hide Valid, View;
      GiveBack(bp, one_shot);
      if buf[bp].count == 0 && write_immed && buf[bp].dirty && buf[bp].dev != NO_DEV { WriteThrough(bp); }
    }

    /** A user of buffer bp replaces its contents and marks it dirty, as zero_block and rw_chunk do. */
    method Store(bp: int, data: Block)
      requires Structure(NIL, NIL) && Contents(bp) && 0 <= bp < buf.Length && buf[bp].count > 0
      modifies buf
      ensures Valid()
      ensures buf[..] == old(buf[..])[bp := old(buf[bp]).(data := data, dirty := true)]
      ensures forall k :: View(buf[..], disk, k) ==
                if Holds(buf[..], bp, k) then data else View(old(buf[..]), disk, k)
    {
      hide IsLru, Idle, HashOk, Unique, Clean, Counted, RamOut, Agrees, View, Cached, Rd;
      ghost var b := buf[..];
      buf[bp] := buf[bp].(data := data);
      buf[bp] := buf[bp].(dirty := true);
      ListsFrame(b, buf[..], front, rear, lru, buf_hash[..], chains, NIL, NIL);
      StoreKeeps(b, buf[..], disk, bp, data, buf2[..], nr_buf2, buf2_idx);
    }

    /** do_sync: every device with a dirty buffer is flushed. */
    method Sync()
      requires Valid()
      modifies buf, this`disk, this`log
      ensures Valid() && SameButDirty(old(buf[..]), buf[..])
      ensures forall i :: 0 <= i < buf.Length && buf[i].dev != NO_DEV ==> !buf[i].dirty
      ensures forall k :: View(buf[..], disk, k) == View(old(buf[..]), old(disk), k)
      ensures forall k :: Rd(disk, k) == View(buf[..], disk, k)
    {
      hide IsLru, Idle, HashOk, Unique, Clean, Counted, RamOut, Agrees, View, Cached, Rd;
      ghost var b, d := buf[..], disk;
      var bp := 0;
      while bp < buf.Length
        invariant 0 <= bp <= buf.Length && Valid() && SameButDirty(b, buf[..])
        invariant forall i :: 0 <= i < bp && buf[i].dev != NO_DEV ==> !buf[i].dirty
        invariant forall k :: View(buf[..], disk, k) == View(b, d, k)
      {
        if buf[bp].dev != NO_DEV && buf[bp].dirty {
          ghost var c := buf[..];
          FlushAll(buf[bp].dev);
          ListsFrame(c, buf[..], front, rear, lru, buf_hash[..], chains, NIL, NIL);
        }
        bp := bp + 1;
      }
      AllClean(buf[..], disk);
    }

    /** init_cache2: enable the second level with size blocks, while the first level has no block of the RAM disk. */
    method InitCache2(size: nat)
      requires Valid() && nr_buf2 == 0 && buf2_idx == 0
      requires forall i :: 0 <= i < buf2.Length ==> buf2[i] == Buf2(0, NO_DEV, 0)
      requires forall i :: 0 <= i < buf.Length ==> buf[i].dev != DEV_RAM
      modifies this`nr_buf2
      ensures Valid() && nr_buf2 == if size > buf2.Length then buf2.Length else size
    {
      nr_buf2 := if size > buf2.Length then buf2.Length else size;
      EmptySecondLevel(buf[..], buf2[..], nr_buf2, disk);
    }

    /** invalidate2 */
    method Invalidate2(device: nat)
      requires device != NO_DEV && Counted(buf2[..], nr_buf2, buf2_idx)
      modifies buf2
      ensures Counted(buf2[..], nr_buf2, buf2_idx)
      ensures forall s :: 0 <= s < nr_buf2 ==> Dropped(old(buf2[..])[s], buf2[s], device)
    {
      ghost var was := buf2[..];
      var b := 0;
      while b < nr_buf2
        invariant 0 <= b && (nr_buf2 >= 0 ==> b <= nr_buf2)
        invariant Counted(buf2[..], nr_buf2, buf2_idx)
        invariant forall s :: 0 <= s < nr_buf2 ==>
                    if s < b then Dropped(was[s], buf2[s], device)
                    else buf2[s].dev == was[s].dev && buf2[s].blocknr == was[s].blocknr
      {
        if buf2[b].dev == device {
          DropSlot(b);
        }
        b := b + 1;
      }
    }

    /** invalidate2: one entry goes, and its hash slot counts one less. */
    method DropSlot(b: int)
      requires Counted(buf2[..], nr_buf2, buf2_idx) && 0 <= b < nr_buf2 && buf2[b].dev != NO_DEV
      modifies buf2
      ensures Counted(buf2[..], nr_buf2, buf2_idx) && buf2[b].dev == NO_DEV && buf2[b].blocknr == old(buf2[b].blocknr)
      ensures forall s :: 0 <= s < buf2.Length && s != b ==>
                buf2[s].dev == old(buf2[s].dev) && buf2[s].blocknr == old(buf2[s].blocknr)
    {
      ghost var was := buf2[..];
      buf2[b] := buf2[b].(dev := NO_DEV);
      var h' := Hash2(buf2[b].blocknr, buf2.Length);
      buf2[h'] := buf2[h'].(count := buf2[h'].count - 1);
      CountsMoved(was, buf2[..], nr_buf2, b);
    }

    /** invalidate: the device's blocks present again what is on the disk; all others are as they were. */
    method Invalidate(device: nat)
      requires Valid() && device != NO_DEV
      modifies buf, buf2
      ensures Valid()
      ensures forall i :: 0 <= i < buf.Length ==>
                buf[i] == if old(buf[i].dev) == device then old(buf[i]).(dev := NO_DEV) else old(buf[i])
      ensures forall k: Key :: k.dev != NO_DEV ==>
                View(buf[..], disk, k) == if k.dev == device then Rd(disk, k) else View(old(buf[..]), disk, k)
    {
      hide IsLru, Idle, HashOk, Unique, Clean, Counted, RamOut, Agrees, View, Cached, Rd;
      ghost var b, t := buf[..], buf2[..];
      var bp := 0;
      while bp < buf.Length
        modifies buf
        invariant 0 <= bp <= buf.Length && buf2[..] == t
        invariant forall i :: 0 <= i < buf.Length ==>
                    buf[i] == if i < bp && b[i].dev == device then b[i].(dev := NO_DEV) else b[i]
      {
        if buf[bp].dev == device { buf[bp] := buf[bp].(dev := NO_DEV); }
        bp := bp + 1;
      }
      Invalidate2(device);
      ListsFrame(b, buf[..], front, rear, lru, buf_hash[..], chains, NIL, NIL);
      InvalidateKeeps(b, buf[..], disk, device, t, buf2[..], nr_buf2, buf2_idx);
    }

    /** buf_pool: all buffers idle, nameless, and on hash chain 0. */
    constructor (nr_bufs: nat, nr_buf_hash: nat, max_buf2: nat, nr_ioreqs: nat, device: Disk)
      requires nr_bufs > 0 && nr_buf_hash > 0 && max_buf2 > 0 && nr_ioreqs > 0
      ensures Valid() && fresh(buf) && fresh(buf_hash) && fresh(buf2)
      ensures buf.Length == nr_bufs && buf_hash.Length == nr_buf_hash && buf2.Length == max_buf2
      ensures disk == device && nr_buf2 == 0 && bufs_in_use == 0 && log == []
      ensures forall k: Key :: View(buf[..], disk, k) == Rd(device, k)
      ensures buf2_idx == 0 && forall i :: 0 <= i < max_buf2 ==> buf2[i] == Buf2(0, NO_DEV, 0)
      ensures forall i :: 0 <= i < nr_bufs ==> buf[i].dev == NO_DEV && buf[i].count == 0
    {
      buf := new Buf[nr_bufs](_ => Buf([], NIL, NIL, NIL, 0, NO_DEV, false, 0));
      buf_hash := new int[nr_buf_hash](_ => NIL);
      buf2 := new Buf2[max_buf2](_ => Buf2(0, NO_DEV, 0));
      NR_IOREQS := nr_ioreqs;
      nr_buf2, buf2_idx, disk, log := 0, 0, device, [];
      bufs_in_use := 0;
      front := 0;
      rear := nr_bufs - 1;
      lru := seq(nr_bufs, i => i);
      chains := seq(nr_buf_hash, h => if h == 0 then seq(nr_bufs, i => i) else []);
      new;
      BufPool();
    }

    /** buf_pool: links the buffers up. */
    method BufPool()
      requires buf.Length > 0 && NR_IOREQS > 0 && buf_hash.Length > 0 && buf2.Length > 0
      requires forall i :: 0 <= i < buf.Length ==> buf[i] == Buf([], NIL, NIL, NIL, 0, NO_DEV, false, 0)
      requires forall h :: 0 <= h < buf_hash.Length ==> buf_hash[h] == NIL
      requires forall i :: 0 <= i < buf2.Length ==> buf2[i] == Buf2(0, NO_DEV, 0)
      requires nr_buf2 == 0 && buf2_idx == 0 && bufs_in_use == 0 && front == 0 && rear == buf.Length - 1
      requires lru == seq(buf.Length, i => i)
      requires chains == seq(buf_hash.Length, h => if h == 0 then seq(buf.Length, i => i) else [])
      modifies buf, buf_hash
      ensures Valid() && forall i :: 0 <= i < buf.Length ==> buf[i].dev == NO_DEV && buf[i].count == 0
      ensures forall k: Key :: View(buf[..], disk, k) == Rd(disk, k)
    {
      hide IsLru, Idle, HashOk, Unique, Clean, Counted, RamOut, Agrees, View;
      ChainPool();
      buf_hash[0] := front;
      PoolLists(buf[..], buf.Length, buf_hash[..], chains, lru);
      Nameless(buf[..], buf2[..], disk);
    }

    /** buf_pool: the two loops over the table. */
    method ChainPool()
      requires buf.Length > 0 && forall i :: 0 <= i < buf.Length ==> PoolSlot(buf[i], NIL, NIL, NIL)
      modifies buf
      ensures forall i :: 0 <= i < buf.Length ==>
                var next := if i + 1 < buf.Length then i + 1 else NIL;
                PoolSlot(buf[i], next, i - 1, next)
    {
      var bp := 0;
      while bp < buf.Length
        invariant 0 <= bp <= buf.Length
        invariant forall i :: 0 <= i < buf.Length ==>
                    if i < bp then PoolSlot(buf[i], i + 1, i - 1, NIL) else PoolSlot(buf[i], NIL, NIL, NIL)
      {
        buf[bp] := buf[bp].(blocknr := NO_BLOCK);
        buf[bp] := buf[bp].(dev := NO_DEV);
        buf[bp] := buf[bp].(next := bp + 1);
        buf[bp] := buf[bp].(prev := bp - 1);
        bp := bp + 1;
      }
      buf[0] := buf[0].(prev := NIL);
      buf[buf.Length - 1] := buf[buf.Length - 1].(next := NIL);
      bp := 0;
      while bp < buf.Length
        invariant 0 <= bp <= buf.Length
        invariant forall i :: 0 <= i < buf.Length ==>
                    var next := if i + 1 < buf.Length then i + 1 else NIL;
                    PoolSlot(buf[i], next, i - 1, if i < bp then next else NIL)
      {
        buf[bp] := buf[bp].(hash := buf[bp].next);
        bp := bp + 1;
      }
    }

    lemma OneEach()
      requires Valid()
      ensures Unique(buf[..])
    {
    }

    /** dev_io: block blocknr of the device arrives in buffer bp. */
    method ReadIn(bp: int, dev: nat, blocknr: nat)
      requires Valid() && 0 <= bp < buf.Length && buf[bp].dev == NO_DEV && buf[bp].blocknr == blocknr
      modifies buf
      ensures Valid() && Arrived(buf[..], disk, bp, dev)
      ensures buf[..] == old(buf[..])[bp := old(buf[bp]).(data := Rd(disk, Key(dev, blocknr)))]
    {
      hide IsLru, Idle, HashOk, Unique, Clean, Counted, RamOut, Agrees, View, Cached, Rd, Arrived;
      ghost var c := buf[..];
      buf[bp] := buf[bp].(data := Rd(disk, Key(dev, blocknr)));
      assert buf[..] == c[bp := c[bp].(data := Rd(disk, Key(dev, blocknr)))];
      ListsFrame(c, buf[..], front, rear, lru, buf_hash[..], chains, NIL, NIL);
      UnnamedData(c, buf[..], disk, bp, dev, buf2[..], nr_buf2, buf2_idx);
    }

    /** dev_io on a vector of optional reads: the driver may leave any of them undone. */
    method DevIoRead(dev: nat, bufq: array<int>, base: nat, iovec: array<IoReq>, j: nat)
      requires j <= iovec.Length && base + j <= bufq.Length && Valid()
      requires Queued(buf[..], bufq[..], base, base + j, dev)
      requires forall i :: 0 <= i < j ==> iovec[i].block == buf[bufq[base + i]].blocknr && iovec[i].nbytes == BLOCK_SIZE
      modifies iovec, buf
      ensures Valid() && KeptOutside(old(buf[..]), buf[..], bufq[base..base + j])
      ensures SameButUnnamed(old(buf[..]), buf[..])
      ensures forall k: Key :: k.dev != NO_DEV ==> View(buf[..], disk, k) == View(old(buf[..]), disk, k)
      ensures forall i :: 0 <= i < j && iovec[i].nbytes == 0 ==> Arrived(buf[..], disk, bufq[base + i], dev)
    {
      hide IsLru, Idle, HashOk, Unique, Clean, Counted, RamOut, Agrees, View, Cached, Rd, Arrived, Structure, Contents, Valid;
      ghost var b := buf[..];
      OneEach();
      var i := 0;
      while i < j
        invariant 0 <= i <= j && Valid() && SameButUnnamed(b, buf[..])
        invariant KeptOutside(b, buf[..], bufq[base..base + j])
        invariant forall m :: i <= m < j ==> iovec[m].block == b[bufq[base + m]].blocknr && iovec[m].nbytes == BLOCK_SIZE
        invariant forall m :: 0 <= m < i && iovec[m].nbytes == 0 ==> Arrived(buf[..], disk, bufq[base + m], dev)
      {
        var bp := bufq[base + i];
        assert bufq[base..base + j][i] == bp;
        if * {
          ghost var c := buf[..];
          ReadIn(bp, dev, iovec[i].block);
          UnnamedOne(b, c, buf[..], disk, bufq[base..base + j], bp, dev);
          forall m | 0 <= m < i && iovec[m].nbytes == 0
            ensures Arrived(buf[..], disk, bufq[base + m], dev)
          {
            ArrivedFrame(c, buf[..], disk, bufq[base + m], bp, dev);
          }
          iovec[i] := iovec[i].(nbytes := 0);
        }
        i := i + 1;
      }
      UnnamedViews(b, buf[..], disk);
    }

    /** rw_scattered, READING: validate one block if it was read, and give it back. */
    method HarvestOne(bp: int, dev: nat, done: bool)
      requires Valid() && Awaiting(buf[..], bp, dev) && (dev == DEV_RAM ==> nr_buf2 == 0)
      requires done ==> Arrived(buf[..], disk, bp, dev)
      modifies buf, this`front, this`rear, this`lru, this`bufs_in_use, this`disk
      ensures Valid() && disk == old(disk) && bufs_in_use <= old(bufs_in_use)
      ensures Harvested(old(buf[..]), buf[..], bp, dev)
      ensures forall k: Key :: k.dev != NO_DEV ==> View(buf[..], disk, k) == View(old(buf[..]), disk, k)
    {
      hide IsLru, Idle, HashOk, Unique, Clean, Counted, RamOut, Agrees, View, Cached, Rd;
      ghost var b := buf[..];
      if done {
        buf[bp] := buf[bp].(dev := dev);
        ListsFrame(b, buf[..], front, rear, lru, buf_hash[..], chains, NIL, NIL);
        Validated(b, buf[..], disk, bp, dev, buf2[..], nr_buf2, buf2_idx);
      }
      PutBlock(bp, false, false);
    }

    /** rw_scattered, READING: harvest the results of one batch. */
    method HarvestReads(dev: nat, bufq: array<int>, base: nat, j: nat, bufqsize: nat, iovec: array<IoReq>)
      requires j <= iovec.Length && base + j <= bufqsize <= bufq.Length
      requires Valid() && Queued(buf[..], bufq[..], base, bufqsize, dev) && (dev == DEV_RAM ==> nr_buf2 == 0)
      requires forall i :: 0 <= i < j && iovec[i].nbytes == 0 ==> Arrived(buf[..], disk, bufq[base + i], dev)
      requires Distinct(bufq[..bufqsize])
      modifies buf, this`front, this`rear, this`lru, this`bufs_in_use, this`disk
      ensures Valid() && Queued(buf[..], bufq[..], base + j, bufqsize, dev) && disk == old(disk)
      ensures KeptOutside(old(buf[..]), buf[..], bufq[..bufqsize]) && bufs_in_use <= old(bufs_in_use)
      ensures Given(old(buf[..]), buf[..], bufq[base..base + j])
      ensures forall k: Key :: k.dev != NO_DEV ==> View(buf[..], disk, k) == View(old(buf[..]), disk, k)
    {
      hide IsLru, Idle, HashOk, Unique, Clean, Counted, RamOut, Agrees, View, Cached, Rd, Valid, Structure, Contents, Awaiting;
      hide Queued, Arrived, Harvested;
      ghost var b, q := buf[..], bufq[..];
      var i := 0;
      while i < j
        invariant 0 <= i <= j && q == bufq[..] && disk == old(disk)
        invariant Valid() && Queued(buf[..], q, base + i, bufqsize, dev) && bufs_in_use <= old(bufs_in_use)
        invariant forall m :: i <= m < j && iovec[m].nbytes == 0 ==> Arrived(buf[..], disk, bufq[base + m], dev)
        invariant KeptOutside(b, buf[..], q[..bufqsize]) && Given(b, buf[..], q[base..base + i])
        invariant forall k: Key :: k.dev != NO_DEV ==> View(buf[..], disk, k) == View(b, disk, k)
      {
        var bp := bufq[base + i];
        ghost var c := buf[..];
        QueuedFirst(c, q, base, base + i, bufqsize, dev);
        HarvestOne(bp, dev, iovec[i].nbytes == 0);
        HarvestedRest(c, buf[..], q, base + i, bufqsize, dev);
        forall m | i < m < j && iovec[m].nbytes == 0
          ensures Arrived(buf[..], disk, bufq[base + m], dev)
        {
          HarvestedArrived(c, buf[..], q, base + i, base + m, bufqsize, dev, disk);
        }
        HarvestedKept(b, c, buf[..], q, base, base + i, bufqsize, dev);
        i := i + 1;
      }
    }

    /** rw_scattered, READING: one batch of at most NR_IOREQS requests. */
    method ReadBatch(dev: nat, bufq: array<int>, base: nat, bufqsize: nat, iovec: array<IoReq>, ghost b0: seq<Buf>)
      returns (j: nat)
      requires base <= bufqsize && Queue(buf[..], bufq[..], bufqsize)
      requires Valid() && Queued(buf[..], bufq[..], base, bufqsize, dev) && (dev == DEV_RAM ==> nr_buf2 == 0)
      requires Distinct(bufq[..bufqsize])
      requires KeptOutside(b0, buf[..], bufq[..bufqsize]) && Given(b0, buf[..], bufq[..base])
      modifies buf, iovec, this`front, this`rear, this`lru, this`bufs_in_use, this`disk
      ensures j <= iovec.Length && base + j <= bufqsize && (j == iovec.Length || base + j == bufqsize)
      ensures Valid() && Queued(buf[..], bufq[..], base + j, bufqsize, dev) && disk == old(disk)
      ensures Queue(buf[..], bufq[..], bufqsize)
      ensures KeptOutside(b0, buf[..], bufq[..bufqsize]) && Given(b0, buf[..], bufq[..base + j])
      ensures bufs_in_use <= old(bufs_in_use)
      ensures forall k: Key :: k.dev != NO_DEV ==> View(buf[..], disk, k) == View(old(buf[..]), disk, k)
    {
      hide IsLru, Idle, HashOk, Unique, Clean, Counted, RamOut, Agrees, View, Cached, Rd, Valid, Structure, Contents;
      hide Queued, Arrived, KeptOutside, Given, SameButUnnamed, Queue;
      ghost var b, q := buf[..], bufq[..];
      QueuedSplit(b, q, base, bufqsize, dev);
      j := FillVector(bufq, base, bufqsize, iovec);
      DevIoRead(dev, bufq, base, iovec, j);
      ghost var c := buf[..];
      UnnamedQueue(b, c, q, base, bufqsize, dev);
      HarvestReads(dev, bufq, base, j, bufqsize, iovec);
      KeptByBoth(b, c, buf[..], q, base, base + j, bufqsize);
      KeptTrans(b0, b, buf[..], q, base, base + j, bufqsize);
      QueueStays(b, buf[..], q, bufqsize);
    }

    /** rw_scattered, READING: reads what the driver is willing to read, and gives all queued buffers back. */
    method RwScatteredRead(dev: nat, bufq: array<int>, bufqsize: nat)
      requires Valid() && Queued(buf[..], bufq[..], 0, bufqsize, dev) && (dev == DEV_RAM ==> nr_buf2 == 0)
      requires bufq != buf_hash
      modifies bufq, buf, this`front, this`rear, this`lru, this`bufs_in_use, this`disk
      ensures Valid() && disk == old(disk) && bufs_in_use <= old(bufs_in_use)
      ensures KeptOutside(old(buf[..]), buf[..], old(bufq[..bufqsize]))
      ensures Given(old(buf[..]), buf[..], old(bufq[..bufqsize]))
      ensures forall k: Key :: k.dev != NO_DEV ==> View(buf[..], disk, k) == View(old(buf[..]), disk, k)
    {
      assert NR_IOREQS > 0;
      hide IsLru, Idle, HashOk, Unique, Clean, Counted, RamOut, Agrees, View, Cached, Rd, Valid, Structure, Contents;
      hide Arrived, KeptOutside, SortedQueue, Rearranged, Given, Distinct, Queued, Queue;
      ghost var b, q0 := buf[..], bufq[..];
      QueuedIsQueue(b, q0, bufqsize, dev);
      ShellSort(buf, bufq, bufqsize);
      ghost var q := bufq[..];
      QueuedRearranged(b, q0, q, bufqsize, dev);
      var iovec := new IoReq[NR_IOREQS](_ => IoReq(0, [], 0));
      var base := 0;
      KeptAll(b, q, bufqsize);
      while base < bufqsize
        invariant 0 <= base <= bufqsize && q == bufq[..] && Queue(buf[..], q, bufqsize)
        invariant Valid() && Queued(buf[..], q, base, bufqsize, dev) && disk == old(disk)
        invariant bufs_in_use <= old(bufs_in_use) && nr_buf2 == old(nr_buf2)
        invariant KeptOutside(b, buf[..], q[..bufqsize]) && Given(b, buf[..], q[..base])
        invariant forall k: Key :: k.dev != NO_DEV ==> View(buf[..], disk, k) == View(b, disk, k)
      {
        var j := ReadBatch(dev, bufq, base, bufqsize, iovec, b);
        base := base + j;
      }
      KeptSameMembers(b, buf[..], q0, q, bufqsize);
    }

    /** rahead: get a buffer to read block into; NIL if the block is already in the cache. */
    method Prefetch(dev: nat, block: nat) returns (bp: int)
      requires Valid() && dev != NO_DEV && bufs_in_use < buf.Length
      modifies this, buf, buf_hash, buf2
      ensures Valid() && (nr_buf2 == old(nr_buf2) || nr_buf2 == 0)
      ensures bp != NIL ==> bufs_in_use == old(bufs_in_use) + 1 && (dev == DEV_RAM ==> nr_buf2 == 0)
      ensures bp != NIL ==> Awaiting(buf[..], bp, dev) && buf[bp].blocknr == block && old(buf[..])[bp].count == 0
      ensures StillAwaiting(old(buf[..]), buf[..], dev, block) && KeptHeld(old(buf[..]), buf[..])
      ensures Taken(old(buf[..]), buf[..], if bp == NIL then [] else [bp])
      ensures KeepsViews(old(buf[..]), old(disk), buf[..], disk, old(nr_buf2), Key(NO_DEV, 0))
    {
      hide IsLru, Idle, HashOk, Unique, Clean, Counted, RamOut, Agrees, View, Cached, Rd, KeepsViews, KeptHeld;
      hide Got, Put, Presents, StillAwaiting, Awaiting, Taken;
      ghost var b, d, nr := buf[..], disk, nr_buf2;
      IdleExists(b, front, rear, lru);
      bp := GetBlock(dev, block, PREFETCH);
      ghost var c, d1 := buf[..], disk;
      GotPrefetch(b, c, d, d1, nr, bp, Key(dev, block));
      if buf[bp].dev != NO_DEV {
        PutBlock(bp, false, false);
        GivenBack(b, c, buf[..], d, d1, disk, nr, bp, Key(dev, block));
        bp := NIL;
      }
    }

    /** rahead: acquire block buffers, starting from bp for block. */
    method FillQueue(dev: nat, bp0: int, block0: nat, blocks_ahead0: nat, read_q: array<int>) returns (read_q_size: nat)
      requires Valid() && Awaiting(buf[..], bp0, dev) && buf[bp0].blocknr == block0 && (dev == DEV_RAM ==> nr_buf2 == 0)
      requires read_q.Length == buf.Length && read_q != buf_hash
      modifies this, buf, buf_hash, buf2, read_q
      ensures Valid() && (dev == DEV_RAM ==> nr_buf2 == 0) && (nr_buf2 == old(nr_buf2) || nr_buf2 == 0)
      ensures 0 < read_q_size <= read_q.Length && read_q[0] == bp0
      ensures Queued(buf[..], read_q[..], 0, read_q_size, dev)
      ensures forall m :: 0 < m < read_q_size ==> 0 <= read_q[m] < buf.Length && old(buf[..])[read_q[m]].count == 0
      ensures KeptHeld(old(buf[..]), buf[..]) && Taken(old(buf[..]), buf[..], read_q[1..read_q_size])
      ensures KeepsViews(old(buf[..]), old(disk), buf[..], disk, old(nr_buf2), Key(NO_DEV, 0))
    {
      hide IsLru, Idle, HashOk, Unique, Clean, Counted, RamOut, Agrees, View, Cached, Rd, KeepsViews, KeptHeld;
      hide StillAwaiting, Contents, Stable, Taken;
      var bp, block, blocks_ahead := bp0, block0, blocks_ahead0;
      ghost var b, d, nr := buf[..], disk, nr_buf2;
      read_q_size := 0;
      FillStart(b, d, nr, bp, block, dev);
      InUse(b, front, rear, lru, bp);
      while true
        invariant Valid() && (dev == DEV_RAM ==> nr_buf2 == 0) && (nr_buf2 == nr || nr_buf2 == 0)
        invariant 0 <= read_q_size < bufs_in_use
        invariant Filling(b, buf[..], read_q[..], read_q_size, bp0, bp, block, dev)
        invariant KeepsViews(b, d, buf[..], disk, nr, Key(NO_DEV, 0))
        decreases buf.Length - read_q_size
      {
        ghost var c, q, d1 := buf[..], read_q[..], disk;
        read_q[read_q_size] := bp;
        FillOne(b, c, q, read_q_size, bp0, bp, block, dev);
        read_q_size := read_q_size + 1;
        blocks_ahead := if blocks_ahead == 0 then UINT_MAX else blocks_ahead - 1;
        if blocks_ahead == 0 { break; }
        if bufs_in_use >= buf.Length - 4 { break; }
        ghost var p, nr1 := read_q[..], nr_buf2;
        block := block + 1;
        bp := Prefetch(dev, block);
        FillMore(b, c, buf[..], p, read_q_size, bp0, bp, block, dev);
        ViewsTrans(b, d, c, d1, buf[..], disk, nr, nr1);
        if bp == NIL { break; }
      }
    }

    /** rahead: fetch a block, reading as many blocks behind it as is convenient. */
    method RAhead(dev: nat, baseblock: nat, blocks_ahead: nat) returns (bp: int)
      requires Valid() && dev != NO_DEV
      modifies this, buf, buf_hash, buf2
      ensures Valid() && (nr_buf2 == old(nr_buf2) || nr_buf2 == 0)
      ensures KeepsViews(old(buf[..]), old(disk), buf[..], disk, old(nr_buf2), Key(NO_DEV, 0))
      ensures bp == NIL <==> old(front) == NIL && !Cached(old(buf[..]), NIL, Key(dev, baseblock))
      ensures bp == NIL ==> AllInUse(old(buf[..]))
      ensures bp == NIL ==> KeptHeld(old(buf[..]), buf[..]) && Taken(old(buf[..]), buf[..], [])
      ensures bp != NIL ==> ReadFor(old(buf[..]), buf[..], bp, Key(dev, baseblock))
      ensures bp != NIL && Stable(old(nr_buf2), Key(dev, baseblock)) ==>
                buf[bp].data == View(old(buf[..]), old(disk), Key(dev, baseblock))
    {
      hide IsLru, Idle, HashOk, Unique, Clean, Counted, RamOut, Agrees, View, Cached, Rd, KeepsViews, KeptHeld;
      hide Got, Queued, Contents, KeptOutside, Taken, Given, ReadFor, Stable;
      ghost var b, d, nr, k := buf[..], disk, nr_buf2, Key(dev, baseblock);
      bp := GetBlock(dev, baseblock, PREFETCH);
      ghost var b1, d1, nr1 := buf[..], disk, nr_buf2;
      if bp == NIL { KeptSelf(b, d, nr); return; }
      GotRead(b, b1, d, nr, bp, k);
      if buf[bp].dev != NO_DEV { return; }
      GotPrefetch(b, b1, d, d1, nr, bp, k);
      var read_q := new int[buf.Length](_ => 0);
      var n := FillQueue(dev, bp, baseblock, blocks_ahead, read_q);
      ghost var b2, d2, nr2, q := buf[..], disk, nr_buf2, read_q[..];
      RwScatteredRead(dev, read_q, n);
      ghost var b3, d3 := buf[..], disk;
      AheadDone(b, b1, b2, b3, q, n, bp, dev, baseblock);
      ViewsChain(b, d, b1, d1, b2, d2, b3, d3, nr, nr1, nr2);
      bp := GetBlock(dev, baseblock, NORMAL);
      AheadRead(b, d, b3, d3, buf[..], disk, nr, nr2, bp, k);
    }
  }
}
