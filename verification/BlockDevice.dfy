/** One device as the file system sees it through the block cache: an array of blocks. */
module BlockDevice {
  import opened Basics
  import opened BlockTypes
  import opened CacheSteps
  import opened CacheClient
  import opened SecondLevel
  import B = BlockCache
  import Z = ZoneEntries

  /** The sizes of a cache: buffers, hash chains, slots of the second level, requests at once, and slots asked for. */
  datatype Sizes = Sizes(bufs: nat, hash: nat, max2: nat, ioreqs: nat, level2: nat)
  {
    /** There is something of each, and a second level does not take the RAM disk away from its users. */
    predicate Serves(dev: nat) {
      bufs > 0 && hash > 0 && max2 > 0 && ioreqs > 0 && dev != NO_DEV && (dev == DEV_RAM ==> level2 == 0)
    }
  }

  /** The first blocks of a device. */
  ghost predicate OnDisk(m: Disk, dev: nat, blocks: seq<Z.Block>) {
    forall b {:trigger blocks[b]} :: 0 <= b < |blocks| ==> Rd(m, Key(dev, b)) == blocks[b]
  }

  class BlockDevice {
    const c: B.BlockCache
    const dev: nat
    ghost const nr: int
    /** All objects that requests may change. */
    ghost const parts: set<object>
    /** What all blocks of all devices contain, and what those of this one do. */
    ghost var m: Disk
    ghost var blocks: seq<Z.Block>

    ghost predicate Valid()
      reads this, parts
    {
      && parts == {this, c, c.buf, c.buf_hash, c.buf2} && dev != NO_DEV && (dev != DEV_RAM || nr == 0)
      && Tied(c, [], Client(m, []), nr)
      && OnDisk(m, dev, blocks)
    }

    constructor (c: B.BlockCache, dev: nat, ghost m: Disk, ghost blocks: seq<Z.Block>)
      requires Tied(c, [], Client(m, []), c.nr_buf2) && dev != NO_DEV && (dev != DEV_RAM || c.nr_buf2 == 0)
      requires OnDisk(m, dev, blocks)
      ensures Valid() && this.c == c && this.dev == dev && this.blocks == blocks
    {
      this.c, this.dev, this.nr, this.m, this.blocks := c, dev, c.nr_buf2, m, blocks;
      this.parts := {this, c, c.buf, c.buf_hash, c.buf2};
    }

    /** A device in a new cache. */
    constructor New(cache: Sizes, device: Disk, dev: nat, ghost blocks: seq<Z.Block>)
      requires cache.Serves(dev) && OnDisk(device, dev, blocks)
      ensures Valid() && fresh(parts) && this.dev == dev && this.blocks == blocks
    {
      var c := new B.BlockCache(cache.bufs, cache.hash, cache.max2, cache.ioreqs, device);
      c.InitCache2(cache.level2);
      this.c, this.dev, this.nr, this.m, this.blocks := c, dev, c.nr_buf2, device, blocks;
      this.parts := {this, c, c.buf, c.buf_hash, c.buf2};
    }

    /** No buffer is in use between two requests, so there is always one to be had. */
    lemma NoPanic(r: Request)
      requires Valid()
      ensures !Panics(Client(m, []), r, c.buf.Length)
    {
      assert c.Valid();
      assert Elements<Key>([]) == {};
    }

    /** get_block, and put_block when the contents have been looked at. */
    method Read(b: nat) returns (data: Z.Block)
      requires Valid() && b < |blocks|
      modifies parts
      ensures Valid() && blocks == old(blocks) && data == blocks[b]
    {
      hide Tied, Panics;
      var k := Key(dev, b);
      ghost var s := Client(m, []);
      assert Rd(m, k) == blocks[b];
      NoPanic(Get(k));
      var held, ok := DoGet(c, k, [], s, nr);
      s := After(s, Get(k), nr);
      data := LookAndPut(held, k, s);
    }

    /** rahead, and put_block when the contents have been looked at. */
    method ReadAhead(b: nat, ahead: nat) returns (data: Z.Block)
      requires Valid() && b < |blocks|
      modifies parts
      ensures Valid() && blocks == old(blocks) && data == blocks[b]
    {
      hide Tied, Panics;
      var k := Key(dev, b);
      ghost var s := Client(m, []);
      assert Rd(m, k) == blocks[b];
      NoPanic(Ahead(k, ahead));
      var held, ok := DoAhead(c, k, ahead, [], s, nr);
      s := After(s, Ahead(k, ahead), nr);
      data := LookAndPut(held, k, s);
    }

    method LookAndPut(held: seq<int>, ghost k: Key, ghost s: Client) returns (data: Block)
      requires parts == {this, c, c.buf, c.buf_hash, c.buf2} && Tied(c, held, s, nr) && s == Client(m, [k])
      modifies c, c.buf
      ensures Tied(c, [], Client(m, []), nr) && data == Rd(m, k)
    {
      assert |held| == 1 by { assert Holding(c.buf[..], held, s.names); }
      hide Tied;
      data := DoLook(c, 0, held, s, nr);
      var one_shot, immed := *, *;
      var none := DoGiveBack(c, 0, one_shot, immed, held, s, nr);
      NoneHeld(none, After(s, GiveBack(0, one_shot, immed), nr));
    }

    lemma NoneHeld(held: seq<int>, s: Client)
      requires Tied(c, held, s, nr) && s.names == []
      ensures held == [] && s == Client(s.m, [])
    {
      assert Holding(c.buf[..], held, s.names);
    }

    /** get_block without reading, all of it overwritten, and put_block, of whatever type. */
    method Write(b: nat, data: Z.Block)
      requires Valid() && b < |blocks|
      modifies parts
      ensures Valid() && blocks == old(blocks)[b := data]
    {
      hide Tied, Panics;
      var k := Key(dev, b);
      ghost var s := Client(m, []);
      assert Rd(m, k) == blocks[b];
      NoPanic(Fill(k, data));
      var held, ok := DoFill(c, k, data, [], s, nr);
      s := After(s, Fill(k, data), nr);
      m := s.m;
      blocks := blocks[b := data];
      OneHeld(held, s);
      var one_shot, immed := *, *;
      held := DoGiveBack(c, 0, one_shot, immed, held, s, nr);
      NoneHeld(held, After(s, GiveBack(0, one_shot, immed), nr));
    }

    /** do_sync: the disk alone has the blocks now. */
    method Sync()
      requires Valid()
      modifies parts
      ensures Valid() && blocks == old(blocks) && OnDisk(c.disk, dev, blocks)
    {
      hide Tied;
      DoSync(c, [], Client(m, []), nr);
      forall b | 0 <= b < |blocks| ensures Rd(c.disk, Key(dev, b)) == blocks[b] {
        assert Rd(m, Key(dev, b)) == blocks[b] && Stable(nr, Key(dev, b));
      }
    }

    lemma OneHeld(held: seq<int>, s: Client)
      requires Tied(c, held, s, nr)
      ensures |held| == |s.names|
    {
      assert Holding(c.buf[..], held, s.names);
    }
  }
}
