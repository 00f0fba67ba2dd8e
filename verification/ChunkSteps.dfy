/** From blocks on the device to blocks of files (src/fs/read.c, rw_chunk; src/fs/write.c, new_block and clear_zone). */
module ChunkSteps {
  import opened Arith
  import opened ZoneEntries
  import opened ZoneMap
  import opened FileBlocks
  import opened FileBytes
  import opened FileWrites
  import opened MapSteps

  ghost predicate SetsBlock(v: Volume, w: Volume, i: int, lo: int, hi: int, data: Block, j: int, q: int)
    requires w.g == v.g && v.g.perZone > 0
  {
    InFile(v, j, q) ==> BlockAt(w, j, q) == if j == i && lo <= q < hi then data else BlockAt(v, j, q)
  }

  /** Blocks lo up to below hi of file i hold data now; that is all that has changed. */
  ghost predicate BlocksSet(v: Volume, w: Volume, i: int, lo: int, hi: int, data: Block) {
    && w.g == v.g && v.g.perZone > 0 && w.inodes == v.inodes && w.role == v.role
    && (forall j, m :: 0 <= j < |v.inodes| && 0 <= m < Capacity(v.g) ==> ZoneAt(w, j, m) == ZoneAt(v, j, m))
    && forall j, q {:trigger SetsBlock(v, w, i, lo, hi, data, j, q)} :: SetsBlock(v, w, i, lo, hi, data, j, q)
  }

  /** Writing a block of a file on the device. */
  lemma BlockPut(v: Volume, i: int, q: nat, data: Block)
    requires Inv(v) && InFile(v, i, q) && ZoneAt(v, i, q / v.g.perZone) != NO_ZONE
    ensures var w := Put(v, ZoneAt(v, i, q / v.g.perZone), q % v.g.perZone, data);
      Inv(w) && BlocksSet(v, w, i, q, q + 1, data)
  {
    hide Get, At, BlockAt;
    var o, hi := q % v.g.perZone, q + 1;
    var z := ZoneAt(v, i, q / v.g.perZone);
    var w := Put(v, z, o, data);
    PuttableAt(v, i, q);
    PutInv(v, z, o, data);
    hide Inv;
    forall j, m | 0 <= j < |v.inodes| && 0 <= m < Capacity(v.g) ensures ZoneAt(w, j, m) == ZoneAt(v, j, m) {
      DataRoleProper(v, j, m);
      PutAt(v, z, o, data, DataRole(v.g, j, m));
    }
    forall j, r ensures SetsBlock(v, w, i, q, hi, data, j, r) { if InFile(v, j, r) { PutSets(v, i, q, data, j, r); } }
  }

  lemma PuttableAt(v: Volume, i: int, q: nat)
    requires Inv(v) && InFile(v, i, q) && ZoneAt(v, i, q / v.g.perZone) != NO_ZONE
    ensures CanPut(v, ZoneAt(v, i, q / v.g.perZone), q % v.g.perZone)
  {
    DataRoleProper(v, i, q / v.g.perZone);
    InRange(v, DataRole(v.g, i, q / v.g.perZone));
    Euclid(q, v.g.perZone);
  }

  lemma PutSets(v: Volume, i: int, q: nat, data: Block, j: int, r: nat)
    requires Inv(v) && InFile(v, i, q) && InFile(v, j, r) && ZoneAt(v, i, q / v.g.perZone) != NO_ZONE
    requires CanPut(v, ZoneAt(v, i, q / v.g.perZone), q % v.g.perZone)
    ensures Put(v, ZoneAt(v, i, q / v.g.perZone), q % v.g.perZone, data).g == v.g
    ensures SetsBlock(v, Put(v, ZoneAt(v, i, q / v.g.perZone), q % v.g.perZone, data), i, q, q + 1, data, j, r)
  {
    hide Get, Inv, BlockAt, At, Put, CanPut;
    var z := ZoneAt(v, i, q / v.g.perZone);
    PutBlock(v, z, q % v.g.perZone, data, j, r);
    if ZoneAt(v, j, r / v.g.perZone) == z {
      OneZone(v, i, q / v.g.perZone, j, r / v.g.perZone);
      Euclid(q, v.g.perZone);
      Euclid(r, v.g.perZone);
    }
  }

  /** A zone belongs to one file, at one place. */
  lemma OneZone(v: Volume, i: int, n: nat, j: int, m: nat)
    requires Inv(v) && 0 <= i < |v.inodes| && 0 <= j < |v.inodes| && n < Capacity(v.g) && m < Capacity(v.g)
    requires ZoneAt(v, i, n) == ZoneAt(v, j, m) != NO_ZONE
    ensures i == j && n == m
  {
    DataRoleProper(v, i, n);
    DataRoleProper(v, j, m);
    Distinct(v, DataRole(v.g, i, n), DataRole(v.g, j, m));
    DataRoleInjective(v.g, i, n, j, m);
  }

  lemma SetMore(v: Volume, u: Volume, w: Volume, i: int, lo: int, q: int, data: Block)
    requires BlocksSet(v, u, i, lo, q, data) && BlocksSet(u, w, i, q, q + 1, data) && lo <= q
    ensures BlocksSet(v, w, i, lo, q + 1, data)
  {
    hide BlockAt, ZoneAt;
    var hi := q + 1;
    forall j, r ensures SetsBlock(v, w, i, lo, hi, data, j, r) {
      assert SetsBlock(v, u, i, lo, q, data, j, r) && SetsBlock(u, w, i, q, q + 1, data, j, r);
    }
  }

  lemma SetNone(v: Volume, i: int, lo: int, data: Block)
    requires v.g.perZone > 0
    ensures BlocksSet(v, v, i, lo, lo, data)
  {
  }

  /** Only the file the blocks belong to is touched. */
  lemma SetOthers(v: Volume, w: Volume, i: int, lo: int, hi: int, data: Block)
    requires BlocksSet(v, w, i, lo, hi, data)
    ensures OthersSame(v, w, i)
  {
    hide BlockAt, ZoneAt;
    forall j | 0 <= j < |v.inodes| && j != i ensures SameFile(v, w, j) {
      forall q | InFile(v, j, q) ensures BlockAt(w, j, q) == BlockAt(v, j, q) { assert SetsBlock(v, w, i, lo, hi, data, j, q); }
    }
  }

  /** Zeros in the last blocks of a zone, from the first one behind byte f on. */
  lemma ClearedEnd(v: Volume, w: Volume, i: int, f: nat, lo: nat, hi: nat)
    requires 0 <= i < |v.inodes| && v.g.perZone > 0 && BlocksSet(v, w, i, lo, hi, Zeros())
    requires lo == (f + BLOCK_SIZE - 1) / BLOCK_SIZE && lo / v.g.perZone == f / BLOCK_SIZE / v.g.perZone
    requires hi == (f / BLOCK_SIZE / v.g.perZone + 1) * v.g.perZone
    ensures EndCleared(v, w, i, f)
  {
    hide BlockAt, ZoneAt;
    hide InFile;
    forall r ensures ClearsBlock(v, w, i, f, r) {
      assert SetsBlock(v, w, i, lo, hi, Zeros(), i, r);
      if InFile(v, i, r) {
        NotNegative(v, i, r);
        BehindIff(f, r, v.g.perZone);
      }
    }
  }

  lemma NotNegative(v: Volume, i: int, r: int)
    requires InFile(v, i, r)
    ensures r >= 0
  {
  }

  /** The blocks behind byte f in its zone, counted. */
  lemma BehindIff(f: nat, r: nat, per: nat)
    requires per > 0
    ensures var lo, n := (f + BLOCK_SIZE - 1) / BLOCK_SIZE, f / BLOCK_SIZE / per;
      && (r * BLOCK_SIZE >= f && r / per == n <==> lo <= r && n * per <= r < (n + 1) * per)
      && n * per <= lo <= (n + 1) * per
      && (lo / per == n <==> lo < (n + 1) * per)
  {
    var lo, n := (f + BLOCK_SIZE - 1) / BLOCK_SIZE, f / BLOCK_SIZE / per;
    WithinZone(r, n, per);
    WithinZone(lo, n, per);
    WithinZone(f / BLOCK_SIZE, n, per);
  }

  lemma WithinZone(r: nat, n: nat, per: nat)
    requires per > 0
    ensures r / per == n <==> n * per <= r < (n + 1) * per
  {
    Euclid(r, per);
    assert (n + 1) * per == n * per + per;
    if r / per < n { MulStep(r / per, n, per); }
    if n < r / per { MulStep(n, r / per, per); }
    if n * per <= r < (n + 1) * per { Quotient(r, r / per, per, r % per, n, r - n * per); }
  }

  /** Nothing of the zone of byte f is behind its block, or nothing of it is there: it need not be cleared. */
  lemma NothingToClear(v: Volume, i: int, f: nat)
    requires 0 <= i < |v.inodes| && v.g.perZone > 0
    requires (f + BLOCK_SIZE - 1) / BLOCK_SIZE / v.g.perZone != f / BLOCK_SIZE / v.g.perZone
      || ZoneAt(v, i, f / BLOCK_SIZE / v.g.perZone) == NO_ZONE
      || (v.g.perZone == 1 && Tidy(v, i, f) && f < Bound(v.g))
    ensures EndCleared(v, v, i, f)
  {
    hide ZoneAt, InFile, Tidy;
    var n := f / BLOCK_SIZE / v.g.perZone;
    forall r ensures ClearsBlock(v, v, i, f, r) {
      if InFile(v, i, r) {
        NotNegative(v, i, r);
        BehindIff(f, r, v.g.perZone);
        if BehindEnd(v, f, r) && v.g.perZone == 1 && Tidy(v, i, f) { AlignedEnd(v, i, f, r); }
      }
    }
  }

  lemma AlignedEnd(v: Volume, i: int, f: nat, r: nat)
    requires v.g.perZone == 1 && Tidy(v, i, f) && BehindEnd(v, f, r) && InFile(v, i, r)
    ensures ZoneAt(v, i, f / BLOCK_SIZE) == NO_ZONE
  {
    assert Before(v, i, f / BLOCK_SIZE, f);
    assert f / BLOCK_SIZE / 1 == f / BLOCK_SIZE && r / 1 == r;
  }

  /** The first byte of the zone of byte p. */
  function ZoneBegin(per: nat, p: nat): (b: nat)
    requires per > 0
    ensures b <= p
  {
    Euclid(p, per * BLOCK_SIZE);
    p / (per * BLOCK_SIZE) * (per * BLOCK_SIZE)
  }

  /** Dividing by the size of a zone is finding the block and then the zone. */
  lemma ZoneSize(p: nat, per: nat)
    requires per > 0
    ensures p / (per * BLOCK_SIZE) == p / BLOCK_SIZE / per
    ensures p % (per * BLOCK_SIZE) / BLOCK_SIZE == p / BLOCK_SIZE % per
  {
    var q := p / BLOCK_SIZE;
    var d := per * BLOCK_SIZE;
    Euclid(q, per);
    Euclid(p, d);
    assert q / per * per * BLOCK_SIZE == q / per * d by { Assoc(q / per, per); }
    assert p == q / per * d + (q % per * BLOCK_SIZE + p % BLOCK_SIZE);
    assert q % per * BLOCK_SIZE + p % BLOCK_SIZE < d;
    Quotient(p, q / per, d, q % per * BLOCK_SIZE + p % BLOCK_SIZE, p / d, p % d);
  }

  lemma Assoc(a: nat, b: nat)
    ensures a * b * BLOCK_SIZE == a * (b * BLOCK_SIZE)
  {
  }

  /** The zone of byte p of file i, of f bytes, is there, and no other block has changed that matters. */
  ghost predicate ZoneThere(v: Volume, w: Volume, i: int, f: nat, p: nat) {
    && w.g == v.g && v.g.perZone > 0 && |w.inodes| == |v.inodes| && OthersSame(v, w, i)
    && (forall j :: 0 <= j < |v.inodes| ==> w.inodes[j].size == v.inodes[j].size)
    && (forall m {:trigger KeepsZone(v, w, i, p / BLOCK_SIZE / v.g.perZone, m)} ::
          KeepsZone(v, w, i, p / BLOCK_SIZE / v.g.perZone, m))
    && (forall r {:trigger KeepsBlock(v, w, i, f, p, r)} :: KeepsBlock(v, w, i, f, p, r))
    && (p == f ==> Uncleared(v, w, i, p))
  }

  lemma ZoneAlready(v: Volume, i: int, f: nat, p: nat)
    requires v.g.perZone > 0 && InFile(v, i, p / BLOCK_SIZE) && ZoneAt(v, i, p / BLOCK_SIZE / v.g.perZone) != NO_ZONE
    ensures ZoneThere(v, v, i, f, p)
  {
  }

  lemma ThereStill(v: Volume, w: Volume, i: int, f: nat, p: nat)
    requires ZoneThere(v, w, i, f, p) && InFile(v, i, p / BLOCK_SIZE)
    ensures InFile(w, i, p / BLOCK_SIZE) && ZoneAt(w, i, p / BLOCK_SIZE / w.g.perZone) != NO_ZONE && w.g == v.g
    ensures ZoneAt(v, i, p / BLOCK_SIZE / v.g.perZone) != NO_ZONE ==>
      ZoneAt(w, i, p / BLOCK_SIZE / v.g.perZone) == ZoneAt(v, i, p / BLOCK_SIZE / v.g.perZone)
    ensures OthersSame(v, w, i) && |w.inodes| == |v.inodes| && w.inodes[i].size == v.inodes[i].size
  {
    hide At, BlockAt;
    assert KeepsZone(v, w, i, p / BLOCK_SIZE / v.g.perZone, p / BLOCK_SIZE / v.g.perZone);
  }

  lemma MappedOthers(v: Volume, u: Volume, i: int, n: nat, z: int)
    requires Mapped(v, u, i, n, z)
    ensures OthersSame(v, u, i)
  {
    hide ZoneAt, BlockAt;
    forall j | 0 <= j < |v.inodes| && j != i ensures SameFile(v, u, j) {
      forall m | 0 <= m < Capacity(v.g) ensures ZoneAt(u, j, m) == ZoneAt(v, j, m) { assert MapsZone(v, u, i, n, z, j, m); }
      forall q | InFile(v, j, q) ensures BlockAt(u, j, q) == BlockAt(v, j, q) { assert MapsBlock(v, u, i, n, z, j, q); }
    }
  }

  lemma OthersTrans(v: Volume, u: Volume, w: Volume, i: int)
    requires OthersSame(v, u, i) && OthersSame(u, w, i) && |u.inodes| == |v.inodes|
    ensures OthersSame(v, w, i)
  {
    forall j | 0 <= j < |v.inodes| && j != i ensures SameFile(v, w, j) { assert SameFile(v, u, j) && SameFile(u, w, j); }
  }

  /** new_block: a new zone, cleared if bytes of the file could lie in it. */
  lemma ZoneNew(v: Volume, u: Volume, w: Volume, i: int, f: nat, p: nat, z: int)
    requires v.g.perZone > 0 && Mapped(v, u, i, p / BLOCK_SIZE / v.g.perZone, z) && z != NO_ZONE && 0 <= i < |v.inodes|
    requires ZoneAt(v, i, p / BLOCK_SIZE / v.g.perZone) == NO_ZONE && v.g.first <= z < v.g.zones && z !in v.role
    requires if p != f && v.g.perZone > 1 then EndCleared(u, w, i, ZoneBegin(v.g.perZone, p)) && w.inodes == u.inodes && OthersSame(u, w, i)
             else w == u
    ensures ZoneThere(v, w, i, f, p)
  {
    hide ZoneAt, BlockAt, InFile, ZoneBegin, SameZone;
    var n := p / BLOCK_SIZE / v.g.perZone;
    MappedOthers(v, u, i, n, z);
    if w != u { OthersTrans(v, u, w, i); }
    forall m ensures KeepsZone(v, w, i, n, m) { assert MapsZone(v, u, i, n, z, i, m); }
    if p == f { BroughtOld(v, u, i, p, z); }
    hide Mapped, EndCleared, OthersSame;
    forall r ensures KeepsBlock(v, w, i, f, p, r) {
      if InFile(v, i, r) {
        NotNegative(v, i, r);
        ZoneNewBlock(v, u, w, i, f, p, z, r);
      }
    }
  }

  lemma BroughtOld(v: Volume, u: Volume, i: int, p: nat, z: int)
    requires v.g.perZone > 0 && Mapped(v, u, i, p / BLOCK_SIZE / v.g.perZone, z) && v.g.first <= z < v.g.zones && z !in v.role
    ensures HoldsOld(v, u, i, p / BLOCK_SIZE, z)
  {
    hide Get, BlockAt, InFile;
    var n := p / BLOCK_SIZE / v.g.perZone;
    forall r | 0 <= r < p / BLOCK_SIZE && r / v.g.perZone == n && InFile(v, i, r) ensures BlockAt(u, i, r) == Get(v, z, r % v.g.perZone) {
      assert MapsBlock(v, u, i, n, z, i, r);
    }
  }

  lemma ZoneNewBlock(v: Volume, u: Volume, w: Volume, i: int, f: nat, p: nat, z: int, r: nat)
    requires v.g.perZone > 0 && Mapped(v, u, i, p / BLOCK_SIZE / v.g.perZone, z) && InFile(v, i, r)
    requires ZoneAt(v, i, p / BLOCK_SIZE / v.g.perZone) == NO_ZONE
    requires if p != f && v.g.perZone > 1 then EndCleared(u, w, i, ZoneBegin(v.g.perZone, p)) else w == u
    ensures w.g == v.g && KeepsBlock(v, w, i, f, p, r)
  {
    hide ZoneAt, BlockAt, InFile, ZoneBegin, SameZone;
    var n := p / BLOCK_SIZE / v.g.perZone;
    assert MapsBlock(v, u, i, n, z, i, r);
    UnmappedBlock(v, i, r);
    SameInFile(v, u, i, r);
    if w != u { assert ClearsBlock(u, w, i, ZoneBegin(v.g.perZone, p), r); }
    WholeZone(p, r, v.g.perZone);
  }

  lemma SameInFile(v: Volume, u: Volume, i: int, r: int)
    requires u.g == v.g && |u.inodes| == |v.inodes|
    ensures InFile(u, i, r) == InFile(v, i, r)
  {
  }

  lemma UnmappedBlock(v: Volume, i: int, r: nat)
    requires v.g.perZone > 0
    ensures ZoneAt(v, i, r / v.g.perZone) == NO_ZONE ==> BlockAt(v, i, r) == Zeros()
  {
  }

  /** All blocks of a zone are behind its beginning. */
  lemma WholeZone(p: nat, r: nat, per: nat)
    requires per > 0
    ensures var b := ZoneBegin(per, p);
      b / BLOCK_SIZE / per == p / BLOCK_SIZE / per && (r / per == p / BLOCK_SIZE / per ==> r * BLOCK_SIZE >= b)
    ensures per == 1 && r / per == p / BLOCK_SIZE / per ==> r == p / BLOCK_SIZE
  {
    var n := p / BLOCK_SIZE / per;
    ZoneSize(p, per);
    Assoc(n, per);
    DivMul(n * per, BLOCK_SIZE, 0);
    DivMul(n, per, 0);
    WithinZone(r, n, per);
  }

  /** new_block: and the block itself holds zeros. */
  lemma BlockNew(v: Volume, w: Volume, x: Volume, i: int, f: nat, p: nat, data: Block)
    requires ZoneThere(v, w, i, f, p) && BlocksSet(w, x, i, p / BLOCK_SIZE, p / BLOCK_SIZE + 1, data) && InFile(v, i, p / BLOCK_SIZE)
    ensures ZoneThere(v, x, i, f, p) && BlockAt(x, i, p / BLOCK_SIZE) == data
    ensures ZoneAt(x, i, p / BLOCK_SIZE / v.g.perZone) == ZoneAt(w, i, p / BLOCK_SIZE / v.g.perZone)
  {
    hide ZoneAt, BlockAt, InFile;
    var q, n := p / BLOCK_SIZE, p / BLOCK_SIZE / v.g.perZone;
    var hi := q + 1;
    Known(v, i, q);
    SetOthers(w, x, i, q, hi, data);
    OthersTrans(v, w, x, i);
    forall m ensures KeepsZone(v, x, i, n, m) { assert KeepsZone(v, w, i, n, m); }
    forall r ensures KeepsBlock(v, x, i, f, p, r) {
      assert KeepsBlock(v, w, i, f, p, r) && SetsBlock(w, x, i, q, hi, data, i, r);
      SameInFile(v, w, i, r);
    }
    assert SetsBlock(w, x, i, q, hi, data, i, q);
    SameInFile(v, w, i, q);
    if p == f { StillOld(v, w, x, i, p, data); }
  }

  lemma StillOld(v: Volume, w: Volume, x: Volume, i: int, p: nat, data: Block)
    requires v.g.perZone > 0 && w.g == v.g && |w.inodes| == |v.inodes| && Uncleared(v, w, i, p)
    requires BlocksSet(w, x, i, p / BLOCK_SIZE, p / BLOCK_SIZE + 1, data)
    ensures Uncleared(v, x, i, p)
  {
    hide Get, BlockAt, ZoneAt, InFile;
    var q := p / BLOCK_SIZE;
    var hi := q + 1;
    if ZoneAt(v, i, q / v.g.perZone) == NO_ZONE {
      var z :| HoldsOld(v, w, i, q, z);
      forall r | 0 <= r < q && r / v.g.perZone == q / v.g.perZone && InFile(v, i, r) ensures BlockAt(x, i, r) == Get(v, z, r % v.g.perZone) {
        SameInFile(v, w, i, r);
        assert SetsBlock(w, x, i, q, hi, data, i, r) && BlockAt(w, i, r) == Get(v, z, r % v.g.perZone);
      }
      assert HoldsOld(v, x, i, q, z);
    }
  }

  lemma Known(v: Volume, i: int, q: int)
    requires InFile(v, i, q)
    ensures 0 <= i < |v.inodes| && q >= 0 && v.g.perZone > 0 && q / v.g.perZone < Capacity(v.g)
  {
  }

  /** With the chunk in place, a chunk has been written. */
  lemma ChunkDone(v: Volume, w: Volume, i: int, f: nat, p: nat, c: seq<Byte>)
    requires ZoneThere(v, w, i, f, p) && |c| > 0 && p + |c| <= Bound(v.g) && 0 <= i < |v.inodes|
    requires HasChunk(BlockAt(v, i, p / BLOCK_SIZE), BlockAt(w, i, p / BLOCK_SIZE), f, p, c)
    ensures ChunkWritten(v, w, i, f, p, c)
  {
    hide ZoneAt, BlockAt, InFile, HasChunk;
  }

  /** What rw_chunk makes of a block: a new one, one that is all overwritten, one that lay behind the end, or one that was read. */
  lemma ChunkInPlace(old_: Block, base: Block, new_: Block, f: nat, p: nat, c: seq<Byte>)
    requires |c| > 0 && p % BLOCK_SIZE + |c| <= BLOCK_SIZE
    requires base == old_ || (base == Zeros() && p % BLOCK_SIZE == 0 && p >= f) || |c| == BLOCK_SIZE
    requires p % BLOCK_SIZE == 0 && p >= f && |c| != BLOCK_SIZE ==> base == Zeros()
    requires new_ == base[..p % BLOCK_SIZE] + c + base[p % BLOCK_SIZE + |c|..]
    ensures HasChunk(old_, new_, f, p, c)
  {
  }
}
