/** Regular files of one file system (src/fs/read.c, src/fs/write.c, truncate of src/fs/link.c). */
module FileSystem {
  import opened Arith
  import opened ZoneEntries
  import opened ZoneMap
  import opened FileBlocks
  import opened FileBytes
  import opened FileWrites
  import opened MapSteps
  import opened ChunkSteps
  import opened TruncateSteps
  import opened ZoneDemand
  import SB = SuperBlocks
  import D = BlockDevice

  /** BEYOND is no error of the source: rw_chunk has come to the end of the map. If there is a double indirect block it goes on with
      an entry behind the end of that; if there is none, write_map gives EFBIG. */
  datatype Code = OK | ENOSPC | EFBIG | BEYOND

  class FileSystem {
    const sb: SB.SuperBlock
    const g: Geometry
    const s_max_size: nat
    const dev: D.BlockDevice
    const inodes: array<Inode>
    ghost var role: map<int, Role>
    ghost var loose: set<int>

    ghost function St(): Volume
      reads this, dev, inodes
    {
      Volume(g, dev.blocks, inodes[..], role)
    }

    /** Every allocated zone is in exactly one file, or loose: allocated, and in no file yet or any more. */
    ghost predicate Books()
      reads this, sb, sb.inodeMap, sb.zoneMap, sb.inodeMap.words, sb.zoneMap.words
    {
      && sb.Valid() && !sb.s_rd_only && sb.s_firstdatazone == g.first && sb.s_zones == g.zones
      && sb.Zones() == role.Keys + loose && role.Keys !! loose
    }

    /** How many zones are not allocated. */
    ghost function Spare(): nat
      reads sb, sb.inodeMap, sb.zoneMap, sb.inodeMap.words, sb.zoneMap.words
    {
      if sb.Valid() then Left(g, sb.Zones()) else 0
    }

    /** The tables are not parts of the bitmaps, nor of the cache. */
    ghost predicate Separate() {
      && (inodes as object) != sb.zoneMap.words && (inodes as object) != sb.inodeMap.words && this !in dev.parts
      && inodes !in dev.parts && sb !in dev.parts && sb.zoneMap !in dev.parts && sb.inodeMap !in dev.parts
      && sb.zoneMap.words !in dev.parts && sb.inodeMap.words !in dev.parts
    }

    /** The device can be used, and nothing else changes with it. */
    ghost predicate Ready()
      reads dev, dev.parts
    {
      Separate() && dev.Valid()
    }

    ghost predicate Valid()
      reads this, dev, dev.parts, inodes, sb, sb.inodeMap, sb.zoneMap, sb.inodeMap.words, sb.zoneMap.words
    {
      Inv(St()) && Books() && Ready()
    }

    /** A mounted file system on which every allocated zone is in use somewhere. */
    constructor (sb: SB.SuperBlock, g: Geometry, s_max_size: nat, dev: D.BlockDevice, inodes: array<Inode>, ghost role: map<int, Role>)
      requires Inv(Volume(g, dev.blocks, inodes[..], role)) && sb.Valid() && !sb.s_rd_only && dev.Valid()
      requires sb.s_firstdatazone == g.first && sb.s_zones == g.zones && sb.Zones() == role.Keys
      requires (inodes as object) != sb.zoneMap.words && (inodes as object) != sb.inodeMap.words
      requires {inodes, sb, sb.zoneMap, sb.inodeMap, sb.zoneMap.words, sb.inodeMap.words} !! dev.parts
      ensures Valid() && loose == {} && this.role == role && this.dev == dev && this.inodes == inodes && this.sb == sb
      ensures this.g == g && this.s_max_size == s_max_size
    {
      this.sb, this.g, this.s_max_size, this.dev, this.inodes := sb, g, s_max_size, dev, inodes;
      this.role, loose := role, {};
    }

    /** alloc_zone: a zone that was free belongs to no file yet. */
    method AllocZone(near: nat) returns (z: nat)
      requires Valid() && near < SB.UNSIGNED_LONG
      modifies this`loose, sb`s_zsearch, sb.zoneMap.words, sb.zoneMap`dirty
      ensures Valid() && St() == old(St())
      ensures z == NO_ZONE ==> loose == old(loose) && Spare() == old(Spare()) == 0
      ensures z != NO_ZONE ==> Spare() == old(Spare()) - 1
      ensures z != NO_ZONE ==> g.first <= z < g.zones && z !in role && z !in old(loose) && loose == old(loose) + {z}
    {
      hide Inv, Left, D.BlockDevice.Valid, SB.SuperBlock.Valid;
      ghost var used := sb.Zones();
      var zone := sb.AllocZone(near);
      if zone == SB.NO_ZONE { LeftNone(g, used); return NO_ZONE; }
      LeftTaken(g, used, zone);
      z := zone;
      loose := loose + {z};
    }

    /** free_zone, of a zone that belongs to no file. */
    method FreeZone(z: nat)
      requires Valid() && z in loose
      modifies this`loose, sb`s_zsearch, sb.zoneMap.words, sb.zoneMap`dirty
      ensures Valid() && St() == old(St()) && loose == old(loose) - {z} && Spare() == old(Spare()) + 1
    {
      hide Inv, Left, D.BlockDevice.Valid, SB.SuperBlock.Valid;
      LooseUsed(z);
      LeftTaken(g, sb.Zones() - {z}, z);
      var ok := sb.FreeZone(z);
      assert ok;
      loose := loose - {z};
    }

    /** What is not allocated is in no file, and the other way round. */
    lemma SpareUnused()
      requires Books()
      ensures Spare() == |Unused(St(), loose)|
    {
      assert (set z | g.first <= z < g.zones && z !in sb.Zones()) == Unused(St(), loose);
    }

    lemma LooseUsed(z: int)
      requires Valid() && z in loose
      ensures sb.Zones() - {z} + {z} == sb.Zones() && g.first <= z < g.zones
    {
      assert z in sb.Zones() && sb.InUse(z);
    }

    /** rd_indir: an entry of an indirect block; a number of no data zone is a fatal error, which does not happen. */
    method RdIndir(b: nat, index: nat, ghost r: Role) returns (zone: nat)
      requires Inv(St()) && Ready() && Proper(St(), r) && !InInode(r) && index == Slot(r) && At(St(), Parent(r)) != NO_ZONE
      requires b == Base(St(), At(St(), Parent(r)))
      modifies dev.parts
      ensures St() == old(St()) && Ready()
      ensures zone == At(St(), r) && (zone == NO_ZONE || g.first <= zone < g.zones)
    {
      hide Inv, Entry, D.BlockDevice.Valid;
      ghost var v := St();
      ParentThere(v, r);
      IndexBlock(v, Parent(r));
      var bp := dev.Read(b);
      zone := Entry(g.version, g.native, bp, index);
      assert zone == At(v, r);
      if zone != NO_ZONE { InRange(v, r); }
    }

    /** read_map: the block in which a byte of a file is to be found. */
    method ReadMap(i: nat, position: nat) returns (b: nat)
      requires Inv(St()) && Ready() && i < inodes.Length && position / BLOCK_SIZE / g.perZone < Capacity(g)
      modifies dev.parts
      ensures St() == old(St()) && Ready()
      ensures var q := position / BLOCK_SIZE; var z := ZoneAt(St(), i, q / g.perZone);
        if z == NO_ZONE then b == NO_BLOCK
        else b == Base(St(), z) + q % g.perZone && b != NO_BLOCK && b < |dev.blocks| && dev.blocks[b] == BlockAt(St(), i, q)
    {
      hide Inv, Entry, At, EntryOf, BlockAt, Proper, D.BlockDevice.Valid;
      ghost var v := St();
      SoundHere(v);
      var block_pos := position / BLOCK_SIZE;
      var zone := block_pos / g.perZone;
      var boff := block_pos - zone * g.perZone;
      Euclid(block_pos, g.perZone);
      ghost var d := DataRole(g, i, zone);
      DataRoleProper(v, i, zone);
      DataBlock(v, i, block_pos);
      RolePath(v, i, zone);
      var nr_indirects := Indirects(g.version);
      var z: nat;
      if zone < NR_DZONES {
        z := inodes[i].zone[zone];
        if z == NO_ZONE { return NO_BLOCK; }
        return z * g.perZone + boff;
      }
      var excess := zone - NR_DZONES;
      if excess < nr_indirects {
        z := inodes[i].zone[SINGLE];
      } else {
        z := inodes[i].zone[DOUBLE];
        if z == NO_ZONE { return NO_BLOCK; }
        excess := excess - nr_indirects;
        var index := excess / nr_indirects;
        IndirectProper(v, i, index, d);
        z := RdIndir(z * g.perZone, index, Indirect(i, index));
        excess := excess % nr_indirects;
      }
      if z == NO_ZONE { return NO_BLOCK; }
      z := RdIndir(z * g.perZone, excess, d);
      if z == NO_ZONE { return NO_BLOCK; }
      b := z * g.perZone + boff;
    }

    /** Stores zone number z at place r, in the inode or in the indirect block b; a new indirect block is cleared. */
    method PutNumber(r: Role, b: nat, z: nat)
      requires 0 <= r.ino < inodes.Length && z < Limit(g.version) && 0 <= z * g.perZone < |dev.blocks| && Slot(r) >= 0
      requires if InInode(r) then Slot(r) < |inodes[r.ino].zone|
        else b < |dev.blocks| && Slot(r) < Indirects(g.version) && b != z * g.perZone
      requires Ready()
      modifies dev.parts, inodes
      ensures Ready()
      ensures inodes[..] ==
        if InInode(r) then old(inodes[..])[r.ino := old(inodes[..])[r.ino].(zone := old(inodes[..])[r.ino].zone[Slot(r) := z])]
        else old(inodes[..])
      ensures var d := if InInode(r) then old(dev.blocks)
          else old(dev.blocks)[b := PutEntry(g.version, g.native, old(dev.blocks)[b], Slot(r), z)];
        dev.blocks == if IsData(r) then d else d[z * g.perZone := Zeros()]
    {
      hide PutEntry, D.BlockDevice.Valid;
      if InInode(r) {
        inodes[r.ino] := inodes[r.ino].(zone := inodes[r.ino].zone[Slot(r) := z]);
      } else {
        var bp := dev.Read(b);
        dev.Write(b, PutEntry(g.version, g.native, bp, Slot(r), z));
      }
      if !IsData(r) {
        var bp: Block := *;
        bp := Zeros();
        dev.Write(z * g.perZone, bp);
      }
    }

    /** Zone z, allocated and in no file, is stored at place r. */
    method Store(r: Role, b: nat, z: nat)
      requires Valid() && CanStore(St(), r, z) && z in loose
      requires !InInode(r) ==> b == Base(St(), At(St(), Parent(r)))
      modifies this`role, this`loose, dev.parts, inodes
      ensures Valid() && St() == Stored(old(St()), r, z)
      ensures loose == old(loose) - {z} + if old(At(St(), r)) == NO_ZONE then {} else {old(At(St(), r)) as int}
    {
      hide Inv, Entry, PutEntry, At, Stored, Books, D.BlockDevice.Valid, SB.SuperBlock.Valid, SB.SuperBlock.Zones;
      ghost var v := St();
      SoundHere(v);
      ghost var w := Stored(v, r, z);
      StoreBlocks(v, r, z);
      StoredTables(v, r, z);
      StoredRole(v, r, z);
      StoredInv(v, r, z);
      OldOwner(v, r);
      LooseZone(z);
      BooksOpen();
      PutNumber(r, b, z);
      role := w.role;
      loose := loose - {z} + if At(v, r) == NO_ZONE then {} else {At(v, r) as int};
      assert St() == w;
      BooksKept(v, r, z, old(loose));
    }

    lemma BooksOpen()
      requires Books()
      ensures sb.Valid() && !sb.s_rd_only && sb.s_firstdatazone == g.first && sb.s_zones == g.zones
      ensures sb.Zones() == role.Keys + loose && role.Keys !! loose
    {
    }

    lemma BooksKept(v: Volume, r: Role, z: int, loose0: set<int>)
      requires sb.Valid() && !sb.s_rd_only && sb.s_firstdatazone == g.first && sb.s_zones == g.zones
      requires sb.Zones() == v.role.Keys + loose0 && v.role.Keys !! loose0 && z in loose0
      requires At(v, r) != NO_ZONE ==> At(v, r) in v.role
      requires NO_ZONE !in v.role
      requires forall y :: y in role <==> y == z || (y in v.role && y != At(v, r))
      requires loose == loose0 - {z} + if At(v, r) == NO_ZONE then {} else {At(v, r) as int}
      ensures Books()
    {
      hide At;
    }

    lemma LooseZone(z: int)
      requires Valid() && z in loose
      ensures g.first <= z < g.zones && z !in role
    {
      hide Inv, D.BlockDevice.Valid;
      assert sb.InUse(z);
    }

    /** write_map: a new indirect block for place r; NO_ZONE if there is no space. */
    method NewIndex(r: Role, b: nat, ghost new_zone: int) returns (z: nat)
      requires Valid() && Proper(St(), r) && !IsData(r) && At(St(), r) == NO_ZONE && new_zone in loose
      requires !InInode(r) ==> At(St(), Parent(r)) != NO_ZONE && b == Base(St(), At(St(), Parent(r)))
      modifies this`role, this`loose, dev.parts, inodes, sb`s_zsearch, sb.zoneMap.words, sb.zoneMap`dirty
      ensures Valid() && loose == old(loose) && AllSame(old(St()), St()) && SameZone(old(St()), St(), new_zone)
      ensures z == NO_ZONE ==> St() == old(St()) && Spare() == old(Spare()) == 0
      ensures z != NO_ZONE ==> At(St(), r) == z && Proper(St(), r) && Spare() == old(Spare()) - 1
      ensures z != NO_ZONE ==> forall q {:trigger At(St(), q)} :: Proper(St(), q) && q != r ==> At(St(), q) == At(old(St()), q)
    {
      hide Inv, Entry, PutEntry, At, Stored, Books, D.BlockDevice.Valid;
      ghost var v := St();
      SoundHere(v);
      AllSameRefl(v);
      LooseZone(new_zone);
      NearZone(r.ino);
      z := AllocZone(inodes[r.ino].zone[0]);
      if z == NO_ZONE { return; }
      LooseZone(z);
      Store(r, b, z);
      IndexStored(v, r, z);
      StoredAt(v, r, z, r);
      StoredSound(v, r, z);
      forall q | Proper(St(), q) && q != r ensures At(St(), q) == At(v, q) { StoredAt(v, r, z, q); }
    }

    lemma NearZone(i: int)
      requires Valid() && 0 <= i < inodes.Length
      ensures |inodes[i].zone| == NR_TZONES && inodes[i].zone[0] < SB.UNSIGNED_LONG
    {
      hide Entry;
      var v := St();
      RolePath(v, i, 0);
      if At(v, Direct(i, 0)) != NO_ZONE { InRange(v, Direct(i, 0)); }
    }

    /** write_map: the zone number goes where it belongs. */
    method StoreData(i: nat, zone: nat, b: nat, new_zone: nat, ghost v: Volume)
      requires Valid() && i < inodes.Length && zone < Capacity(g) && new_zone in loose && v.g == g && |v.inodes| == inodes.Length
      requires AllSame(v, St()) && SameZone(v, St(), new_zone)
      requires var d := DataRole(g, i, zone);
        !InInode(d) ==> At(St(), Parent(d)) != NO_ZONE && b == Base(St(), At(St(), Parent(d)))
      modifies this`role, this`loose, dev.parts, inodes
      ensures Valid() && Mapped(v, St(), i, zone, new_zone) && loose == old(loose) - {new_zone} + Replaced(v, i, zone)
    {
      hide Inv, Entry, PutEntry, At, Stored, Mapped, Books, D.BlockDevice.Valid;
      ghost var u := St();
      SoundHere(u);
      LooseZone(new_zone);
      DataRoleProper(u, i, zone);
      Store(DataRole(g, i, zone), b, new_zone);
      DataStored(u, i, zone, new_zone);
      MappedAfter(v, u, St(), i, zone, new_zone);
      assert SameFile(v, u, i);
    }

    /** There are not as many zones left as the zone of a byte needs. */
    ghost predicate Short(i: nat, position: nat)
      reads this, dev, inodes, sb, sb.inodeMap, sb.zoneMap, sb.inodeMap.words, sb.zoneMap.words
    {
      g.perZone > 0 && Spare() < Needs(St(), i, position / BLOCK_SIZE / g.perZone)
    }

    /** There is no zone left, and an indirect block is missing. */
    ghost predicate Starved(i: nat, zone: nat)
      reads this, dev, inodes, sb, sb.inodeMap, sb.zoneMap, sb.inodeMap.words, sb.zoneMap.words
    {
      Spare() == 0 && Missing(St(), i, zone) > 0
    }

    /** write_map: by way of the double indirect block, to the single indirect block number ind_ex there. */
    method WriteDouble(i: nat, zone: nat, ind_ex: nat, ghost new_zone: int) returns (r: Code, z1: nat)
      requires Valid() && i < inodes.Length && new_zone in loose && zone >= NR_DZONES + Indirects(g.version)
      requires ind_ex == (zone - NR_DZONES - Indirects(g.version)) / Indirects(g.version)
      modifies this`role, this`loose, dev.parts, inodes, sb`s_zsearch, sb.zoneMap.words, sb.zoneMap`dirty
      ensures r == OK ==> Spare() == old(Spare()) - Missing(old(St()), i, zone)
      ensures r == ENOSPC ==> Starved(i, zone) && old(Spare()) < Missing(old(St()), i, zone)
      ensures r == OK ==>
        && Valid() && AllSame(old(St()), St()) && SameZone(old(St()), St(), new_zone) && loose == old(loose)
        && z1 == At(St(), Indirect(i, ind_ex)) && z1 != NO_ZONE && zone < Capacity(g)
      ensures r == ENOSPC ==> Valid() && AllSame(old(St()), St()) && loose == old(loose)
      ensures r != BEYOND
      ensures r == EFBIG ==>
        && zone >= Capacity(g)
        && TooBig(old(St()), St(), i, old(loose), loose) && (St() == old(St()) ==> Valid())
    {
      hide Inv, Entry, PutEntry, At, EntryOf, Stored, Books, SameFile, Missing, Spare, D.BlockDevice.Valid;
      ghost var v := St();
      SoundHere(v);
      AllSameRefl(v);
      LooseZone(new_zone);
      NearZone(i);
      RolePath(v, i, zone);
      BeyondCapacity(g, zone);
      MissingPath(v, i, zone);
      z1 := NO_ZONE;
      var z := inodes[i].zone[DOUBLE];
      if z == NO_ZONE {
        if ind_ex >= Indirects(g.version) {
          z := AllocZone(inodes[i].zone[0]);
          if z == NO_ZONE { return ENOSPC, z1; }
          inodes[i] := inodes[i].(zone := inodes[i].zone[DOUBLE := z]);
          assert inodes[..] == v.inodes[i := v.inodes[i].(zone := v.inodes[i].zone[DOUBLE := z])];
          assert TornBy(v, St(), i, old(loose), loose, z);
          return EFBIG, z1;
        }
        z := NewIndex(Double(i), 0, new_zone);
        if z == NO_ZONE { return ENOSPC, z1; }
      } else if ind_ex >= Indirects(g.version) {
        return EFBIG, z1;
      }
      ghost var u := St();
      SoundHere(u);
      RolePath(u, i, zone);
      MissingPath(u, i, zone);
      z1 := RdIndir(z * g.perZone, ind_ex, Indirect(i, ind_ex));
      r := OK;
      if z1 == NO_ZONE {
        z1 := NewIndex(Indirect(i, ind_ex), z * g.perZone, new_zone);
        AllSameTrans(v, u, St());
        if z1 == NO_ZONE { r := ENOSPC; }
      }
    }

    /** write_map: zone new_zone, allocated and in no file, becomes the zone of a byte of a file. */
    method WriteMap(i: nat, position: nat, new_zone: nat) returns (r: Code)
      requires Valid() && i < inodes.Length && new_zone in loose
      modifies this`role, this`loose, dev.parts, inodes, sb`s_zsearch, sb.zoneMap.words, sb.zoneMap`dirty
      ensures r == OK ==>
        && Valid() && ZoneOf(g, position) < Capacity(g)
        && Mapped(old(St()), St(), i, ZoneOf(g, position), new_zone)
        && loose == old(loose) - {new_zone} + Replaced(old(St()), i, ZoneOf(g, position))
      ensures r == ENOSPC ==> Valid() && AllSame(old(St()), St()) && loose == old(loose)
      ensures r == OK ==> Spare() == old(Spare()) - Missing(old(St()), i, ZoneOf(g, position))
      ensures r == ENOSPC ==>
        var n := ZoneOf(g, position); Starved(i, n) && old(Spare()) < Missing(old(St()), i, n)
      ensures r != BEYOND
      ensures r == EFBIG ==>
        && ZoneOf(g, position) >= Capacity(g)
        && TooBig(old(St()), St(), i, old(loose), loose) && (St() == old(St()) ==> Valid())
    {
      hide Inv, Entry, PutEntry, At, EntryOf, Stored, Mapped, Books, Missing, Spare, D.BlockDevice.Valid;
      ghost var v := St();
      SoundHere(v);
      LooseZone(new_zone);
      AllSameRefl(v);
      var zone := position / BLOCK_SIZE / g.perZone;
      MissingPath(v, i, zone);
      if zone < NR_DZONES {
        StoreData(i, zone, 0, new_zone, v);
        return OK;
      }
      var excess, nr_indirects := zone - NR_DZONES, Indirects(g.version);
      var z1: nat;
      if excess < nr_indirects {
        z1 := inodes[i].zone[SINGLE];
        RolePath(v, i, zone);
        if z1 == NO_ZONE {
          z1 := NewIndex(Single(i), 0, new_zone);
          if z1 == NO_ZONE { return ENOSPC; }
        }
      } else {
        var ind_ex := (excess - nr_indirects) / nr_indirects;
        r, z1 := WriteDouble(i, zone, ind_ex, new_zone);
        if r != OK { return; }
        excess := (excess - nr_indirects) % nr_indirects;
      }
      StoreData(i, zone, z1 * g.perZone, new_zone, v);
      r := OK;
    }

    /** get_block: what is on the device, or, when that is not asked for, whatever is in a buffer. */
    method GetBlock(b: nat, noRead: bool) returns (bp: Block)
      requires Ready() && b < |dev.blocks|
      modifies dev.parts
      ensures Ready() && dev.blocks == old(dev.blocks) && (!noRead ==> bp == dev.blocks[b])
    {
      bp := *;
      if !noRead { bp := dev.Read(b); }
    }

    /** put_block, of a block q of file i that has been changed. */
    method PutBlock(b: nat, bp: Block, ghost i: nat, ghost q: nat)
      requires Valid() && InFile(St(), i, q) && ZoneAt(St(), i, q / g.perZone) != NO_ZONE
      requires b == Base(St(), ZoneAt(St(), i, q / g.perZone)) + q % g.perZone
      modifies dev.parts
      ensures Valid() && BlocksSet(old(St()), St(), i, q, q + 1, bp)
    {
      hide Inv, Books, BlocksSet, At, D.BlockDevice.Valid;
      ghost var v := St();
      DataBlock(v, i, q);
      BlockPut(v, i, q, bp);
      BooksOpen();
      dev.Write(b, bp);
      assert St() == Put(v, ZoneAt(v, i, q / g.perZone), q % g.perZone, bp);
      BooksShut();
    }

    lemma BooksShut()
      requires sb.Valid() && !sb.s_rd_only && sb.s_firstdatazone == g.first && sb.s_zones == g.zones
      requires sb.Zones() == role.Keys + loose && role.Keys !! loose
      ensures Books()
    {
    }

    /** clear_zone: zeroes what follows byte pos in its zone, from the next block boundary on; or all of the zone. */
    method ClearZone(i: nat, pos0: nat, whole: bool)
      requires Valid() && i < inodes.Length && pos0 < Bound(g)
      modifies dev.parts
      ensures g.perZone > 0 && Valid() && OthersSame(old(St()), St(), i) && inodes[..] == old(inodes[..])
      ensures g.perZone == 1 ==> St() == old(St())
      ensures g.perZone > 1 ==>
        EndCleared(old(St()), St(), i, if whole then ZoneBegin(g.perZone, pos0) else pos0)
    {
      hide Inv, Books, BlocksSet, At, Bound, EndCleared, D.BlockDevice.Valid;
      ghost var v := St();
      SoundHere(v);
      SetNone(v, i, 0, Zeros());
      SetOthers(v, v, i, 0, 0, Zeros());
      if g.perZone == 1 { return; }
      var zone_size := g.perZone * BLOCK_SIZE;
      var pos := pos0;
      if whole {
        Euclid(pos0, zone_size);
        pos := pos / zone_size * zone_size;
      }
      StillInBound(g, pos0, pos);
      var next := pos + BLOCK_SIZE - 1;
      ZoneSize(next, g.perZone);
      ZoneSize(pos, g.perZone);
      ghost var lo, n := next / BLOCK_SIZE, pos / BLOCK_SIZE / g.perZone;
      if next / zone_size != pos / zone_size {
        NothingToClear(v, i, pos);
        return;
      }
      InBound(v, i, pos);
      var blo := ReadMap(i, next);
      if blo == NO_BLOCK {
        NothingToClear(v, i, pos);
        return;
      }
      BehindIff(pos, lo, g.perZone);
      ClearBlocks(i, blo, lo);
      ghost var hi := (n + 1) * g.perZone;
      SetOthers(v, St(), i, lo, hi, Zeros());
      ClearedEnd(v, St(), i, pos, lo, hi);
    }

    /** clear_zone: clears all blocks from number blo, block lo of file i, to the end of the zone. */
    method ClearBlocks(i: nat, blo: nat, ghost lo: nat)
      requires Valid() && InFile(St(), i, lo) && ZoneAt(St(), i, lo / g.perZone) != NO_ZONE && blo == BlockNr(St(), i, lo)
      modifies dev.parts
      ensures Valid() && inodes[..] == old(inodes[..])
      ensures BlocksSet(old(St()), St(), i, lo, (lo / g.perZone + 1) * g.perZone, Zeros())
    {
      hide Inv, Books, BlocksSet, At, BlockAt, D.BlockDevice.Valid;
      ghost var v, n := St(), lo / g.perZone;
      BlockNumbers(v, i, lo, blo);
      WithinZone(lo, n, g.perZone);
      var bhi := (blo / g.perZone + 1) * g.perZone - 1;
      ghost var q := lo;
      SetNone(v, i, lo, Zeros());
      var b := blo;
      while b <= bhi
        invariant Valid() && BlocksSet(v, St(), i, lo, q, Zeros()) && inodes[..] == v.inodes
        invariant q - lo == b - blo && lo <= q <= (n + 1) * g.perZone && b <= bhi + 1
      {
        ghost var u := St();
        BlockOfZone(v, u, i, lo, q, n);
        ZeroBlock(b, i, q);
        SetMore(v, u, St(), i, lo, q, Zeros());
        b := b + 1;
        q := q + 1;
      }
    }

    /** new_block: the block of a byte, of zeros, in a new zone if need be. */
    method NewBlock(i: nat, position: nat) returns (r: Code, b: nat)
      requires Valid() && i < inodes.Length && position < Bound(g)
      modifies this`role, this`loose, dev.parts, inodes, sb`s_zsearch, sb.zoneMap.words, sb.zoneMap`dirty
      ensures Valid() && loose == old(loose) && |old(inodes[..])| == inodes.Length
      ensures r == OK ==>
        && ZoneThere(old(St()), St(), i, old(inodes[i].size), position) && InFile(St(), i, position / BLOCK_SIZE)
        && BlockAt(St(), i, position / BLOCK_SIZE) == Zeros()
        && b == BlockNr(St(), i, position / BLOCK_SIZE)
      ensures r != OK ==> AllSame(old(St()), St()) && r == ENOSPC
      ensures var n := ZoneOf(g, position);
        && (r == OK <==> old(Spare()) >= Needs(old(St()), i, n)) && (r == OK ==> Spare() == old(Spare()) - Needs(old(St()), i, n))
        && (r != OK ==> Short(i, position))
    {
      hide Inv, Books, BlocksSet, At, BlockAt, InFile, Bound, ZoneThere, OthersSame, AllSame, Missing, Spare, D.BlockDevice.Valid;
      ghost var v, q, f := St(), position / BLOCK_SIZE, inodes[i].size;
      SoundHere(v);
      InBound(v, i, position);
      Known(v, i, q);
      AllSameRefl(v);
      b := ReadMap(i, position);
      if b == NO_BLOCK {
        var z := if inodes[i].zone[0] == NO_ZONE then g.first else inodes[i].zone[0];
        NearZone(i);
        NearFirst();
        r, b := NewZone(i, position, z);
        if r != OK { return; }
      } else {
        ZoneAlready(v, i, f, position);
      }
      ghost var w := St();
      ThereStill(v, w, i, f, position);
      ZeroBlock(b, i, q);
      BlockNew(v, w, St(), i, f, position, Zeros());
      r := OK;
      ThereStill(v, St(), i, f, position);
    }

    /** zero_block, of block q of file i, which need not be read first. */
    method ZeroBlock(b: nat, ghost i: nat, ghost q: nat)
      requires Valid() && InFile(St(), i, q) && ZoneAt(St(), i, q / g.perZone) != NO_ZONE && b == BlockNr(St(), i, q)
      modifies dev.parts
      ensures Valid() && BlocksSet(old(St()), St(), i, q, q + 1, Zeros())
    {
      hide Inv, Books, BlocksSet, At, D.BlockDevice.Valid;
      DataBlock(St(), i, q);
      var bp := GetBlock(b, true);
      bp := Zeros();
      PutBlock(b, bp, i, q);
    }

    lemma NearFirst()
      requires Valid()
      ensures g.first < SB.UNSIGNED_LONG
    {
      hide Inv, Entry, D.BlockDevice.Valid;
    }

    /** new_block: a zone is allocated and stored in a file, or nothing has changed but that there may be another indirect block. */
    method NewMapped(i: nat, position: nat, near: nat) returns (r: Code, z: nat)
      requires Valid() && i < inodes.Length && position < Bound(g) && near < SB.UNSIGNED_LONG
      requires InFile(St(), i, position / BLOCK_SIZE) && ZoneAt(St(), i, position / BLOCK_SIZE / g.perZone) == NO_ZONE
      modifies this`role, this`loose, dev.parts, inodes, sb`s_zsearch, sb.zoneMap.words, sb.zoneMap`dirty
      ensures Valid() && loose == old(loose) && (r == OK || r == ENOSPC)
      ensures r == OK ==>
        && Mapped(old(St()), St(), i, position / BLOCK_SIZE / g.perZone, z) && g.first <= z < g.zones && z !in old(role)
        && |old(inodes[..])| == inodes.Length
      ensures r != OK ==> AllSame(old(St()), St())
      ensures var n := ZoneOf(g, position);
        && (r == OK <==> old(Spare()) >= Needs(old(St()), i, n)) && (r == OK ==> Spare() == old(Spare()) - Needs(old(St()), i, n))
        && (r != OK ==> Short(i, position))
    {
      hide Inv, Books, At, Bound, AllSame, Missing, Spare, Mapped, D.BlockDevice.Valid;
      ghost var v, n := St(), position / BLOCK_SIZE / g.perZone;
      SoundHere(v);
      AllSameRefl(v);
      z := AllocZone(near);
      if z == NO_ZONE { return ENOSPC, z; }
      Known(v, i, position / BLOCK_SIZE);
      r := WriteMap(i, position, z);
      if r != OK {
        StillUnmapped(v, St(), i, n);
        FreeZone(z);
      }
    }

    /** new_block: a new zone for a byte, cleared unless the byte is just behind the end of the file. */
    method NewZone(i: nat, position: nat, near: nat) returns (r: Code, b: nat)
      requires Valid() && i < inodes.Length && position < Bound(g) && near < SB.UNSIGNED_LONG
      requires InFile(St(), i, position / BLOCK_SIZE) && ZoneAt(St(), i, position / BLOCK_SIZE / g.perZone) == NO_ZONE
      modifies this`role, this`loose, dev.parts, inodes, sb`s_zsearch, sb.zoneMap.words, sb.zoneMap`dirty
      ensures Valid() && loose == old(loose)
      ensures r == OK ==>
        && ZoneThere(old(St()), St(), i, old(inodes[i].size), position)
        && b == BlockNr(St(), i, position / BLOCK_SIZE)
      ensures r != OK ==> AllSame(old(St()), St()) && r == ENOSPC
      ensures var n := ZoneOf(g, position);
        && (r == OK <==> old(Spare()) >= Needs(old(St()), i, n)) && (r == OK ==> Spare() == old(Spare()) - Needs(old(St()), i, n))
        && (r != OK ==> Short(i, position))
    {
      hide Inv, Books, BlocksSet, At, Bound, ZoneThere, EndCleared, OthersSame, AllSame, SameZone, Missing, Spare, D.BlockDevice.Valid, Needs, Short;
      ghost var v, n := St(), position / BLOCK_SIZE / g.perZone;
      SoundHere(v);
      AllSameRefl(v);
      b := NO_BLOCK;
      var z;
      r, z := NewMapped(i, position, near);
      if r != OK { return; }
      ghost var u := St();
      assert MapsZone(v, u, i, n, z, i, n);
      if position != inodes[i].size { ClearZone(i, position, true); }
      ZoneNew(v, u, St(), i, v.inodes[i].size, position, z);
      ZoneStays(u, St(), i, position, n, position != v.inodes[i].size && g.perZone > 1);
      var zone_size := g.perZone * BLOCK_SIZE;
      ZoneSize(position, g.perZone);
      b := z * g.perZone + position % zone_size / BLOCK_SIZE;
    }

    /** rw_chunk, writing: the block that bytes are written to, and what is in the buffer before they are. */
    method FetchChunk(i: nat, position: nat, chunk: nat) returns (r: Code, b: nat, bp: Block)
      requires Valid() && i < inodes.Length && position < Bound(g)
      modifies this`role, this`loose, dev.parts, inodes, sb`s_zsearch, sb.zoneMap.words, sb.zoneMap`dirty
      ensures Valid() && loose == old(loose) && |old(inodes[..])| == inodes.Length
      ensures r == OK ==>
        && ZoneThere(old(St()), St(), i, old(inodes[i].size), position) && b == BlockNr(St(), i, position / BLOCK_SIZE)
        && (|| bp == BlockAt(old(St()), i, position / BLOCK_SIZE)
            || (bp == Zeros() && position % BLOCK_SIZE == 0 && position >= old(inodes[i].size))
            || chunk == BLOCK_SIZE)
        && (position % BLOCK_SIZE == 0 && position >= old(inodes[i].size) && chunk != BLOCK_SIZE ==> bp == Zeros())
      ensures r != OK ==> AllSame(old(St()), St()) && r == ENOSPC
      ensures var n := ZoneOf(g, position);
        && (r == OK <==> old(Spare()) >= Needs(old(St()), i, n)) && (r == OK ==> Spare() == old(Spare()) - Needs(old(St()), i, n))
        && (r != OK ==> Short(i, position))
    {
      hide Inv, Books, At, Bound, ZoneThere, AllSame, Missing, Spare, Short, D.BlockDevice.Valid;
      ghost var v, q, f := St(), position / BLOCK_SIZE, inodes[i].size;
      SoundHere(v);
      InBound(v, i, position);
      AllSameRefl(v);
      UnmappedBlock(v, i, q);
      b := ReadMap(i, position);
      if b == NO_BLOCK {
        r, b := NewBlock(i, position);
        if r != OK { bp := Zeros(); return; }
        bp := Zeros();
      } else {
        var noRead := chunk == BLOCK_SIZE;
        if position % BLOCK_SIZE == 0 && position >= inodes[i].size { noRead := true; }
        bp := GetBlock(b, noRead);
        ZoneAlready(v, i, f, position);
        if chunk != BLOCK_SIZE && position >= inodes[i].size && position % BLOCK_SIZE == 0 { bp := Zeros(); }
      }
      r := OK;
    }

    /** rw_chunk, writing: bytes within one block. */
    method WriteChunk(i: nat, position: nat, chunk: seq<Byte>) returns (r: Code)
      requires Valid() && i < inodes.Length && |chunk| > 0 && position % BLOCK_SIZE + |chunk| <= BLOCK_SIZE
      requires position + |chunk| <= Bound(g)
      modifies this`role, this`loose, dev.parts, inodes, sb`s_zsearch, sb.zoneMap.words, sb.zoneMap`dirty
      ensures Valid() && loose == old(loose) && |old(inodes[..])| == inodes.Length
      ensures r == OK ==>
        && ChunkWritten(old(St()), St(), i, old(inodes[i].size), position, chunk) && OthersSame(old(St()), St(), i)
        && inodes[i].size == old(inodes[i].size)
      ensures r != OK ==> AllSame(old(St()), St()) && r == ENOSPC
      ensures var n := ZoneOf(g, position);
        && (r == OK <==> old(Spare()) >= Needs(old(St()), i, n)) && (r == OK ==> Spare() == old(Spare()) - Needs(old(St()), i, n))
        && (r != OK ==> Short(i, position))
    {
      hide Inv, Books, BlocksSet, At, BlockAt, Bound, ZoneThere, OthersSame, AllSame, HasChunk, ChunkWritten, Needs, Spare, Short,
        D.BlockDevice.Valid;
      ghost var v, q, f := St(), position / BLOCK_SIZE, inodes[i].size;
      SoundHere(v);
      InBound(v, i, position);
      var off, b, bp := position % BLOCK_SIZE, NO_BLOCK, Zeros();
      r, b, bp := FetchChunk(i, position, |chunk|);
      if r != OK { return; }
      ghost var w := St();
      ThereStill(v, w, i, f, position);
      ghost var base := bp;
      bp := bp[..off] + chunk + bp[off + |chunk|..];
      PutBlock(b, bp, i, q);
      BlockNew(v, w, St(), i, f, position, bp);
      ChunkInPlace(BlockAt(v, i, q), base, bp, f, position, chunk);
      ChunkDone(v, St(), i, f, position, chunk);
      ThereStill(v, St(), i, f, position);
    }

    /** What every file keeps between two calls. */
    ghost predicate AllTidy()
      reads this, dev, inodes
    {
      g.perZone > 0 && forall j :: 0 <= j < inodes.Length ==> TidyFile(St(), j)
    }

    /** read_write: when a write starts behind the end, the file is cleared from there to the end of the zone. */
    method ClearGap(i: nat, position: nat, ghost data: seq<Byte>)
      requires Valid() && AllTidy() && i < inodes.Length && position + |data| <= Bound(g)
      requires position > inodes[i].size ==> |data| > 0
      modifies dev.parts
      ensures Valid() && loose == old(loose) && |old(inodes[..])| == inodes.Length
      ensures Writing(old(St()), St(), i, old(inodes[i].size), position, 0, data)
      ensures position == old(inodes[i].size) ==> St() == old(St())
    {
      hide Inv, Books, At, BlockAt, Bound, OthersSame, Tidy, Writing, D.BlockDevice.Valid;
      ghost var v := St();
      FileTidy(v, i);
      var f_size := inodes[i].size;
      if position > f_size {
        BeforeBound(g, f_size, position, |data|);
        ClearZone(i, f_size, false);
        if g.perZone == 1 { OnlyBlock(v, i, f_size); }
        WritingBehind(v, St(), i, f_size, position, data);
      } else {
        WritingStart(v, i, f_size, position, data);
      }
    }

    /** read_write, writing: what goes into one block. */
    method WriteSome(i: nat, position: nat, data: seq<Byte>, cum_io: nat,
                     ghost v: Volume, ghost f_size: nat, ghost start: nat, ghost within: seq<Byte>)
      returns (r: Code, n: nat)
      requires Valid() && i < inodes.Length && position == start + cum_io < Bound(g) && cum_io < |data| && cum_io <= |within|
      requires start <= Bound(g) && within == Within(g, start, data)
      requires Writing(v, St(), i, f_size, start, cum_io, within) && (cum_io == 0 && start == f_size ==> St() == v)
      modifies this`role, this`loose, dev.parts, inodes, sb`s_zsearch, sb.zoneMap.words, sb.zoneMap`dirty
      ensures Valid() && loose == old(loose) && |v.inodes| == inodes.Length
      ensures cum_io + n <= |within| && Writing(v, St(), i, f_size, start, cum_io + n, within)
      ensures if r == OK then n > 0 else n == 0 && r == ENOSPC && Short(i, position)
    {
      hide Inv, Books, At, BlockAt, Bound, ZoneThere, OthersSame, AllSame, HasChunk, ChunkWritten, Tidy, Writing, Solid, Ready, Needs, Short,
        Spare, Within, D.BlockDevice.Valid;
      var off := position % BLOCK_SIZE;
      n := if |data| - cum_io < BLOCK_SIZE - off then |data| - cum_io else BLOCK_SIZE - off;
      ghost var u := St();
      WritingFacts(v, u, i, f_size, start, cum_io, within);
      NextChunk(g, start, data, cum_io, n);
      r := WriteChunk(i, position, data[cum_io..cum_io + n]);
      if r != OK {
        FailedFacts(u, St());
        WritingFailed(v, u, St(), i, f_size, start, cum_io, within);
        n := 0;
      } else {
        WritingOn(v, u, St(), i, f_size, start, cum_io, within, within[cum_io..cum_io + n]);
      }
    }

    /** read_write, writing to a regular file: how much has been written, and where the next write would go. */
    method WriteFile(i: nat, filp_pos: nat, append: bool, data: seq<Byte>) returns (r: Code, cum_io: nat, position: nat)
      requires Valid() && AllTidy() && i < inodes.Length && s_max_size <= Bound(g)
      modifies this`role, this`loose, dev.parts, inodes, sb`s_zsearch, sb.zoneMap.words, sb.zoneMap`dirty
      ensures Valid() && AllTidy() && loose == old(loose) && cum_io <= |data| && (r == OK ==> cum_io == |data|) && (|data| == 0 ==> r == OK)
      ensures r == EFBIG <==> |data| > 0 && filp_pos > s_max_size - |data|
      ensures r == EFBIG || |data| == 0 ==> St() == old(St()) && cum_io == 0 && position == filp_pos
      ensures r != EFBIG && |data| > 0 ==>
        Stretched(old(St()), St(), i, if append then old(inodes[i].size) else filp_pos, cum_io, position, data)
      ensures r != EFBIG && r != ENOSPC ==> (r == BEYOND <==> append && old(inodes[i].size) + |data| > Bound(g))
      ensures r == BEYOND ==> position == Bound(g)
      ensures r == ENOSPC ==> position < Bound(g) && Short(i, position)
    {
      hide Inv, Books, At, BlockAt, Bound, ZoneThere, OthersSame, AllSame, HasChunk, ChunkWritten, Tidy, Writing, Solid, Ready, Stretched,
        Needs, Short;
      ghost var v := St();
      r, cum_io, position := OK, 0, filp_pos;
      if |data| == 0 { FileTidy(v, i); return; }
      if position > s_max_size - |data| { r := EFBIG; return; }
      var f_size := inodes[i].size;
      if append { position := f_size; }
      ghost var start := position;
      FileTidy(v, i);
      // What cannot be mapped is not written.
      ghost var within := Within(g, start, data);
      ClearGap(i, position, within);
      while cum_io < |data|
        invariant Valid() && loose == old(loose) && r == OK && cum_io <= |within| && position == start + cum_io
        invariant Writing(v, St(), i, f_size, start, cum_io, within) && |v.inodes| == inodes.Length
        invariant cum_io == 0 && start == f_size ==> St() == v
      {
        if position == Bound(g) { r := BEYOND; break; }
        var n;
        r, n := WriteSome(i, position, data, cum_io, v, f_size, start, within);
        if r != OK { break; }
        cum_io := cum_io + n;
        position := position + n;
      }
      ghost var w := St();
      WritingFacts(v, w, i, f_size, start, cum_io, within);
      Extend(i, f_size, position);
      WritingEnd(v, w, St(), i, f_size, start, cum_io, within);
      StretchedWithin(v, St(), i, start, cum_io, position, within, data);
    }

    /** The new size of a file. */
    method SetSize(i: nat, size: nat)
      requires Valid() && i < inodes.Length
      modifies inodes
      ensures Valid() && St() == Sized(old(St()), i, size)
    {
      hide Inv, Books, D.BlockDevice.Valid;
      ghost var v := St();
      BooksOpen();
      SizedInv(v, i, size);
      inodes[i] := inodes[i].(size := size);
      assert St() == Sized(v, i, size);
      BooksShut();
    }

    /** rahead, of as many blocks as it likes. */
    method GetAhead(b: nat) returns (bp: Block)
      requires Ready() && b < |dev.blocks|
      modifies dev.parts
      ensures Ready() && St() == old(St()) && bp == dev.blocks[b]
    {
      hide D.BlockDevice.Valid;
      var ahead: nat := *;
      bp := dev.ReadAhead(b, ahead);
    }

    /** A file's size has no part in what its zones need. */
    lemma StillShort(v: Volume, i: nat, size: nat)
      requires g == v.g && i < |v.inodes| && St() == Sized(v, i, size)
      ensures Short(i, size) <==> g.perZone > 0 && Spare() < Needs(v, i, size / BLOCK_SIZE / g.perZone)
    {
      hide Needs, Spare, At, Sized;
      if g.perZone > 0 { SizedNeeds(v, i, size, size / BLOCK_SIZE / g.perZone); }
    }

    /** read_write: a file may have become longer. */
    method Extend(i: nat, f_size: nat, position: nat)
      requires Valid() && i < inodes.Length && f_size == inodes[i].size
      modifies inodes
      ensures Valid() && St() == if position > f_size then Sized(old(St()), i, position) else old(St())
      ensures old(Short(i, position)) ==> Short(i, position)
    {
      hide Inv, Books, D.BlockDevice.Valid, Needs, Spare;
      ghost var v := St();
      if position > f_size {
        SetSize(i, position);
        StillShort(v, i, position);
      }
    }

    /** rw_chunk, reading: bytes within one block. */
    method ReadChunk(i: nat, position: nat, chunk: nat) returns (bytes: seq<Byte>)
      requires Inv(St()) && Ready() && i < inodes.Length && position % BLOCK_SIZE + chunk <= BLOCK_SIZE && position < Bound(g)
      modifies dev.parts
      ensures St() == old(St()) && Ready()
      ensures g.perZone > 0 && |bytes| == chunk
      ensures forall x :: position <= x < position + chunk ==> bytes[x - position] == ByteAt(St(), i, x)
    {
      hide Inv, At, Bound, BlockAt, Ready;
      SoundHere(St());
      InBound(St(), i, position);
      Known(St(), i, position / BLOCK_SIZE);
      var off := position % BLOCK_SIZE;
      var b := ReadMap(i, position);
      var bp: Block;
      if b == NO_BLOCK {
        bp := Zeros();
        UnmappedBlock(St(), i, position / BLOCK_SIZE);
      } else {
        bp := GetAhead(b);
      }
      bytes := bp[off..off + chunk];
    }

    /** read_write, reading from a regular file: the bytes from filp_pos on, at most nbytes of them and none behind the end. */
    method ReadFile(i: nat, filp_pos: nat, nbytes: nat) returns (buffer: seq<Byte>, position: nat)
      requires Inv(St()) && Ready() && i < inodes.Length && inodes[i].size <= Bound(g)
      modifies dev.parts
      ensures St() == old(St()) && Ready()
      ensures position == filp_pos + |buffer| && g.perZone > 0
      ensures var s := Content(St(), i, inodes[i].size);
        buffer == if filp_pos >= |s| then [] else if filp_pos + nbytes >= |s| then s[filp_pos..] else s[filp_pos..filp_pos + nbytes]
    {
      hide Inv, At, Bound, BlockAt, ByteAt, Ready;
      SoundHere(St());
      ghost var v := St();
      ghost var s := Content(v, i, inodes[i].size);
      buffer, position := [], filp_pos;
      var f_size, left := inodes[i].size, nbytes;
      while left != 0
        invariant 0 <= left && |buffer| + left == nbytes && position == filp_pos + |buffer|
        invariant St() == v && Ready() && (buffer != [] ==> position <= |s| && buffer == s[filp_pos..position])
        decreases left
      {
        var off := position % BLOCK_SIZE;
        var chunk: nat := if left < BLOCK_SIZE - off then left else BLOCK_SIZE - off;
        if position >= f_size { break; }
        if chunk > f_size - position { chunk := f_size - position; }
        var bytes := ReadChunk(i, position, chunk);
        assert bytes == s[position..position + chunk];
        if buffer != [] { assert s[filp_pos..position] + s[position..position + chunk] == s[filp_pos..position + chunk]; }
        buffer := buffer + bytes;
        left := left - chunk;
        position := position + chunk;
      }
      ReadWithin(s, filp_pos, nbytes, buffer, position);
    }

    /** What is allocated when the zones in gone have been freed already, although the file still refers to them. */
    ghost predicate Freeing(gone: set<int>)
      reads this, sb, sb.inodeMap, sb.zoneMap, sb.inodeMap.words, sb.zoneMap.words
    {
      && sb.Valid() && !sb.s_rd_only && sb.s_firstdatazone == g.first && sb.s_zones == g.zones && role.Keys !! loose
      && gone <= role.Keys && sb.Zones() == role.Keys + loose - gone
    }

    /** free_zone, in truncate: a zone of the file that has not been freed yet; other numbers are ignored. */
    method Release(z: nat, ghost gone: set<int>)
      requires Freeing(gone) && (z == NO_ZONE || (z in role && z !in gone && g.first <= z < g.zones)) && Sane(g)
      modifies sb`s_zsearch, sb.zoneMap.words, sb.zoneMap`dirty
      ensures Freeing(if z == NO_ZONE then gone else gone + {z as int})
    {
      var ok := sb.FreeZone(z);
      assert ok;
    }

    /** truncate: frees the zones of a file, each once, and leaves the zone numbers where they are. */
    method Truncate(i: nat) returns (ghost gone: set<int>)
      requires Valid() && i < inodes.Length && inodes[i].size <= Bound(g)
      modifies dev.parts, sb`s_zsearch, sb.zoneMap.words, sb.zoneMap`dirty
      ensures Inv(St()) && St() == old(St()) && g.perZone > 0 && Freeing(gone) && Ready()
      ensures forall z :: z in gone <==> Freed(St(), i, Zones(inodes[i].size, g.perZone), z)
    {
      hide Inv, At, Bound, Freeing, Books, BlockAt, IsData, D.BlockDevice.Valid;
      ghost var v, n := St(), 0;
      SoundHere(v);
      FreeingStart();
      ZonesBound(g, inodes[i].size);
      gone := {};
      var zone_size := g.perZone * BLOCK_SIZE;
      var position := 0;
      while position < inodes[i].size
        invariant position == n * zone_size && Inv(St()) && St() == v && Freeing(gone) && Ready()
        invariant 0 <= n <= Zones(inodes[i].size, g.perZone) <= Capacity(g)
        invariant forall z :: z in gone <==> Among(v, i, n, z)
      {
        ZonePosition(g, n, position, inodes[i].size);
        var b := ReadMap(i, position);
        if b != NO_BLOCK {
          var z := b / g.perZone;
          DivMul(ZoneAt(v, i, n), g.perZone, 0);
          NotYetFreed(v, i, n, gone);
          Release(z, gone);
          gone := gone + {z as int};
        }
        AmongNext(v, i, n);
        position := position + zone_size;
        n := n + 1;
      }
      AllZones(g, n, inodes[i].size);
      gone := FreeIndirect(i, n, gone);
    }

    lemma FreeingStart()
      requires Valid()
      ensures Freeing({})
    {
      hide Inv, D.BlockDevice.Valid;
    }

    /** truncate: the indirect blocks, when the zones of data have been freed. */
    method FreeIndirect(i: nat, ghost n: nat, ghost gone0: set<int>) returns (ghost gone: set<int>)
      requires Inv(St()) && i < inodes.Length && Freeing(gone0) && n <= Capacity(g) && Ready()
      requires forall z :: z in gone0 <==> Among(St(), i, n, z)
      modifies dev.parts, sb`s_zsearch, sb.zoneMap.words, sb.zoneMap`dirty
      ensures Inv(St()) && St() == old(St()) && Freeing(gone) && Ready()
      ensures forall z :: z in gone <==> Freed(St(), i, n, z)
    {
      hide Inv, At, Freeing, BlockAt, IsData, Proper, D.BlockDevice.Valid;
      ghost var v := St();
      SoundHere(v);
      RolePath(v, i, 0);
      gone := gone0;
      IndexRoles(v, i);
      IndexNotFreed(v, i, n, gone, Single(i));
      Release(inodes[i].zone[SINGLE], gone);
      if inodes[i].zone[SINGLE] != NO_ZONE { gone := gone + {inodes[i].zone[SINGLE] as int}; }
      var z := inodes[i].zone[DOUBLE];
      if z != NO_ZONE {
        IndexBlock(v, Double(i));
        var nr_indirects, k := Indirects(g.version), 0;
        while k < nr_indirects
          invariant 0 <= k <= nr_indirects && Inv(St()) && St() == v && Freeing(gone) && Ready()
          invariant forall y :: y in gone <==> Among(v, i, n, y) || (y == At(v, Single(i)) && y != NO_ZONE) || Below(v, i, k, y)
        {
          var z1 := RdIndir(z * g.perZone, k, Indirect(i, k));
          IndexNotFreed(v, i, n, gone, Indirect(i, k));
          Release(z1, gone);
          if z1 != NO_ZONE { gone := gone + {z1 as int}; }
          BelowNext(v, i, k);
          k := k + 1;
        }
        IndexNotFreed(v, i, n, gone, Double(i));
        Release(z, gone);
        gone := gone + {z as int};
      }
      AllFreed(v, i, n, gone);
    }

    /** wipe_inode, after truncate: the file is empty and has no zones. */
    method WipeInode(i: nat, ghost gone: set<int>)
      requires Inv(St()) && i < inodes.Length && Freeing(gone) && gone == ZonesOf(St(), i) && Ready()
      modifies inodes, this`role
      ensures Valid() && St() == Wiped(old(St()), i)
    {
      hide Inv, At, D.BlockDevice.Valid;
      ghost var v := St();
      WipedInv(v, i);
      inodes[i] := Inode(seq(NR_TZONES, _ => NO_ZONE), 0);
      role := Wiped(v, i).role;
      assert St() == Wiped(v, i);
    }

    /** truncate and wipe_inode, as do_creat uses them: a tidy file gives back all its zones, and nothing else changes. */
    method EmptyFile(i: nat)
      requires Valid() && AllTidy() && i < inodes.Length
      modifies dev.parts, inodes, this`role, sb`s_zsearch, sb.zoneMap.words, sb.zoneMap`dirty
      ensures Valid() && AllTidy() && St() == Wiped(old(St()), i) && OthersSame(old(St()), St(), i) && loose == old(loose)
      ensures sb.Zones() == old(sb.Zones()) - ZonesOf(old(St()), i)
      ensures inodes[i].size == 0
    {
      hide Inv, At, Tidy, Bound, BlockAt, D.BlockDevice.Valid;
      ghost var v := St();
      SoundHere(v);
      FileTidy(v, i);
      TidyFreesAll(v, i, inodes[i].size);
      ghost var gone := Truncate(i);
      WipeInode(i, gone);
      WipedFiles(v, i);
      EmptyTidy(v, St(), i);
    }
  }

  lemma StillInBound(g: Geometry, p: nat, q: nat)
    requires p < Bound(g) && q <= p
    ensures q < Bound(g)
  {
  }

  /** Block lo of file i and the last block of its zone, by number. */
  lemma BlockNumbers(v: Volume, i: int, lo: nat, b: int)
    requires Inv(v) && InFile(v, i, lo) && ZoneAt(v, i, lo / v.g.perZone) != NO_ZONE
    requires b == Base(v, ZoneAt(v, i, lo / v.g.perZone)) + lo % v.g.perZone
    ensures b / v.g.perZone == ZoneAt(v, i, lo / v.g.perZone)
    ensures (b / v.g.perZone + 1) * v.g.perZone - 1 - b == (lo / v.g.perZone + 1) * v.g.perZone - 1 - lo
  {
    hide Inv, At;
    SoundHere(v);
    Euclid(lo, v.g.perZone);
    var z := ZoneAt(v, i, lo / v.g.perZone);
    DivMul(z, v.g.perZone, lo % v.g.perZone);
    assert (z + 1) * v.g.perZone == z * v.g.perZone + v.g.perZone;
    assert (lo / v.g.perZone + 1) * v.g.perZone == lo / v.g.perZone * v.g.perZone + v.g.perZone;
  }

  /** Blocks of one zone follow each other. */
  lemma BlockOfZone(v: Volume, u: Volume, i: int, lo: nat, q: nat, n: nat)
    requires Inv(u) && InFile(v, i, lo) && lo / v.g.perZone == n && lo <= q < (n + 1) * v.g.perZone
    requires BlocksSet(v, u, i, lo, q, Zeros()) && ZoneAt(v, i, n) != NO_ZONE
    ensures InFile(u, i, q) && q / v.g.perZone == n && ZoneAt(u, i, n) == ZoneAt(v, i, n) && u.g == v.g
    ensures Base(u, ZoneAt(u, i, n)) + q % v.g.perZone == Base(v, ZoneAt(v, i, n)) + lo % v.g.perZone + (q - lo) < |u.disk|
  {
    hide Inv, At, BlockAt;
    WithinZone(q, n, v.g.perZone);
    WithinZone(lo, n, v.g.perZone);
    Euclid(q, v.g.perZone);
    Euclid(lo, v.g.perZone);
    DataBlock(u, i, q);
  }

  /** The number of block q of file i on the device. */
  function BlockNr(v: Volume, i: int, q: nat): int
    requires v.g.perZone > 0
  {
    Base(v, ZoneAt(v, i, q / v.g.perZone)) + q % v.g.perZone
  }

  lemma EmptyTidy(v: Volume, w: Volume, i: int)
    requires w.g == v.g && v.g.perZone > 0 && OthersSame(v, w, i) && |w.inodes| == |v.inodes| && Tidy(w, i, 0)
    requires 0 <= i < |v.inodes| && w.inodes[i].size == 0 && forall j :: 0 <= j < |v.inodes| ==> TidyFile(v, j)
    ensures forall j :: 0 <= j < |w.inodes| ==> TidyFile(w, j)
  {
    forall j | 0 <= j < |w.inodes| ensures TidyFile(w, j) {
      if j != i {
        assert TidyFile(v, j) && SameFile(v, w, j);
        SameTidy(v, w, j, v.inodes[j].size);
      }
    }
  }

  lemma ZonePosition(g: Geometry, n: nat, p: nat, size: nat)
    requires g.perZone > 0 && p == n * (g.perZone * BLOCK_SIZE) && p < size && n <= Zones(size, g.perZone) <= Capacity(g)
    ensures p / BLOCK_SIZE / g.perZone == n && p / BLOCK_SIZE % g.perZone == 0 && n < Zones(size, g.perZone)
    ensures (n + 1) * (g.perZone * BLOCK_SIZE) == p + g.perZone * BLOCK_SIZE
  {
    Grouped(n, g.perZone);
    DivMul(n * g.perZone, BLOCK_SIZE, 0);
    DivMul(n, g.perZone, 0);
    ZonesCover(size, g.perZone, n);
  }

  lemma AllZones(g: Geometry, n: nat, size: nat)
    requires g.perZone > 0 && n * (g.perZone * BLOCK_SIZE) >= size && n <= Zones(size, g.perZone)
    ensures n == Zones(size, g.perZone)
  {
    Grouped(n, g.perZone);
    ZonesCover(size, g.perZone, n);
  }

  lemma NotYetFreed(v: Volume, i: int, n: nat, gone: set<int>)
    requires Inv(v) && 0 <= i < |v.inodes| && n < Capacity(v.g) && ZoneAt(v, i, n) != NO_ZONE
    requires forall z :: z in gone <==> Among(v, i, n, z)
    ensures var z := ZoneAt(v, i, n); z !in gone && z in v.role && v.g.first <= z < v.g.zones
  {
    hide At;
    DataRoleProper(v, i, n);
    InRange(v, DataRole(v.g, i, n));
    if m :| 0 <= m < n && ZoneAt(v, i, m) == ZoneAt(v, i, n) {
      DataRoleProper(v, i, m);
      Distinct(v, DataRole(v.g, i, m), DataRole(v.g, i, n));
      DataRoleInjective(v.g, i, m, i, n);
    }
  }

  lemma AmongNext(v: Volume, i: int, n: nat)
    ensures forall z :: Among(v, i, n + 1, z) <==> Among(v, i, n, z) || (z == ZoneAt(v, i, n) && z != NO_ZONE)
  {
    hide ZoneAt;
    forall z ensures Among(v, i, n + 1, z) <==> Among(v, i, n, z) || (z == ZoneAt(v, i, n) && z != NO_ZONE) {
      if Among(v, i, n + 1, z) {
        var m :| 0 <= m < n + 1 && ZoneAt(v, i, m) == z != NO_ZONE;
        assert m < n ==> Among(v, i, n, z);
      }
    }
  }

  /** One of the first k indirect blocks that the double indirect block leads to. */
  ghost predicate Below(v: Volume, i: int, k: int, z: int) {
    exists j :: 0 <= j < k && At(v, Indirect(i, j)) == z != NO_ZONE
  }

  lemma BelowNext(v: Volume, i: int, k: nat)
    ensures forall z :: Below(v, i, k + 1, z) <==> Below(v, i, k, z) || (z == At(v, Indirect(i, k)) && z != NO_ZONE)
  {
    hide At;
    forall z ensures Below(v, i, k + 1, z) <==> Below(v, i, k, z) || (z == At(v, Indirect(i, k)) && z != NO_ZONE) {
      if Below(v, i, k + 1, z) {
        var j :| 0 <= j < k + 1 && At(v, Indirect(i, j)) == z != NO_ZONE;
        assert j < k ==> Below(v, i, k, z);
      }
    }
  }

  lemma IndexRoles(v: Volume, i: int)
    requires 0 <= i < |v.inodes|
    ensures Proper(v, Single(i)) && Proper(v, Double(i)) && forall j :: 0 <= j < Indirects(v.g.version) ==> Proper(v, Indirect(i, j))
    ensures !IsData(Single(i)) && !IsData(Double(i)) && forall j :: !IsData(Indirect(i, j))
  {
  }

  /** An indirect block is freed after the data and before others. */
  lemma IndexNotFreed(v: Volume, i: int, n: nat, gone: set<int>, r: Role)
    requires Inv(v) && Proper(v, r) && r.ino == i && !IsData(r) && n <= Capacity(v.g)
    requires match r
      case Single(_) => forall z :: z in gone <==> Among(v, i, n, z)
      case Indirect(_, k) =>
        forall z :: z in gone <==> Among(v, i, n, z) || (z == At(v, Single(i)) && z != NO_ZONE) || Below(v, i, k, z)
      case Double(_) =>
        forall z :: z in gone <==>
          Among(v, i, n, z) || (z == At(v, Single(i)) && z != NO_ZONE) || Below(v, i, Indirects(v.g.version), z)
      case _ => false
    ensures var z := At(v, r); z != NO_ZONE ==> z !in gone && z in v.role && v.g.first <= z < v.g.zones
  {
    hide At;
    var z := At(v, r);
    if z != NO_ZONE {
      InRange(v, r);
      if Among(v, i, n, z) {
        var m :| 0 <= m < n && ZoneAt(v, i, m) == z;
        DataRoleProper(v, i, m);
        Distinct(v, DataRole(v.g, i, m), r);
      }
      if !r.Single? && z == At(v, Single(i)) { Distinct(v, Single(i), r); }
      if j :| 0 <= j < Indirects(v.g.version) && r != Indirect(i, j) && At(v, Indirect(i, j)) == z { Distinct(v, Indirect(i, j), r); }
    }
  }

  lemma AllFreed(v: Volume, i: int, n: nat, gone: set<int>)
    requires Inv(v) && 0 <= i < |v.inodes| && n <= Capacity(v.g)
    requires forall y :: y in gone <==>
      Among(v, i, n, y) || (y == At(v, Single(i)) && y != NO_ZONE) || (y == At(v, Double(i)) && y != NO_ZONE)
      || Below(v, i, Indirects(v.g.version), y)
    ensures forall z :: z in gone <==> Freed(v, i, n, z)
  {
    hide At;
    IndexRoles(v, i);
    forall z | Freed(v, i, n, z) ensures z in gone { FreedGone(v, i, n, z); }
    forall z | z in gone ensures Freed(v, i, n, z) {
      if Among(v, i, n, z) {
        var m :| 0 <= m < n && ZoneAt(v, i, m) == z;
        DataRoleProper(v, i, m);
        InRange(v, DataRole(v.g, i, m));
      } else if Below(v, i, Indirects(v.g.version), z) {
        var j :| 0 <= j < Indirects(v.g.version) && At(v, Indirect(i, j)) == z;
        InRange(v, Indirect(i, j));
      } else if z == At(v, Single(i)) {
        InRange(v, Single(i));
      } else {
        InRange(v, Double(i));
      }
    }
  }

  lemma FreedGone(v: Volume, i: int, n: nat, z: int)
    requires Inv(v) && Freed(v, i, n, z)
    ensures z != NO_ZONE
    ensures Among(v, i, n, z) || z == At(v, Single(i)) || z == At(v, Double(i)) || Below(v, i, Indirects(v.g.version), z)
  {
    hide At;
    assert Owned(v, z);
    var r := v.role[z];
    assert r.Indirect? ==> At(v, Indirect(i, r.j)) == z;
  }

  lemma FileTidy(v: Volume, i: int)
    requires v.g.perZone > 0 && TidyFile(v, i)
    ensures Tidy(v, i, v.inodes[i].size) && v.inodes[i].size <= Bound(v.g)
  {
  }

  /** A chunk does not cross the last byte that can be mapped. */
  lemma ChunkWithin(g: Geometry, p: nat, left: nat)
    requires p < Bound(g)
    ensures var off := p % BLOCK_SIZE; p + (if left < BLOCK_SIZE - off then left else BLOCK_SIZE - off) <= Bound(g)
  {
    var m := Capacity(g) * g.perZone;
    assert Bound(g) == m * BLOCK_SIZE;
  }

  /** What can be mapped of the data of a write. */
  function Within(g: Geometry, start: nat, data: seq<Byte>): (d: seq<Byte>)
    requires start <= Bound(g)
    ensures d <= data
  {
    if start + |data| <= Bound(g) then data else data[..Bound(g) - start]
  }

  lemma NextChunk(g: Geometry, start: nat, data: seq<Byte>, done: nat, n: nat)
    requires start + done < Bound(g) && done < |data|
    requires var off := (start + done) % BLOCK_SIZE; n == if |data| - done < BLOCK_SIZE - off then |data| - done else BLOCK_SIZE - off
    ensures 0 < n && (start + done) % BLOCK_SIZE + n <= BLOCK_SIZE && done + n <= |Within(g, start, data)|
    ensures Within(g, start, data)[done..done + n] == data[done..done + n]
  {
    hide Bound;
    ChunkWithin(g, start + done, |data| - done);
    SlicePrefix(Within(g, start, data), data, done, done + n);
  }

  lemma ReadWithin(s: seq<Byte>, p: nat, n: nat, buffer: seq<Byte>, position: nat)
    requires position == p + |buffer| && |buffer| <= n && (buffer != [] ==> position <= |s| && buffer == s[p..position])
    requires |buffer| == n || position >= |s|
    ensures buffer == if p >= |s| then [] else if p + n >= |s| then s[p..] else s[p..p + n]
  {
  }

  lemma StillUnmapped(v: Volume, w: Volume, i: int, n: nat)
    requires AllSame(v, w) && 0 <= i < |v.inodes| && n < Capacity(v.g)
    ensures ZoneAt(w, i, n) == ZoneAt(v, i, n)
  {
    assert SameFile(v, w, i);
  }

  lemma SizedNeeds(v: Volume, i: int, size: nat, n: nat)
    requires 0 <= i < |v.inodes|
    ensures Needs(Sized(v, i, size), i, n) == Needs(v, i, n)
  {
    hide At;
    forall q ensures At(Sized(v, i, size), q) == At(v, q) { SizedAt(v, i, size, q); }
    SameNeeds(v, Sized(v, i, size), i, n);
  }

  /** How many zones are left when some are in use. */
  function Left(g: Geometry, used: set<int>): nat {
    |set z | g.first <= z < g.zones && z !in used|
  }

  /** Allocating a zone leaves one less; if none can be had, none is left. */
  lemma LeftTaken(g: Geometry, used: set<int>, z: int)
    requires z !in used && g.first <= z < g.zones
    ensures Left(g, used + {z}) == Left(g, used) - 1
  {
    var a, b := set y | g.first <= y < g.zones && y !in used, set y | g.first <= y < g.zones && y !in used + {z};
    assert a == b + {z} && z !in b;
  }

  lemma LeftNone(g: Geometry, used: set<int>)
    requires forall c :: g.first <= c < g.zones ==> c in used
    ensures Left(g, used) == 0
  {
    assert (set y | g.first <= y < g.zones && y !in used) == {};
  }

  lemma SlicePrefix(s: seq<Byte>, t: seq<Byte>, lo: nat, hi: nat)
    requires s <= t && lo <= hi <= |s|
    ensures s[lo..hi] == t[lo..hi]
  {
    assert t[..|s|][lo..hi] == t[lo..hi];
  }

  lemma StretchedWithin(v: Volume, w: Volume, i: int, p: nat, n: nat, position: nat, within: seq<Byte>, data: seq<Byte>)
    requires Stretched(v, w, i, p, n, position, within) && within <= data
    ensures Stretched(v, w, i, p, n, position, data)
  {
    assert data[..n] == within[..n];
  }

  /** What is appended to a file is checked against the limit where the file position was before, and so may go past the last byte
      that can be mapped: exactly then, if there is a double indirect block, an entry behind its end is used. */
  lemma AppendBeyond(v: Volume, i: int, s_max_size: nat, filp_pos: nat, bytes: nat)
    requires v.g.perZone > 0 && 0 <= i < |v.inodes| && v.inodes[i].size <= Bound(v.g)
    ensures var size := v.inodes[i].size;
      (Accepted(s_max_size, filp_pos, bytes) && LeavesMap(v, i, size, bytes)) <==>
      (filp_pos + bytes <= s_max_size && size + bytes > Bound(v.g) && At(v, Double(i)) != NO_ZONE)
  {
    hide At;
    var size := v.inodes[i].size;
    if size + bytes > Bound(v.g) {
      ByteBeyond(v.g, Bound(v.g));
      if At(v, Double(i)) != NO_ZONE { assert OutOfMap(v, i, Bound(v.g)); }
    } else {
      forall p | size <= p < size + bytes ensures !OutOfMap(v, i, p) { ByteWithin(v.g, p); }
    }
  }

  /** The test that do_write makes. */
  predicate Accepted(s_max_size: nat, filp_pos: nat, bytes: nat) {
    !(filp_pos > s_max_size - bytes)
  }

  ghost predicate LeavesMap(v: Volume, i: int, p: nat, bytes: nat) {
    exists x {:trigger OutOfMap(v, i, x)} :: p <= x < p + bytes && OutOfMap(v, i, x)
  }

  /** To find byte p, read_map takes an entry of the double indirect block that is not there. */
  predicate OutOfMap(v: Volume, i: int, p: int) {
    v.g.perZone > 0 && At(v, Double(i)) != NO_ZONE && IndexOfByte(v.g, p) >= Indirects(v.g.version)
  }

  /** Where read_map and write_map look in the double indirect block. */
  function IndexOfByte(g: Geometry, p: int): int
    requires g.perZone > 0
  {
    var m := Indirects(g.version); (p / BLOCK_SIZE / g.perZone - NR_DZONES - m) / m
  }

  lemma ByteBeyond(g: Geometry, p: nat)
    requires g.perZone > 0 && p >= Bound(g)
    ensures IndexOfByte(g, p) >= Indirects(g.version)
  {
    var n := p / BLOCK_SIZE / g.perZone;
    var m := Capacity(g) * g.perZone;
    assert Bound(g) == m * BLOCK_SIZE;
    Euclid(p / BLOCK_SIZE, g.perZone);
    if n < Capacity(g) { MulStep(n, Capacity(g), g.perZone); }
    BeyondCapacity(g, n);
  }

  lemma ByteWithin(g: Geometry, p: nat)
    requires g.perZone > 0 && p < Bound(g)
    ensures IndexOfByte(g, p) < Indirects(g.version)
  {
    var n := p / BLOCK_SIZE / g.perZone;
    BlockWithin(g, p);
    if n >= NR_DZONES + Indirects(g.version) { BeyondCapacity(g, n); } else { NegativeIndex(n - NR_DZONES - Indirects(g.version), Indirects(g.version)); }
  }

  lemma NegativeIndex(e: int, m: nat)
    requires e < 0 < m
    ensures e / m < m
  {
  }

  lemma BlockWithin(g: Geometry, p: nat)
    requires g.perZone > 0 && p < Bound(g)
    ensures p / BLOCK_SIZE / g.perZone < Capacity(g)
  {
    var m, q := Capacity(g) * g.perZone, p / BLOCK_SIZE;
    assert Bound(g) == m * BLOCK_SIZE;
    Euclid(q, g.perZone);
    if q / g.perZone >= Capacity(g) { MulLe(Capacity(g), q / g.perZone, g.perZone); }
  }

  lemma BeforeBound(g: Geometry, f: nat, p: nat, n: nat)
    requires f < p && p + n <= Bound(g)
    ensures f < Bound(g)
  {
  }

  /** With one block to a zone there is nothing to clear behind the end. */
  lemma OnlyBlock(v: Volume, i: int, f: nat)
    requires v.g.perZone == 1 && 0 <= i < |v.inodes| && Tidy(v, i, f) && f < Bound(v.g)
    ensures EndCleared(v, v, i, f)
  {
    NothingToClear(v, i, f);
  }

  lemma FailedFacts(v: Volume, w: Volume)
    requires AllSame(v, w)
    ensures |w.inodes| == |v.inodes| && forall j :: 0 <= j < |v.inodes| ==> SameFile(v, w, j)
  {
  }

  lemma ZoneStays(u: Volume, w: Volume, i: int, p: nat, n: nat, cleared: bool)
    requires u.g.perZone > 0 && 0 <= i < |u.inodes| && n < Capacity(u.g)
    requires if cleared then EndCleared(u, w, i, ZoneBegin(u.g.perZone, p)) else w == u
    ensures w.g == u.g && ZoneAt(w, i, n) == ZoneAt(u, i, n)
  {
  }

  /** A file cannot have such a zone: nothing has changed, unless there was no double indirect block. */
  ghost predicate TooBig(v: Volume, w: Volume, i: int, loose: set<int>, loose': set<int>) {
    if At(v, Double(i)) != NO_ZONE then w == v && loose' == loose else Torn(v, w, i, loose, loose')
  }

  /** A free zone has become the double indirect block of file i with whatever it held. */
  ghost predicate Torn(v: Volume, w: Volume, i: int, loose: set<int>, loose': set<int>) {
    exists z: nat :: TornBy(v, w, i, loose, loose', z)
  }

  ghost predicate TornBy(v: Volume, w: Volume, i: int, loose: set<int>, loose': set<int>, z: nat) {
    && 0 <= i < |v.inodes| && |v.inodes[i].zone| == NR_TZONES && z != NO_ZONE && z !in v.role && z !in loose
    && loose' == loose + {z as int} && v.g.first <= z < v.g.zones
    && w == v.(inodes := v.inodes[i := v.inodes[i].(zone := v.inodes[i].zone[DOUBLE := z])])
  }

  /** The zone that another one takes the place of. */
  function Replaced(v: Volume, i: int, n: nat): set<int> {
    if ZoneAt(v, i, n) == NO_ZONE then {} else {ZoneAt(v, i, n) as int}
  }

  lemma BeyondCapacity(g: Geometry, n: nat)
    requires n >= NR_DZONES + Indirects(g.version)
    ensures var m := Indirects(g.version); (n - NR_DZONES - m) / m >= m <==> n >= Capacity(g)
  {
    var m := Indirects(g.version);
    var e := n - NR_DZONES - m;
    Euclid(e, m);
    if e / m < m { MulStep(e / m, m, m); }
    if e / m >= m { MulLe(m, e / m, m); }
  }

  lemma OldOwner(v: Volume, r: Role)
    requires Inv(v) && Proper(v, r)
    ensures At(v, r) != NO_ZONE ==> At(v, r) in v.role && v.g.first <= At(v, r)
    ensures NO_ZONE !in v.role
  {
    assert Owned(v, NO_ZONE);
    if At(v, r) != NO_ZONE { InRange(v, r); }
  }

  /** Storing, table by table. */
  lemma StoredTables(v: Volume, r: Role, z: nat)
    requires CanStore(v, r, z) && 0 <= Base(v, z) < |v.disk| && z < Limit(v.g.version) && Slot(r) >= 0
    requires InInode(r) ==> Slot(r) < |v.inodes[r.ino].zone|
    requires !InInode(r) ==> var s := At(v, Parent(r));
      0 <= Base(v, s) < |v.disk| && Base(v, s) != Base(v, z) && Slot(r) < Indirects(v.g.version)
      && Get(Put(v, z, 0, Zeros()), s, 0) == v.disk[Base(v, s)] && Get(v, s, 0) == v.disk[Base(v, s)]
    ensures var w := Stored(v, r, z);
      && w.g == v.g
      && w.inodes == (if InInode(r) then v.inodes[r.ino := v.inodes[r.ino].(zone := v.inodes[r.ino].zone[Slot(r) := z])] else v.inodes)
      && var d := if InInode(r) then v.disk else v.disk[Base(v, At(v, Parent(r))) :=
           PutEntry(v.g.version, v.g.native, v.disk[Base(v, At(v, Parent(r)))], Slot(r), z)];
         w.disk == if IsData(r) then d else d[Base(v, z) := Zeros()]
  {
    hide Entry, PutEntry, At;
  }

  /** The blocks that storing changes are on the device, and not the same. */
  lemma StoreBlocks(v: Volume, r: Role, z: nat)
    requires CanStore(v, r, z)
    ensures 0 <= Base(v, z) < |v.disk| && Slot(r) >= 0 && z < Limit(v.g.version) && |v.disk| == v.g.zones * v.g.perZone
    ensures InInode(r) ==> Slot(r) < |v.inodes[r.ino].zone|
    ensures !InInode(r) ==> var s := At(v, Parent(r));
      0 <= Base(v, s) < |v.disk| && Base(v, s) != Base(v, z) && Get(v, s, 0) == v.disk[Base(v, s)] && Slot(r) < Indirects(v.g.version)
      && Get(Put(v, z, 0, Zeros()), s, 0) == v.disk[Base(v, s)]
  {
    hide Entry;
    Apart(v, z, 0, z, 0);
    if !InInode(r) {
      ParentThere(v, r);
      IndexBlock(v, Parent(r));
      Apart(v, z, 0, At(v, Parent(r)), 0);
    }
  }

  /** A block of a file is on the device, after block 0. */
  lemma DataBlock(v: Volume, i: int, q: nat)
    requires Inv(v) && InFile(v, i, q)
    ensures var z := ZoneAt(v, i, q / v.g.perZone); z != NO_ZONE ==>
      && v.g.first <= z < v.g.zones && 0 < Base(v, z) + q % v.g.perZone < |v.disk|
      && v.disk[Base(v, z) + q % v.g.perZone] == BlockAt(v, i, q)
  {
    hide Entry;
    var z := ZoneAt(v, i, q / v.g.perZone);
    DataRoleProper(v, i, q / v.g.perZone);
    Euclid(q, v.g.perZone);
    if z != NO_ZONE {
      InRange(v, DataRole(v.g, i, q / v.g.perZone));
      Apart(v, z, q % v.g.perZone, z, q % v.g.perZone);
      MulLe(1, z, v.g.perZone);
    }
  }

  /** How read_map gets to a zone. */
  lemma RolePath(v: Volume, i: int, n: nat)
    requires Sound(v) && 0 <= i < |v.inodes|
    ensures var d, m := DataRole(v.g, i, n), Indirects(v.g.version);
      && (n < NR_DZONES ==> At(v, d) == v.inodes[i].zone[n])
      && (NR_DZONES <= n < NR_DZONES + m ==> !InInode(d) && Parent(d) == Single(i) && Slot(d) == n - NR_DZONES)
      && (n >= NR_DZONES + m ==>
            !InInode(d) && Parent(d) == Indirect(i, (n - NR_DZONES - m) / m) && Slot(d) == (n - NR_DZONES - m) % m)
      && (!InInode(d) && At(v, Parent(d)) == NO_ZONE ==> At(v, d) == NO_ZONE)
    ensures At(v, Single(i)) == v.inodes[i].zone[SINGLE] && At(v, Double(i)) == v.inodes[i].zone[DOUBLE]
    ensures At(v, Double(i)) == NO_ZONE ==> forall j :: At(v, Indirect(i, j)) == NO_ZONE
  {
    hide Entry;
  }

  lemma IndirectProper(v: Volume, i: int, j: int, d: Role)
    requires Proper(v, d) && !InInode(d) && Parent(d) == Indirect(i, j)
    ensures Proper(v, Indirect(i, j)) && Proper(v, Double(i))
  {
  }
}
