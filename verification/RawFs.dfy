/** The boot monitor's own reader of file systems (src/boot/rawfs.c), with a cache of one single and one double indirect block:
    it finds the same blocks as the file server. */
module RawFs {
  import opened Arith
  import opened ZoneEntries
  import opened ZoneMap
  import opened FileBlocks
  import opened FileBytes
  import F = FileSystem

  /** The place of zone n of file i can be looked at: it is in the inode, or in an indirect block that is there. */
  predicate Reaches(v: Volume, i: int, n: nat) {
    var d := DataRole(v.g, i, n); InInode(d) || At(v, Parent(d)) != NO_ZONE
  }

  /** What read_map says about block q of file i. */
  function Mapping(v: Volume, i: int, q: nat): int
    requires v.g.perZone > 0
  {
    var z := ZoneAt(v, i, q / v.g.perZone); if z == NO_ZONE then NO_BLOCK else Base(v, z) + q % v.g.perZone
  }

  /** What r_vir2abs says: zone number zero is not recognized for what it is once it has been looked at. */
  function Raw(v: Volume, i: int, q: nat): int
    requires v.g.perZone > 0
  {
    var z := ZoneAt(v, i, q / v.g.perZone);
    if z == NO_ZONE && !Reaches(v, i, q / v.g.perZone) then 0 else Base(v, z) + q % v.g.perZone
  }

  /** The two agree on every block that is mapped, and on a hole exactly if its indirect block is missing too, or it is the first
      block of its zone, as it always is when zones are single blocks. */
  lemma Agree(v: Volume, i: int, q: nat)
    requires v.g.perZone > 0
    ensures Raw(v, i, q) == Mapping(v, i, q)
       <==> ZoneAt(v, i, q / v.g.perZone) != NO_ZONE || !Reaches(v, i, q / v.g.perZone) || q % v.g.perZone == 0
  {
  }

  class RawFs {
    const g: Geometry
    const disk: array<Block>
    const inodes: array<Inode>
    ghost const role: map<int, Role>
    var curfil: Inode
    var indir: Block
    var dindir: Block
    var a_indir: nat
    var a_dindir: nat
    var ino: nat

    ghost function St(): Volume
      reads disk, inodes
    {
      Volume(g, disk[..], inodes[..], role)
    }

    /** What is in a cache is what is on the disk at that address; address zero stands for nothing. */
    ghost predicate Fetched(a: nat, b: Block)
      reads disk
    {
      a != NO_BLOCK ==> a < disk.Length && b == disk[a]
    }

    ghost predicate Valid()
      reads this, disk, inodes
    {
      && Inv(St()) && g.native && ino < inodes.Length && curfil == inodes[ino] && curfil.size <= Bound(g)
      && Fetched(a_indir, indir) && Fetched(a_dindir, dindir)
    }

    constructor (g: Geometry, disk: array<Block>, inodes: array<Inode>, ghost role: map<int, Role>, i: nat)
      requires Inv(Volume(g, disk[..], inodes[..], role)) && g.native && i < inodes.Length && inodes[i].size <= Bound(g)
      ensures Valid() && ino == i && this.disk == disk && this.inodes == inodes && this.g == g && this.role == role
    {
      this.g, this.disk, this.inodes, this.role := g, disk, inodes, role;
      curfil, indir, dindir, a_indir, a_dindir, ino := inodes[i], Zeros(), Zeros(), 0, 0, i;
    }

    /** r_stat: another file is examined, and nothing is in the caches. */
    method RStat(i: nat)
      requires Valid() && i < inodes.Length && inodes[i].size <= Bound(g)
      modifies this
      ensures Valid() && ino == i
    {
      curfil, ino := inodes[i], i;
      a_indir, a_dindir := 0, 0;
    }

    /** r_vir2abs: an entry of the double indirect block, which is fetched unless it is there. */
    method DoubleEntry(z: nat, i: nat) returns (zone: nat)
      requires Valid() && NO_BLOCK < z < disk.Length && i < Indirects(g.version)
      modifies this`dindir, this`a_dindir
      ensures Valid() && zone == Entry(g.version, true, disk[z], i)
    {
      hide Entry, Inv;
      if a_dindir != z {
        dindir := disk[z];
        a_dindir := z;
      }
      zone := Entry(g.version, true, dindir, i);
    }

    method SingleEntry(z: nat, i: nat) returns (zone: nat)
      requires Valid() && NO_BLOCK < z < disk.Length && i < Indirects(g.version)
      modifies this`indir, this`a_indir
      ensures Valid() && zone == Entry(g.version, true, disk[z], i)
    {
      hide Entry, Inv;
      if a_indir != z {
        indir := disk[z];
        a_indir := z;
      }
      zone := Entry(g.version, true, indir, i);
    }

    /** r_vir2abs: the block of the disk for a block of the file; -1 behind its end. */
    method RVir2Abs(virblk: nat) returns (z: int)
      requires Valid()
      modifies this`indir, this`dindir, this`a_indir, this`a_dindir
      ensures Valid() && g.perZone > 0
      ensures z == if virblk * BLOCK_SIZE >= curfil.size then -1 else Raw(St(), ino, virblk)
    {
      hide Entry, Inv, At, Bound, Proper;
      ghost var v := St();
      SoundHere(v);
      if virblk * BLOCK_SIZE >= curfil.size { return -1; }
      InsideBound(v, ino, virblk, curfil.size);
      var zone := virblk / g.perZone;
      var zone_index := virblk - zone * g.perZone;
      Euclid(virblk, g.perZone);
      ghost var d := DataRole(g, ino, zone);
      DataRoleProper(v, ino, zone);
      F.RolePath(v, ino, zone);
      if zone < NR_DZONES {
        z := curfil.zone[zone] * g.perZone + zone_index;
        return;
      }
      z := FromIndirect(virblk, zone - NR_DZONES, zone_index);
    }

    /** r_vir2abs, when the zone is not a direct one. */
    method FromIndirect(virblk: nat, excess: nat, zone_index: nat) returns (z: int)
      requires Valid() && g.perZone > 0 && excess == virblk / g.perZone - NR_DZONES && zone_index == virblk % g.perZone
      requires virblk / g.perZone < Capacity(g)
      modifies this`indir, this`dindir, this`a_indir, this`a_dindir
      ensures Valid() && z == Raw(St(), ino, virblk)
    {
      hide Entry, Inv, At, Proper;
      ghost var v := St();
      SoundHere(v);
      var zone := excess;
      ghost var d := DataRole(g, ino, virblk / g.perZone);
      DataRoleProper(v, ino, virblk / g.perZone);
      F.RolePath(v, ino, virblk / g.perZone);
      var nr_indirects := Indirects(g.version);
      var ind_zone: nat;
      if zone < nr_indirects {
        ind_zone := curfil.zone[SINGLE];
      } else {
        ind_zone := curfil.zone[DOUBLE];
        if ind_zone == NO_ZONE { return 0; }
        zone := zone - nr_indirects;
        var i := zone / nr_indirects;
        F.IndirectProper(v, ino, i, d);
        IndexAddress(v, Double(ino));
        EntryHere(v, Indirect(ino, i));
        ind_zone := DoubleEntry(ind_zone * g.perZone, i);
        zone := zone % nr_indirects;
      }
      if ind_zone == NO_ZONE { return 0; }
      ParentThere(v, d);
      IndexAddress(v, Parent(d));
      EntryHere(v, d);
      zone := SingleEntry(ind_zone * g.perZone, zone);
      z := zone * g.perZone + zone_index;
    }
  }

  /** A block of the file is one that can be mapped. */
  lemma InsideBound(v: Volume, i: int, q: nat, size: nat)
    requires v.g.perZone > 0 && 0 <= i < |v.inodes| && q * BLOCK_SIZE < size <= Bound(v.g)
    ensures q / v.g.perZone < Capacity(v.g)
  {
    DivMul(q, BLOCK_SIZE, 0);
    InBound(v, i, q * BLOCK_SIZE);
  }

  /** An indirect block is on the disk, and not at address zero. */
  lemma IndexAddress(v: Volume, r: Role)
    requires Inv(v) && Proper(v, r) && v.g.perZone > 0
    ensures At(v, r) != NO_ZONE ==>
      0 < Base(v, At(v, r)) < |v.disk| && Get(v, At(v, r), 0) == v.disk[Base(v, At(v, r))]
  {
    hide At;
    if At(v, r) != NO_ZONE {
      InRange(v, r);
      Apart(v, At(v, r), 0, At(v, r), 0);
      MulLe(1, At(v, r), v.g.perZone);
    }
  }

  /** What is kept at a place that is in an indirect block. */
  lemma EntryHere(v: Volume, d: Role)
    requires Proper(v, d) && !InInode(d) && v.g.native
    ensures At(v, Parent(d)) != NO_ZONE ==> At(v, d) == Entry(v.g.version, true, Get(v, At(v, Parent(d)), 0), Slot(d))
  {
    hide Entry;
  }

  /** Both readers asked about one block of one file, when the disk holds what the cache presents: they agree exactly as Agree says. */
  method Compare(fs: F.FileSystem, raw: RawFs, virblk: nat) returns (same: bool)
    requires raw.Valid() && Inv(fs.St()) && fs.Ready() && fs.g == raw.g && fs.inodes == raw.inodes && fs.role == raw.role
    requires raw.disk[..] == fs.dev.blocks && raw !in fs.dev.parts && raw.disk !in fs.dev.parts
    requires (fs.inodes as object) != raw && virblk * BLOCK_SIZE < raw.curfil.size
    modifies raw, fs.dev.parts
    ensures fs.St() == old(fs.St())
    ensures fs.g.perZone > 0 && raw.ino == old(raw.ino)
    ensures same <==>
      || ZoneAt(fs.St(), raw.ino, virblk / fs.g.perZone) != NO_ZONE || !Reaches(fs.St(), raw.ino, virblk / fs.g.perZone)
      || virblk % fs.g.perZone == 0
  {
    hide At, Inv, Bound;
    ghost var v := fs.St();
    SoundHere(v);
    var z := raw.RVir2Abs(virblk);
    InsideBound(v, raw.ino, virblk, raw.curfil.size);
    DivMul(virblk, BLOCK_SIZE, 0);
    var b := fs.ReadMap(raw.ino, virblk * BLOCK_SIZE);
    same := z == b;
    Agree(v, raw.ino, virblk);
  }
}
