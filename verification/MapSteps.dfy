/** What storing zone numbers means for files (src/fs/write.c, write_map). */
module MapSteps {
  import opened Arith
  import opened ZoneEntries
  import opened ZoneMap
  import opened FileBlocks
  import opened FileBytes

  ghost predicate AllSame(v: Volume, w: Volume) {
    |w.inodes| == |v.inodes| && forall j :: 0 <= j < |v.inodes| ==> SameFile(v, w, j)
  }

  /** The blocks of zone z are as they were. */
  ghost predicate SameZone(v: Volume, w: Volume, z: int) {
    w.g == v.g && forall o :: 0 <= o < v.g.perZone ==> Get(w, z, o) == Get(v, z, o)
  }

  ghost predicate MapsZone(v: Volume, w: Volume, i: int, n: nat, z: int, j: int, m: int) {
    0 <= j < |v.inodes| && 0 <= m < Capacity(v.g) ==> ZoneAt(w, j, m) == if j == i && m == n then z else ZoneAt(v, j, m)
  }

  ghost predicate MapsBlock(v: Volume, w: Volume, i: int, n: nat, z: int, j: int, q: int)
    requires w.g == v.g && v.g.perZone > 0
  {
    InFile(v, j, q) ==> BlockAt(w, j, q) == if j == i && q / v.g.perZone == n then Get(v, z, q % v.g.perZone) else BlockAt(v, j, q)
  }

  /** Zone n of file i is z now, with whatever z holds; all other zones of all files are as they were. */
  ghost predicate Mapped(v: Volume, w: Volume, i: int, n: nat, z: int) {
    && w.g == v.g && v.g.perZone > 0 && |w.inodes| == |v.inodes| && SameZone(v, w, z)
    && (forall j :: 0 <= j < |v.inodes| ==> w.inodes[j].size == v.inodes[j].size)
    && (forall j, m {:trigger MapsZone(v, w, i, n, z, j, m)} :: MapsZone(v, w, i, n, z, j, m))
    && forall j, q {:trigger MapsBlock(v, w, i, n, z, j, q)} :: MapsBlock(v, w, i, n, z, j, q)
  }

  lemma StoredSizes(v: Volume, r: Role, z: nat)
    requires CanStore(v, r, z)
    ensures var w := Stored(v, r, z);
      w.g == v.g && |w.inodes| == |v.inodes| && forall j :: 0 <= j < |v.inodes| ==> w.inodes[j].size == v.inodes[j].size
  {
    hide Entry, PutEntry;
  }

  /** A new indirect block changes no file. */
  lemma IndexStored(v: Volume, r: Role, z: nat)
    requires CanStore(v, r, z) && !IsData(r)
    ensures AllSame(v, Stored(v, r, z)) && Inv(Stored(v, r, z))
    ensures forall y :: v.g.first <= y < v.g.zones && y !in v.role && y != z ==> SameZone(v, Stored(v, r, z), y)
  {
    hide Stored, SameFile, SameZone;
    StoredInv(v, r, z);
    StoredSizes(v, r, z);
    LooseSame(v, r, z);
    forall j | 0 <= j < |v.inodes| ensures SameFile(v, Stored(v, r, z), j) { IndexSameFile(v, r, z, j); }
  }

  lemma IndexSameFile(v: Volume, r: Role, z: nat, j: int)
    requires CanStore(v, r, z) && !IsData(r) && 0 <= j < |v.inodes|
    ensures SameFile(v, Stored(v, r, z), j)
  {
    StoredSizes(v, r, z);
    PerZonePositive(v, r, z);
    hide Stored, Inv, BlockAt, ZoneAt, CanStore;
    var w := Stored(v, r, z);
    forall n | 0 <= n < Capacity(v.g) ensures ZoneAt(w, j, n) == ZoneAt(v, j, n) { IndexSameZone(v, r, z, j, n); }
    forall q | InFile(v, j, q) ensures BlockAt(w, j, q) == BlockAt(v, j, q) {
      StoredBlock(v, r, z, j, q);
      DataRoleProper(v, j, q / v.g.perZone);
    }
  }

  lemma IndexSameZone(v: Volume, r: Role, z: nat, j: int, n: nat)
    requires CanStore(v, r, z) && !IsData(r) && 0 <= j < |v.inodes| && n < Capacity(v.g)
    ensures Stored(v, r, z).g == v.g && ZoneAt(Stored(v, r, z), j, n) == ZoneAt(v, j, n)
  {
    hide Stored;
    StoredGeometry(v, r, z);
    StoredZoneAt(v, r, z, j, n);
    DataRoleProper(v, j, n);
  }

  lemma LooseSame(v: Volume, r: Role, z: nat)
    requires CanStore(v, r, z)
    ensures forall y :: v.g.first <= y < v.g.zones && y !in v.role && (y != z || IsData(r)) ==> SameZone(v, Stored(v, r, z), y)
  {
    hide Stored, Get, Entry, PutEntry;
    StoredGeometry(v, r, z);
    forall y, o | v.g.first <= y < v.g.zones && y !in v.role && (y != z || IsData(r)) && 0 <= o < v.g.perZone
      ensures Get(Stored(v, r, z), y, o) == Get(v, y, o)
    {
      StoredGet(v, r, z, y, o);
      if !InInode(r) { ParentThere(v, r); InRange(v, Parent(r)); }
    }
  }

  lemma DataStored(v: Volume, i: int, n: nat, z: nat)
    requires n < Capacity(v.g) && CanStore(v, DataRole(v.g, i, n), z)
    ensures Inv(Stored(v, DataRole(v.g, i, n), z)) && Mapped(v, Stored(v, DataRole(v.g, i, n), z), i, n, z)
  {
    var r := DataRole(v.g, i, n);
    StoredInv(v, r, z);
    StoredSizes(v, r, z);
    LooseSame(v, r, z);
    DataRoleIsData(v, i, n);
    var w := Stored(v, r, z);
    hide Stored, CanStore, Get;
    forall j, m ensures MapsZone(v, w, i, n, z, j, m) {
      if 0 <= j < |v.inodes| && 0 <= m < Capacity(v.g) {
        StoredZoneAt(v, r, z, j, m);
        if DataRole(v.g, j, m) == r { DataRoleInjective(v.g, j, m, i, n); }
      }
    }
    PerZonePositive(v, r, z);
    forall j, q ensures MapsBlock(v, w, i, n, z, j, q) {
      if InFile(v, j, q) {
        StoredBlock(v, r, z, j, q);
        if DataRole(v.g, j, q / v.g.perZone) == r { DataRoleInjective(v.g, j, q / v.g.perZone, i, n); }
      }
    }
  }

  lemma PerZonePositive(v: Volume, r: Role, z: nat)
    requires CanStore(v, r, z)
    ensures v.g.perZone > 0 && v.g.first <= z < v.g.zones
  {
  }

  lemma DataRoleIsData(v: Volume, i: int, n: nat)
    ensures IsData(DataRole(v.g, i, n))
  {
  }

  /** Growing the map first and storing the zone then is the same as storing the zone. */
  lemma MappedAfter(v: Volume, u: Volume, w: Volume, i: int, n: nat, z: int)
    requires AllSame(v, u) && SameZone(v, u, z) && Mapped(u, w, i, n, z) && 0 <= i < |v.inodes| && v.g.perZone > 0
    ensures Mapped(v, w, i, n, z)
  {
    forall j | 0 <= j < |v.inodes| ensures w.inodes[j].size == v.inodes[j].size { assert SameFile(v, u, j); }
    forall j, m ensures MapsZone(v, w, i, n, z, j, m) {
      assert MapsZone(u, w, i, n, z, j, m);
      if 0 <= j < |v.inodes| { assert SameFile(v, u, j); }
    }
    forall j, q ensures MapsBlock(v, w, i, n, z, j, q) {
      assert MapsBlock(u, w, i, n, z, j, q);
      if InFile(v, j, q) { assert SameFile(v, u, j); Euclid(q, v.g.perZone); }
    }
  }

  lemma AllSameRefl(v: Volume)
    requires v.g.perZone > 0
    ensures AllSame(v, v)
  {
  }

  lemma AllSameTrans(v: Volume, u: Volume, w: Volume)
    requires AllSame(v, u) && AllSame(u, w)
    ensures AllSame(v, w)
  {
    forall j | 0 <= j < |v.inodes| ensures SameFile(v, w, j) { assert SameFile(v, u, j) && SameFile(u, w, j); }
  }

  /** The indirect block of place r is on the device. */
  lemma IndexBlock(v: Volume, r: Role)
    requires Inv(v) && Proper(v, r) && At(v, r) != NO_ZONE
    ensures var z := At(v, r);
      && v.g.first <= z < v.g.zones && z in v.role && v.role[z] == r && 0 <= Base(v, z) < |v.disk| && Get(v, z, 0) == v.disk[Base(v, z)]
  {
    InRange(v, r);
    Apart(v, At(v, r), 0, At(v, r), 0);
  }
}
