/** Files as sequences of blocks: where block q of a file is, and what changes to the disk mean for files. */
module FileBlocks {
  import opened Arith
  import opened ZoneEntries
  import opened ZoneMap

  /** How many zones a file can have. */
  function Capacity(g: Geometry): nat {
    NR_DZONES + Indirects(g.version) + Indirects(g.version) * Indirects(g.version)
  }

  /** The zone of a file that a byte is in. */
  function ZoneOf(g: Geometry, position: nat): nat {
    if g.perZone > 0 then position / BLOCK_SIZE / g.perZone else 0
  }

  /** The place of zone n of file i. */
  function DataRole(g: Geometry, i: int, n: nat): Role {
    if n < NR_DZONES then Direct(i, n)
    else if n - NR_DZONES < Indirects(g.version) then Via(i, n - NR_DZONES)
    else var e := n - NR_DZONES - Indirects(g.version); Deep(i, e / Indirects(g.version), e % Indirects(g.version))
  }

  lemma DataRoleProper(v: Volume, i: int, n: nat)
    requires 0 <= i < |v.inodes| && n < Capacity(v.g)
    ensures Proper(v, DataRole(v.g, i, n)) && IsData(DataRole(v.g, i, n)) && DataRole(v.g, i, n).ino == i
  {
    var m := Indirects(v.g.version);
    if n - NR_DZONES >= m {
      var e := n - NR_DZONES - m;
      Euclid(e, m);
      if e / m >= m { MulLe(m, e / m, m); }
    }
  }

  lemma MulLe(a: nat, b: nat, d: nat)
    requires a <= b
    ensures a * d <= b * d
  {
    if a < b { MulStep(a, b, d); }
  }

  /** Different zones of files are at different places. */
  lemma DataRoleInjective(g: Geometry, i: int, n: nat, j: int, m: nat)
    requires DataRole(g, i, n) == DataRole(g, j, m)
    ensures i == j && n == m
  {
    var k := Indirects(g.version);
    if n >= NR_DZONES + k {
      Euclid(n - NR_DZONES - k, k);
      Euclid(m - NR_DZONES - k, k);
    }
  }

  function ZoneAt(v: Volume, i: int, n: nat): nat {
    At(v, DataRole(v.g, i, n))
  }

  /** Block q of file i: all zeros if its zone is not there. */
  function BlockAt(v: Volume, i: int, q: nat): Block
    requires v.g.perZone > 0
  {
    var z := ZoneAt(v, i, q / v.g.perZone);
    if z == NO_ZONE then Zeros() else Get(v, z, q % v.g.perZone)
  }

  ghost predicate InFile(v: Volume, i: int, q: int) {
    v.g.perZone > 0 && 0 <= i < |v.inodes| && 0 <= q && q / v.g.perZone < Capacity(v.g)
  }

  lemma StoredZoneAt(v: Volume, r: Role, z: nat, i: int, n: nat)
    requires CanStore(v, r, z) && 0 <= i < |v.inodes| && n < Capacity(v.g)
    ensures ZoneAt(Stored(v, r, z), i, n) == if DataRole(v.g, i, n) == r then z else ZoneAt(v, i, n)
  {
    DataRoleProper(v, i, n);
    StoredAt(v, r, z, DataRole(v.g, i, n));
    StoredGeometry(v, r, z);
  }

  /** Block q of file i is that of zone z now if it is in the zone at place r, and as it was otherwise. */
  ghost predicate BroughtIn(v: Volume, w: Volume, r: Role, z: int, i: int, q: nat) {
    && w.g == v.g && v.g.perZone > 0
    && BlockAt(w, i, q) == if DataRole(v.g, i, q / v.g.perZone) == r then Get(v, z, q % v.g.perZone) else BlockAt(v, i, q)
  }

  /** A new indirect block changes no file; a new zone brings its blocks, whatever they hold, into one file. */
  lemma StoredBlock(v: Volume, r: Role, z: nat, i: int, q: nat)
    requires CanStore(v, r, z) && InFile(v, i, q)
    ensures BroughtIn(v, Stored(v, r, z), r, z, i, q)
  {
    hide Stored, Get, Entry, PutEntry;
    var n, o := q / v.g.perZone, q % v.g.perZone;
    StoredGeometry(v, r, z);
    StoredZoneAt(v, r, z, i, n);
    DataRoleProper(v, i, n);
    var y := ZoneAt(Stored(v, r, z), i, n);
    if y != NO_ZONE {
      Euclid(q, v.g.perZone);
      StoredInv(v, r, z);
      InRange(Stored(v, r, z), DataRole(v.g, i, n)) by { StoredSound(v, r, z); }
      StoredGet(v, r, z, y, o);
      IndexElsewhere(v, r, z, DataRole(v.g, i, n));
    }
  }

  /** The zone of a data place is neither the indirect block that place r is an entry of nor a new one. */
  lemma IndexElsewhere(v: Volume, r: Role, z: nat, d: Role)
    requires CanStore(v, r, z) && Proper(v, d) && IsData(d) && At(Stored(v, r, z), d) != NO_ZONE
    ensures !InInode(r) ==> At(Stored(v, r, z), d) != At(v, Parent(r))
    ensures !IsData(r) ==> At(Stored(v, r, z), d) != z
  {
    hide Stored, Get, Entry, PutEntry;
    StoredAt(v, r, z, d);
    if !InInode(r) {
      ParentThere(v, r);
      InRange(v, Parent(r));
      if d != r && At(v, d) == At(v, Parent(r)) { Distinct(v, d, Parent(r)); }
    }
    if d != r { InRange(v, d); }
  }

  // ----- writing a block of data

  /** A block that is not an indirect block gets new contents. */
  ghost predicate CanPut(v: Volume, z: int, o: int) {
    Inv(v) && v.g.first <= z < v.g.zones && 0 <= o < v.g.perZone && (z in v.role ==> IsData(v.role[z]))
  }

  lemma {:induction false} PutAt(v: Volume, z: int, o: int, data: Block, r: Role)
    requires CanPut(v, z, o) && Proper(v, r)
    ensures At(Put(v, z, o, data), r) == At(v, r)
    decreases Level(r)
  {
    if !InInode(r) {
      ParentThere(v, r);
      PutAt(v, z, o, data, Parent(r));
      PutEntryOf(v, z, o, data, r);
    }
  }

  lemma PutEntryOf(v: Volume, z: int, o: int, data: Block, r: Role)
    requires CanPut(v, z, o) && Proper(v, r) && !InInode(r) && Proper(v, Parent(r)) && !IsData(Parent(r))
    ensures EntryOf(Put(v, z, o, data), At(v, Parent(r)), Slot(r)) == EntryOf(v, At(v, Parent(r)), Slot(r))
  {
    hide Entry;
    var s := At(v, Parent(r));
    if s != NO_ZONE {
      InRange(v, Parent(r));
      PutGet(v, z, o, data, s, 0);
    }
  }

  lemma PutInv(v: Volume, z: int, o: int, data: Block)
    requires CanPut(v, z, o)
    ensures Inv(Put(v, z, o, data)) && Put(v, z, o, data).g == v.g
  {
    var w := Put(v, z, o, data);
    forall r ensures Recorded(w, r) { if Proper(v, r) { PutAt(v, z, o, data, r); } assert Recorded(v, r); }
    forall y ensures Owned(w, y) { assert Owned(v, y); if y in v.role { PutAt(v, z, o, data, v.role[y]); } }
  }

  /** Writing block o of zone z changes one block of the file that zone z belongs to, if any. */
  lemma PutBlock(v: Volume, z: int, o: int, data: Block, i: int, q: nat)
    requires CanPut(v, z, o) && InFile(v, i, q)
    ensures Put(v, z, o, data).g == v.g
    ensures BlockAt(Put(v, z, o, data), i, q) ==
      if ZoneAt(v, i, q / v.g.perZone) == z && q % v.g.perZone == o then data else BlockAt(v, i, q)
  {
    hide Get, Entry;
    var n := q / v.g.perZone;
    DataRoleProper(v, i, n);
    PutAt(v, z, o, data, DataRole(v.g, i, n));
    Euclid(q, v.g.perZone);
    var y := ZoneAt(v, i, n);
    if y != NO_ZONE {
      InRange(v, DataRole(v.g, i, n));
      PutGet(v, z, o, data, y, q % v.g.perZone);
    }
  }
}
