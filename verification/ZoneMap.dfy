/** Which zones hold what (src/fs/read.c, read_map; src/fs/write.c, write_map): inodes, indirect blocks and who owns a zone. */
module ZoneMap {
  import opened Arith
  import opened ZoneEntries

  const NO_ZONE := 0
  const NO_BLOCK := 0
  const NR_DZONES := 7
  const SINGLE := 7
  const DOUBLE := 8
  const NR_TZONES := 10

  /** What the super block says: version, byte order, blocks per zone, first data zone and number of zones. */
  datatype Geometry = Geometry(version: Version, native: bool, perZone: nat, first: nat, zones: nat)

  datatype Inode = Inode(zone: seq<nat>, size: nat)

  /** The places in files where zone numbers are kept, of inode ino: directly, via the single or the double indirect block. */
  datatype Role =
    | Direct(ino: int, k: int)
    | Single(ino: int)
    | Via(ino: int, k: int)
    | Double(ino: int)
    | Indirect(ino: int, j: int)
    | Deep(ino: int, j: int, k: int)

  /** A file system: its blocks, its inodes and, as a ghost, the place each owned zone is used at. */
  datatype Volume = Volume(g: Geometry, disk: seq<Block>, inodes: seq<Inode>, role: map<int, Role>)

  ghost predicate Sane(g: Geometry) {
    0 < g.perZone && 0 < g.first <= g.zones < Limit(g.version)
  }

  ghost predicate Sound(v: Volume) {
    && Sane(v.g) && |v.disk| == v.g.zones * v.g.perZone
    && forall i :: 0 <= i < |v.inodes| ==> |v.inodes[i].zone| == NR_TZONES
  }

  predicate Proper(v: Volume, r: Role) {
    && 0 <= r.ino < |v.inodes|
    && match r
       case Direct(_, k) => 0 <= k < NR_DZONES
       case Single(_) => true
       case Via(_, k) => 0 <= k < Indirects(v.g.version)
       case Double(_) => true
       case Indirect(_, j) => 0 <= j < Indirects(v.g.version)
       case Deep(_, j, k) => 0 <= j < Indirects(v.g.version) && 0 <= k < Indirects(v.g.version)
  }

  predicate IsData(r: Role) {
    r.Direct? || r.Via? || r.Deep?
  }

  predicate InInode(r: Role) {
    r.Direct? || r.Single? || r.Double?
  }

  /** The place whose zone holds the indirect block that place r is an entry of. */
  function Parent(r: Role): Role
    requires !InInode(r)
  {
    match r
    case Via(i, _) => Single(i)
    case Indirect(i, _) => Double(i)
    case Deep(i, j, _) => Indirect(i, j)
  }

  function Slot(r: Role): int {
    match r
    case Direct(_, k) => k
    case Single(_) => SINGLE
    case Double(_) => DOUBLE
    case Via(_, k) => k
    case Indirect(_, j) => j
    case Deep(_, _, k) => k
  }

  function Level(r: Role): nat {
    if InInode(r) then 0 else if r.Deep? then 2 else 1
  }

  /** The first block of a zone. */
  function Base(v: Volume, z: int): int {
    z * v.g.perZone
  }

  function Get(v: Volume, z: int, o: int): Block {
    if 0 <= Base(v, z) + o < |v.disk| then v.disk[Base(v, z) + o] else Zeros()
  }

  function EntryOf(v: Volume, z: int, k: int): nat {
    if z == NO_ZONE || !(0 <= k < Indirects(v.g.version)) then NO_ZONE else Entry(v.g.version, v.g.native, Get(v, z, 0), k)
  }

  /** The zone number kept at place r; NO_ZONE if there is none. */
  function At(v: Volume, r: Role): nat
    decreases Level(r)
  {
    if InInode(r) then
      if 0 <= r.ino < |v.inodes| && 0 <= Slot(r) < |v.inodes[r.ino].zone| then v.inodes[r.ino].zone[Slot(r)] else NO_ZONE
    else EntryOf(v, At(v, Parent(r)), Slot(r))
  }

  ghost predicate Recorded(v: Volume, r: Role) {
    Proper(v, r) && At(v, r) != NO_ZONE ==> At(v, r) in v.role && v.role[At(v, r)] == r
  }

  ghost predicate Owned(v: Volume, z: int) {
    z in v.role ==> Proper(v, v.role[z]) && At(v, v.role[z]) == z && v.g.first <= z < v.g.zones
  }

  /** Every zone number kept somewhere is kept nowhere else, and what is owned is kept where it says. */
  ghost predicate Inv(v: Volume) {
    && Sound(v)
    && (forall r {:trigger Recorded(v, r)} :: Recorded(v, r))
    && forall z {:trigger Owned(v, z)} :: Owned(v, z)
  }

  /** Nothing is kept at two places. */
  lemma Distinct(v: Volume, r: Role, s: Role)
    requires Inv(v) && Proper(v, r) && Proper(v, s) && At(v, r) == At(v, s) != NO_ZONE
    ensures r == s
  {
    assert Recorded(v, r) && Recorded(v, s);
  }

  lemma ParentThere(v: Volume, r: Role)
    requires Proper(v, r) && !InInode(r)
    ensures Proper(v, Parent(r)) && !IsData(Parent(r)) && (At(v, r) != NO_ZONE ==> At(v, Parent(r)) != NO_ZONE)
  {
  }

  lemma InRange(v: Volume, r: Role)
    requires Inv(v) && Proper(v, r) && At(v, r) != NO_ZONE
    ensures v.g.first <= At(v, r) < v.g.zones && At(v, r) in v.role && v.role[At(v, r)] == r
  {
    assert Recorded(v, r) && Owned(v, At(v, r));
  }

  // ----- blocks of zones

  /** Different zones have different blocks, all on the device. */
  lemma Apart(v: Volume, z: int, o: int, y: int, p: int)
    requires Sound(v) && 0 <= z < v.g.zones && 0 <= y < v.g.zones && 0 <= o < v.g.perZone && 0 <= p < v.g.perZone
    ensures 0 <= Base(v, z) + o < |v.disk| && 0 <= Base(v, y) + p < |v.disk|
    ensures Base(v, z) + o == Base(v, y) + p ==> z == y && o == p
  {
    MulStep(z, v.g.zones, v.g.perZone);
    MulStep(y, v.g.zones, v.g.perZone);
    if Base(v, z) + o == Base(v, y) + p { Quotient(Base(v, z) + o, z, v.g.perZone, o, y, p); }
  }

  /** Block o of zone z gets new contents. */
  function Put(v: Volume, z: int, o: int, data: Block): Volume {
    if 0 <= Base(v, z) + o < |v.disk| then v.(disk := v.disk[Base(v, z) + o := data]) else v
  }

  lemma PutGet(v: Volume, z: int, o: int, data: Block, y: int, p: int)
    requires Sound(v) && 0 <= z < v.g.zones && 0 <= y < v.g.zones && 0 <= o < v.g.perZone && 0 <= p < v.g.perZone
    ensures Get(Put(v, z, o, data), y, p) == if z == y && o == p then data else Get(v, y, p)
  {
    Apart(v, z, o, y, p);
  }

  // ----- storing a zone number

  /** Zone z, fresh, is stored at place r; if it is to be an indirect block, all its entries are cleared. */
  function Stored(v: Volume, r: Role, z: nat): Volume
    requires Proper(v, r) && Sound(v) && z < Limit(v.g.version)
  {
    var v1 := if IsData(r) then v else Put(v, z, 0, Zeros());
    var v2 := if InInode(r)
      then v1.(inodes := v1.inodes[r.ino := v1.inodes[r.ino].(zone := v1.inodes[r.ino].zone[Slot(r) := z])])
      else Put(v1, At(v, Parent(r)), 0, PutEntry(v.g.version, v.g.native, Get(v1, At(v, Parent(r)), 0), Slot(r), z));
    v2.(role := (v.role - {At(v, r) as int})[z := r])
  }

  ghost predicate CanStore(v: Volume, r: Role, z: nat) {
    && Inv(v) && Proper(v, r) && v.g.first <= z < v.g.zones && z !in v.role
    && (!InInode(r) ==> At(v, Parent(r)) != NO_ZONE) && (!IsData(r) ==> At(v, r) == NO_ZONE)
  }

  lemma StoredSound(v: Volume, r: Role, z: nat)
    requires CanStore(v, r, z)
    ensures Sound(Stored(v, r, z)) && forall q :: Proper(Stored(v, r, z), q) <==> Proper(v, q)
  {
  }

  /** What the blocks of zones other than the one that place r is an entry of, and z itself, hold is not disturbed. */
  lemma StoredGet(v: Volume, r: Role, z: nat, y: int, o: int)
    requires CanStore(v, r, z) && 0 <= y < v.g.zones && 0 <= o < v.g.perZone
    ensures var w := Stored(v, r, z); var s := if InInode(r) then NO_ZONE else At(v, Parent(r));
      Get(w, y, o) ==
        if !InInode(r) && y == s && o == 0 then PutEntry(v.g.version, v.g.native, Get(v, s, 0), Slot(r), z)
        else if !IsData(r) && y == z && o == 0 then Zeros()
        else Get(v, y, o)
  {
    hide Inv, Entry, PutEntry, Get, Put, At;
    var s := if InInode(r) then NO_ZONE else At(v, Parent(r));
    if !InInode(r) {
      ParentThere(v, r);
      InRange(v, Parent(r));
    }
    SoundHere(v);
    var v1 := if IsData(r) then v else Put(v, z, 0, Zeros());
    PutSound(v, z, 0, Zeros());
    if !IsData(r) {
      PutGet(v, z, 0, Zeros(), y, o);
      if !InInode(r) { PutGet(v, z, 0, Zeros(), s, 0); }
    }
    StoredDisk(v, r, z);
    if InInode(r) {
      GetSame(v1, Stored(v, r, z), y, o);
    } else {
      var data := PutEntry(v.g.version, v.g.native, Get(v1, s, 0), Slot(r), z);
      PutGet(v1, s, 0, data, y, o);
      GetSame(Put(v1, s, 0, data), Stored(v, r, z), y, o);
    }
  }

  lemma PutSound(v: Volume, z: int, o: int, data: Block)
    requires Sound(v)
    ensures Sound(Put(v, z, o, data)) && Put(v, z, o, data).g == v.g
  {
  }

  lemma GetSame(v: Volume, w: Volume, y: int, o: int)
    requires w.g == v.g && w.disk == v.disk
    ensures Get(w, y, o) == Get(v, y, o)
  {
  }

  lemma StoredDisk(v: Volume, r: Role, z: nat)
    requires Proper(v, r) && Sound(v) && z < Limit(v.g.version)
    ensures var v1 := if IsData(r) then v else Put(v, z, 0, Zeros());
      && Stored(v, r, z).g == v.g
      && Stored(v, r, z).disk == (if InInode(r) then v1 else
           Put(v1, At(v, Parent(r)), 0, PutEntry(v.g.version, v.g.native, Get(v1, At(v, Parent(r)), 0), Slot(r), z))).disk
  {
    hide PutEntry, Get, At;
  }

  lemma SoundHere(v: Volume)
    requires Inv(v)
    ensures Sound(v)
  {
  }

  lemma StoredEntry(v: Volume, r: Role, z: nat, y: int, k: nat)
    requires CanStore(v, r, z) && v.g.first <= y < v.g.zones && k < Indirects(v.g.version)
    ensures EntryOf(Stored(v, r, z), y, k) ==
      if !InInode(r) && y == At(v, Parent(r)) then (if k == Slot(r) then z else EntryOf(v, y, k))
      else if !IsData(r) && y == z then NO_ZONE else EntryOf(v, y, k)
  {
    SoundHere(v);
    hide Inv, Entry, PutEntry, Stored, At;
    StoredGet(v, r, z, y, 0);
    assert Stored(v, r, z).g == v.g by { StoredGeometry(v, r, z); }
    if !InInode(r) && y == At(v, Parent(r)) { EntryPut(v.g.version, v.g.native, Get(v, y, 0), Slot(r), z, k); }
    EntryZero(v.g.version, v.g.native, k);
  }

  lemma StoredGeometry(v: Volume, r: Role, z: nat)
    requires CanStore(v, r, z)
    ensures Stored(v, r, z).g == v.g && |Stored(v, r, z).inodes| == |v.inodes|
  {
  }

  lemma StoredInode(v: Volume, r: Role, z: nat, q: Role)
    requires CanStore(v, r, z) && Proper(v, q) && InInode(q)
    ensures At(Stored(v, r, z), q) == if q == r then z else At(v, q)
  {
    hide Entry, PutEntry;
  }

  /** Storing a zone number at place r changes what is kept there and nowhere else. */
  lemma {:induction false} StoredAt(v: Volume, r: Role, z: nat, q: Role)
    requires CanStore(v, r, z) && Proper(v, q)
    ensures At(Stored(v, r, z), q) == if q == r then z else At(v, q)
    decreases Level(q)
  {
    if InInode(q) {
      StoredInode(v, r, z, q);
    } else {
      var p := Parent(q);
      ParentThere(v, q);
      StoredAt(v, r, z, p);
      StoredChild(v, r, z, q);
    }
  }

  lemma StoredChild(v: Volume, r: Role, z: nat, q: Role)
    requires CanStore(v, r, z) && Proper(v, q) && !InInode(q) && Proper(v, Parent(q)) && !IsData(Parent(q))
    requires At(Stored(v, r, z), Parent(q)) == if Parent(q) == r then z else At(v, Parent(q))
    ensures At(Stored(v, r, z), q) == if q == r then z else At(v, q)
  {
    SoundHere(v);
    hide Stored, EntryOf, Inv;
    var p := Parent(q);
    var w := Stored(v, r, z);
    assert At(w, q) == EntryOf(w, At(w, p), Slot(q)) && At(v, q) == EntryOf(v, At(v, p), Slot(q));
    assert EntryOf(v, NO_ZONE, Slot(q)) == NO_ZONE == EntryOf(w, NO_ZONE, Slot(q)) by { EntryOfNone(v, w, Slot(q)); }
    if p == r {
      StoredEntry(v, r, z, z, Slot(q));
      if !InInode(r) {
        ParentThere(v, r);
        InRange(v, Parent(r));
      }
    } else if At(v, p) != NO_ZONE {
      InRange(v, p);
      StoredEntry(v, r, z, At(v, p), Slot(q));
      if !InInode(r) && At(v, p) == At(v, Parent(r)) {
        ParentThere(v, r);
        Distinct(v, p, Parent(r));
      }
    }
  }

  lemma EntryOfNone(v: Volume, w: Volume, k: int)
    ensures EntryOf(v, NO_ZONE, k) == NO_ZONE == EntryOf(w, NO_ZONE, k)
  {
  }

  /** Storing keeps the invariant; the zone that was there before, if any, is owned no more. */
  lemma StoredInv(v: Volume, r: Role, z: nat)
    requires CanStore(v, r, z)
    ensures Inv(Stored(v, r, z))
  {
    var w := Stored(v, r, z);
    StoredSound(v, r, z);
    StoredRole(v, r, z);
    hide Stored, At, Proper;
    forall q ensures Recorded(w, q) {
      if Proper(v, q) {
        StoredAt(v, r, z, q);
        assert Recorded(v, q);
        if At(v, q) == At(v, r) != NO_ZONE && Proper(v, r) { Distinct(v, q, r); }
      }
    }
    forall y ensures Owned(w, y) {
      assert Owned(v, y);
      if y in w.role {
        if y != z {
          StoredAt(v, r, z, v.role[y]);
        } else {
          StoredAt(v, r, z, r);
        }
      }
    }
  }

  lemma StoredRole(v: Volume, r: Role, z: nat)
    requires CanStore(v, r, z)
    ensures var w := Stored(v, r, z);
      && w.g == v.g && z in w.role && w.role[z] == r
      && (forall y :: y in w.role <==> y == z || (y in v.role && y != At(v, r)))
      && forall y :: y in w.role && y != z ==> w.role[y] == v.role[y]
  {
  }
}
