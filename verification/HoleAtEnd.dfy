/** When writing at the end of a file goes wrong: new_block does not clear the zone of a byte just behind the end
    (src/fs/write.c), although a failed write may have left the end in the middle of a zone that is not there. */
module HoleAtEnd {
  import opened Arith
  import opened ZoneEntries
  import opened ZoneMap
  import opened FileBlocks
  import opened FileBytes
  import opened FileWrites
  import opened MapSteps
  import opened ChunkSteps

  /** Bytes have been written at the end of file i. */
  ghost predicate WrittenAtEnd(v: Volume, w: Volume, i: int, n: nat, data: seq<Byte>) {
    n > 0 && 0 <= i < |v.inodes| && Stretched(v, w, i, v.inodes[i].size, n, v.inodes[i].size + n, data)
  }

  /** Zone z holds zeros wherever it takes the place of bytes of a file of f bytes. */
  ghost predicate Harmless(v: Volume, f: nat, z: int)
    requires v.g.perZone > 0
  {
    forall x {:trigger Get(v, z, x / BLOCK_SIZE % v.g.perZone)[x % BLOCK_SIZE]} ::
      0 <= x < f && x / BLOCK_SIZE < f / BLOCK_SIZE && x / BLOCK_SIZE / v.g.perZone == f / BLOCK_SIZE / v.g.perZone ==>
        Get(v, z, x / BLOCK_SIZE % v.g.perZone)[x % BLOCK_SIZE] == 0
  }

  /** Writing at the end keeps what was before it if the file is solid; otherwise exactly if the zone that is brought in
      happens to hold zeros. */
  lemma EndKept(v: Volume, w: Volume, i: int, n: nat, data: seq<Byte>) returns (z: int)
    requires WrittenAtEnd(v, w, i, n, data) && v.inodes[i].size <= Bound(v.g)
    ensures var f := v.inodes[i].size;
      && (Solid(v, i, f) ==> Content(w, i, f) == Content(v, i, f))
      && (!Solid(v, i, f) ==> SpoiledBy(v, w, i, f, z) && (Content(w, i, f) == Content(v, i, f) <==> Harmless(v, f, z)))
  {
    hide BlockAt, ZoneAt, Get, ByteAt;
    var f := v.inodes[i].size;
    z := NO_ZONE;
    if Solid(v, i, f) {
      assert NoHoleAt(v, i, f, f);
      var s := Written(Content(v, i, f), f, data[..n]);
      assert Content(w, i, f + n) == s;
      forall x | 0 <= x < f ensures Content(w, i, f)[x] == Content(v, i, f)[x] { assert Content(w, i, f + n)[x] == s[x]; }
    } else {
      assert AtEnd(v, w, i, f);
      z :| SpoiledBy(v, w, i, f, z);
      SpoiledKept(v, w, i, f, z);
    }
  }

  lemma SpoiledKept(v: Volume, w: Volume, i: int, f: nat, z: int)
    requires v.g.perZone > 0 && w.g == v.g && SpoiledBy(v, w, i, f, z) && !Solid(v, i, f)
    ensures Content(w, i, f) == Content(v, i, f) <==> Harmless(v, f, z)
  {
    hide BlockAt, ZoneAt, Get;
    forall x: nat | x < f && x / BLOCK_SIZE / v.g.perZone == f / BLOCK_SIZE / v.g.perZone ensures ByteAt(v, i, x) == 0 {
      UnmappedBlock(v, i, x / BLOCK_SIZE);
    }
    hide ByteAt;
    if Harmless(v, f, z) {
      forall x: nat | x < f ensures ByteAt(w, i, x) == ByteAt(v, i, x) { assert EndByte(v, w, i, f, z, x); }
      assert Content(w, i, f) == Content(v, i, f);
    } else {
      var x: nat :| x < f && x / BLOCK_SIZE < f / BLOCK_SIZE && x / BLOCK_SIZE / v.g.perZone == f / BLOCK_SIZE / v.g.perZone
                    && Get(v, z, x / BLOCK_SIZE % v.g.perZone)[x % BLOCK_SIZE] != 0;
      assert EndByte(v, w, i, f, z, x);
      assert Content(w, i, f)[x] != Content(v, i, f)[x];
    }
  }

  // ----- what free zones may hold

  /** u differs from v at most in what free zones hold. */
  ghost predicate Variant(v: Volume, u: Volume) {
    && Sound(v) && Sound(u) && u == v.(disk := u.disk)
    && forall y, o :: y in v.role && 0 <= o < v.g.perZone ==> Get(u, y, o) == Get(v, y, o)
  }

  lemma {:induction false} VariantAt(v: Volume, u: Volume, r: Role)
    requires Inv(v) && Variant(v, u) && Proper(v, r)
    ensures At(u, r) == At(v, r)
    decreases Level(r)
  {
    hide Entry, Get;
    if !InInode(r) {
      ParentThere(v, r);
      VariantAt(v, u, Parent(r));
      if At(v, Parent(r)) != NO_ZONE { InRange(v, Parent(r)); }
    }
  }

  lemma VariantInv(v: Volume, u: Volume)
    requires Inv(v) && Variant(v, u)
    ensures Inv(u)
  {
    hide At, Get;
    forall r ensures Recorded(u, r) { if Proper(v, r) { VariantAt(v, u, r); } assert Recorded(v, r); }
    forall y ensures Owned(u, y) { assert Owned(v, y); if y in v.role { VariantAt(v, u, v.role[y]); } }
  }

  /** What free zones hold is in no file. */
  lemma VariantFile(v: Volume, u: Volume, i: int)
    requires Inv(v) && Variant(v, u) && 0 <= i < |v.inodes|
    ensures SameFile(v, u, i)
  {
    hide At, Get;
    forall n | 0 <= n < Capacity(v.g) ensures ZoneAt(u, i, n) == ZoneAt(v, i, n) {
      DataRoleProper(v, i, n);
      VariantAt(v, u, DataRole(v.g, i, n));
    }
    forall q | InFile(v, i, q) ensures BlockAt(u, i, q) == BlockAt(v, i, q) {
      var n := q / v.g.perZone;
      DataRoleProper(v, i, n);
      Euclid(q, v.g.perZone);
      if ZoneAt(v, i, n) != NO_ZONE { InRange(v, DataRole(v.g, i, n)); }
    }
  }

  /** A block such as a free zone may hold from an earlier file. */
  function Stale(): Block {
    seq(BLOCK_SIZE, _ => 1)
  }

  function Litter(v: Volume, b: int): Block
    requires 0 <= b < |v.disk| && v.g.perZone > 0
  {
    if b / v.g.perZone >= v.g.first && b / v.g.perZone !in v.role then Stale() else v.disk[b]
  }

  /** All free zones hold old data. */
  ghost function Littered(v: Volume): Volume
    requires v.g.perZone > 0
  {
    v.(disk := seq(|v.disk|, b requires 0 <= b < |v.disk| => Litter(v, b)))
  }

  lemma LitteredVariant(v: Volume)
    requires Inv(v)
    ensures Variant(v, Littered(v))
    ensures forall z, o :: v.g.first <= z < v.g.zones && z !in v.role && 0 <= o < v.g.perZone ==> Get(Littered(v), z, o) == Stale()
  {
    var u := Littered(v);
    forall y, o | 0 <= y < v.g.zones && 0 <= o < v.g.perZone
      ensures Get(u, y, o) == if y >= v.g.first && y !in v.role then Stale() else Get(v, y, o)
    {
      Apart(v, y, o, y, o);
      DivMul(y, v.g.perZone, o);
    }
    forall y, o | y in v.role && 0 <= o < v.g.perZone ensures Get(u, y, o) == Get(v, y, o) { assert Owned(v, y); }
  }

  // ----- a write at the end

  ghost predicate Free(v: Volume, z: nat) {
    v.g.first <= z < v.g.zones && z !in v.role
  }

  lemma SameZoneRefl(v: Volume, z: int)
    ensures SameZone(v, v, z)
  {
  }

  lemma SameZoneTrans(v: Volume, u: Volume, w: Volume, z: int)
    requires SameZone(v, u, z) && SameZone(u, w, z)
    ensures SameZone(v, w, z)
  {
  }

  lemma MappedHere(v: Volume, u: Volume, i: int, n: nat, z: int)
    requires Mapped(v, u, i, n, z) && 0 <= i < |v.inodes| && n < Capacity(v.g)
    ensures ZoneAt(u, i, n) == z
  {
    assert MapsZone(v, u, i, n, z, i, n);
  }

  lemma NotSolidInside(v: Volume, i: int, f: nat)
    requires v.g.perZone > 0 && !Solid(v, i, f)
    ensures f / BLOCK_SIZE % v.g.perZone != 0
  {
  }

  /** With three free zones any zone of a file can be brought in, with the indirect blocks that lead to it. */
  lemma Mappable(v: Volume, i: int, n: nat, z: nat, a: nat, b: nat) returns (u: Volume)
    requires Inv(v) && 0 <= i < |v.inodes| && n < Capacity(v.g) && ZoneAt(v, i, n) == NO_ZONE
    requires Free(v, z) && Free(v, a) && Free(v, b) && z != a && z != b && a != b
    ensures Inv(u) && Mapped(v, u, i, n, z) && OthersSame(v, u, i) && ZoneAt(u, i, n) == z
  {
    hide Stored, At, Mapped, SameZone, Inv;
    var d := DataRole(v.g, i, n);
    DataRoleProper(v, i, n);
    var v1 := v;
    SoundHere(v);
    AllSameRefl(v);
    SameZoneRefl(v, z);
    if !InInode(d) {
      ParentThere(v, d);
      v1 := Indexed(v, Parent(d), z, a, b);
    }
    DataStored(v1, i, n, z) by { Bare(v1, d, z); }
    SoundHere(v1);
    u := Stored(v1, d, z);
    MappedAfter(v, v1, u, i, n, z);
    MappedOthers(v, u, i, n, z);
    MappedHere(v, u, i, n, z);
  }

  lemma Bare(v: Volume, d: Role, z: nat)
    requires Inv(v) && Proper(v, d) && IsData(d) && Free(v, z) && (!InInode(d) ==> At(v, Parent(d)) != NO_ZONE)
    ensures CanStore(v, d, z)
  {
  }

  /** The indirect block of place r is there, or is brought in, and the one above it. */
  lemma Indexed(v: Volume, r: Role, z: nat, a: nat, b: nat) returns (u: Volume)
    requires Inv(v) && Proper(v, r) && !IsData(r) && Free(v, z) && Free(v, a) && Free(v, b) && z != a && z != b && a != b
    ensures Inv(u) && u.g == v.g && |u.inodes| == |v.inodes| && AllSame(v, u) && SameZone(v, u, z) && Free(u, z) && At(u, r) != NO_ZONE
    ensures forall q :: Proper(u, q) <==> Proper(v, q)
  {
    hide Stored, At, SameZone;
    SoundHere(v);
    AllSameRefl(v);
    u := v;
    SameZoneRefl(v, z);
    if At(v, r) == NO_ZONE {
      if InInode(r) || At(v, Parent(r)) != NO_ZONE {
        u := IndexedOne(v, r, a, z, b);
      } else {
        var p := Parent(r);
        assert p.Double?;
        var v1 := IndexedOne(v, p, a, z, b);
        assert At(v1, r) == NO_ZONE by { StoredAt(v, p, a, r); }
        u := IndexedOne(v1, r, b, z, z);
        AllSameTrans(v, v1, u);
        SameZoneTrans(v, v1, u, z);
      }
    }
  }

  lemma IndexedOne(v: Volume, r: Role, a: nat, z: nat, b: nat) returns (u: Volume)
    requires CanStore(v, r, a) && !IsData(r) && Free(v, z) && Free(v, b) && z != a && b != a
    ensures u == Stored(v, r, a) && Inv(u) && u.g == v.g && |u.inodes| == |v.inodes| && AllSame(v, u) && SameZone(v, u, z)
    ensures Free(u, z) && Free(u, b) && At(u, r) == a != NO_ZONE
    ensures forall q :: Proper(u, q) <==> Proper(v, q)
  {
    hide At, SameZone;
    u := Stored(v, r, a);
    IndexStored(v, r, a);
    StoredAt(v, r, a, r);
    StoredSound(v, r, a);
    StoredRole(v, r, a);
  }

  /** A byte can be written at the end. */
  lemma Writable(v: Volume, i: int, z: nat, a: nat, b: nat) returns (w: Volume)
    requires Inv(v) && 0 <= i < |v.inodes| && v.inodes[i].size < Bound(v.g) && !Solid(v, i, v.inodes[i].size)
    requires forall j :: 0 <= j < |v.inodes| ==> TidyFile(v, j)
    requires Free(v, z) && Free(v, a) && Free(v, b) && z != a && z != b && a != b
    ensures WrittenAtEnd(v, w, i, 1, [1])
  {
    hide At, BlockAt, Mapped, Inv, BlocksSet, InFile, OthersSame, ZoneThere, HasChunk, ChunkWritten, Writing, Tidy, Put, Stretched;
    var f := v.inodes[i].size;
    var q := f / BLOCK_SIZE;
    SoundHere(v);
    InBound(v, i, f);
    Known(v, i, q);
    var u := Mappable(v, i, q / v.g.perZone, z, a, b);
    ZoneNew(v, u, u, i, f, f, z);
    ThereStill(v, u, i, f, f);
    var data := OneByte(f % BLOCK_SIZE);
    BlockPut(u, i, q, data);
    var x := Put(u, z, q % u.g.perZone, data);
    BlockNew(v, u, x, i, f, f, data);
    UnmappedBlock(v, i, q);
    ChunkInPlace(BlockAt(v, i, q), Zeros(), data, f, f, [1]);
    ChunkDone(v, x, i, f, f, [1]);
    WritingStart(v, i, f, f, [1]) by { assert TidyFile(v, i); }
    ThereStill(v, x, i, f, f);
    WritingOn(v, v, x, i, f, f, 0, [1], [1]);
    w := Sized(x, i, f + 1);
    WritingEnd(v, x, w, i, f, f, 1, [1]);
  }

  /** A block of zeros with one byte in it. */
  function OneByte(o: nat): Block
    requires o < BLOCK_SIZE
  {
    Zeros()[..o] + [1] + Zeros()[o + 1..]
  }

  /** A write at the end of file i, whatever free zones hold, leaves what was before it as it was. */
  ghost predicate Keeps(v: Volume, u: Volume, w: Volume, i: int, n: nat, data: seq<Byte>)
    requires v.g.perZone > 0 && 0 <= i < |v.inodes|
  {
    Variant(v, u) && WrittenAtEnd(u, w, i, n, data) ==>
      w.g == v.g && Content(w, i, v.inodes[i].size) == Content(u, i, v.inodes[i].size)
  }

  /** Bytes written at the end of a file leave what is before it as it was, whatever free zones hold, if and only if the zone
      in the middle of which the file ends is there. */
  lemma KeptIffSolid(v: Volume, i: int, z: nat, a: nat, b: nat)
    requires Inv(v) && 0 <= i < |v.inodes| && v.inodes[i].size < Bound(v.g)
    requires v.g.perZone > 0 && forall j :: 0 <= j < |v.inodes| ==> TidyFile(v, j)
    requires Free(v, z) && Free(v, a) && Free(v, b) && z != a && z != b && a != b
    ensures Solid(v, i, v.inodes[i].size) <==> forall u, w, n, data {:trigger Keeps(v, u, w, i, n, data)} :: Keeps(v, u, w, i, n, data)
  {
    if Solid(v, i, v.inodes[i].size) {
      forall u, w, n, data ensures Keeps(v, u, w, i, n, data) { SolidKeeps(v, u, w, i, n, data); }
    } else {
      var u, w := HoleSpoils(v, i, z, a, b);
      assert !Keeps(v, u, w, i, 1, [1]);
    }
  }

  lemma SolidKeeps(v: Volume, u: Volume, w: Volume, i: int, n: nat, data: seq<Byte>)
    requires Inv(v) && 0 <= i < |v.inodes| && v.g.perZone > 0 && forall j :: 0 <= j < |v.inodes| ==> TidyFile(v, j)
    requires Solid(v, i, v.inodes[i].size)
    ensures Keeps(v, u, w, i, n, data)
  {
    hide Inv, Content, Variant, Solid;
    if Variant(v, u) && WrittenAtEnd(u, w, i, n, data) {
      VariantSolid(v, u, i);
      assert TidyFile(u, i);
      var y := EndKept(u, w, i, n, data);
    }
  }

  lemma HoleSpoils(v: Volume, i: int, z: nat, a: nat, b: nat) returns (u: Volume, w: Volume)
    requires Inv(v) && 0 <= i < |v.inodes| && v.inodes[i].size < Bound(v.g) && v.g.perZone > 0
    requires !Solid(v, i, v.inodes[i].size) && forall j :: 0 <= j < |v.inodes| ==> TidyFile(v, j)
    requires Free(v, z) && Free(v, a) && Free(v, b) && z != a && z != b && a != b
    ensures !Keeps(v, u, w, i, 1, [1])
  {
    hide Inv, Content, Variant, Solid, Get, ZoneAt, Stretched, Littered;
    var f := v.inodes[i].size;
    u := Littered(v);
    LitteredVariant(v);
    VariantSolid(v, u, i);
    w := Writable(u, i, z, a, b);
    var y := EndKept(u, w, i, 1, [1]);
    NotSolidInside(v, i, f);
    Harmful(v, u, f, y);
  }

  lemma VariantSolid(v: Volume, u: Volume, i: int)
    requires Inv(v) && Variant(v, u) && 0 <= i < |v.inodes| && forall j :: 0 <= j < |v.inodes| ==> TidyFile(v, j)
    ensures Inv(u) && u.g == v.g && u.inodes == v.inodes && Solid(u, i, v.inodes[i].size) == Solid(v, i, v.inodes[i].size) && u.role == v.role
    ensures v.g.perZone > 0 && forall j :: 0 <= j < |u.inodes| ==> TidyFile(u, j)
  {
    hide At, Tidy, Get;
    VariantInv(v, u);
    forall j | 0 <= j < |v.inodes| ensures TidyFile(u, j) && Solid(u, j, v.inodes[j].size) == Solid(v, j, v.inodes[j].size) {
      VariantFile(v, u, j);
      assert TidyFile(v, j);
      SameTidy(v, u, j, v.inodes[j].size);
    }
  }

  lemma Harmful(v: Volume, u: Volume, f: nat, z: int)
    requires v.g.perZone > 0 && u.g == v.g && u.role == v.role && f / BLOCK_SIZE % v.g.perZone != 0 && v.g.first <= z < v.g.zones && z !in v.role
    requires forall y, o :: v.g.first <= y < v.g.zones && y !in v.role && 0 <= o < v.g.perZone ==> Get(u, y, o) == Stale()
    ensures !Harmless(u, f, z)
  {
    hide Get;
    FirstByte(f, v.g.perZone);
    var b := f / BLOCK_SIZE / v.g.perZone * v.g.perZone * BLOCK_SIZE;
    var old_ := Get(u, z, b / BLOCK_SIZE % v.g.perZone)[b % BLOCK_SIZE];
    assert old_ == 1;
  }

  lemma FirstByte(f: nat, per: nat)
    requires per > 0 && f / BLOCK_SIZE % per != 0
    ensures var b := f / BLOCK_SIZE / per * per * BLOCK_SIZE;
      && 0 <= b < f && b / BLOCK_SIZE / per == f / BLOCK_SIZE / per && b / BLOCK_SIZE < f / BLOCK_SIZE
      && b / BLOCK_SIZE % per == 0 && b % BLOCK_SIZE == 0
  {
    var n := f / BLOCK_SIZE / per;
    Euclid(f / BLOCK_SIZE, per);
    DivMul(n * per, BLOCK_SIZE, 0);
    DivMul(n, per, 0);
  }

  // ----- how a file comes to end in a hole

  /** A byte is in a block that is not the first of its zone. */
  predicate MidZone(g: Geometry, p: nat) {
    g.perZone > 0 && p / BLOCK_SIZE % g.perZone != 0
  }

  /** A write behind the end of a tidy file that fails before anything is written leaves an end that is not solid exactly if it
      lies in the middle of a zone that is not there, as is every zone that begins behind the old end. */
  lemma GapFailed(v: Volume, w: Volume, i: int, p: nat, data: seq<Byte>)
    requires v.g.perZone > 0 && TidyFile(v, i) && v.inodes[i].size < p < Bound(v.g) && Stretched(v, w, i, p, 0, p, data)
    ensures w.inodes[i].size == p
    ensures !Solid(w, i, p) <==> MidZone(v.g, p) && ZoneAt(v, i, ZoneOf(v.g, p)) == NO_ZONE
    ensures ZoneOf(v.g, p) * v.g.perZone * BLOCK_SIZE >= v.inodes[i].size ==> ZoneAt(v, i, ZoneOf(v.g, p)) == NO_ZONE
  {
    hide At, BlockAt, Content, Written, AtEnd;
    var n := p / BLOCK_SIZE / v.g.perZone;
    InBound(v, i, p);
    Known(v, i, p / BLOCK_SIZE);
    assert ZoneAt(w, i, n) == ZoneAt(v, i, n);
    assert Before(v, i, n, v.inodes[i].size);
  }

  /** There are tidy files that end in a hole: one block of zeros where a zone has two blocks. */
  lemma Holey() returns (v: Volume)
    ensures Inv(v) && |v.inodes| == 1 && v.g.perZone == 2 && TidyFile(v, 0) && !Solid(v, 0, v.inodes[0].size)
  {
    var g := Geometry(V1, true, 2, 1, 2);
    v := Volume(g, [Zeros(), Zeros(), Zeros(), Zeros()], [Inode([0, 0, 0, 0, 0, 0, 0, 0, 0, 0], BLOCK_SIZE)], map[]);
    hide Entry;
    forall r | Proper(v, r) ensures At(v, r) == NO_ZONE { HoleyAt(v, r); }
    hide At;
    forall r ensures Recorded(v, r) {}
    forall n | 0 <= n < Capacity(g) ensures ZoneAt(v, 0, n) == NO_ZONE { DataRoleProper(v, 0, n); }
    forall n ensures Before(v, 0, n, BLOCK_SIZE) {}
    assert BLOCK_SIZE <= Bound(g);
  }

  lemma {:induction false} HoleyAt(v: Volume, r: Role)
    requires |v.inodes| == 1 && v.inodes[0].zone == [0, 0, 0, 0, 0, 0, 0, 0, 0, 0] && Proper(v, r)
    ensures At(v, r) == NO_ZONE
    decreases Level(r)
  {
    if !InInode(r) {
      ParentThere(v, r);
      HoleyAt(v, Parent(r));
    }
  }
}
