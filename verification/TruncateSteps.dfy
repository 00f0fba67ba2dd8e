/** Which zones a file has, and what is left when they have been freed (src/fs/link.c, truncate; src/fs/inode.c, wipe_inode). */
module TruncateSteps {
  import opened Arith
  import opened ZoneEntries
  import opened ZoneMap
  import opened FileBlocks
  import opened FileBytes
  import opened FileWrites
  import opened MapSteps

  /** The zones of file i: of its data and of its indirect blocks. */
  ghost function ZonesOf(v: Volume, i: int): (zs: set<int>)
    ensures forall z :: z in zs <==> z in v.role && v.role[z].ino == i
  {
    set z | z in v.role && v.role[z].ino == i
  }

  /** One of the first n zones of data of file i. */
  ghost predicate Among(v: Volume, i: int, n: int, z: int) {
    exists m {:trigger ZoneAt(v, i, m)} :: 0 <= m < n && ZoneAt(v, i, m) == z != NO_ZONE
  }

  /** What truncate frees: the zones of data that begin before the end, and all indirect blocks. */
  ghost predicate Freed(v: Volume, i: int, n: int, z: int) {
    z in ZonesOf(v, i) && (IsData(v.role[z]) ==> Among(v, i, n, z))
  }

  function Zones(size: nat, per: nat): nat
    requires per > 0
  {
    (size + per * BLOCK_SIZE - 1) / (per * BLOCK_SIZE)
  }

  /** Which zone of a file a place of data is. */
  function IndexOf(g: Geometry, r: Role): int
    requires IsData(r)
  {
    match r
    case Direct(_, k) => k
    case Via(_, k) => NR_DZONES + k
    case Deep(_, j, k) => NR_DZONES + Indirects(g.version) + j * Indirects(g.version) + k
  }

  lemma IndexOfRole(v: Volume, r: Role)
    requires Proper(v, r) && IsData(r)
    ensures 0 <= IndexOf(v.g, r) < Capacity(v.g) && DataRole(v.g, r.ino, IndexOf(v.g, r)) == r
  {
    if r.Deep? { DeepIndex(Indirects(v.g.version), r.j, r.k); }
  }

  lemma DeepIndex(m: nat, j: nat, k: nat)
    requires j < m && k < m
    ensures 0 <= j * m + k < m * m && (j * m + k) / m == j && (j * m + k) % m == k
  {
    DivMul(j, m, k);
    MulStep(j, m, m);
  }

  /** Truncating frees all zones of a file exactly if none of its data lies in a zone that begins at the end or behind it. */
  lemma FreesAll(v: Volume, i: int, n: int)
    requires Inv(v) && 0 <= i < |v.inodes| && 0 <= n <= Capacity(v.g)
    ensures (forall z :: z in ZonesOf(v, i) ==> Freed(v, i, n, z))
       <==> (forall m :: n <= m < Capacity(v.g) ==> ZoneAt(v, i, m) == NO_ZONE)
  {
    hide At;
    if forall m :: n <= m < Capacity(v.g) ==> ZoneAt(v, i, m) == NO_ZONE {
      forall z | z in ZonesOf(v, i) ensures Freed(v, i, n, z) {
        var r := v.role[z];
        assert Owned(v, z);
        if IsData(r) {
          IndexOfRole(v, r);
          assert ZoneAt(v, i, IndexOf(v.g, r)) == z;
        }
      }
    }
    if m :| n <= m < Capacity(v.g) && ZoneAt(v, i, m) != NO_ZONE {
      var z := ZoneAt(v, i, m);
      DataRoleProper(v, i, m);
      InRange(v, DataRole(v.g, i, m));
      assert z in ZonesOf(v, i);
      if Among(v, i, n, z) {
        var k :| 0 <= k < n && ZoneAt(v, i, k) == z;
        DataRoleProper(v, i, k);
        Distinct(v, DataRole(v.g, i, k), DataRole(v.g, i, m));
        DataRoleInjective(v.g, i, k, i, m);
      }
      assert !Freed(v, i, n, z);
    }
  }

  /** In a tidy file no zone begins at the end or behind it. */
  lemma TidyFreesAll(v: Volume, i: int, size: nat)
    requires Inv(v) && 0 <= i < |v.inodes| && Tidy(v, i, size) && size <= Bound(v.g) && v.g.perZone > 0
    ensures Zones(size, v.g.perZone) <= Capacity(v.g)
    ensures forall z :: z in ZonesOf(v, i) <==> Freed(v, i, Zones(size, v.g.perZone), z)
  {
    ZonesBound(v.g, size);
    var n := Zones(size, v.g.perZone);
    forall m | n <= m < Capacity(v.g) ensures ZoneAt(v, i, m) == NO_ZONE {
      assert Before(v, i, m, size);
      ZonesCover(size, v.g.perZone, m);
    }
    FreesAll(v, i, n);
  }

  lemma ZonesBound(g: Geometry, size: nat)
    requires size <= Bound(g) && g.perZone > 0
    ensures Zones(size, g.perZone) <= Capacity(g)
  {
    var d := g.perZone * BLOCK_SIZE;
    var n := (size + d - 1) / d;
    Euclid(size + d - 1, d);
    assert Capacity(g) * g.perZone * BLOCK_SIZE == Capacity(g) * d by { Grouped(Capacity(g), g.perZone); }
    if n > Capacity(g) { MulStep(Capacity(g), n, d); }
  }

  lemma Grouped(a: nat, b: nat)
    ensures a * b * BLOCK_SIZE == a * (b * BLOCK_SIZE)
  {
  }

  /** Zone m begins before byte size exactly if it is one of the first. */
  lemma ZonesCover(size: nat, per: nat, m: nat)
    requires per > 0
    ensures m < Zones(size, per) <==> m * per * BLOCK_SIZE < size
  {
    var d := per * BLOCK_SIZE;
    var n := (size + d - 1) / d;
    Euclid(size + d - 1, d);
    Grouped(m, per);
    if m < n { MulStep(m, n, d); } else { MulLe(n, m, d); }
  }

  // ----- the inode is wiped

  function Wiped(v: Volume, i: int): Volume
    requires 0 <= i < |v.inodes|
  {
    v.(inodes := v.inodes[i := Inode(seq(NR_TZONES, _ => NO_ZONE), 0)], role := map z | z in v.role && v.role[z].ino != i :: v.role[z])
  }

  lemma {:induction false} WipedAt(v: Volume, i: int, r: Role)
    requires Sound(v) && 0 <= i < |v.inodes| && Proper(v, r)
    ensures At(Wiped(v, i), r) == if r.ino == i then NO_ZONE else At(v, r)
    decreases Level(r)
  {
    hide Entry;
    if !InInode(r) {
      ParentThere(v, r);
      WipedAt(v, i, Parent(r));
    }
  }

  lemma WipedInv(v: Volume, i: int)
    requires Inv(v) && 0 <= i < |v.inodes|
    ensures Inv(Wiped(v, i))
  {
    var w := Wiped(v, i);
    assert forall r :: Proper(w, r) <==> Proper(v, r);
    hide At, Proper;
    forall r ensures Recorded(w, r) { if Proper(v, r) { WipedAt(v, i, r); } assert Recorded(v, r); }
    forall y ensures Owned(w, y) {
      assert Owned(v, y);
      if y in w.role { WipedAt(v, i, v.role[y]); }
    }
  }

  /** The wiped file is empty; no other file has changed. */
  lemma WipedFiles(v: Volume, i: int)
    requires Inv(v) && 0 <= i < |v.inodes|
    ensures var w := Wiped(v, i); OthersSame(v, w, i) && Tidy(w, i, 0) && Solid(w, i, 0) && w.inodes[i].size == 0
  {
    hide Inv;
    SoundHere(v);
    var w := Wiped(v, i);
    hide At;
    forall j | 0 <= j < |v.inodes| && j != i ensures SameFile(v, w, j) {
      forall n | 0 <= n < Capacity(v.g) ensures ZoneAt(w, j, n) == ZoneAt(v, j, n) {
        DataRoleProper(v, j, n);
        WipedAt(v, i, DataRole(v.g, j, n));
      }
    }
    forall n ensures Before(w, i, n, 0) {
      if 0 <= n < Capacity(v.g) { DataRoleProper(v, i, n); WipedAt(v, i, DataRole(v.g, i, n)); }
    }
    DivMul(0, v.g.perZone, 0);
  }
}
