/** What writing a chunk and clearing the end of a zone do to the bytes of a file (src/fs/read.c, rw_chunk; src/fs/write.c). */
module FileWrites {
  import opened Arith
  import opened ZoneEntries
  import opened ZoneMap
  import opened FileBlocks
  import opened FileBytes

  function Max(a: nat, b: nat): nat {
    if a < b then b else a
  }

  /** Zone m of file i is as it was, or it is zone n and was not there before. */
  ghost predicate KeepsZone(v: Volume, w: Volume, i: int, n: nat, m: int) {
    0 <= m < Capacity(v.g) ==>
      if m == n then ZoneAt(w, i, m) != NO_ZONE && (ZoneAt(v, i, m) != NO_ZONE ==> ZoneAt(w, i, m) == ZoneAt(v, i, m))
      else ZoneAt(w, i, m) == ZoneAt(v, i, m)
  }

  /** Block r of file i is as it was, unless it is in a zone that has just been allocated for byte p, at the end f. */
  ghost predicate KeepsBlock(v: Volume, w: Volume, i: int, f: nat, p: nat, r: int)
    requires v.g.perZone > 0 && w.g == v.g
  {
    InFile(v, i, r) && r != p / BLOCK_SIZE
    && !(p == f && r / v.g.perZone == p / BLOCK_SIZE / v.g.perZone && ZoneAt(v, i, r / v.g.perZone) == NO_ZONE)
    ==> BlockAt(w, i, r) == BlockAt(v, i, r)
  }

  /** The block of byte p holds c from there on, and around it what it held, or zeros if it was all behind the end. */
  ghost predicate HasChunk(old_: Block, new_: Block, f: nat, p: nat, c: seq<Byte>) {
    var off := p % BLOCK_SIZE;
    && off + |c| <= BLOCK_SIZE
    && forall y :: 0 <= y < BLOCK_SIZE ==>
         new_[y] == if off <= y < off + |c| then c[y - off] else if off == 0 && p >= f then 0 else old_[y]
  }

  /** The blocks before block q in its zone of file i hold what zone z, then free, held. */
  ghost predicate HoldsOld(v: Volume, w: Volume, i: int, q: int, z: int)
    requires v.g.perZone > 0 && w.g == v.g
  {
    && v.g.first <= z < v.g.zones && z !in v.role
    && forall r {:trigger BlockAt(w, i, r)} :: 0 <= r < q && r / v.g.perZone == q / v.g.perZone && InFile(v, i, r) ==>
         BlockAt(w, i, r) == Get(v, z, r % v.g.perZone)
  }

  /** Byte p of file i is in a zone that has not been cleared: a free zone has come in with what it held. */
  ghost predicate Uncleared(v: Volume, w: Volume, i: int, p: nat)
    requires v.g.perZone > 0 && w.g == v.g
  {
    ZoneAt(v, i, p / BLOCK_SIZE / v.g.perZone) == NO_ZONE ==> exists z :: HoldsOld(v, w, i, p / BLOCK_SIZE, z)
  }

  /** Chunk c has been written at byte p of file i, of f bytes. */
  ghost predicate ChunkWritten(v: Volume, w: Volume, i: int, f: nat, p: nat, c: seq<Byte>) {
    && v.g.perZone > 0 && w.g == v.g && |c| > 0 && p + |c| <= Bound(v.g) && 0 <= i < |v.inodes| == |w.inodes|
    && (forall m {:trigger KeepsZone(v, w, i, p / BLOCK_SIZE / v.g.perZone, m)} ::
          KeepsZone(v, w, i, p / BLOCK_SIZE / v.g.perZone, m))
    && (forall r {:trigger KeepsBlock(v, w, i, f, p, r)} :: KeepsBlock(v, w, i, f, p, r))
    && (p == f ==> Uncleared(v, w, i, p))
    && HasChunk(BlockAt(v, i, p / BLOCK_SIZE), BlockAt(w, i, p / BLOCK_SIZE), f, p, c)
  }

  /** Writing at the end of a file may bring in old data before it only if the zone there was not there. */
  ghost predicate NoHoleAt(v: Volume, i: int, f: nat, p: nat)
    requires v.g.perZone > 0
  {
    p == f ==> Solid(v, i, p)
  }

  lemma ChunkByte(v: Volume, w: Volume, i: int, f: nat, p: nat, c: seq<Byte>, x: nat)
    requires ChunkWritten(v, w, i, f, p, c) && NoHoleAt(v, i, f, p) && x < Max(f, p + |c|) && f <= Bound(v.g)
    ensures ByteAt(w, i, x) == if p <= x < p + |c| then c[x - p] else ByteAt(v, i, x)
  {
    hide BlockAt, ZoneAt, Uncleared;
    InBound(v, i, x);
    var q, r := p / BLOCK_SIZE, x / BLOCK_SIZE;
    assert KeepsBlock(v, w, i, f, p, r);
    if r != q && p == f && r / v.g.perZone == q / v.g.perZone && ZoneAt(v, i, r / v.g.perZone) == NO_ZONE {
      assert q % v.g.perZone == 0;
      Euclid(q, v.g.perZone);
      Euclid(r, v.g.perZone);
      assert false;
    }
  }

  /** Byte x of file i, of f bytes, is what zone z held if it is in an earlier block of the zone of the end, and as it was otherwise. */
  predicate EndByte(v: Volume, w: Volume, i: int, f: nat, z: int, x: nat)
    requires v.g.perZone > 0 && w.g == v.g
  {
    var q, r := f / BLOCK_SIZE, x / BLOCK_SIZE;
    ByteAt(w, i, x) == if r < q && r / v.g.perZone == q / v.g.perZone then Get(v, z, r % v.g.perZone)[x % BLOCK_SIZE] else ByteAt(v, i, x)
  }

  /** What becomes of the f bytes of file i, which ends where there is no zone, when zone z is brought in there. */
  ghost predicate SpoiledBy(v: Volume, w: Volume, i: int, f: nat, z: int)
    requires v.g.perZone > 0 && w.g == v.g
  {
    v.g.first <= z < v.g.zones && z !in v.role && forall x {:trigger EndByte(v, w, i, f, z, x)} :: 0 <= x < f ==> EndByte(v, w, i, f, z, x)
  }

  /** A write has been made at the end of file i, of f bytes. */
  ghost predicate AtEnd(v: Volume, w: Volume, i: int, f: nat)
    requires v.g.perZone > 0 && w.g == v.g
  {
    ZoneAt(v, i, f / BLOCK_SIZE / v.g.perZone) == NO_ZONE ==> exists z :: SpoiledBy(v, w, i, f, z)
  }

  lemma ChunkAtEnd(v: Volume, w: Volume, i: int, f: nat, c: seq<Byte>)
    requires ChunkWritten(v, w, i, f, f, c)
    ensures AtEnd(v, w, i, f)
  {
    hide BlockAt, ZoneAt, Get;
    if ZoneAt(v, i, f / BLOCK_SIZE / v.g.perZone) == NO_ZONE {
      assert Uncleared(v, w, i, f);
      var z :| HoldsOld(v, w, i, f / BLOCK_SIZE, z);
      forall x: nat | x < f ensures EndByte(v, w, i, f, z, x) { ChunkEndByte(v, w, i, f, c, z, x); }
      assert SpoiledBy(v, w, i, f, z);
    }
  }

  lemma ChunkEndByte(v: Volume, w: Volume, i: int, f: nat, c: seq<Byte>, z: int, x: nat)
    requires ChunkWritten(v, w, i, f, f, c) && HoldsOld(v, w, i, f / BLOCK_SIZE, z) && x < f
    ensures EndByte(v, w, i, f, z, x)
  {
    hide ZoneAt, Get;
    InBound(v, i, x);
    assert KeepsBlock(v, w, i, f, f, x / BLOCK_SIZE);
  }

  /** Bytes before the end of what is written stay as they are. */
  lemma StaysAtEnd(v0: Volume, v: Volume, w: Volume, i: int, f: nat, p: nat, c: seq<Byte>)
    requires v0.g.perZone > 0 && v.g == v0.g && AtEnd(v0, v, i, f) && ChunkWritten(v, w, i, f, p, c) && p > f && f <= Bound(v.g)
    ensures AtEnd(v0, w, i, f)
  {
    hide BlockAt, ZoneAt, Get, ByteAt;
    if ZoneAt(v0, i, f / BLOCK_SIZE / v0.g.perZone) == NO_ZONE {
      var z :| SpoiledBy(v0, v, i, f, z);
      forall x: nat | x < f ensures EndByte(v0, w, i, f, z, x) {
        assert EndByte(v0, v, i, f, z, x);
        ChunkByte(v, w, i, f, p, c, x);
      }
      assert SpoiledBy(v0, w, i, f, z);
    }
  }

  lemma SameAtEnd(v0: Volume, v: Volume, w: Volume, i: int, f: nat)
    requires v0.g.perZone > 0 && v.g == v0.g && w.g == v0.g && AtEnd(v0, v, i, f)
    requires forall x: nat :: x < f ==> ByteAt(w, i, x) == ByteAt(v, i, x)
    ensures AtEnd(v0, w, i, f)
  {
    hide BlockAt, ZoneAt, Get, ByteAt;
    if ZoneAt(v0, i, f / BLOCK_SIZE / v0.g.perZone) == NO_ZONE {
      var z :| SpoiledBy(v0, v, i, f, z);
      forall x: nat | x < f ensures EndByte(v0, w, i, f, z, x) { assert EndByte(v0, v, i, f, z, x); }
      assert SpoiledBy(v0, w, i, f, z);
    }
  }

  /** Writing a chunk writes it: the file is what it was with the chunk in its place. */
  lemma ChunkContent(v: Volume, w: Volume, i: int, f: nat, p: nat, c: seq<Byte>)
    requires ChunkWritten(v, w, i, f, p, c) && NoHoleAt(v, i, f, p) && f <= Bound(v.g)
    ensures Content(w, i, Max(f, p + |c|)) == Written(Content(v, i, Max(f, p)), p, c)
  {
    hide BlockAt;
    var s, t := Content(w, i, Max(f, p + |c|)), Written(Content(v, i, Max(f, p)), p, c);
    forall x | 0 <= x < |s| ensures s[x] == t[x] { ChunkByte(v, w, i, f, p, c, x); }
  }

  lemma ChunkTidy(v: Volume, w: Volume, i: int, f: nat, p: nat, c: seq<Byte>)
    requires ChunkWritten(v, w, i, f, p, c) && f <= Bound(v.g) && Tidy(v, i, Max(f, p))
    ensures Tidy(w, i, Max(f, p + |c|))
  {
    hide BlockAt, ZoneAt, Uncleared, HasChunk, ByteAt;
    var e := Max(f, p + |c|);
    var n := p / BLOCK_SIZE / v.g.perZone;
    forall m ensures Before(w, i, m, e) {
      assert Before(v, i, m, Max(f, p)) && KeepsZone(v, w, i, n, m);
      if m == n { ZoneStart(p, v.g.perZone); }
    }
    forall x: nat | e <= x && x / BLOCK_SIZE == e / BLOCK_SIZE && e % BLOCK_SIZE != 0 ensures ByteAt(w, i, x) == 0 {
      ChunkBehind(v, w, i, f, p, c, x);
    }
  }

  /** What lies behind the end in its block are zeros still. */
  lemma ChunkBehind(v: Volume, w: Volume, i: int, f: nat, p: nat, c: seq<Byte>, x: nat)
    requires ChunkWritten(v, w, i, f, p, c) && f <= Bound(v.g) && Tidy(v, i, Max(f, p))
    requires var e := Max(f, p + |c|); e <= x && x / BLOCK_SIZE == e / BLOCK_SIZE && e % BLOCK_SIZE != 0
    ensures ByteAt(w, i, x) == 0
  {
    hide BlockAt, ZoneAt, Uncleared, Before;
    var e := Max(f, p + |c|);
    InBlockBound(v, i, e);
    assert KeepsBlock(v, w, i, f, p, x / BLOCK_SIZE);
    if f >= p + |c| || !(p % BLOCK_SIZE == 0 && p >= f) { assert ByteAt(v, i, x) == 0; }
  }

  lemma ZoneStart(p: nat, per: nat)
    requires per > 0
    ensures p / BLOCK_SIZE / per * per * BLOCK_SIZE <= p
  {
    Euclid(p / BLOCK_SIZE, per);
  }

  lemma InBlockBound(v: Volume, i: int, e: nat)
    requires v.g.perZone > 0 && 0 <= i < |v.inodes| && e <= Bound(v.g) && e % BLOCK_SIZE != 0
    ensures InFile(v, i, e / BLOCK_SIZE)
  {
    assert Bound(v.g) == Capacity(v.g) * v.g.perZone * BLOCK_SIZE;
    InBound(v, i, e);
  }

  /** A successful write at the end or beyond leaves the file with the zone of its end, or at the end of a zone. */
  lemma ChunkSolid(v: Volume, w: Volume, i: int, f: nat, p: nat, c: seq<Byte>)
    requires ChunkWritten(v, w, i, f, p, c) && f <= Bound(v.g) && p % BLOCK_SIZE + |c| <= BLOCK_SIZE
    ensures p + |c| >= f || Solid(v, i, f) ==> Solid(w, i, Max(f, p + |c|))
  {
    hide BlockAt, ZoneAt, Uncleared;
    var q, e := p / BLOCK_SIZE, Max(f, p + |c|);
    var n := q / v.g.perZone;
    InBound(v, i, p);
    assert KeepsZone(v, w, i, n, n);
    if p + |c| >= f {
      if e / BLOCK_SIZE != q && e / BLOCK_SIZE % v.g.perZone != 0 { NextInZone(q, v.g.perZone); }
    } else {
      if f == Bound(v.g) { AtBound(w, i); } else { InBound(v, i, f); }
      assert KeepsZone(v, w, i, n, f / BLOCK_SIZE / v.g.perZone);
    }
  }

  lemma NextInZone(q: nat, per: nat)
    requires per > 0 && (q + 1) % per != 0
    ensures (q + 1) / per == q / per
  {
    Euclid(q, per);
    if q % per + 1 < per {
      Quotient(q + 1, q / per, per, q % per + 1, (q + 1) / per, (q + 1) % per);
    } else {
      assert (q / per + 1) * per == q / per * per + per;
      DivMul(q / per + 1, per, 0);
    }
  }

  /** Block r lies in the zone of byte f, behind it. */
  predicate BehindEnd(v: Volume, f: nat, r: int)
    requires v.g.perZone > 0
  {
    r * BLOCK_SIZE >= f && r / v.g.perZone == f / BLOCK_SIZE / v.g.perZone
  }

  ghost predicate ClearsBlock(v: Volume, w: Volume, i: int, f: nat, r: int)
    requires v.g.perZone > 0 && w.g == v.g
  {
    InFile(v, i, r) ==> BlockAt(w, i, r) == if BehindEnd(v, f, r) then Zeros() else BlockAt(v, i, r)
  }

  /** The rest of the zone in which file i ends has been cleared, from the end f on. */
  ghost predicate EndCleared(v: Volume, w: Volume, i: int, f: nat) {
    && v.g.perZone > 0 && w.g == v.g && 0 <= i < |v.inodes| == |w.inodes|
    && (forall m :: 0 <= m < Capacity(v.g) ==> ZoneAt(w, i, m) == ZoneAt(v, i, m))
    && forall r {:trigger ClearsBlock(v, w, i, f, r)} :: ClearsBlock(v, w, i, f, r)
  }

  lemma ClearedByte(v: Volume, w: Volume, i: int, f: nat, x: nat)
    requires EndCleared(v, w, i, f) && x < Bound(v.g) && f < Bound(v.g) && Tidy(v, i, f)
    ensures ByteAt(w, i, x) == if x < f then ByteAt(v, i, x) else 0
  {
    hide ZoneAt;
    InBound(v, i, x);
    var r, n := x / BLOCK_SIZE, f / BLOCK_SIZE / v.g.perZone;
    assert ClearsBlock(v, w, i, f, r);
    if x >= f && !BehindEnd(v, f, r) {
      if r == f / BLOCK_SIZE {
        assert ByteAt(v, i, x) == 0;
      } else {
        assert r * BLOCK_SIZE >= f;
        assert Before(v, i, r / v.g.perZone, f);
        LaterZone(f, r, v.g.perZone);
      }
    }
  }

  /** A block behind byte f that is not in its zone is in a zone that begins behind it. */
  lemma LaterZone(f: nat, r: nat, per: nat)
    requires per > 0 && r * BLOCK_SIZE >= f && r / per != f / BLOCK_SIZE / per && r != f / BLOCK_SIZE
    ensures r / per * per * BLOCK_SIZE >= f
  {
    var q := f / BLOCK_SIZE;
    Euclid(r, per);
    Euclid(q, per);
    if r / per < q / per { MulStep(r / per, q / per, per); }
    MulStep(q / per, r / per, per);
  }

  /** Once the end is cleared, the file may as well be longer: what lies between are zeros. */
  lemma ClearedContent(v: Volume, w: Volume, i: int, f: nat, p: nat)
    requires EndCleared(v, w, i, f) && f <= p <= Bound(v.g) && f < Bound(v.g) && Tidy(v, i, f)
    ensures Content(w, i, p) == Written(Content(v, i, f), p, []) && Content(w, i, f) == Content(v, i, f)
  {
    hide BlockAt;
    forall x | 0 <= x < p ensures ByteAt(w, i, x) == if x < f then ByteAt(v, i, x) else 0 { ClearedByte(v, w, i, f, x); }
  }

  lemma ClearedTidy(v: Volume, w: Volume, i: int, f: nat, p: nat)
    requires EndCleared(v, w, i, f) && f <= p < Bound(v.g) && Tidy(v, i, f)
    ensures Tidy(w, i, p)
  {
    hide BlockAt, ZoneAt;
    forall m ensures Before(w, i, m, p) { assert Before(v, i, m, f); }
    forall x | p <= x && x / BLOCK_SIZE == p / BLOCK_SIZE && p % BLOCK_SIZE != 0 ensures ByteAt(w, i, x) == 0 {
      InBound(v, i, p);
      SameBlockBound(v.g, p, x);
      ClearedByte(v, w, i, f, x);
    }
  }

  lemma SameBlockBound(g: Geometry, p: nat, x: nat)
    requires p < Bound(g) && x / BLOCK_SIZE == p / BLOCK_SIZE
    ensures x < Bound(g)
  {
    var m := Capacity(g) * g.perZone;
    assert Bound(g) == m * BLOCK_SIZE;
  }

  /** No zone of file i has come or gone. */
  ghost predicate SameZones(v: Volume, w: Volume, i: int) {
    w.g == v.g && forall m :: 0 <= m < Capacity(v.g) ==> ZoneAt(w, i, m) == ZoneAt(v, i, m)
  }

  /** While data is being written from byte p on, n bytes of it are in place. */
  ghost predicate Writing(v0: Volume, v: Volume, i: int, f: nat, p: nat, n: nat, data: seq<Byte>) {
    && v.g == v0.g && v.g.perZone > 0 && 0 <= i < |v.inodes| == |v0.inodes| && v.inodes[i].size == f && n <= |data|
    && f <= Bound(v.g) && p + |data| <= Bound(v.g) && OthersSame(v0, v, i)
    && Tidy(v, i, Max(f, p + n))
    && (NoHoleAt(v0, i, f, p) ==> Content(v, i, Max(f, p + n)) == Written(Content(v0, i, f), p, data[..n]))
    && (n == 0 ==> SameZones(v0, v, i))
    && (n > 0 && p == f ==> AtEnd(v0, v, i, f))
    && (n == 0 ==> Solid(v, i, f) == Solid(v0, i, f))
    && (n > 0 && p + n >= f ==> Solid(v, i, p + n))
    && (n > 0 && p + n < f && Solid(v0, i, f) ==> Solid(v, i, f))
  }

  lemma WritingStart(v: Volume, i: int, f: nat, p: nat, data: seq<Byte>)
    requires v.g.perZone > 0 && 0 <= i < |v.inodes| && v.inodes[i].size == f && p <= f <= Bound(v.g)
    requires p + |data| <= Bound(v.g) && Tidy(v, i, f)
    ensures Writing(v, v, i, f, p, 0, data)
  {
    assert Written(Content(v, i, f), p, data[..0]) == Content(v, i, f);
  }

  /** A write behind the end starts with zeros up to there. */
  lemma WritingBehind(v: Volume, w: Volume, i: int, f: nat, p: nat, data: seq<Byte>)
    requires 0 <= i < |v.inodes| && v.inodes[i].size == f && f < p && p + |data| <= Bound(v.g) && Tidy(v, i, f) && |data| > 0
    requires EndCleared(v, w, i, f) && OthersSame(v, w, i) && w.inodes == v.inodes
    ensures Writing(v, w, i, f, p, 0, data)
  {
    hide BlockAt, ZoneAt, Content, Written, Tidy;
    ClearedContent(v, w, i, f, p);
    ClearedTidy(v, w, i, f, p);
    assert data[..0] == [];
    ClearedSolid(v, w, i, f);
    assert SameZones(v, w, i);
  }

  lemma ClearedSolid(v: Volume, w: Volume, i: int, f: nat)
    requires EndCleared(v, w, i, f) && f < Bound(v.g)
    ensures Solid(w, i, f) == Solid(v, i, f)
  {
    InBound(v, i, f);
  }

  lemma WritingOn(v0: Volume, v: Volume, w: Volume, i: int, f: nat, p: nat, n: nat, data: seq<Byte>, c: seq<Byte>)
    requires Writing(v0, v, i, f, p, n, data) && ChunkWritten(v, w, i, f, p + n, c) && OthersSame(v, w, i) && w.inodes[i].size == f
    requires n + |c| <= |data| && c == data[n..n + |c|] && (p + n) % BLOCK_SIZE + |c| <= BLOCK_SIZE && n + |c| <= |data|
    requires n == 0 && p == f ==> v == v0
    ensures Writing(v0, w, i, f, p, n + |c|, data)
  {
    hide BlockAt, ZoneAt, Content, Written, Tidy, Solid, OthersSame, ChunkWritten, NoHoleAt, AtEnd, SameZones;
    ChunkShape(v, w, i, f, p + n, c);
    WritingOthers(v0, v, w, i);
    ChunkTidy(v, w, i, f, p + n, c);
    ChunkSolid(v, w, i, f, p + n, c);
    if p == f { if n == 0 { ChunkAtEnd(v, w, i, f, c); } else { StaysAtEnd(v0, v, w, i, f, p + n, c); } }
    if NoHoleAt(v0, i, f, p) { WritingContent(v0, v, w, i, f, p, n, data, c); }
  }

  lemma ChunkShape(v: Volume, w: Volume, i: int, f: nat, p: nat, c: seq<Byte>)
    requires ChunkWritten(v, w, i, f, p, c)
    ensures |w.inodes| == |v.inodes| && w.g == v.g && v.g.perZone > 0 && |c| > 0
  {
  }

  lemma WritingContent(v0: Volume, v: Volume, w: Volume, i: int, f: nat, p: nat, n: nat, data: seq<Byte>, c: seq<Byte>)
    requires Writing(v0, v, i, f, p, n, data) && ChunkWritten(v, w, i, f, p + n, c) && n + |c| <= |data| && c == data[n..n + |c|]
    requires NoHoleAt(v0, i, f, p)
    ensures Content(w, i, Max(f, p + n + |c|)) == Written(Content(v0, i, f), p, data[..n + |c|])
  {
    hide BlockAt, ZoneAt, Content, Written, Tidy, Solid, OthersSame, ChunkWritten;
    assert data[..n + |c|] == data[..n] + c;
    ChunkContent(v, w, i, f, p + n, c);
    WrittenTwice(Content(v0, i, f), p, data[..n], c);
  }

  lemma WritingOthers(v0: Volume, v: Volume, w: Volume, i: int)
    requires OthersSame(v0, v, i) && OthersSame(v, w, i) && |v.inodes| == |v0.inodes|
    ensures OthersSame(v0, w, i)
  {
    forall j | 0 <= j < |v0.inodes| && j != i ensures SameFile(v0, w, j) { assert SameFile(v0, v, j) && SameFile(v, w, j); }
  }

  /** A chunk that could not be written has changed no file. */
  lemma WritingFailed(v0: Volume, v: Volume, w: Volume, i: int, f: nat, p: nat, n: nat, data: seq<Byte>)
    requires Writing(v0, v, i, f, p, n, data) && |w.inodes| == |v.inodes|
    requires forall j :: 0 <= j < |v.inodes| ==> SameFile(v, w, j)
    ensures Writing(v0, w, i, f, p, n, data)
  {
    hide BlockAt, ZoneAt, Tidy, Solid, Written, AtEnd, ByteAt;
    assert SameFile(v, w, i);
    WritingOthers(v0, v, w, i);
    SameContent(v, w, i, Max(f, p + n));
    SameTidy(v, w, i, Max(f, p + n));
    SameSolid(v, w, i, f);
    SameSolid(v, w, i, p + n);
    if n > 0 && p == f {
      SameContent(v, w, i, f);
      forall x: nat | x < f ensures ByteAt(w, i, x) == ByteAt(v, i, x) { assert Content(w, i, f)[x] == Content(v, i, f)[x]; }
      SameAtEnd(v0, v, w, i, f);
    }
    assert n == 0 ==> SameZones(v0, w, i);
  }

  lemma SameSolid(v: Volume, w: Volume, i: int, e: nat)
    requires SameFile(v, w, i) && 0 <= i < |v.inodes| && e <= Bound(v.g)
    ensures Solid(w, i, e) == Solid(v, i, e)
  {
    hide BlockAt;
    if e == Bound(v.g) { AtBound(v, i); AtBound(w, i); } else { InBound(v, i, e); }
  }

  ghost predicate TidyFile(v: Volume, j: int)
    requires v.g.perZone > 0
  {
    0 <= j < |v.inodes| && v.inodes[j].size <= Bound(v.g) && Tidy(v, j, v.inodes[j].size)
  }

  function Sized(v: Volume, i: int, size: nat): Volume
    requires 0 <= i < |v.inodes|
  {
    v.(inodes := v.inodes[i := v.inodes[i].(size := size)])
  }

  /** Where zones and blocks of files are does not depend on sizes. */
  lemma {:induction false} SizedAt(v: Volume, i: int, size: nat, r: Role)
    requires 0 <= i < |v.inodes|
    ensures At(Sized(v, i, size), r) == At(v, r)
    decreases Level(r)
  {
    hide Entry;
    if !InInode(r) { SizedAt(v, i, size, Parent(r)); }
  }

  lemma SizedInv(v: Volume, i: int, size: nat)
    requires Inv(v) && 0 <= i < |v.inodes|
    ensures Inv(Sized(v, i, size))
  {
    var w := Sized(v, i, size);
    hide At;
    forall r ensures Recorded(w, r) { SizedAt(v, i, size, r); assert Recorded(v, r); }
    forall y ensures Owned(w, y) { assert Owned(v, y); if y in v.role { SizedAt(v, i, size, v.role[y]); } }
  }

  /** Zones and blocks of file j are as they were. */
  ghost predicate SameView(v: Volume, w: Volume, j: int) {
    && w.g == v.g && v.g.perZone > 0
    && (forall n :: 0 <= n ==> ZoneAt(w, j, n) == ZoneAt(v, j, n))
    && forall q :: 0 <= q ==> BlockAt(w, j, q) == BlockAt(v, j, q)
  }

  lemma SizedFile(v: Volume, i: int, size: nat, j: int)
    requires 0 <= i < |v.inodes| && v.g.perZone > 0
    ensures SameView(v, Sized(v, i, size), j)
  {
    var w := Sized(v, i, size);
    hide At;
    forall n | 0 <= n ensures ZoneAt(w, j, n) == ZoneAt(v, j, n) { SizedAt(v, i, size, DataRole(v.g, j, n)); }
    forall q | 0 <= q ensures BlockAt(w, j, q) == BlockAt(v, j, q) {
      Euclid(q, v.g.perZone);
      assert ZoneAt(w, j, q / v.g.perZone) == ZoneAt(v, j, q / v.g.perZone);
    }
  }

  /** What a write of data at byte p of file i has done, of which n bytes succeeded: unless the file ended in a hole exactly
      where the write began, the file is what it was with those bytes in it; a write behind the end fills the gap with zeros. */
  ghost predicate Stretched(v: Volume, w: Volume, i: int, p: nat, n: nat, position: nat, data: seq<Byte>) {
    && w.g == v.g && v.g.perZone > 0 && 0 <= i < |v.inodes| == |w.inodes| && n <= |data| && position == p + n
    && OthersSame(v, w, i)
    && var f := v.inodes[i].size;
       && w.inodes[i].size == Max(f, p + n)
       && (NoHoleAt(v, i, f, p) ==> Content(w, i, w.inodes[i].size) == Written(Content(v, i, f), p, data[..n]))
       && ((n > 0 && p + n >= f) || (p + n <= f && Solid(v, i, f)) ==> Solid(w, i, w.inodes[i].size))
       && (n > 0 && p == f ==> AtEnd(v, w, i, f))
       && (n == 0 ==> SameZones(v, w, i))
  }

  lemma WritingFacts(v0: Volume, v: Volume, i: int, f: nat, p: nat, n: nat, data: seq<Byte>)
    requires Writing(v0, v, i, f, p, n, data)
    ensures |v.inodes| == |v0.inodes| && 0 <= i < |v.inodes| && v.inodes[i].size == f && p + |data| <= Bound(v.g) && v.g == v0.g
    ensures v.g.perZone > 0
  {
  }

  lemma WritingEnd(v0: Volume, v: Volume, w: Volume, i: int, f: nat, p: nat, n: nat, data: seq<Byte>)
    requires Writing(v0, v, i, f, p, n, data) && v0.inodes[i].size == f
    requires w == if p + n > f then Sized(v, i, p + n) else v
    requires forall j :: 0 <= j < |v0.inodes| ==> TidyFile(v0, j)
    ensures Stretched(v0, w, i, p, n, p + n, data)
    ensures forall j :: 0 <= j < |w.inodes| ==> TidyFile(w, j)
  {
    hide At, BlockAt, ZoneAt, Content, Written, Tidy, Solid, AtEnd;
    forall j ensures SameView(v, w, j) { if w != v { SizedFile(v, i, p + n, j); } }
    ViewOthers(v, w, i);
    WritingOthers(v0, v, w, i);
    var e := Max(f, p + n);
    ResizedFile(v, w, i, e);
    assert SameView(v, w, i);
    if n > 0 && p == f {
      forall x: nat | x < f ensures ByteAt(w, i, x) == ByteAt(v, i, x) {}
      SameAtEnd(v0, v, w, i, f);
    }
    forall j | 0 <= j < |w.inodes| ensures TidyFile(w, j) {
      if j != i {
        assert TidyFile(v0, j) && SameFile(v0, w, j);
        SameTidy(v0, w, j, v0.inodes[j].size);
      }
    }
  }

  lemma ViewOthers(v: Volume, w: Volume, i: int)
    requires |w.inodes| == |v.inodes| && forall j :: SameView(v, w, j)
    requires forall j :: 0 <= j < |v.inodes| && j != i ==> w.inodes[j].size == v.inodes[j].size
    ensures OthersSame(v, w, i)
  {
    hide BlockAt, ZoneAt;
    forall j | 0 <= j < |v.inodes| && j != i ensures SameFile(v, w, j) { assert SameView(v, w, j); }
  }

  lemma ResizedFile(v: Volume, w: Volume, i: int, e: nat)
    requires SameView(v, w, i) && v.g.perZone > 0 && Tidy(v, i, e)
    ensures Tidy(w, i, e) && Content(w, i, e) == Content(v, i, e) && Solid(w, i, e) == Solid(v, i, e)
  {
    hide BlockAt, ZoneAt;
    forall n ensures Before(w, i, n, e) { assert Before(v, i, n, e); }
    forall p | e <= p && p / BLOCK_SIZE == e / BLOCK_SIZE && e % BLOCK_SIZE != 0 ensures ByteAt(w, i, p) == 0 {
      assert ByteAt(v, i, p) == 0;
    }
    forall p | 0 <= p < e ensures ByteAt(w, i, p) == ByteAt(v, i, p) {}
    Euclid(e / BLOCK_SIZE, v.g.perZone);
  }
}
