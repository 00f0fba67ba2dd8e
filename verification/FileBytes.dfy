/** Files as sequences of bytes (src/fs/read.c, read_write; src/fs/write.c, clear_zone): what is in a file, and what lies behind its end. */
module FileBytes {
  import opened Arith
  import opened ZoneEntries
  import opened ZoneMap
  import opened FileBlocks

  function ByteAt(v: Volume, i: int, p: nat): Byte
    requires v.g.perZone > 0
  {
    BlockAt(v, i, p / BLOCK_SIZE)[p % BLOCK_SIZE]
  }

  /** The first e bytes of file i. */
  function Content(v: Volume, i: int, e: nat): (s: seq<Byte>)
    requires v.g.perZone > 0
    ensures |s| == e && forall p :: 0 <= p < e ==> s[p] == ByteAt(v, i, p)
  {
    seq(e, p requires 0 <= p < e => ByteAt(v, i, p))
  }

  /** A file of bytes s after data has been written at position p: a gap is filled with zeros. */
  function Written(s: seq<Byte>, p: nat, data: seq<Byte>): (t: seq<Byte>)
    ensures |t| == if p + |data| > |s| then p + |data| else |s|
    ensures forall x :: 0 <= x < |t| ==> t[x] == if p <= x < p + |data| then data[x - p] else if x < |s| then s[x] else 0
  {
    var start := if p <= |s| then s[..p] else s + seq(p - |s|, _ => 0);
    start + data + if p + |data| < |s| then s[p + |data|..] else []
  }

  /** Writing in two parts is writing at once. */
  lemma WrittenTwice(s: seq<Byte>, p: nat, a: seq<Byte>, b: seq<Byte>)
    ensures Written(Written(s, p, a), p + |a|, b) == Written(s, p, a + b)
  {
    var t, u := Written(Written(s, p, a), p + |a|, b), Written(s, p, a + b);
    forall x | 0 <= x < |u| ensures t[x] == u[x] {}
  }

  /** Zone n of file i lies at least partly before byte e, if it is there. */
  ghost predicate Before(v: Volume, i: int, n: int, e: nat) {
    0 <= n < Capacity(v.g) && ZoneAt(v, i, n) != NO_ZONE ==> n * v.g.perZone * BLOCK_SIZE < e
  }

  /** No zones behind the end e, and zeros behind it in its block: what a file keeps between two calls. */
  ghost predicate Tidy(v: Volume, i: int, e: nat)
    requires v.g.perZone > 0
  {
    && (forall n {:trigger Before(v, i, n, e)} :: Before(v, i, n, e))
    && forall p :: e <= p && p / BLOCK_SIZE == e / BLOCK_SIZE && e % BLOCK_SIZE != 0 ==> ByteAt(v, i, p) == 0
  }

  /** A zone that the end e lies in the middle of is there; otherwise allocating it would bring old data into the file. */
  predicate Solid(v: Volume, i: int, e: nat)
    requires v.g.perZone > 0
  {
    e / BLOCK_SIZE % v.g.perZone == 0 || ZoneAt(v, i, e / BLOCK_SIZE / v.g.perZone) != NO_ZONE
  }

  /** File j is not touched. */
  ghost predicate SameFile(v: Volume, w: Volume, j: int) {
    && w.g == v.g && v.g.perZone > 0 && |w.inodes| == |v.inodes|
    && (0 <= j < |v.inodes| ==> w.inodes[j].size == v.inodes[j].size)
    && (forall n :: 0 <= n < Capacity(v.g) ==> ZoneAt(w, j, n) == ZoneAt(v, j, n))
    && forall q :: InFile(v, j, q) ==> BlockAt(w, j, q) == BlockAt(v, j, q)
  }

  ghost predicate OthersSame(v: Volume, w: Volume, i: int) {
    forall j :: 0 <= j < |v.inodes| && j != i ==> SameFile(v, w, j)
  }

  /** Where byte e is addressable. */
  function Bound(g: Geometry): nat {
    Capacity(g) * g.perZone * BLOCK_SIZE
  }

  lemma InBound(v: Volume, i: int, p: nat)
    requires 0 < v.g.perZone && 0 <= i < |v.inodes| && p < Bound(v.g)
    ensures InFile(v, i, p / BLOCK_SIZE)
  {
    var q := p / BLOCK_SIZE;
    Euclid(q, v.g.perZone);
    if q / v.g.perZone >= Capacity(v.g) { MulLe(Capacity(v.g), q / v.g.perZone, v.g.perZone); }
  }

  lemma AtBound(v: Volume, i: int)
    requires 0 < v.g.perZone
    ensures Bound(v.g) % BLOCK_SIZE == 0 && Solid(v, i, Bound(v.g))
  {
    DivMul(Capacity(v.g), v.g.perZone, 0);
    DivMul(Capacity(v.g) * v.g.perZone, BLOCK_SIZE, 0);
  }

  lemma SameContent(v: Volume, w: Volume, j: int, e: nat)
    requires SameFile(v, w, j) && 0 <= j < |v.inodes| && e <= Bound(v.g)
    ensures Content(w, j, e) == Content(v, j, e)
  {
    forall p | 0 <= p < e ensures ByteAt(w, j, p) == ByteAt(v, j, p) { InBound(v, j, p); }
  }

  lemma SameTidy(v: Volume, w: Volume, j: int, e: nat)
    requires SameFile(v, w, j) && 0 <= j < |v.inodes| && e <= Bound(v.g) && Tidy(v, j, e)
    ensures Tidy(w, j, e) && Solid(w, j, e) == Solid(v, j, e)
  {
    forall n ensures Before(w, j, n, e) { assert Before(v, j, n, e); }
    if e == Bound(v.g) { AtBound(v, j); AtBound(w, j); } else { InBound(v, j, e); }
    forall p | e <= p && p / BLOCK_SIZE == e / BLOCK_SIZE && e % BLOCK_SIZE != 0 ensures ByteAt(w, j, p) == 0 {
      assert ByteAt(v, j, p) == 0;
    }
  }
}
