/** Allocation of zones and inodes on one file system (src/fs/cache.c, src/fs/inode.c), over its two bitmaps. */
module SuperBlocks {
  import opened BitWords
  import B = Bitmap

  const NO_ZONE := 0
  const NO_INUM := 0
  const UNSIGNED_LONG := 0x1_0000_0000

  /** Every bit below hint is set: a search may start there. */
  ghost predicate LowerBound(s: seq<bv16>, native: bool, bits: int, hint: int)
    requires bits <= |s| * WORD_BITS
  {
    B.Full(s, native, bits, 0, hint)
  }

  class SuperBlock {
    const s_ninodes: nat
    const s_firstdatazone: nat
    const s_zones: nat
    const s_rd_only: bool
    const inodeMap: B.Bitmap
    const zoneMap: B.Bitmap
    var s_isearch: nat
    var s_zsearch: nat

    /** Bit 0 of either map is never handed out, and the search hints are lower bounds. */
    ghost predicate Valid()
      reads this, inodeMap, zoneMap, inodeMap.words, zoneMap.words
    {
      && inodeMap != zoneMap && inodeMap.words != zoneMap.words && inodeMap.Valid() && zoneMap.Valid()
      && 0 < s_firstdatazone <= s_zones < UNSIGNED_LONG
      && inodeMap.bits == s_ninodes + 1 && zoneMap.bits == s_zones - (s_firstdatazone - 1)
      && B.Bit(inodeMap.words[..], inodeMap.native, 0) && B.Bit(zoneMap.words[..], zoneMap.native, 0)
      && LowerBound(inodeMap.words[..], inodeMap.native, inodeMap.bits, s_isearch)
      && LowerBound(zoneMap.words[..], zoneMap.native, zoneMap.bits, s_zsearch)
    }

    /** A file system that has just been mounted: the searches start at the beginning. */
    constructor (s_ninodes: nat, s_firstdatazone: nat, s_zones: nat, s_rd_only: bool, inodeMap: B.Bitmap, zoneMap: B.Bitmap)
      requires inodeMap != zoneMap && inodeMap.words != zoneMap.words && inodeMap.Valid() && zoneMap.Valid()
      requires 0 < s_firstdatazone <= s_zones < UNSIGNED_LONG
      requires inodeMap.bits == s_ninodes + 1 && zoneMap.bits == s_zones - (s_firstdatazone - 1)
      requires B.Bit(inodeMap.words[..], inodeMap.native, 0) && B.Bit(zoneMap.words[..], zoneMap.native, 0)
      ensures Valid() && this.s_ninodes == s_ninodes && this.s_firstdatazone == s_firstdatazone && this.s_zones == s_zones
      ensures this.s_rd_only == s_rd_only && this.inodeMap == inodeMap && this.zoneMap == zoneMap
    {
      this.s_ninodes, this.s_firstdatazone, this.s_zones, this.s_rd_only := s_ninodes, s_firstdatazone, s_zones, s_rd_only;
      this.inodeMap, this.zoneMap := inodeMap, zoneMap;
      s_isearch, s_zsearch := 0, 0;
    }

    ghost predicate InUse(zone: int)
      requires Valid()
      reads this, inodeMap, zoneMap, inodeMap.words, zoneMap.words
    {
      s_firstdatazone <= zone < s_zones && B.Bit(zoneMap.words[..], zoneMap.native, zone - (s_firstdatazone - 1))
    }

    /** The zones that are allocated. */
    ghost function Zones(): (zs: set<int>)
      requires Valid()
      reads this, inodeMap, zoneMap, inodeMap.words, zoneMap.words
      ensures forall z :: z in zs <==> InUse(z)
    {
      set z | s_firstdatazone <= z < s_zones && InUse(z)
    }

    ghost predicate Numbered(inum: int)
      requires Valid()
      reads this, inodeMap, zoneMap, inodeMap.words, zoneMap.words
    {
      1 <= inum <= s_ninodes && B.Bit(inodeMap.words[..], inodeMap.native, inum)
    }

    /** The numbers of the inodes that are allocated. */
    ghost function Inodes(): (ns: set<int>)
      requires Valid()
      reads this, inodeMap, zoneMap, inodeMap.words, zoneMap.words
      ensures forall n :: n in ns <==> Numbered(n)
    {
      set n | 1 <= n <= s_ninodes && Numbered(n)
    }

    /** alloc_zone: a zone that was free, the lowest from about z on or else the lowest of all; NO_ZONE if all are in use. */
    method AllocZone(z: nat) returns (zone: int)
      requires Valid() && !s_rd_only && z < UNSIGNED_LONG
      modifies this`s_zsearch, zoneMap.words, zoneMap`dirty
      ensures Valid() && Inodes() == old(Inodes()) && s_isearch == old(s_isearch)
      ensures zone == NO_ZONE <==> forall c :: s_firstdatazone <= c < s_zones ==> c in old(Zones())
      ensures zone == NO_ZONE ==> Zones() == old(Zones())
      ensures zone != NO_ZONE ==> s_firstdatazone <= zone < s_zones && zone !in old(Zones()) && Zones() == old(Zones()) + {zone}
      ensures zone != NO_ZONE && (z <= s_firstdatazone || z >= s_zones) ==>
        forall c :: s_firstdatazone <= c < zone ==> c in old(Zones())
      ensures zone != NO_ZONE && s_firstdatazone < z < s_zones ==>
        forall c :: z <= c < (if zone <= z - WORD_BITS then s_zones else zone) ==> c in old(Zones())
    {
      hide B.Bit, B.Full, B.FirstClear, B.Toggled, B.Start, Counted;
      var bit: nat;
      if z == s_firstdatazone {
        bit := s_zsearch;
      } else {
        bit := (z - (s_firstdatazone - 1)) % UNSIGNED_LONG;
        WrapsAround(z, s_firstdatazone, s_zones);
      }
      ghost var s, used, native, bits, first := zoneMap.words[..], Zones(), zoneMap.native, zoneMap.bits, s_firstdatazone - 1;
      CountedZones();
      var b := zoneMap.AllocBit(bit);
      if b == B.NO_BIT {
        NothingFree(s, native, bits, bit);
        AllCounted(s, native, bits, first, used);
        return NO_ZONE;
      }
      ghost var t := zoneMap.words[..];
      Allocated(s, native, bits, bit, b, s_zsearch);
      OneCounted(s, t, native, bits, first, used, bit, b, if b <= bit - WORD_BITS then bits else b);
      HintKept(s, t, native, bits, b, s_zsearch);
      if z == s_firstdatazone {
        s_zsearch := b;
        HintMoved(s, t, native, bits, b, b);
      }
      ZeroKept(s, t, native, b);
      zone := s_firstdatazone - 1 + b;
      ZonesCounted(used + {zone});
    }

    lemma CountedZones()
      requires Valid()
      ensures Counted(zoneMap.words[..], zoneMap.native, zoneMap.bits, s_firstdatazone - 1, Zones())
    {
      hide B.Bit;
      assert forall c :: c in Zones() <==> InUse(c);
    }

    lemma ZonesCounted(used: set<int>)
      requires Valid() && Counted(zoneMap.words[..], zoneMap.native, zoneMap.bits, s_firstdatazone - 1, used)
      ensures Zones() == used
    {
      hide B.Bit;
      assert forall c :: c in Zones() <==> InUse(c);
    }

    /** free_zone: gives a zone back; false if it was not allocated. Numbers of no data zone are ignored. */
    method FreeZone(numb: nat) returns (ok: bool)
      requires Valid() && !s_rd_only
      modifies this`s_zsearch, zoneMap.words, zoneMap`dirty
      ensures Valid() && Inodes() == old(Inodes()) && s_isearch == old(s_isearch)
      ensures ok == (numb in old(Zones()) || numb < s_firstdatazone || numb >= s_zones)
      ensures Zones() == old(Zones()) - {numb}
    {
      hide B.Bit;
      ghost var s, used := zoneMap.words[..], Zones();
      if numb < s_firstdatazone || numb >= s_zones { return true; }
      var bit := numb - (s_firstdatazone - 1);
      ok := zoneMap.FreeBit(bit);
      if !ok {
        assert Zones() == used;
        return;
      }
      HintLowered(s, zoneMap.words[..], zoneMap.native, zoneMap.bits, bit, s_zsearch);
      if bit < s_zsearch { s_zsearch := bit; }
      assert forall c :: InUse(c) <==> c in used && c != numb;
    }

    /** alloc_inode: the lowest free inode number, if there is also a slot in the inode table. */
    method AllocInode(slot: bool) returns (inum: int)
      requires Valid()
      modifies this`s_isearch, inodeMap.words, inodeMap`dirty
      ensures Valid() && Zones() == old(Zones()) && s_zsearch == old(s_zsearch)
      ensures inum == NO_INUM <==> s_rd_only || !slot || forall n :: 1 <= n <= s_ninodes ==> n in old(Inodes())
      ensures inum == NO_INUM ==> Inodes() == old(Inodes())
      ensures inum != NO_INUM ==>
        && 1 <= inum <= s_ninodes && inum !in old(Inodes()) && Inodes() == old(Inodes()) + {inum}
        && forall n :: 1 <= n < inum ==> n in old(Inodes())
    {
      hide B.Bit;
      if s_rd_only { return NO_INUM; }
      ghost var s, used := inodeMap.words[..], Inodes();
      var b := inodeMap.AllocBit(s_isearch);
      if b == B.NO_BIT {
        NothingFree(s, inodeMap.native, inodeMap.bits, s_isearch);
        assert Inodes() == used;
        assert forall n :: 1 <= n <= s_ninodes ==> B.Bit(s, inodeMap.native, n);
        return NO_INUM;
      }
      Allocated(s, inodeMap.native, inodeMap.bits, s_isearch, b, s_isearch);
      HintMoved(s, inodeMap.words[..], inodeMap.native, inodeMap.bits, b, b);
      ghost var t := inodeMap.words[..];
      s_isearch := b;
      inum := b;
      if !slot {
        var ok := inodeMap.FreeBit(b);
        HintLowered(t, inodeMap.words[..], inodeMap.native, inodeMap.bits, b, b);
        assert forall n :: Numbered(n) <==> n in used;
        assert Inodes() == used;
        return NO_INUM;
      }
      assert forall n :: Numbered(n) <==> n in used || n == inum;
      assert Inodes() == used + {inum};
      assert forall n :: 1 <= n <= s_ninodes ==> (n in used <==> B.Bit(s, inodeMap.native, n));
    }

    /** free_inode: gives an inode number back; false if it was not allocated. Numbers of no inode are ignored. */
    method FreeInode(inumb: nat) returns (ok: bool)
      requires Valid() && !s_rd_only
      modifies this`s_isearch, inodeMap.words, inodeMap`dirty
      ensures Valid() && Zones() == old(Zones()) && s_zsearch == old(s_zsearch)
      ensures ok == (inumb in old(Inodes()) || inumb == 0 || inumb > s_ninodes)
      ensures Inodes() == old(Inodes()) - {inumb}
    {
      hide B.Bit;
      ghost var s, used := inodeMap.words[..], Inodes();
      if inumb <= 0 || inumb > s_ninodes { return true; }
      ok := inodeMap.FreeBit(inumb);
      if !ok {
        assert Inodes() == used;
        return;
      }
      HintLowered(s, inodeMap.words[..], inodeMap.native, inodeMap.bits, inumb, s_isearch);
      if inumb < s_isearch { s_isearch := inumb; }
      assert forall n :: Numbered(n) <==> n in used && n != inumb;
    }
  }

  /** used are the numbers that the bits from 1 on stand for, counted from first. */
  ghost predicate Counted(s: seq<bv16>, native: bool, bits: int, first: int, used: set<int>)
    requires bits <= |s| * WORD_BITS
  {
    forall c :: c in used <==> first < c < first + bits && B.Bit(s, native, c - first)
  }

  lemma AllCounted(s: seq<bv16>, native: bool, bits: int, first: int, used: set<int>)
    requires bits <= |s| * WORD_BITS && Counted(s, native, bits, first, used) && B.Full(s, native, bits, 0, bits)
    ensures forall c :: first < c < first + bits ==> c in used
  {
    hide B.Bit;
  }

  lemma OneCounted(s: seq<bv16>, t: seq<bv16>, native: bool, bits: int, first: int, used: set<int>, origin: nat, b: int, hi: int)
    requires bits <= |s| * WORD_BITS && Counted(s, native, bits, first, used) && B.Toggled(s, t, native, b, true)
    requires 0 < b < bits && !B.Bit(s, native, b)
    ensures Counted(t, native, bits, first, used + {first + b}) && first + b !in used
    ensures B.Full(s, native, bits, 0, b) ==> forall c :: first < c < first + b ==> c in used
    ensures B.Full(s, native, bits, origin, hi) ==>
      forall c :: first < c && first + origin <= c < first + hi && c < first + bits ==> c in used
  {
    hide B.Bit;
  }

  /** In unsigned arithmetic a zone before the data zones becomes a bit beyond the map. */
  lemma WrapsAround(z: nat, first: nat, zones: nat)
    requires 0 < first <= zones < UNSIGNED_LONG && z < UNSIGNED_LONG
    ensures var bit := (z - (first - 1)) % UNSIGNED_LONG;
      bit == if z >= first - 1 then z - (first - 1) else z - (first - 1) + UNSIGNED_LONG
  {
  }

  lemma ZeroKept(s: seq<bv16>, t: seq<bv16>, native: bool, b: int)
    requires 0 < |s| && B.Toggled(s, t, native, b, true) && B.Bit(s, native, 0)
    ensures 0 < |t| && B.Bit(t, native, 0)
  {
    hide B.Bit;
  }

  lemma NothingFree(s: seq<bv16>, native: bool, bits: int, origin: nat)
    requires 0 < bits <= |s| * WORD_BITS && B.Bit(s, native, 0)
    requires B.Full(s, native, bits, 0, bits)
      || (exists lo, b :: b == 0 && B.FirstClear(s, native, bits, lo, b))
    ensures B.Full(s, native, bits, 0, bits)
  {
    hide B.Bit;
  }

  /** What a search from origin on has found: no bit 0, and nothing before it from origin on. */
  lemma Allocated(s: seq<bv16>, native: bool, bits: int, origin: nat, b: int, hint: int)
    requires 0 < bits <= |s| * WORD_BITS && B.Bit(s, native, 0) && LowerBound(s, native, bits, hint)
    requires var lo := B.Start(origin, bits); B.FirstClear(s, native, bits, if B.Full(s, native, bits, lo, bits) then 0 else lo, b)
    ensures 0 < b < bits && !B.Bit(s, native, b)
    ensures origin >= bits || LowerBound(s, native, bits, origin) ==> B.Full(s, native, bits, 0, b)
    ensures origin < bits ==> B.Full(s, native, bits, origin, if b <= origin - WORD_BITS then bits else b)
  {
    hide B.Bit;
  }

  lemma HintKept(s: seq<bv16>, t: seq<bv16>, native: bool, bits: int, b: int, hint: int)
    requires bits <= |s| * WORD_BITS && B.Toggled(s, t, native, b, true) && LowerBound(s, native, bits, hint)
    ensures LowerBound(t, native, bits, hint)
  {
    hide B.Bit;
  }

  lemma HintMoved(s: seq<bv16>, t: seq<bv16>, native: bool, bits: int, b: int, hint: int)
    requires bits <= |s| * WORD_BITS && B.Toggled(s, t, native, b, true) && B.Full(s, native, bits, 0, b)
    ensures LowerBound(t, native, bits, b)
  {
    hide B.Bit;
  }

  lemma HintLowered(s: seq<bv16>, t: seq<bv16>, native: bool, bits: int, b: int, hint: int)
    requires bits <= |s| * WORD_BITS && B.Toggled(s, t, native, b, false) && LowerBound(s, native, bits, hint)
    ensures LowerBound(t, native, bits, if b < hint then b else hint)
  {
    hide B.Bit;
  }
}
