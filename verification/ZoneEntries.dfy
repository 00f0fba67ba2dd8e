/** Zone numbers in indirect blocks (src/fs/read.c, rd_indir; src/fs/write.c, wr_indir): 16 or 32 bits, in either byte order. */
module ZoneEntries {
  import opened Arith
  import Basics

  type Byte = Basics.Byte

  const BLOCK_SIZE := 1024

  /** The contents of a block. */
  type Block = s: seq<Byte> | |s| == BLOCK_SIZE witness seq(BLOCK_SIZE, _ => 0)

  function Zeros(): Block {
    seq(BLOCK_SIZE, _ => 0)
  }

  datatype Version = V1 | V2

  function Conv2(norm: bool, w: nat): (r: nat)
    ensures r < 0x10000
  {
    if norm then w % 0x10000 else w % 0x100 * 0x100 + w / 0x100 % 0x100
  }

  function Conv4(norm: bool, x: nat): nat {
    if norm then x else Conv2(false, x % 0x10000) * 0x10000 + Conv2(false, x / 0x10000 % 0x10000)
  }

  lemma Swapped(lo: nat, hi: nat)
    requires lo < 0x100 && hi < 0x100
    ensures Conv2(false, lo + 0x100 * hi) == hi + 0x100 * lo
  {
    var w := lo + 0x100 * hi;
    assert w / 0x100 == hi && w % 0x100 == lo by { DivMul(hi, 0x100, lo); }
    assert hi % 0x100 == hi;
  }

  lemma TwoBytes(w: nat) returns (lo: nat, hi: nat)
    requires w < 0x10000
    ensures lo < 0x100 && hi < 0x100 && w == lo + 0x100 * hi
  {
    lo, hi := w % 0x100, w / 0x100;
  }

  /** Swapping the bytes of a word twice gives it back. */
  lemma Conv2Twice(norm: bool, w: nat)
    requires w < 0x10000
    ensures Conv2(norm, Conv2(norm, w)) == w
  {
    if !norm {
      hide Conv2;
      var lo, hi := TwoBytes(w);
      Swapped(lo, hi);
      Swapped(hi, lo);
    }
  }

  lemma Halves(hi: nat, lo: nat)
    requires hi < 0x10000 && lo < 0x10000
    ensures (hi * 0x10000 + lo) % 0x10000 == lo && (hi * 0x10000 + lo) / 0x10000 == hi
    ensures hi * 0x10000 + lo < 0x1_0000_0000
  {
  }

  /** Swapping the bytes of a long twice gives it back. */
  lemma Conv4Twice(norm: bool, x: nat)
    requires x < 0x1_0000_0000
    ensures Conv4(norm, x) < 0x1_0000_0000 && Conv4(norm, Conv4(norm, x)) == x
  {
    hide Conv2;
    if !norm {
      var lo, hi := x % 0x10000, x / 0x10000;
      Conv2Twice(false, lo);
      Conv2Twice(false, hi);
      Halves(Conv2(false, lo), Conv2(false, hi));
      Halves(hi, lo);
    }
  }

  /** A 16-bit word as the machine keeps it, low byte first. */
  function Word(s: Block, at: nat): (w: nat)
    requires at + 1 < BLOCK_SIZE
    ensures w < 0x10000
  {
    (s[at] as int) + (s[at + 1] as int) * 0x100
  }

  function PutWord(s: Block, at: nat, w: nat): Block
    requires at + 1 < BLOCK_SIZE && w < 0x10000
  {
    s[at := w % 0x100][at + 1 := w / 0x100]
  }

  function Indirects(version: Version): nat {
    if version == V1 then BLOCK_SIZE / 2 else BLOCK_SIZE / 4
  }

  /** How big a zone number may be. */
  function Limit(version: Version): nat {
    if version == V1 then 0x10000 else 0x1_0000_0000
  }

  /** rd_indir */
  function Entry(version: Version, native: bool, s: Block, index: nat): nat
    requires index < Indirects(version)
  {
    if version == V1 then Conv2(native, Word(s, 2 * index))
    else Conv4(native, Word(s, 4 * index) + Word(s, 4 * index + 2) * 0x10000)
  }

  /** wr_indir */
  function PutEntry(version: Version, native: bool, s: Block, index: nat, zone: nat): Block
    requires index < Indirects(version) && zone < Limit(version)
  {
    if version == V1 then PutWord(s, 2 * index, Conv2(native, zone))
    else
      assert Conv4(native, zone) < 0x1_0000_0000 by { Conv4Twice(native, zone); }
      PutWord(PutWord(s, 4 * index, Conv4(native, zone) % 0x10000), 4 * index + 2, Conv4(native, zone) / 0x10000)
  }

  lemma WordPut(s: Block, at: nat, w: nat, from: nat)
    requires at % 2 == 0 && from % 2 == 0 && at + 1 < BLOCK_SIZE && from + 1 < BLOCK_SIZE && w < 0x10000
    ensures Word(PutWord(s, at, w), from) == if from == at then w else Word(s, from)
  {
  }

  /** What has been written is read back, and no other entry is disturbed. */
  lemma EntryPut(version: Version, native: bool, s: Block, i: nat, zone: nat, j: nat)
    requires i < Indirects(version) && j < Indirects(version) && zone < Limit(version)
    ensures Entry(version, native, PutEntry(version, native, s, i, zone), j)
         == if j == i then zone else Entry(version, native, s, j)
  {
    hide Conv2, Conv4, Word, PutWord;
    if version == V1 {
      Conv2Twice(native, zone);
      WordPut(s, 2 * i, Conv2(native, zone), 2 * j);
    } else {
      Conv4Twice(native, zone);
      LongPut(s, 4 * i, Conv4(native, zone), 4 * j);
    }
  }

  lemma LongPut(s: Block, at: nat, x: nat, from: nat)
    requires at % 4 == 0 && from % 4 == 0 && at + 3 < BLOCK_SIZE && from + 3 < BLOCK_SIZE && x < 0x1_0000_0000
    ensures var t := PutWord(PutWord(s, at, x % 0x10000), at + 2, x / 0x10000);
      Word(t, from) + Word(t, from + 2) * 0x10000 == if from == at then x else Word(s, from) + Word(s, from + 2) * 0x10000
  {
    hide Word, PutWord;
    var u := PutWord(s, at, x % 0x10000);
    WordPut(s, at, x % 0x10000, from);
    WordPut(s, at, x % 0x10000, from + 2);
    WordPut(u, at + 2, x / 0x10000, from);
    WordPut(u, at + 2, x / 0x10000, from + 2);
  }

  /** A block of zeros maps nothing. */
  lemma EntryZero(version: Version, native: bool, j: nat)
    requires j < Indirects(version)
    ensures Entry(version, native, Zeros(), j) == 0
  {
  }
}
