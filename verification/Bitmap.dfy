/** A bitmap of a file system (src/fs/super.c): which inodes or zones are allocated. */
module Bitmap {
  import opened Arith
  import opened BitWords

  const NO_BIT := 0

  /** Bit b of a map of words in either byte order. */
  predicate Bit(s: seq<bv16>, native: bool, b: int)
    requires 0 <= b < |s| * WORD_BITS
  {
    Has(Conv2(native, s[b / WORD_BITS]), b % WORD_BITS)
  }

  /** Bits lo up to below hi, as far as they belong to the map, are set. */
  ghost predicate Full(s: seq<bv16>, native: bool, bits: int, lo: int, hi: int)
    requires bits <= |s| * WORD_BITS
  {
    forall b :: 0 <= b < bits && lo <= b < hi ==> Bit(s, native, b)
  }

  /** b is the first clear bit from lo on. */
  ghost predicate FirstClear(s: seq<bv16>, native: bool, bits: int, lo: int, b: int)
    requires bits <= |s| * WORD_BITS
  {
    0 <= lo <= b < bits && !Bit(s, native, b) && Full(s, native, bits, lo, b)
  }

  /** Exactly the bits of t and b are set in s. */
  ghost predicate Toggled(s: seq<bv16>, t: seq<bv16>, native: bool, b: int, on: bool) {
    && |s| == |t| && 0 <= b < |s| * WORD_BITS
    && forall c :: 0 <= c < |s| * WORD_BITS ==> Bit(t, native, c) == if c == b then on else Bit(s, native, c)
  }

  lemma WordOf(g: int, i: int, n: nat)
    requires 0 <= g < n && 0 <= i < WORD_BITS
    ensures 0 <= g * WORD_BITS + i < n * WORD_BITS
    ensures (g * WORD_BITS + i) / WORD_BITS == g && (g * WORD_BITS + i) % WORD_BITS == i
  {
  }

  /** Changing one bit of one word changes that bit of the map. */
  lemma ChangeWord(s: seq<bv16>, native: bool, g: nat, i: nat, on: bool)
    requires g < |s| && i < WORD_BITS
    ensures var k := Conv2(native, s[g]);
      Toggled(s, s[g := Conv2(native, if on then With(k, Mask(i)) else Without(k, Mask(i)))], native, g * WORD_BITS + i, on)
  {
    hide Conv2, With, Without, Mask, Has;
    var k := Conv2(native, s[g]);
    var k1 := if on then With(k, Mask(i)) else Without(k, Mask(i));
    var t := s[g := Conv2(native, k1)];
    Conv2Twice(native, k1);
    WordOf(g, i, |s|);
    var b := g * WORD_BITS + i;
    forall c | 0 <= c < |s| * WORD_BITS ensures Bit(t, native, c) == if c == b then on else Bit(s, native, c) {
      ChangeOne(k, i, c % WORD_BITS);
    }
  }

  /** A word of ones stands for bits that are all set. */
  lemma FullWord(s: seq<bv16>, native: bool, bits: int, g: nat)
    requires bits <= |s| * WORD_BITS && g < |s| && s[g] == 0xFFFF
    ensures Full(s, native, bits, g * WORD_BITS, (g + 1) * WORD_BITS)
  {
    hide Conv2, Has;
    Conv2Ones(native, s[g]);
    SomeClear(Conv2(native, s[g]));
  }

  lemma FullJoin(s: seq<bv16>, native: bool, bits: int, lo: int, mid: int, hi: int)
    requires bits <= |s| * WORD_BITS && Full(s, native, bits, lo, mid) && Full(s, native, bits, mid, hi)
    ensures Full(s, native, bits, lo, hi)
  {
  }

  class Bitmap {
    const words: array<bv16>
    const native: bool
    const chunks: nat
    const blocks: nat
    const bits: nat
    var dirty: set<nat>

    ghost predicate Valid()
      reads this
    {
      0 < chunks && 0 < blocks && words.Length == blocks * chunks && 0 < bits <= words.Length * WORD_BITS
    }

    /** A map as read_super finds it: of so many blocks of so many words, in the byte order of the file system. */
    constructor (words: array<bv16>, native: bool, chunks: nat, blocks: nat, bits: nat)
      requires 0 < chunks && 0 < blocks && words.Length == blocks * chunks && 0 < bits <= words.Length * WORD_BITS
      ensures Valid() && this.words == words && this.native == native && this.chunks == chunks && this.blocks == blocks
      ensures this.bits == bits && dirty == {}
    {
      this.words, this.native, this.chunks, this.blocks, this.bits := words, native, chunks, blocks, bits;
      dirty := {};
    }

    /** alloc_bit: the first clear bit of word k. */
    static method LowestClear(k: bv16) returns (i: nat)
      requires k != 0xFFFF
      ensures i < WORD_BITS && !Has(k, i) && forall j :: 0 <= j < i ==> Has(k, j)
    {
      SomeClear(k);
      i := 0;
      while Has(k, i)
        invariant i < WORD_BITS && forall j :: 0 <= j < i ==> Has(k, j)
        decreases WORD_BITS - i
      {
        i := i + 1;
      }
    }

    /** alloc_bit: looks for a clear bit in one block, from a word on, and sets it. */
    method SearchBlock(block: nat, word0: nat) returns (found: bool, b: int)
      requires Valid() && block < blocks && word0 < chunks
      modifies words, this`dirty
      ensures Valid()
      ensures found ==>
        && FirstClear(old(words[..]), native, bits, Position(chunks, block, word0), b)
        && BlockOf(b, chunks) == block && Toggled(old(words[..]), words[..], native, b, true) && dirty == old(dirty) + {block}
      ensures !found ==> words[..] == old(words[..]) && dirty == old(dirty)
      ensures !found ==>
        Full(words[..], native, bits, Position(chunks, block, word0), Position(chunks, block + 1, 0))
    {
      hide Conv2, Has, With, Mask, Full, Toggled;
      BlockFits(block, chunks, blocks);
      var first := block * chunks;
      ghost var s, lo := words[..], (first + word0) * WORD_BITS;
      var word := word0;
      found, b := false, NO_BIT;
      NoneYet(s, native, bits, lo);
      while word < chunks
        invariant word0 <= word <= chunks && words[..] == s && dirty == old(dirty)
        invariant Full(s, native, bits, lo, (first + word) * WORD_BITS)
      {
        if words[first + word] == 0xFFFF {
          FullWord(s, native, bits, first + word);
          FullJoin(s, native, bits, lo, (first + word) * WORD_BITS, (first + word + 1) * WORD_BITS);
          word := word + 1;
          continue;
        }
        Conv2Ones(native, words[first + word]);
        var k := Conv2(native, words[first + word]);
        var i := LowestClear(k);
        b := (first + word) * WORD_BITS + i;
        LowestOfMap(s, native, bits, lo, first + word, i);
        if b >= bits {
          b := NO_BIT;
          BeyondMap(s, native, bits, lo, (first + word) * WORD_BITS + i, (block + 1) * chunks * WORD_BITS);
          return;
        }
        ChangeWord(s, native, first + word, i, true);
        k := With(k, Mask(i));
        words[first + word] := Conv2(native, k);
        dirty := dirty + {block};
        found := true;
        WordOf(first + word, i, words.Length);
        InBlock(block, word, chunks);
        return;
      }
    }

    /** alloc_bit: the starting place of a search. */
    method StartingPlace(ghost origin0: nat, origin: nat) returns (block: nat, word: nat)
      requires Valid() && origin == if origin0 >= bits then 0 else origin0
      ensures block < blocks && word < chunks && Position(chunks, block, word) == Start(origin0, bits) >= 0
    {
      StartsAt(origin0, origin, chunks, blocks, bits);
      block, word := origin / (chunks * WORD_BITS), origin % (chunks * WORD_BITS) / WORD_BITS;
    }

    /** alloc_bit: sets the first clear bit from the word of origin on, or else from the start on; NO_BIT if all are set. */
    method AllocBit(origin0: nat) returns (b: int)
      requires Valid()
      modifies words, this`dirty
      ensures Valid()
      ensures var s := old(words[..]); var lo := Start(origin0, bits);
        if !Full(s, native, bits, 0, bits) then
          && FirstClear(s, native, bits, if Full(s, native, bits, lo, bits) then 0 else lo, b)
          && Toggled(s, words[..], native, b, true) && dirty == old(dirty) + {BlockOf(b, chunks)}
        else b == NO_BIT && words[..] == s && dirty == old(dirty)
    {
      hide Full, Toggled, FirstClear, Searched, Position, Start, BlockOf;
      ghost var s := words[..];
      var origin := if origin0 >= bits then 0 else origin0;
      var block: nat, word: nat;
      block, word := StartingPlace(origin0, origin);
      NextBlock(chunks, block, word, blocks);
      ghost var start, first := block, Start(origin0, bits);
      var bcount := blocks + 1;
      var found: bool;
      ghost var wrapped := false;
      NoneYet(s, native, bits, first);
      while true
        invariant 0 < bcount <= blocks + 1 && block < blocks && word < chunks && words[..] == s && dirty == old(dirty)
        invariant bcount + block + (if wrapped then blocks else 0) == blocks + 1 + start
        invariant Searched(s, native, bits, first, Position(chunks, block, word), wrapped)
        invariant wrapped ==> word == 0
        decreases bcount
      {
        found, b := SearchBlock(block, word);
        if found {
          FoundThere(s, native, bits, first, Position(chunks, block, word), wrapped, b);
          return;
        }
        NextBlock(chunks, block, word, blocks);
        SearchedOn(s, native, bits, first, Position(chunks, block, word), Position(chunks, block + 1, 0), wrapped);
        if bcount == 1 {
          break;
        }
        block := block + 1;
        if block >= blocks {
          WrapAround(s, native, bits, first, Position(chunks, block, 0), wrapped);
          block := 0;
          wrapped := true;
        }
        word := 0;
        bcount := bcount - 1;
      }
      NothingLeft(s, native, bits, first, Position(chunks, block + 1, 0));
      b := NO_BIT;
    }

    /** free_bit: clears a bit; false if it was not set, which the file server takes for a fatal error. */
    method FreeBit(b: nat) returns (ok: bool)
      requires Valid() && b < words.Length * WORD_BITS
      modifies words, this`dirty
      ensures Valid() && ok == old(Bit(words[..], native, b))
      ensures if ok then Toggled(old(words[..]), words[..], native, b, false) && dirty == old(dirty) + {BlockOf(b, chunks)}
              else words[..] == old(words[..]) && dirty == old(dirty)
    {
      hide Conv2, Has, Without, Mask, Toggled;
      var block, word, bit := b / (chunks * WORD_BITS), b % (chunks * WORD_BITS) / WORD_BITS, b % WORD_BITS;
      Located(b, chunks, blocks, words.Length * WORD_BITS);
      var k := Conv2(native, words[block * chunks + word]);
      ok := Has(k, bit);
      if !ok { return; }
      ChangeWord(words[..], native, block * chunks + word, bit, false);
      words[block * chunks + word] := Conv2(native, Without(k, Mask(bit)));
      dirty := dirty + {block};
      InBlock(block, word, chunks);
    }
  }

  /** Where alloc_bit starts: at the word that holds the origin. */
  function Start(origin: nat, bits: nat): nat {
    if origin >= bits then 0 else origin / WORD_BITS * WORD_BITS
  }

  /** The block of a bit. */
  function BlockOf(b: int, chunks: nat): int
    requires chunks > 0
  {
    b / WORD_BITS / chunks
  }

  /** The first bit of a word. */
  function Position(chunks: nat, block: nat, word: nat): int {
    (block * chunks + word) * WORD_BITS
  }

  lemma StartsAt(origin0: nat, origin: nat, chunks: nat, blocks: nat, bits: nat)
    requires 0 < chunks && 0 < bits <= blocks * chunks * WORD_BITS && origin == if origin0 >= bits then 0 else origin0
    ensures var block, word := origin / (chunks * WORD_BITS), origin % (chunks * WORD_BITS) / WORD_BITS;
      && 0 <= block < blocks && 0 <= word < chunks && Position(chunks, block, word) == Start(origin0, bits) >= 0
  {
    Located(origin, chunks, blocks, bits);
  }

  lemma NextBlock(chunks: nat, block: nat, word: nat, blocks: nat)
    requires word < chunks && block < blocks
    ensures Position(chunks, block, word) <= Position(chunks, block + 1, 0) <= blocks * chunks * WORD_BITS
    ensures block + 1 == blocks ==> Position(chunks, block + 1, 0) == blocks * chunks * WORD_BITS
    ensures Position(chunks, 0, 0) == 0
  {
    BlockFits(block, chunks, blocks);
  }

  /** What has been found full when the search has come to position at. */
  ghost predicate Searched(s: seq<bv16>, native: bool, bits: int, first: int, at: int, wrapped: bool)
    requires bits <= |s| * WORD_BITS
  {
    if wrapped then Full(s, native, bits, first, bits) && Full(s, native, bits, 0, at)
    else first <= at && Full(s, native, bits, first, at)
  }

  lemma NoneYet(s: seq<bv16>, native: bool, bits: int, lo: int)
    requires bits <= |s| * WORD_BITS
    ensures Full(s, native, bits, lo, lo) && (lo >= 0 ==> Searched(s, native, bits, lo, lo, false))
  {
  }

  lemma BlockFits(block: nat, chunks: nat, blocks: nat)
    requires block < blocks
    ensures (block + 1) * chunks == block * chunks + chunks <= blocks * chunks
  {
    MulStep(block, blocks, chunks);
    assert (block + 1) * chunks == block * chunks + chunks;
  }

  lemma InBlock(block: nat, word: nat, chunks: nat)
    requires word < chunks
    ensures (block * chunks + word) / chunks == block
  {
    DivMul(block, chunks, word);
  }

  /** Block, word and word number of a bit. */
  lemma Located(b: nat, chunks: nat, blocks: nat, bits: nat)
    requires 0 < chunks && b < bits <= blocks * chunks * WORD_BITS
    ensures var block, word := b / (chunks * WORD_BITS), b % (chunks * WORD_BITS) / WORD_BITS;
      block < blocks && word < chunks && block * chunks + word == b / WORD_BITS
  {
    Assoc(blocks, chunks);
    var d := chunks * WORD_BITS;
    Euclid(b, d);
    Euclid(b % d, WORD_BITS);
    LocatedParts(b, b / d, b % d, b % d / WORD_BITS, b % d % WORD_BITS, chunks, blocks);
  }

  lemma LocatedParts(b: nat, block: nat, rest: nat, word: nat, bit: nat, chunks: nat, blocks: nat)
    requires b == block * (chunks * WORD_BITS) + rest && rest == word * WORD_BITS + bit && bit < WORD_BITS
    requires rest < chunks * WORD_BITS && b < blocks * (chunks * WORD_BITS)
    ensures block < blocks && word < chunks && block * chunks + word == b / WORD_BITS
  {
    Assoc(block, chunks);
    DivMul(block * chunks + word, WORD_BITS, bit);
    if blocks < block { MulStep(blocks, block, chunks * WORD_BITS); }
  }

  lemma Assoc(a: nat, c: nat)
    ensures a * (c * WORD_BITS) == a * c * WORD_BITS
  {
  }

  lemma LowestOfMap(s: seq<bv16>, native: bool, bits: int, lo: int, g: nat, i: nat)
    requires bits <= |s| * WORD_BITS && g < |s| && i < WORD_BITS && 0 <= lo <= g * WORD_BITS
    requires Full(s, native, bits, lo, g * WORD_BITS)
    requires !Has(Conv2(native, s[g]), i) && forall j :: 0 <= j < i ==> Has(Conv2(native, s[g]), j)
    ensures Full(s, native, bits, lo, g * WORD_BITS + i)
    ensures g * WORD_BITS + i < bits ==> FirstClear(s, native, bits, lo, g * WORD_BITS + i)
  {
    hide Has, Conv2;
    WordOf(g, i, |s|);
    forall b | 0 <= b < bits && lo <= b < g * WORD_BITS + i ensures Bit(s, native, b) {
      if b >= g * WORD_BITS { WordOf(g, b - g * WORD_BITS, |s|); }
    }
  }

  lemma BeyondMap(s: seq<bv16>, native: bool, bits: int, lo: int, b: int, hi: int)
    requires bits <= |s| * WORD_BITS && Full(s, native, bits, lo, b) && bits <= b
    ensures Full(s, native, bits, lo, hi)
  {
  }

  lemma FoundThere(s: seq<bv16>, native: bool, bits: int, first: int, at: int, wrapped: bool, b: int)
    requires bits <= |s| * WORD_BITS && 0 <= first && Searched(s, native, bits, first, at, wrapped) && FirstClear(s, native, bits, at, b)
    ensures !Full(s, native, bits, 0, bits)
    ensures FirstClear(s, native, bits, if Full(s, native, bits, first, bits) then 0 else first, b)
  {
    hide Bit;
    assert !wrapped ==> !Full(s, native, bits, first, bits);
  }

  lemma SearchedOn(s: seq<bv16>, native: bool, bits: int, first: int, at: int, to: int, wrapped: bool)
    requires bits <= |s| * WORD_BITS && Searched(s, native, bits, first, at, wrapped) && Full(s, native, bits, at, to) && at <= to
    ensures Searched(s, native, bits, first, to, wrapped)
  {
    hide Bit;
  }

  lemma WrapAround(s: seq<bv16>, native: bool, bits: int, first: int, at: int, wrapped: bool)
    requires bits <= |s| * WORD_BITS && Searched(s, native, bits, first, at, wrapped) && bits <= at
    ensures Searched(s, native, bits, first, 0, true)
  {
    hide Bit;
  }

  lemma NothingLeft(s: seq<bv16>, native: bool, bits: int, first: int, at: int)
    requires bits <= |s| * WORD_BITS && Searched(s, native, bits, first, at, true) && first <= at
    ensures Full(s, native, bits, 0, bits)
  {
    hide Bit;
  }
}
