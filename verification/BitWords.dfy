/** Bitmap words as they are on disk (src/fs/utility.c, conv2): sixteen bits, perhaps in the other byte order. */
module BitWords {
  const WORD_BITS := 16

  function Mask(i: nat): bv16 {
    if i == 0 then 0x0001 else if i == 1 then 0x0002 else if i == 2 then 0x0004 else if i == 3 then 0x0008
    else if i == 4 then 0x0010 else if i == 5 then 0x0020 else if i == 6 then 0x0040 else if i == 7 then 0x0080
    else if i == 8 then 0x0100 else if i == 9 then 0x0200 else if i == 10 then 0x0400 else if i == 11 then 0x0800
    else if i == 12 then 0x1000 else if i == 13 then 0x2000 else if i == 14 then 0x4000 else 0x8000
  }

  function Conv2(norm: bool, w: bv16): bv16 {
    if norm then w & 0xFFFF else ((w & 0xFF) << 8) | ((w >> 8) & 0xFF)
  }

  predicate Meets(k: bv16, m: bv16) {
    k & m != 0
  }

  function With(k: bv16, m: bv16): bv16 {
    k | m
  }

  function Without(k: bv16, m: bv16): bv16 {
    k & !m
  }

  predicate Has(k: bv16, i: nat) {
    Meets(k, Mask(i))
  }

  /** Swapping bytes twice gives the word back. */
  lemma Conv2Twice(norm: bool, w: bv16)
    ensures Conv2(norm, Conv2(norm, w)) == w
  {
  }

  /** The word of all ones looks the same in either byte order, and no other word looks like it. */
  lemma Conv2Ones(norm: bool, w: bv16)
    ensures Conv2(norm, w) == 0xFFFF <==> w == 0xFFFF
  {
  }

  lemma MasksApart(i: nat, j: nat)
    requires i < WORD_BITS && j < WORD_BITS
    ensures Meets(Mask(i), Mask(i)) && (i != j ==> !Meets(Mask(i), Mask(j)))
  {
  }

  lemma OrApart(k: bv16, m: bv16, n: bv16)
    requires !Meets(m, n)
    ensures (k | m) & n == k & n && (k & !m) & n == k & n
  {
  }

  lemma WithSame(k: bv16, m: bv16)
    requires Meets(m, m)
    ensures Meets(With(k, m), m)
  {
  }

  lemma WithoutSame(k: bv16, m: bv16)
    ensures !Meets(Without(k, m), m)
  {
  }

  lemma WithApart(k: bv16, m: bv16, n: bv16)
    requires !Meets(m, n)
    ensures Meets(With(k, m), n) == Meets(k, n)
  {
    OrApart(k, m, n);
    assert (k | m) & n == k & n;
  }

  lemma WithoutApart(k: bv16, m: bv16, n: bv16)
    requires !Meets(m, n)
    ensures Meets(Without(k, m), n) == Meets(k, n)
  {
    OrApart(k, m, n);
    assert (k & !m) & n == k & n;
  }

  /** Setting or clearing one bit of a word leaves the others. */
  lemma ChangeOne(k: bv16, i: nat, j: nat)
    requires i < WORD_BITS && j < WORD_BITS
    ensures Has(With(k, Mask(i)), j) == (j == i || Has(k, j))
    ensures Has(Without(k, Mask(i)), j) == (j != i && Has(k, j))
  {
    hide Mask, Meets, With, Without;
    MasksApart(i, j);
    if i == j {
      WithSame(k, Mask(i));
      WithoutSame(k, Mask(i));
    } else {
      WithApart(k, Mask(i), Mask(j));
      WithoutApart(k, Mask(i), Mask(j));
    }
  }

  lemma OneClear(k: bv16)
    requires k != 0xFFFF
    ensures exists i :: 0 <= i < WORD_BITS && !Has(k, i)
  {
    assert !Has(k, 0) || !Has(k, 1) || !Has(k, 2) || !Has(k, 3) || !Has(k, 4) || !Has(k, 5) || !Has(k, 6) || !Has(k, 7)
        || !Has(k, 8) || !Has(k, 9) || !Has(k, 10) || !Has(k, 11) || !Has(k, 12) || !Has(k, 13) || !Has(k, 14) || !Has(k, 15);
  }

  lemma SomeClear(k: bv16)
    ensures k == 0xFFFF <==> forall i :: 0 <= i < WORD_BITS ==> Has(k, i)
  {
    if k != 0xFFFF { OneClear(k); }
  }
}
