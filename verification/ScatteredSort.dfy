/** The Shell sort that orders a request queue by block number (src/fs/cache.c:340-356). */
module ScatteredSort {
  import opened Basics
  import opened BlockTypes

  /** The first n entries of q are buffers of the table b. */
  ghost predicate Queue(b: seq<Buf>, q: seq<int>, n: int) {
    0 <= n <= |q| && forall i :: 0 <= i < n ==> 0 <= q[i] < |b|
  }

  ghost predicate SortedQueue(b: seq<Buf>, q: seq<int>, n: int)
    requires Queue(b, q, n)
  {
    forall i, j :: 0 <= i < j < n ==> b[q[i]].blocknr <= b[q[j]].blocknr
  }

  /** q and p hold the same buffers in their first n entries, and agree beyond them. */
  ghost predicate Rearranged(q: seq<int>, p: seq<int>, n: int) {
    0 <= n <= |q| == |p| && multiset(q[..n]) == multiset(p[..n]) && q[n..] == p[n..]
  }

  /** q without entry d is in order up to j: the state of an insertion that moves entry d down. */
  ghost predicate SortedBut(b: seq<Buf>, q: seq<int>, j: int, d: int)
    requires Queue(b, q, j + 1)
  {
    forall a, c :: 0 <= a < c <= j && c != d ==> b[q[a]].blocknr <= b[q[c]].blocknr
  }

  /** (3^k - 1) / 2: the gaps the sort goes through. */
  ghost function Gap(k: nat): (g: nat)
    ensures k > 0 ==> g >= k
  {
    if k == 0 then 0 else 3 * Gap(k - 1) + 1
  }

  function Swapped(q: seq<int>, i: int, j: int): seq<int>
    requires 0 <= i < j < |q|
  {
    q[i := q[j]][j := q[i]]
  }

  lemma SwapKeeps(b: seq<Buf>, was: seq<int>, q: seq<int>, i: int, j: int, n: int)
    requires 0 <= i < j < n && Queue(b, q, n) && Rearranged(was, q, n)
    ensures Queue(b, Swapped(q, i, j), n) && Rearranged(was, Swapped(q, i, j), n)
  {
    var p := Swapped(q, i, j);
    var s := q[..n];
    assert p[..n] == s[i := s[j]][j := s[i]];
  }

  lemma InsertionStart(b: seq<Buf>, q: seq<int>, j: int)
    requires Queue(b, q, j + 1) && j >= 0 && SortedQueue(b, q, j)
    ensures SortedBut(b, q, j, j)
  {
  }

  lemma MoveDown(b: seq<Buf>, q: seq<int>, j: int, i: int)
    requires Queue(b, q, j + 1) && 0 <= i < j && SortedBut(b, q, j, i + 1)
    requires b[q[i]].blocknr > b[q[i + 1]].blocknr
    ensures Queue(b, Swapped(q, i, i + 1), j + 1) && SortedBut(b, Swapped(q, i, i + 1), j, i)
  {
  }

  lemma InsertionDone(b: seq<Buf>, q: seq<int>, j: int, d: int)
    requires Queue(b, q, j + 1) && 0 <= d <= j && SortedBut(b, q, j, d)
    requires d == 0 || b[q[d - 1]].blocknr <= b[q[d]].blocknr
    ensures SortedQueue(b, q, j + 1)
  {
  }

  method Exchange(bufq: array<int>, i: nat, j: nat)
    requires i < j < bufq.Length
    modifies bufq
    ensures bufq[..] == Swapped(old(bufq[..]), i, j)
  {
    var bp := bufq[i];
    bufq[i] := bufq[j];
    bufq[j] := bp;
  }

  /** Moves entry j down its gap-chain; with gap 1 this is one insertion of an insertion sort. */
  method Insert(buf: array<Buf>, bufq: array<int>, n: nat, gap: nat, j: nat)
    requires 0 < gap <= j < n && Queue(buf[..], bufq[..], n)
    modifies bufq
    ensures Queue(buf[..], bufq[..], n) && Rearranged(old(bufq[..]), bufq[..], n)
    ensures gap == 1 && SortedQueue(buf[..], old(bufq[..]), j) ==> SortedQueue(buf[..], bufq[..], j + 1)
  {
    hide SortedQueue, SortedBut, Swapped;
    var i: int := j - gap;
    ghost var b, q, was := buf[..], bufq[..], bufq[..];
    ghost var sorted := gap == 1 && SortedQueue(b, was, j);
    if sorted { InsertionStart(b, was, j); }
    while i >= 0 && buf[bufq[i]].blocknr > buf[bufq[i + gap]].blocknr
      invariant 0 - gap <= i <= j - gap
      invariant q == bufq[..] && Queue(b, q, n) && Rearranged(was, q, n)
      invariant sorted ==> SortedBut(b, q, j, i + 1)
    {
      if sorted { MoveDown(b, q, j, i); }
      SwapKeeps(b, was, q, i, i + gap, n);
      Exchange(bufq, i, i + gap);
      q := bufq[..];
      i := i - gap;
    }
    if sorted { InsertionDone(b, q, j, i + 1); }
  }

  method ShellSort(buf: array<Buf>, bufq: array<int>, bufqsize: nat)
    requires Queue(buf[..], bufq[..], bufqsize)
    modifies bufq
    ensures Queue(buf[..], bufq[..], bufqsize) && SortedQueue(buf[..], bufq[..], bufqsize)
    ensures Rearranged(old(bufq[..]), bufq[..], bufqsize)
  {
    var gap := 1;
    ghost var k := 1;
    gap, k := 3 * gap + 1, k + 1;
    while gap <= bufqsize
      invariant k >= 2 && gap == Gap(k)
      decreases bufqsize - gap
    {
      gap, k := 3 * gap + 1, k + 1;
    }
    while gap != 1
      invariant k >= 1 && gap == Gap(k)
      invariant Queue(buf[..], bufq[..], bufqsize) && Rearranged(old(bufq[..]), bufq[..], bufqsize)
      invariant gap == 1 ==> SortedQueue(buf[..], bufq[..], bufqsize)
      decreases k
    {
      gap, k := gap / 3, k - 1;
      var j := gap;
      while j < bufqsize
        invariant gap <= j && (gap <= bufqsize ==> j <= bufqsize)
        invariant Queue(buf[..], bufq[..], bufqsize) && Rearranged(old(bufq[..]), bufq[..], bufqsize)
        invariant gap == 1 && j <= bufqsize ==> SortedQueue(buf[..], bufq[..], j)
      {
        Insert(buf, bufq, bufqsize, gap, j);
        j := j + 1;
      }
    }
  }
}
