/** The hash chains through the buffer table (src/fs/buf.h:51): every buffer is on the chain of its block number. */
module HashChains {
  import opened Basics
  import opened BlockTypes

  /** block & HASH_MASK, for a table of n chains. */
  function Slot(block: nat, n: int): (h: int)
    requires n > 0
    ensures 0 <= h < n
  {
    block % n
  }

  ghost predicate ChainedAt(b: seq<Buf>, c: seq<int>, k: int) {
    0 <= k < |c| && 0 <= c[k] < |b| && b[c[k]].hash == At(c, k + 1)
  }

  ghost predicate IsChain(b: seq<Buf>, head: int, c: seq<int>) {
    && Distinct(c)
    && head == At(c, 0)
    && forall k {:trigger ChainedAt(b, c, k)} :: 0 <= k < |c| ==> ChainedAt(b, c, k)
  }

  ghost predicate OnChain(b: seq<Buf>, chains: seq<seq<int>>, x: int, i: int, h: int) {
    0 <= h < |chains| && (i in chains[h] <==> i != x && 0 <= i < |b| && h == Slot(b[i].blocknr, |chains|))
  }

  /** The chains partition the table by block number; x, if it is a buffer, is on no chain. */
  ghost predicate HashOk(b: seq<Buf>, heads: seq<int>, chains: seq<seq<int>>, x: int) {
    && |heads| == |chains| > 0
    && (forall h {:trigger chains[h]} :: 0 <= h < |chains| ==> IsChain(b, heads[h], chains[h]))
    && (forall i, h {:trigger OnChain(b, chains, x, i, h)} :: 0 <= h < |chains| ==> OnChain(b, chains, x, i, h))
  }

  /** Bypassing element k takes it off its chain. */
  lemma UnchainOne(b: seq<Buf>, c: seq<Buf>, head: int, ch: seq<int>, k: int, newHead: int)
    requires IsChain(b, head, ch) && 0 <= k < |ch| && |c| == |b|
    requires newHead == if k == 0 then At(ch, 1) else head
    requires forall i :: 0 <= i < |b| ==> c[i].hash == if k > 0 && i == ch[k - 1] then At(ch, k + 1) else b[i].hash
    ensures IsChain(c, newHead, Without(ch, k))
  {
    var l := Without(ch, k);
    forall j | 0 <= j < |l|
      ensures ChainedAt(c, l, j)
    {
      var o := if j < k then j else j + 1;
      assert l[j] == ch[o];
      assert ChainedAt(b, ch, o);
    }
    if k > 0 { assert ChainedAt(b, ch, k - 1); }
  }

  lemma ChainFrame(b: seq<Buf>, c: seq<Buf>, head: int, ch: seq<int>)
    requires IsChain(b, head, ch) && |c| == |b|
    requires forall i :: 0 <= i < |b| && i in ch ==> c[i].hash == b[i].hash
    ensures IsChain(c, head, ch)
  {
    forall j | 0 <= j < |ch|
      ensures ChainedAt(c, ch, j)
    {
      assert ChainedAt(b, ch, j);
      assert ch[j] in ch;
    }
  }

  lemma HashFrame(b: seq<Buf>, c: seq<Buf>, heads: seq<int>, chains: seq<seq<int>>, x: int)
    requires HashOk(b, heads, chains, x) && |c| == |b|
    requires forall i :: 0 <= i < |b| ==> c[i].hash == b[i].hash && c[i].blocknr == b[i].blocknr
    ensures HashOk(c, heads, chains, x)
  {
    forall h | 0 <= h < |chains|
      ensures IsChain(c, heads[h], chains[h])
    {
      ChainFrame(b, c, heads[h], chains[h]);
    }
    forall i, h | 0 <= h < |chains|
      ensures OnChain(c, chains, x, i, h)
    {
      assert OnChain(b, chains, x, i, h);
    }
  }

  lemma Unchain(b: seq<Buf>, c: seq<Buf>, heads: seq<int>, newHeads: seq<int>,
                chains: seq<seq<int>>, h: int, k: int, x: int)
    requires HashOk(b, heads, chains, NIL) && 0 <= h < |chains| && 0 <= k < |chains[h]| && x == chains[h][k]
    requires |c| == |b| && |newHeads| == |heads|
    requires forall g :: 0 <= g < |heads| && (g != h || k != 0) ==> newHeads[g] == heads[g]
    requires k == 0 ==> newHeads[h] == At(chains[h], 1)
    requires forall i :: 0 <= i < |b| ==>
                && c[i].blocknr == b[i].blocknr
                && c[i].hash == if k > 0 && i == chains[h][k - 1] then At(chains[h], k + 1) else b[i].hash
    ensures HashOk(c, newHeads, chains[h := Without(chains[h], k)], x)
  {
    var ch := chains[h];
    var after := chains[h := Without(ch, k)];
    forall g | 0 <= g < |after|
      ensures IsChain(c, newHeads[g], after[g])
    {
      assert IsChain(b, heads[g], chains[g]);
      if g == h {
        UnchainOne(b, c, heads[h], ch, k, newHeads[h]);
      } else {
        if k > 0 {
          var p := ch[k - 1];
          assert OnChain(b, chains, NIL, p, h) && OnChain(b, chains, NIL, p, g);
          assert p !in chains[g];
        }
        ChainFrame(b, c, heads[g], chains[g]);
      }
    }
    forall i, g | 0 <= g < |after|
      ensures OnChain(c, after, x, i, g)
    {
      assert OnChain(b, chains, NIL, i, g);
      assert IsChain(b, heads[h], ch);
      assert ch[k] in ch && OnChain(b, chains, NIL, x, h);
      if g == h { InWithout(ch, k, i); }
    }
  }

  lemma InWithout(s: seq<int>, k: int, i: int)
    requires Distinct(s) && 0 <= k < |s|
    ensures i in Without(s, k) <==> i in s && i != s[k]
  {
    if i in s && i != s[k] {
      var j :| 0 <= j < |s| && s[j] == i;
      assert Without(s, k)[if j < k then j else j - 1] == i;
    }
  }

  /** Renaming the buffer x and pushing it on the chain of its new block number. */
  lemma Rechain(b: seq<Buf>, c: seq<Buf>, heads: seq<int>, chains: seq<seq<int>>, x: int)
    requires HashOk(b, heads, chains, x) && 0 <= x < |b| && |c| == |b|
    requires forall i :: 0 <= i < |b| && i != x ==> c[i].blocknr == b[i].blocknr && c[i].hash == b[i].hash
    requires c[x].hash == heads[Slot(c[x].blocknr, |heads|)]
    ensures var h := Slot(c[x].blocknr, |heads|);
            HashOk(c, heads[h := x], chains[h := [x] + chains[h]], NIL)
  {
    var h := Slot(c[x].blocknr, |heads|);
    var after := chains[h := [x] + chains[h]];
    var newHeads := heads[h := x];
    forall g | 0 <= g < |after|
      ensures IsChain(c, newHeads[g], after[g])
    {
      assert IsChain(b, heads[g], chains[g]);
      assert OnChain(b, chains, x, x, g);
      ChainFrame(b, c, heads[g], chains[g]);
      if g == h { ChainPush(c, heads[h], chains[h], x); }
    }
    forall i, g | 0 <= g < |after|
      ensures OnChain(c, after, NIL, i, g)
    {
      assert OnChain(b, chains, x, i, g);
      if i == NIL { assert !(0 <= i < |b|); }
    }
  }

  lemma ChainPush(b: seq<Buf>, head: int, ch: seq<int>, x: int)
    requires IsChain(b, head, ch) && 0 <= x < |b| && x !in ch && b[x].hash == head
    ensures IsChain(b, x, [x] + ch)
  {
    var l := [x] + ch;
    forall j | 0 <= j < |l|
      ensures ChainedAt(b, l, j)
    {
      if j > 0 { assert ChainedAt(b, ch, j - 1); }
    }
  }
}
