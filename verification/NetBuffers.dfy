/** The buffer pool of the network server (src/inet/buf.c): reference-counted chains of slices of buffers. */
module NetBuffers {
  import opened Basics
  import opened Accessors
  import opened AccessorSteps
  import opened ChainSteps
  import opened PoolViews
  import opened CutSteps
  import opened CopySteps
  import opened JoinSteps
  import opened InitSteps

  const MAX_BUFREQ_PRI := 10

  /** All priorities have been asked for before a request fails. */
  ghost predicate Asked(ok: bool, before: nat, after: nat) {
    after >= before + if ok then 0 else MAX_BUFREQ_PRI
  }

  class NetBuffers {
    const acc: array<Acc>
    const buf: array<NetBuf>
    const freelist: array<int>
    const sizes: seq<nat>
    var acc_freelist: int
    ghost var accFree: seq<int>
    ghost var bufFree: seq<seq<int>>
    ghost var w: seq<seq<int>>
    ghost var ext: multiset<int>
    var spare: multiset<int>
    var bf_free_bufsize: nat
    ghost var asked: nat

    ghost function St(): Pool
      reads this, acc, buf, freelist
    {
      Pool(acc[..], buf[..], acc_freelist, freelist[..], accFree, bufFree, w, ext, spare)
    }

    ghost predicate Valid()
      reads this, acc, buf, freelist
    {
      Inv(St()) && Sized(St(), sizes)
    }

    /** The biggest buffers that are free, by what they hold. */
    ghost function Biggest(): nat
      reads this
    {
      if |sizes| > 0 && |bufFree| == |sizes| then Worth(|bufFree[|sizes| - 1]|, sizes[|sizes| - 1]) else 0
    }

    /** bf_init: for every class its buffers, each kept by an accessor; the accessors that remain are free. */
    constructor (accNr: nat, sizes: seq<nat>, counts: seq<nat>)
      requires |sizes| == |counts| > 0 && sizes[0] > 0 && forall i, j :: 0 <= i <= j < |sizes| ==> sizes[i] <= sizes[j]
      requires Total(counts) <= accNr
      ensures Valid() && this.sizes == sizes && ext == spare == multiset{} && acc.Length == accNr && buf.Length == Total(counts)
      ensures |accFree| == accNr - Total(counts) && |bufFree| == |counts|
      ensures forall c :: 0 <= c < |counts| ==> |bufFree[c]| == counts[c]
      ensures fresh(acc) && fresh(buf) && fresh(freelist)
    {
      hide Inv;
      this.sizes := sizes;
      acc := new Acc[accNr](i => Blank(NIL));
      buf := new NetBuf[Total(counts)](i => NetBuf(0, 0, []));
      freelist := new int[|sizes|](i => NIL);
      acc_freelist := NIL;
      accFree, bufFree, w, ext := [], Repeat([], |sizes|), Repeat([], accNr), multiset{};
      spare, bf_free_bufsize, asked := multiset{}, 0, 0;
      new;
      InitAccs(accNr);
      InitClasses(accNr, counts);
      assert Made(buf.Length) == St();
    }

    /** bf_init: all the buffers. */
    method InitClasses(accNr: nat, counts: seq<nat>)
      requires |sizes| == |counts| == freelist.Length == |bufFree| && Total(counts) == buf.Length <= accNr == |accFree|
      requires Unused(Made(0)) && forall c :: 0 <= c < |bufFree| ==> bufFree[c] == []
      modifies this, acc, buf, freelist
      ensures Unused(Made(buf.Length)) && |w| == |old(w)| && |accFree| == accNr - buf.Length
      ensures forall b :: 0 <= b < buf.Length ==> buf[b].cls < |sizes| && |buf[b].data| == sizes[buf[b].cls]
      ensures |bufFree| == |counts| && forall c :: 0 <= c < |counts| ==> |bufFree[c]| == counts[c]
    {
      hide Unused;
      assert counts[..0] == [];
      for c := 0 to |sizes|
        invariant Total(counts[..c]) <= buf.Length && |accFree| == accNr - Total(counts[..c])
        invariant Unused(Made(Total(counts[..c]))) && |w| == |old(w)| && freelist.Length == |sizes| == |bufFree|
        invariant forall b :: 0 <= b < Total(counts[..c]) ==> buf[b].cls < |sizes| && |buf[b].data| == sizes[buf[b].cls]
        invariant forall d :: 0 <= d < |sizes| ==> |bufFree[d]| == if d < c then counts[d] else 0
      {
        InitClass(c, Total(counts[..c]), counts[c], accNr, counts);
      }
      assert counts[..|sizes|] == counts;
    }

    /** bf_init: all accessors on the free list. */
    method InitAccs(accNr: nat)
      requires acc.Length == accNr && acc_freelist == NIL && freelist[..] == Repeat(NIL, |sizes|)
      requires bufFree == Repeat([], |sizes|) && w == Repeat([], accNr) && ext == spare == multiset{}
      modifies acc, this`acc_freelist, this`accFree
      ensures Unused(Made(0)) && |accFree| == accNr
    {
      hide Inv, Repeat, Descending;
      for i := 0 to accNr
        invariant acc_freelist == i - 1 && forall j :: 0 <= j < i ==> acc[j] == Blank(j - 1)
      {
        acc[i] := Blank(NIL);
        acc[i] := acc[i].(next := acc_freelist);
        acc_freelist := i;
      }
      accFree := Descending(accNr);
      BareInv(acc[..], |sizes|);
      assert Made(0) == Bare(acc[..], accNr - 1, Descending(accNr), |sizes|);
    }

    /** The pool with the first n buffers. */
    ghost function Made(n: nat): Pool
      requires n <= buf.Length
      reads this, acc, buf, freelist
    {
      St().(t := buf[..n])
    }

    /** bf_init, INIT_BUFFERS: count buffers of class c, from buffer number first on. */
    method InitClass(c: nat, first: nat, count: nat, accNr: nat, ghost counts: seq<nat>)
      requires c < |sizes| == |counts| == freelist.Length == |bufFree| && first == Total(counts[..c]) && count == counts[c]
      requires Total(counts) == buf.Length <= accNr && |accFree| == accNr - first
      requires first <= buf.Length && Unused(Made(first))
      requires forall b :: 0 <= b < first ==> buf[b].cls < |sizes| && |buf[b].data| == sizes[buf[b].cls]
      requires bufFree[c] == []
      modifies this, acc, buf, freelist
      ensures first + count == Total(counts[..c + 1]) <= buf.Length && Unused(Made(first + count)) && |accFree| == accNr - (first + count)
      ensures forall b :: 0 <= b < first + count ==> buf[b].cls < |sizes| && |buf[b].data| == sizes[buf[b].cls]
      ensures |w| == |old(w)| && |bufFree| == |old(bufFree)| && |bufFree[c]| == count
      ensures forall d :: 0 <= d < |bufFree| && d != c ==> bufFree[d] == old(bufFree)[d]
    {
      hide Unused;
      TotalNext(counts, c);
      for i := 0 to count
        invariant Unused(Made(first + i)) && |w| == |old(w)| && |bufFree| == freelist.Length && |accFree| == accNr - (first + i)
        invariant forall b :: 0 <= b < first + i ==> buf[b].cls < |sizes| && |buf[b].data| == sizes[buf[b].cls]
        invariant |bufFree[c]| == i && forall d :: 0 <= d < |bufFree| && d != c ==> bufFree[d] == old(bufFree)[d]
      {
        InitBuffer(first + i, c);
      }
    }

    /** bf_init: buffer b, of class c, is kept by the first accessor that is left. */
    method InitBuffer(b: nat, c: nat)
      requires b < buf.Length && c < |sizes| == freelist.Length == |bufFree| && Unused(Made(b)) && accFree != []
      requires forall i :: 0 <= i < b ==> buf[i].cls < |sizes| && |buf[i].data| == sizes[buf[i].cls]
      modifies this, acc, buf, freelist
      ensures Unused(Made(b + 1)) && |w| == |old(w)| && |accFree| == |old(accFree)| - 1
      ensures forall i :: 0 <= i <= b ==> buf[i].cls < |sizes| && |buf[i].data| == sizes[buf[i].cls]
      ensures |bufFree| == |old(bufFree)| && |bufFree[c]| == |old(bufFree)[c]| + 1
      ensures forall d :: 0 <= d < |bufFree| && d != c ==> bufFree[d] == old(bufFree)[d]
    {
      hide Unused;
      ghost var p, data := Made(b), seq<Byte>(sizes[c], _ => 0);
      AddedInv(p, c, data);
      var a := acc_freelist;
      acc_freelist := acc[a].next;
      acc[a] := acc[a].(linkC := 0);
      buf[b] := NetBuf(0, c, seq(sizes[c], _ => 0));
      acc[a] := acc[a].(buffer := b);
      acc[a] := acc[a].(next := freelist[c]);
      freelist[c] := a;
      accFree := accFree[1..];
      bufFree := bufFree[c := [a] + bufFree[c]];
      assert buf[..b + 1] == p.t + [NetBuf(0, c, data)];
      assert Made(b + 1).s == Added(p, c, data).s;
      assert Made(b + 1) == Added(p, c, data);
    }

    /** bf_afree, for an accessor with one reference: back to a free list, alone or with its buffer. */
    method Drop(a: int) returns (next: int)
      requires Valid() && Sole(St(), a)
      modifies this`acc_freelist, this`accFree, this`bufFree, this`ext, this`bf_free_bufsize, acc, buf, freelist
      ensures Valid() && next == old(acc[a].next)
      ensures ext == old(ext) - multiset{a} + if next == NIL then multiset{} else multiset{next}
      ensures KeepsOthers(old(St()), St(), a) && Returned(old(St()), St()) && buf.Length == |old(St()).t|
      ensures bf_free_bufsize + old(Biggest()) >= old(bf_free_bufsize) + Biggest()
    {
      hide Inv, Sized, Returned, KeepsOthers, Freed, Worth;
      ghost var p := St();
      FreedInv(p, a);
      FreedSupply(p, a, sizes);
      FreedExt(p, a);
      next := Free(a);
      FreedWorth(p, a, sizes);
    }

    /** bf_afree: the accessor goes back to the free list of its buffer's class, or alone if others use the buffer. */
    method Free(a: int) returns (next: int)
      requires 0 <= a < acc.Length && acc[a].linkC > 0 && 0 <= acc[a].buffer < buf.Length && buf[acc[a].buffer].linkC > 0
      requires acc[a].linkC == 1 && buf[acc[a].buffer].cls < freelist.Length == |bufFree|
      modifies this`acc_freelist, this`accFree, this`bufFree, this`ext, this`bf_free_bufsize, acc, buf, freelist
      ensures next == old(acc[a].next) && St() == Freed(old(St()), a)
      ensures bf_free_bufsize == old(bf_free_bufsize) + FreedBytes(old(St()), a)
    {
      hide Freed;
      FreedFields(St(), a);
      var b := acc[a].buffer;
      next := acc[a].next;
      if buf[b].linkC > 1 { FreeAlone(a); } else { FreeBoth(a); }
      ext := if next == NIL then ext - multiset{a} else ext - multiset{a} + multiset{next};
    }

    /** bf_afree, when others use the buffer. */
    method FreeAlone(a: int)
      requires 0 <= a < acc.Length && acc[a].linkC == 1 && 0 <= acc[a].buffer < buf.Length && buf[acc[a].buffer].linkC > 1
      modifies this`acc_freelist, this`accFree, acc, buf
      ensures acc[..] == old(acc[..])[a := old(acc[a]).(linkC := 0, buffer := NIL, next := old(acc_freelist))]
      ensures var b := old(acc[a].buffer); buf[..] == old(buf[..])[b := old(buf[..])[b].(linkC := old(buf[..])[b].linkC - 1)]
      ensures acc_freelist == a && accFree == [a] + old(accFree)
    {
      ghost var s := acc[..];
      Unref(a);
      UpdateTwice(s, a, acc[a], acc[a].(buffer := NIL, next := acc_freelist));
      AccFree(a);
    }

    /** bf_afree, for the last accessor of its buffer. */
    method FreeBoth(a: int)
      requires 0 <= a < acc.Length && acc[a].linkC == 1 && 0 <= acc[a].buffer < buf.Length && buf[acc[a].buffer].linkC == 1
      requires buf[acc[a].buffer].cls < freelist.Length == |bufFree|
      modifies this`bufFree, this`bf_free_bufsize, acc, buf, freelist
      ensures var b, c := old(acc[a].buffer), old(buf[acc[a].buffer].cls);
        && acc[..] == old(acc[..])[a := old(acc[a]).(linkC := 0, next := old(freelist[..])[c])]
        && buf[..] == old(buf[..])[b := old(buf[..])[b].(linkC := 0)]
        && freelist[..] == old(freelist[..])[c := a] && bufFree == old(bufFree)[c := [a] + old(bufFree)[c]]
        && bf_free_bufsize == old(bf_free_bufsize) + |old(buf[..])[b].data|
    {
      ghost var s, c := acc[..], buf[acc[a].buffer].cls;
      Unref(a);
      UpdateTwice(s, a, acc[a], acc[a].(next := freelist[c]));
      bf_free_bufsize := bf_free_bufsize + |buf[acc[a].buffer].data|;
      BufFree(a);
    }

    /** bf_afree: one reference less to the accessor, and so to its buffer. */
    method Unref(a: int)
      requires 0 <= a < acc.Length && acc[a].linkC > 0 && 0 <= acc[a].buffer < buf.Length && buf[acc[a].buffer].linkC > 0
      modifies acc, buf
      ensures acc[..] == old(acc[..])[a := old(acc[a]).(linkC := old(acc[a].linkC) - 1)]
      ensures var b := acc[a].buffer;
        b == old(acc[a].buffer) && buf[..] == old(buf[..])[b := old(buf[..])[b].(linkC := old(buf[..])[b].linkC - 1)]
    {
      acc[a] := acc[a].(linkC := acc[a].linkC - 1);
      var b := acc[a].buffer;
      buf[b] := buf[b].(linkC := buf[b].linkC - 1);
    }

    /** bf_afree: the accessor alone goes to the free list of accessors. */
    method AccFree(a: int)
      requires 0 <= a < acc.Length
      modifies acc, this`acc_freelist, this`accFree
      ensures acc[..] == old(acc[..])[a := old(acc[a]).(buffer := NIL, next := old(acc_freelist))]
      ensures acc_freelist == a && accFree == [a] + old(accFree)
    {
      acc[a] := acc[a].(buffer := NIL);
      acc[a] := acc[a].(next := acc_freelist);
      acc_freelist := a;
      accFree := [a] + accFree;
    }

    /** buf_free: the accessor goes to the free list of its buffer's class. */
    method BufFree(a: int)
      requires 0 <= a < acc.Length && 0 <= acc[a].buffer < buf.Length
      requires buf[acc[a].buffer].cls < freelist.Length == |bufFree|
      modifies acc, freelist, this`bufFree
      ensures var c := buf[old(acc[a].buffer)].cls;
        && c < |old(freelist[..])|
        && acc[..] == old(acc[..])[a := old(acc[a]).(next := old(freelist[..])[c])]
        && freelist[..] == old(freelist[..])[c := a] && bufFree == old(bufFree)[c := [a] + old(bufFree)[c]]
    {
      var c := buf[acc[a].buffer].cls;
      acc[a] := acc[a].(next := freelist[c]);
      freelist[c] := a;
      bufFree := bufFree[c := [a] + bufFree[c]];
    }

    /** bf_afree, for an accessor that others refer to as well. */
    method Lose(a: int, ghost p0: Pool, ghost acc0: int)
      requires Valid() && a in ext && 0 <= a < acc.Length && acc[a].linkC > 1
      requires KeepsRefs(p0, St(), multiset{acc0}) && Returned(p0, St()) && ext - multiset{a} == p0.ext - multiset{acc0}
      modifies acc, this`ext
      ensures Valid() && ext == old(ext) - multiset{a} && acc[..] == old(acc[..])[a := old(acc[a]).(linkC := old(acc[a].linkC) - 1)]
      ensures KeepsRefs(p0, St(), multiset{acc0}) && Returned(p0, St())
    {
      hide Inv, Sized, Returned, KeepsRefs, KeepsAll;
      ghost var p := St();
      DecrInv(p, a);
      DecrDone(p0, p, acc0, a, sizes);
      acc[a] := acc[a].(linkC := acc[a].linkC - 1);
      ext := ext - multiset{a};
      assert St() == Decr(p, a);
    }

    /** bf_afree: gives up one reference, and with the last one those the accessor held itself. */
    method BfAfree(acc0: int)
      requires Valid() && (acc0 == NIL || acc0 in ext)
      modifies this`acc_freelist, this`accFree, this`bufFree, this`ext, this`bf_free_bufsize, acc, buf, freelist
      ensures Valid() && ext == old(ext) - multiset{acc0}
      ensures acc0 == NIL ==> acc[..] == old(acc[..])
      ensures KeepsRefs(old(St()), St(), multiset{acc0}) && Returned(old(St()), St())
      ensures 0 <= acc0 < acc.Length && old(acc[acc0].linkC) > 1 ==>
                acc[..] == old(acc[..])[acc0 := old(acc[acc0]).(linkC := old(acc[acc0].linkC) - 1)]
      ensures bf_free_bufsize + old(Biggest()) >= old(bf_free_bufsize) + Biggest()
    {
      hide Inv, Sized, Returned, KeepsOthers, KeepsRefs, KeepsAll, Worth;
      ghost var p0 := St();
      var cur := acc0;
      NoRefNil(p0);
      KeepsSelf(p0, multiset{acc0});
      while cur != NIL
        invariant Valid() && (cur == NIL || cur in ext)
        invariant ext - multiset{cur} == p0.ext - multiset{acc0} && NIL !in ext
        invariant KeepsRefs(p0, St(), multiset{acc0}) && Returned(p0, St())
        invariant bf_free_bufsize + old(Biggest()) >= old(bf_free_bufsize) + Biggest()
        invariant acc0 == NIL ==> cur == acc0 && acc[..] == p0.s
        invariant 0 <= acc0 < acc.Length && p0.s[acc0].linkC > 1 ==> cur == acc0 && acc[..] == p0.s
        decreases |Behind(w, cur)|
      {
        ghost var p := St();
        LiveRef(p, cur);
        if acc[cur].linkC > 1 {
          Lose(cur, p0, acc0);
          break;
        }
        var next := Drop(cur);
        DropDone(p0, p, St(), acc0, cur, next);
        cur := next;
      }
    }

    // ----- asking for what can be spared

    /** A holder of a reference could do without it. */
    method Offer(a: int)
      requires Valid() && a in ext
      modifies this`ext, this`spare
      ensures Valid() && ext == old(ext) - multiset{a} && spare == old(spare) + multiset{a}
    {
      ghost var p := St();
      ext := ext - multiset{a};
      spare := spare + multiset{a};
      OfferedInv(p, a, sizes);
      assert St() == Offered(p, a);
    }

    /** A holder gives up a reference. */
    method GiveUp(x: int)
      requires Valid() && x in spare
      modifies this`spare, this`acc_freelist, this`accFree, this`bufFree, this`ext, this`bf_free_bufsize, acc, buf, freelist
      ensures Valid() && Reclaimed(old(St()), St()) && |spare| < |old(spare)|
      ensures bf_free_bufsize + old(Biggest()) >= old(bf_free_bufsize) + Biggest()
    {
      hide Inv, Sized, KeepsRefs, Returned, Worth;
      ghost var p := St();
      CalledInv(p, x, sizes);
      spare := spare - multiset{x};
      ext := ext + multiset{x};
      assert St() == Called(p, x);
      BfAfree(x);
      GivenUp(p, St(), x);
    }

    /** The freereq functions of all clients: what they give up of what they can spare is up to them. */
    method AskClients()
      requires Valid()
      modifies this`spare, this`asked, this`acc_freelist, this`accFree, this`bufFree, this`ext, this`bf_free_bufsize, acc, buf, freelist
      ensures Valid() && Reclaimed(old(St()), St()) && |spare| <= |old(spare)|
      ensures |spare| == |old(spare)| ==> St() == old(St()) && bf_free_bufsize == old(bf_free_bufsize)
      ensures asked == old(asked) + 1
      ensures bf_free_bufsize + old(Biggest()) >= old(bf_free_bufsize) + Biggest()
    {
      hide Inv, Sized, Reclaimed, Worth;
      ghost var p := St();
      ReclaimedNone(p);
      asked := asked + 1;
      while spare != multiset{}
        invariant Valid() && Reclaimed(p, St()) && |spare| <= |old(spare)| && asked == old(asked) + 1
        invariant |spare| == |old(spare)| ==> St() == old(St()) && bf_free_bufsize == old(bf_free_bufsize)
        invariant bf_free_bufsize + old(Biggest()) >= old(bf_free_bufsize) + Biggest()
        decreases |spare|
      {
        if * { break; }
        ghost var q := St();
        NotEmpty(spare);
        var x :| x in spare;
        GiveUp(x);
        ReclaimedTrans(p, q, St());
      }
    }

    /** bf_memreq, when no buffer fits: the clients are asked, by priorities, until size bytes have been freed. */
    method FreeBufs(size: nat)
      requires Valid()
      modifies this`spare, this`asked, this`acc_freelist, this`accFree, this`bufFree, this`ext, this`bf_free_bufsize, acc, buf, freelist
      ensures Valid() && Reclaimed(old(St()), St()) && |spare| <= |old(spare)|
      ensures |spare| == |old(spare)| ==> bf_free_bufsize == 0
      ensures bf_free_bufsize + old(Biggest()) >= Biggest()
      ensures Asked(bf_free_bufsize >= size, old(asked), asked)
    {
      hide Inv, Sized, Reclaimed, Worth;
      ghost var p := St();
      ReclaimedNone(p);
      bf_free_bufsize := 0;
      var i := 0;
      while bf_free_bufsize < size && i < MAX_BUFREQ_PRI
        invariant Valid() && Reclaimed(p, St()) && |spare| <= |old(spare)| && 0 <= i <= MAX_BUFREQ_PRI && asked == old(asked) + i
        invariant |spare| == |old(spare)| ==> bf_free_bufsize == 0
        invariant bf_free_bufsize + old(Biggest()) >= Biggest()
        decreases MAX_BUFREQ_PRI - i
      {
        ghost var q := St();
        AskClients();
        ReclaimedTrans(p, q, St());
        i := i + 1;
      }
    }

    /** free_accs: the clients are asked, by priorities, until there is a free accessor. */
    method FreeAccs()
      requires Valid()
      modifies this`spare, this`asked, this`acc_freelist, this`accFree, this`bufFree, this`ext, this`bf_free_bufsize, acc, buf, freelist
      ensures Valid() && Reclaimed(old(St()), St()) && (acc_freelist != NIL <==> accFree != [])
      ensures old(accFree) != [] ==> St() == old(St())
      ensures Asked(accFree != [], old(asked), asked)
    {
      hide Inv, Sized, Reclaimed;
      ghost var p := St();
      ReclaimedNone(p);
      AnyFree(p);
      var i := 0;
      while acc_freelist == NIL && i < MAX_BUFREQ_PRI
        invariant Valid() && Reclaimed(p, St()) && 0 <= i <= MAX_BUFREQ_PRI && asked == old(asked) + i
        invariant p.accFree != [] ==> St() == p && acc_freelist != NIL
        decreases MAX_BUFREQ_PRI - i
      {
        ghost var q := St();
        bf_free_bufsize := 0;
        AskClients();
        ReclaimedTrans(p, q, St());
        i := i + 1;
      }
      AnyFree(St());
    }

    // ----- copies of accessors

    /** bf_dupacc: a copy of acc_ptr, on the chain of r, with one reference, sharing what follows it and its buffer. There is none
        only if nobody can spare an accessor. */
    method BfDupacc(acc_ptr: int, ghost r: int) returns (ok: bool, new_acc: int, ghost m: Pool)
      requires Valid() && r in ext && acc_ptr in Behind(w, r)
      modifies this, acc, buf, freelist
      ensures Valid() && Inv(m) && Reclaimed(old(St()), m)
      ensures Asked(ok, old(asked), asked)
      ensures old(accFree) != [] ==> ok && m == old(St())
      ensures !ok ==> accFree == [] && St() == m
      ensures 0 <= acc_ptr < |m.s| == acc.Length && m.s[acc_ptr].linkC > 0
      ensures m.s[acc_ptr] == old(acc[..])[acc_ptr].(linkC := m.s[acc_ptr].linkC) && Slice(m, acc_ptr) == Slice(old(St()), acc_ptr)
      ensures ok ==>
        && Sole(St(), new_acc) && new_acc !in m.ext && ext == m.ext + multiset{new_acc} && spare == m.spare
        && acc[new_acc] == m.s[acc_ptr].(linkC := 1) && m.s[new_acc].linkC == 0
      ensures ok ==>
        var x := m.s[acc_ptr].next;
        && (x != NIL ==> 0 <= x < acc.Length && x != new_acc && m.s[x].linkC > 0 && acc[x] == m.s[x].(linkC := m.s[x].linkC + 1))
        && forall i :: 0 <= i < acc.Length && i != new_acc && i != x ==> acc[i] == m.s[i]
      ensures ok ==> |w| == acc.Length && w[new_acc] == [new_acc] + Behind(w, acc[new_acc].next)
      ensures ok ==> Mean(St(), new_acc) == Mean(m, acc_ptr) && Slice(St(), new_acc) == Slice(m, acc_ptr)
      ensures ok ==> KeepsAll(m, St()) && KeepsRefs(m, St(), multiset{})
      ensures ok ==> m.accFree != [] && accFree == m.accFree[1..] && bufFree == m.bufFree
    {
      hide Inv, Sized, KeepsAll, KeepsRefs, Mean, Slice, Reclaimed;
      ghost var p := St();
      FreeAccs();
      m := St();
      StillLive(p, m, r, acc_ptr);
      ok := acc_freelist != NIL;
      new_acc := NIL;
      if ok { new_acc := DupFree(acc_ptr); }
    }

    /** bf_dupacc, once there is a free accessor. */
    method DupFree(acc_ptr: int) returns (new_acc: int)
      requires Valid() && 0 <= acc_ptr < acc.Length && acc[acc_ptr].linkC > 0 && accFree != []
      modifies this`acc_freelist, this`accFree, this`w, this`ext, acc, buf
      ensures Valid() && Sole(St(), new_acc) && new_acc !in old(ext) && ext == old(ext) + multiset{new_acc}
      ensures acc[new_acc] == old(acc[acc_ptr]).(linkC := 1) && old(acc[..])[new_acc].linkC == 0
      ensures var x := old(acc[acc_ptr].next);
        && (x != NIL ==> 0 <= x < acc.Length && x != new_acc && old(acc[..])[x].linkC > 0
                         && acc[x] == old(acc[..])[x].(linkC := old(acc[..])[x].linkC + 1))
        && forall i :: 0 <= i < acc.Length && i != new_acc && i != x ==> acc[i] == old(acc[..])[i]
      ensures |w| == acc.Length && w[new_acc] == [new_acc] + Behind(w, acc[new_acc].next)
      ensures Mean(St(), new_acc) == Mean(old(St()), acc_ptr) && Slice(St(), new_acc) == Slice(old(St()), acc_ptr)
      ensures KeepsAll(old(St()), St()) && KeepsRefs(old(St()), St(), multiset{})
      ensures accFree == old(accFree)[1..] && bufFree == old(bufFree)
    {
      hide Inv, Sized, KeepsAll, KeepsRefs, Mean, Slice, Duped;
      ghost var p := St();
      DupedInv(p, acc_ptr);
      DupDone(p, acc_ptr, sizes);
      DupedTables(p, acc_ptr);
      new_acc := Duplicate(acc_ptr);
    }

    /** bf_dupacc: the first free accessor becomes a copy, and what follows gets one reference more. */
    method TakeCopy(acc_ptr: int) returns (new_acc: int)
      requires 0 <= acc_freelist < acc.Length && 0 <= acc_ptr < acc.Length && acc_ptr != acc_freelist
      requires var x := acc[acc_ptr].next; x == NIL || (0 <= x < acc.Length && x != acc_freelist && x != acc_ptr)
      modifies acc, this`acc_freelist
      ensures new_acc == old(acc_freelist) && acc_freelist == old(acc[acc_freelist].next)
      ensures var x := old(acc[acc_ptr].next);
        acc[..] == (if x == NIL then old(acc[..]) else old(acc[..])[x := old(acc[..])[x].(linkC := old(acc[..])[x].linkC + 1)])
                   [new_acc := old(acc[acc_ptr])]
    {
      new_acc := acc_freelist;
      acc_freelist := acc[new_acc].next;
      acc[new_acc] := acc[acc_ptr];
      if acc[acc_ptr].next != NIL {
        var next := acc[acc_ptr].next;
        acc[next] := acc[next].(linkC := acc[next].linkC + 1);
      }
    }

    /** bf_dupacc: the copy is one more accessor of its buffer, and has one reference. */
    method CountCopy(new_acc: int)
      requires 0 <= new_acc < acc.Length && 0 <= acc[new_acc].buffer < buf.Length
      modifies acc, buf
      ensures acc[..] == old(acc[..])[new_acc := old(acc[new_acc]).(linkC := 1)]
      ensures var b := acc[new_acc].buffer;
        b == old(acc[new_acc].buffer) && buf[..] == old(buf[..])[b := old(buf[..])[b].(linkC := old(buf[..])[b].linkC + 1)]
    {
      var b := acc[new_acc].buffer;
      if b != NIL {
        buf[b] := buf[b].(linkC := buf[b].linkC + 1);
      }
      acc[new_acc] := acc[new_acc].(linkC := 1);
    }

    /** bf_dupacc: takes the first free accessor, copies, and counts the references. */
    method Duplicate(acc_ptr: int) returns (new_acc: int)
      requires 0 <= acc_freelist < acc.Length == |w| && accFree != [] && 0 <= acc_ptr < acc.Length && 0 <= acc[acc_ptr].buffer < buf.Length
      requires acc[acc_ptr].next == NIL || 0 <= acc[acc_ptr].next < acc.Length
      requires acc_ptr != acc_freelist && acc[acc_ptr].next != acc_freelist && acc[acc_ptr].next != acc_ptr
      modifies this`acc_freelist, this`accFree, this`w, this`ext, acc, buf
      ensures new_acc == old(acc_freelist) && St() == Duped(old(St()), acc_ptr)
    {
      hide Duped;
      ghost var p := St();
      DupedFields(p, acc_ptr);
      new_acc := TakeCopy(acc_ptr);
      ghost var x := p.s[acc_ptr].next;
      UpdateTwice(if x == NIL then p.s else p.s[x := p.s[x].(linkC := p.s[x].linkC + 1)], new_acc, p.s[acc_ptr],
                  p.s[acc_ptr].(linkC := 1));
      CountCopy(new_acc);
      assert buf[..] == p.t[p.s[acc_ptr].buffer := p.t[p.s[acc_ptr].buffer].(linkC := p.t[p.s[acc_ptr].buffer].linkC + 1)];
      accFree := accFree[1..];
      w := w[new_acc := [new_acc] + Behind(w, acc[new_acc].next)];
      ext := ext + multiset{new_acc};
    }

    /** bf_memreq: the first class with a free buffer that is big enough, or as big as they come; there may be none. */
    method PickClass(size: nat) returns (c: nat)
      requires Valid() && size > 0
      ensures c <= |sizes| == |bufFree| && (c == |sizes| ==> forall d :: 0 <= d < c && sizes[d] >= size ==> bufFree[d] == [])
      ensures c < |sizes| ==> bufFree[c] != [] && (sizes[c] == sizes[|sizes| - 1] || size <= sizes[c])
      ensures bufFree[|sizes| - 1] != [] ==> c < |sizes|
      ensures c == |sizes| ==> Biggest() == 0
    {
      hide Inv;
      c := 0;
      SizedLists(St(), sizes);
      while c < |sizes| && !(freelist[c] != NIL && (sizes[c] == sizes[|sizes| - 1] || size <= sizes[c]))
        invariant 0 <= c <= |sizes|
        invariant forall d :: 0 <= d < c ==> freelist[d] == NIL || (sizes[d] != sizes[|sizes| - 1] && size > sizes[d])
      {
        c := c + 1;
      }
      forall d | 0 <= d < |sizes| ensures freelist[d] != NIL <==> bufFree[d] != [] { ClassHead(St(), d); }
    }

    /** bf_memreq: take the first free buffer of class c, for length bytes. */
    method TakeBuf(c: nat, size: nat) returns (new_acc: int)
      requires Valid() && c < |sizes| && bufFree[c] != []
      modifies this`bufFree, this`w, this`ext, acc, buf, freelist
      ensures Valid() && Fresh(old(St()), St(), new_acc)
      ensures acc[new_acc].length == if sizes[c] > size then size else sizes[c]
      ensures accFree == old(accFree) && bufFree == old(bufFree)[c := old(bufFree)[c][1..]]
    {
      hide Inv, Sized, Fresh;
      ghost var p := St();
      FirstOfClass(p, c, sizes);
      new_acc := freelist[c];
      var b := acc[new_acc].buffer;
      var count := |buf[b].data|;
      if count > size { count := size; }
      AllocedInv(p, c, count);
      AllocDone(p, c, count, sizes);
      freelist[c] := acc[new_acc].next;
      acc[new_acc] := Acc(1, 0, count, acc[new_acc].buffer, NIL);
      buf[b] := buf[b].(linkC := 1);
      bufFree := bufFree[c := bufFree[c][1..]];
      w := w[new_acc := [new_acc]];
      ext := ext + multiset{new_acc};
      assert St() == Alloced(p, c, count);
    }

    /** bf_memreq: one accessor of the chain. The clients are asked as long as no free buffer fits, until they give up too little. */
    method AllocBuf(size: nat) returns (ok: bool, new_acc: int, ghost m: Pool)
      requires Valid() && size > 0
      modifies this, acc, buf, freelist
      ensures Valid() && Inv(m) && Reclaimed(old(St()), m) && |bufFree| == |sizes|
      ensures Asked(ok, old(asked), asked)
      ensures old(bufFree[|sizes| - 1]) != [] ==> ok && m == old(St()) && |bufFree[|sizes| - 1]| >= |old(bufFree)[|sizes| - 1]| - 1
      ensures !ok ==> Needed(size, sizes[|sizes| - 1]) > |bufFree[|sizes| - 1]|
      ensures ok ==> Fresh(m, St(), new_acc) && accFree == m.accFree
      ensures ok ==> acc[new_acc].length == if size < sizes[|sizes| - 1] then size else sizes[|sizes| - 1]
    {
      hide Inv, Fresh, Reclaimed, Worth;
      ghost var p := St();
      ReclaimedNone(p);
      var c: nat := PickClass(size);
      while c == |sizes|
        invariant Valid() && Reclaimed(p, St()) && c <= |sizes| == |bufFree| && |sizes| > 0 && asked >= old(asked)
        invariant c < |sizes| ==> bufFree[c] != [] && (sizes[c] == sizes[|sizes| - 1] || size <= sizes[c])
        invariant c == |sizes| ==> Biggest() == 0
        invariant old(bufFree[|sizes| - 1]) != [] ==> St() == p && c < |sizes|
        decreases |spare|, c
      {
        ghost var q := St();
        FreeBufs(size);
        ReclaimedTrans(p, q, St());
        if bf_free_bufsize < size {
          TooLittle(|bufFree[|sizes| - 1]|, sizes[|sizes| - 1], size);
          return false, NIL, St();
        }
        c := PickClass(size);
      }
      m := St();
      new_acc := TakeBuf(c, size);
      ok := true;
    }

    /** Links the chain of reference b behind tail, the last accessor of the private chain of h. */
    method Link(tail: int, b: int, ghost h: int)
      requires Valid() && Private(St(), h) && b in ext - multiset{h} && tail == At(w[h], |w[h]| - 1)
      modifies this`w, this`ext, acc
      ensures Valid() && ext == old(ext) - multiset{b} && w[h] == old(w[h]) + old(Behind(w, b))
      ensures Mean(St(), h) == Mean(old(St()), h) + Mean(old(St()), b)
      ensures 0 <= tail < acc.Length && acc[..] == old(acc[..])[tail := old(acc[..])[tail].(next := b)]
      ensures |w| == |old(w)| && KeepsRefs(old(St()), St(), multiset{h, b})
    {
      hide Inv, Sized, KeepsRefs, Mean;
      ghost var p := St();
      LinkDone(p, h, b, sizes);
      acc[tail] := acc[tail].(next := b);
      w := Attached(p, h, b).w;
      ext := ext - multiset{b};
      assert St() == Attached(p, h, b);
    }

    /** bf_memreq: one more accessor for the chain of head. */
    method Extend(head: int, tail: int, size: nat, ghost p0: Pool, ghost n: nat) returns (ok: bool, new_acc: int)
      requires Valid() && size > 0 && Building(p0, St(), head, tail, n)
      modifies this, acc, buf, freelist
      ensures Valid() && |bufFree| == |sizes| && |w| == acc.Length
      ensures Asked(ok, old(asked), asked)
      ensures old(bufFree[|sizes| - 1]) != [] ==>
        ok && spare == old(spare) && accFree == old(accFree) && |bufFree[|sizes| - 1]| >= |old(bufFree)[|sizes| - 1]| - 1
      ensures !ok ==> Needed(size, sizes[|sizes| - 1]) > |bufFree[|sizes| - 1]|
      ensures ok ==> 0 <= new_acc < acc.Length && Building(p0, St(), head, new_acc, n + acc[new_acc].length)
      ensures ok ==> 0 <= head < acc.Length && acc[head].length == old(acc[..])[head].length
      ensures ok ==> acc[new_acc].length == if size < sizes[|sizes| - 1] then size else sizes[|sizes| - 1]
    {
      hide Inv, KeepsRefs, Mean, Untouched, KeepsAll, Fresh, Building, Reclaimed, Sized, Writable, Private, Sole, NoMoreRefs;
      ghost var p, m := St(), St();
      ok, new_acc, m := AllocBuf(size);
      TableSizes(St());
      if !ok { return; }
      BuildingStill(p0, p, m, head, tail, n);
      ghost var q := St();
      NextPart(p0, m, q, head, tail, n, new_acc);
      FreshSpare(m, q, new_acc);
      Link(tail, new_acc, head);
      LinkedPart(p0, q, St(), head, tail, n, new_acc);
    }

    /** bf_memreq: a chain of fresh buffers for size bytes, which nobody else sees. There is none only if nobody can spare as many
        of the biggest buffers as it takes. */
    method BfMemreq(size0: nat) returns (ok: bool, head: int)
      requires Valid() && size0 > 0
      modifies this, acc, buf, freelist
      ensures Valid() && |bufFree| == |sizes|
      ensures Asked(ok, old(asked), asked)
      ensures old(Needed(size0, sizes[|sizes| - 1]) <= |bufFree[|sizes| - 1]|) ==> ok && spare == old(spare) && accFree == old(accFree)
      ensures !ok ==> Needed(size0, sizes[|sizes| - 1]) > |bufFree[|sizes| - 1]|
      ensures ok ==> head !in old(ext) && ext == old(ext) + multiset{head}
      ensures ok ==> Writable(St(), head) && |Mean(St(), head)| == size0
      ensures ok && size0 <= sizes[|sizes| - 1] ==> w[head] == [head]
      ensures ok ==> 0 <= head < acc.Length && acc[head].length == if size0 < sizes[|sizes| - 1] then size0 else sizes[|sizes| - 1]
      ensures ok ==> KeepsRefs(old(St()), St(), multiset{}) && NoMoreRefs(old(acc[..]), acc[..], NIL)
    {
      hide Inv, KeepsRefs, Mean, Untouched, KeepsAll, Writable, Reclaimed;
      ghost var p0, m, biggest := St(), St(), sizes[|sizes| - 1];
      ghost var enough := Needed(size0, biggest) <= |bufFree[|sizes| - 1]|;
      var size := size0;
      ok, head, m := AllocBuf(size);
      if !ok { return; }
      var tail := head;
      FirstPart(p0, m, St(), head);
      FreshSpare(m, St(), head);
      size := size - acc[tail].length;
      while size > 0
        invariant ok && asked >= old(asked) && Valid() && |bufFree| == |sizes|
        invariant 0 <= tail < acc.Length && |w| == acc.Length && 0 <= head < |w|
        invariant Building(p0, St(), head, tail, size0 - size) && 0 <= size < size0
        invariant size0 <= biggest ==> size == 0 && w[head] == [head]
        invariant acc[head].length == if size0 < biggest then size0 else biggest
        invariant enough ==> spare == p0.spare && accFree == p0.accFree && Needed(size, biggest) <= |bufFree[|sizes| - 1]|
        decreases size
      {
        var last;
        ok, last := Extend(head, tail, size, p0, size0 - size);
        if !ok {
          NeededMore(size, size0, biggest);
          return;
        }
        tail := last;
        size := size - acc[tail].length;
      }
    }

    /** Cuts a solely referenced accessor loose from what follows it, which becomes a reference of its own. */
    method Unlink(a: int) returns (next: int)
      requires Valid() && Sole(St(), a)
      modifies this`w, this`ext, acc
      ensures Valid() && Sole(St(), a) && |w| == acc.Length && w[a] == [a] && next == old(acc[a].next)
      ensures ext == if next == NIL then old(ext) else old(ext) + multiset{next}
      ensures acc[..] == old(acc[..])[a := old(acc[a]).(next := NIL)] && next != a
      ensures KeepsRefs(old(St()), St(), multiset{a}) && Slice(St(), a) == Slice(old(St()), a)
      ensures Mean(St(), next) == Mean(old(St()), next) && Mean(old(St()), a) == Slice(old(St()), a) + Mean(old(St()), next)
      ensures Behind(w, next) == old(Behind(w, acc[a].next)) && accFree == old(accFree) && bufFree == old(bufFree)
    {
      hide Inv, Sized, KeepsRefs, Slice, Mean;
      ghost var p := St();
      next := acc[a].next;
      DetachDone(p, a, sizes);
      DetachMeans(p, a);
      if next != NIL {
        acc[a] := acc[a].(next := NIL);
        w := w[a := [a]];
        ext := ext + multiset{next};
      }
      assert St() == Detached(p, a);
    }

    /** bf_dupacc, bf_afree of what follows the copy, and the clearing of its link, as bf_cut uses them: a copy of accessor a alone,
        which is on the chain of r. The link is cleared before what it led to is given up. */
    method CopyOne(a: int, ghost r: int) returns (ok: bool, n: int, ghost m: Pool)
      requires Valid() && r in ext && a in Behind(w, r)
      modifies this, acc, buf, freelist
      ensures Valid() && Inv(m) && Reclaimed(old(St()), m) && (!ok ==> accFree == [])
      ensures Asked(ok, old(asked), asked)
      ensures old(accFree) != [] ==> ok && m == old(St()) && |accFree| >= |old(accFree)| - 1
      ensures 0 <= a < |m.s| == acc.Length && m.s[a].linkC > 0 && m.s[a].length == old(acc[..])[a].length
      ensures Slice(m, a) == Slice(old(St()), a)
      ensures ok ==> Sole(St(), n) && n !in m.ext && ext == m.ext + multiset{n} && spare == m.spare
      ensures ok ==> |w| == acc.Length && w[n] == [n] && acc[n].next == NIL && acc[n].length == m.s[a].length && m.s[n].linkC == 0
      ensures ok ==> Slice(St(), n) == Slice(m, a) && KeepsRefs(m, St(), multiset{}) && SameLive(m.s, acc[..])
    {
      hide Inv, Sized, KeepsAll, KeepsRefs, KeepsOthers, Mean, Slice, Reclaimed, Asked;
      ok, n, m := BfDupacc(a, r);
      if ok { Isolate(n, a, m); }
    }

    /** A fresh copy of accessor a is cut loose from what follows it. */
    method Isolate(n: int, ghost a: int, ghost m: Pool)
      requires Valid() && Inv(m) && Sole(St(), n) && n !in m.ext && ext == m.ext + multiset{n} && spare == m.spare
      requires 0 <= a < |m.s| == acc.Length && acc[n] == m.s[a].(linkC := 1) && m.s[n].linkC == 0 && Slice(St(), n) == Slice(m, a)
      requires KeepsRefs(m, St(), multiset{})
      requires var x := m.s[a].next;
        && (x != NIL ==> 0 <= x < acc.Length && x != n && m.s[x].linkC > 0 && acc[x] == m.s[x].(linkC := m.s[x].linkC + 1))
        && forall i :: 0 <= i < acc.Length && i != n && i != x ==> acc[i] == m.s[i]
      modifies this`acc_freelist, this`accFree, this`bufFree, this`w, this`ext, this`bf_free_bufsize, acc, buf, freelist
      ensures Valid() && Sole(St(), n) && ext == m.ext + multiset{n} && |accFree| >= |old(accFree)|
      ensures |w| == acc.Length && w[n] == [n] && acc[n].next == NIL && acc[n].length == m.s[a].length
      ensures Slice(St(), n) == Slice(m, a) && KeepsRefs(m, St(), multiset{}) && SameLive(m.s, acc[..])
    {
      hide Inv, Sized, KeepsAll, KeepsRefs, KeepsOthers, Mean, Slice, Behind;
      ghost var p1 := St();
      var next := Unlink(n);
      ghost var p2 := St();
      NoRefNil(p2);
      BfAfree(next);
      CopyDone(m, p1, p2, St(), n, next);
      SameLinks(m.s, p1.s, p2.s, acc[..], n, next);
    }

    /** Accessor i of the private chain of h gets the slice of length bytes from offset on. */
    method SetSlice(i: int, offset: nat, length: nat, ghost h: int)
      requires Valid() && 0 <= i < acc.Length && 0 <= acc[i].buffer < buf.Length
      requires CanRewrite(St(), h, i, offset, length, buf[acc[i].buffer].data)
      modifies acc
      ensures Valid() && acc[..] == old(acc[..])[i := old(acc[..])[i].(offset := offset, length := length)]
      ensures Private(St(), h) && Slice(St(), i) == buf[acc[i].buffer].data[offset..offset + length]
      ensures KeepsRefs(old(St()), St(), multiset{h})
    {
      hide Inv, Sized, KeepsRefs, Slice;
      ghost var p := St();
      RewriteDone(p, h, i, offset, length, buf[acc[i].buffer].data, sizes);
      acc[i] := acc[i].(offset := offset);
      acc[i] := acc[i].(length := length);
      assert St().t == Rewritten(p, i, offset, length, p.t[p.s[i].buffer].data).t;
      assert St() == Rewritten(p, i, offset, length, p.t[p.s[i].buffer].data);
    }

    /** The search that bf_cut and bf_delhead start with: the accessor that holds byte offset of data. */
    method Skip(data: int, offset0: nat) returns (cur: int, offset: nat, ghost k: nat)
      requires Valid() && data in ext && offset0 < |Mean(St(), data)|
      ensures Located(St(), data, offset0, k, cur, offset)
    {
      hide Inv, Sized, Slice;
      ghost var p := St();
      CursorStart(p, data);
      cur, offset, k := data, offset0, 0;
      CursorAt(p, p, data, k);
      while offset >= acc[cur].length
        invariant k < |p.w[data]| && cur == p.w[data][k] && 0 <= cur < acc.Length
        invariant |Slice(p, cur)| == acc[cur].length && acc[cur].next == At(p.w[data], k + 1)
        invariant Bytes(p, p.w[data][k..]) == Slice(p, cur) + Bytes(p, p.w[data][k + 1..])
        invariant offset < |Bytes(p, p.w[data][k..])|
        invariant Mean(p, data)[offset0..] == Bytes(p, p.w[data][k..])[offset..]
        decreases |p.w[data]| - k
      {
        offset := offset - acc[cur].length;
        cur := acc[cur].next;
        k := k + 1;
        if k < |p.w[data]| { CursorAt(p, p, data, k); }
      }
    }

    /** bf_cut, length 0: an accessor that gives access to nothing. */
    method CutNothing(data: int) returns (ok: bool, head: int)
      requires Valid() && data in ext
      modifies this, acc, buf, freelist
      ensures Valid() && (!ok ==> accFree == []) && (old(accFree) != [] ==> ok && spare == old(spare))
      ensures Asked(ok, old(asked), asked)
      ensures ok ==> head !in old(ext) && ext == old(ext) + multiset{head} && Private(St(), head)
      ensures ok ==> Mean(St(), head) == [] && KeepsRefs(old(St()), St(), multiset{})
    {
      hide Inv, Sized, KeepsRefs, Slice, Mean, Returned, Asked;
      ghost var p0, m := St(), St();
      LiveRef(p0, data);
      ok, head, m := CopyOne(data, data);
      if !ok { return; }
      ghost var p := St();
      LoneRewrite(p, head);
      SetSlice(head, acc[head].offset, 0, head);
      LoneDone(m, p, St(), head);
      KeepsRefsTrans(p0, m, St(), multiset{}, multiset{});
    }

    /** A copy of accessor a alone, narrowed to length bytes from offset on. */
    method CopyPart(a: int, offset: nat, length: nat, ghost r: int) returns (ok: bool, n: int, ghost m: Pool)
      requires Valid() && r in ext && a in Behind(w, r) && 0 <= a < acc.Length && offset + length <= acc[a].length
      modifies this, acc, buf, freelist
      ensures Valid() && Inv(m) && Reclaimed(old(St()), m) && (!ok ==> accFree == [])
      ensures Asked(ok, old(asked), asked)
      ensures old(accFree) != [] ==> ok && m == old(St()) && |accFree| >= |old(accFree)| - 1
      ensures offset + length <= |Slice(old(St()), a)|
      ensures ok ==> Lone(m, St(), n, Slice(old(St()), a)[offset..offset + length]) && acc[n].length == length && spare == m.spare
    {
      hide Inv, Sized, KeepsRefs, Slice, Mean, SameLive, Reclaimed, Asked;
      ghost var p0 := St();
      OnChain(p0, r, a);
      ok, n, m := CopyOne(a, r);
      if !ok { return; }
      ghost var p := St();
      LoneRewrite(p, n);
      SetSlice(n, acc[n].offset + offset, length, n);
      LoneDone(m, p, St(), n);
      LonePart(m, p, St(), a, n, offset, length);
    }

    /** bf_cut: the accessor cur contributes what it holds from offset on, and at most length bytes of it. */
    method CutFirst(cur: int, offset: nat, length0: nat, ghost r: int) returns (ok: bool, head: int, length: nat, ghost m: Pool)
      requires Valid() && r in ext && cur in Behind(w, r) && 0 <= cur < acc.Length && offset < acc[cur].length
      modifies this, acc, buf, freelist
      ensures Valid() && Inv(m) && Reclaimed(old(St()), m) && (!ok ==> accFree == [])
      ensures Asked(ok, old(asked), asked)
      ensures old(accFree) != [] ==> ok && m == old(St()) && |accFree| >= |old(accFree)| - 1
      ensures length == if length0 >= old(acc[cur].length) - offset then length0 - (old(acc[cur].length) - offset) else 0
      ensures offset + (length0 - length) <= |Slice(old(St()), cur)|
      ensures ok ==> Lone(m, St(), head, Slice(old(St()), cur)[offset..offset + (length0 - length)]) && spare == m.spare
    {
      hide Inv, Sized, KeepsRefs, Slice, Mean, Lone, Reclaimed, Asked;
      if length0 >= acc[cur].length - offset {
        length := length0 - (acc[cur].length - offset);
        ok, head, m := CopyPart(cur, offset, acc[cur].length - offset, r);
      } else {
        length := 0;
        ok, head, m := CopyPart(cur, offset, length0, r);
      }
    }

    /** bf_cut: length bytes of accessor cur go behind what has been cut so far. */
    method CutMore(cur: int, length: nat, head: int, tail: int, ghost p0: Pool, ghost s: seq<Byte>, ghost r: int)
      returns (ok: bool, n: int)
      requires Valid() && r in ext && cur in Behind(w, r) && 0 <= cur < acc.Length && length <= acc[cur].length
      requires Cutting(p0, St(), head, tail, s)
      modifies this, acc, buf, freelist
      ensures Valid() && (!ok ==> accFree == [])
      ensures Asked(ok, old(asked), asked)
      ensures old(accFree) != [] ==> ok && spare == old(spare) && |accFree| >= |old(accFree)| - 1
      ensures length <= |Slice(old(St()), cur)|
      ensures ok ==> Cutting(p0, St(), head, n, s + Slice(old(St()), cur)[..length])
    {
      hide Inv, Sized, KeepsRefs, Slice, Mean, Lone, Cutting, SameLive, Reclaimed, Asked;
      ghost var p, m := St(), St();
      ok, n, m := CopyPart(cur, 0, length, r);
      if !ok { return; }
      CuttingStill(p0, p, m, head, tail, s);
      ghost var q := St();
      CutNext(p0, m, q, head, tail, s, n, Slice(p, cur)[..length]);
      Link(tail, n, head);
      CutLinked(p0, q, St(), head, s, n, Slice(p, cur)[..length]);
    }

    /** bf_cut: length bytes of data from offset on, sharing its buffers. */
    method BfCut(data: int, offset0: nat, length0: nat) returns (ok: bool, head: int)
      requires Valid() && (data == NIL ==> offset0 == 0 && length0 == 0) && (data != NIL ==> data in ext)
      requires length0 > 0 ==> offset0 + length0 <= |Mean(St(), data)|
      modifies this, acc, buf, freelist
      ensures Valid() && (!ok ==> data != NIL && accFree == [])
      ensures Asked(ok, old(asked), asked)
      ensures data == NIL || (|old(accFree)| >= |old(Behind(w, data))|) ==> ok && spare == old(spare)
      ensures ok && data == NIL ==> head == NIL && ext == old(ext)
      ensures ok && data != NIL ==> head !in old(ext) && ext == old(ext) + multiset{head} && Private(St(), head)
      ensures ok && data != NIL ==>
        Mean(St(), head) == if length0 == 0 then [] else Mean(old(St()), data)[offset0..offset0 + length0]
      ensures ok ==> KeepsRefs(old(St()), St(), multiset{})
    {
      hide Inv, Sized, KeepsRefs, Slice, Mean, Cutting, Lone;
      ghost var p0 := St();
      KeepsSelf(p0, multiset{});
      if data == NIL { return true, NIL; }
      LiveRef(p0, data);
      if length0 == 0 {
        ok, head := CutNothing(data);
      } else {
        ok, head := CutSome(data, offset0, length0);
      }
    }

    /** bf_cut: a whole accessor goes behind what has been cut so far. */
    method CutStepOver(ghost p0: Pool, ghost data: int, ghost k: nat, cur: int, length0: nat, head: int, tail0: int,
                       ghost s0: seq<Byte>, ghost all: seq<Byte>)
      returns (ok: bool, tail: int, length: nat, ghost s: seq<Byte>)
      requires Valid() && Inv(p0) && data in p0.ext && k < |Behind(p0.w, data)| && cur == Behind(p0.w, data)[k]
      requires Cutting(p0, St(), head, tail0, s0) && 0 <= cur < acc.Length && length0 >= acc[cur].length
      requires length0 <= |Bytes(p0, Behind(p0.w, data)[k..])| && all == s0 + Bytes(p0, Behind(p0.w, data)[k..])[..length0]
      modifies this, acc, buf, freelist
      ensures Valid() && (!ok ==> accFree == [])
      ensures Asked(ok, old(asked), asked)
      ensures old(accFree) != [] ==> ok && spare == old(spare) && |accFree| >= |old(accFree)| - 1
      ensures ok ==>
        var l := Behind(p0.w, data);
        && Cutting(p0, St(), head, tail, s)
        && acc[cur].next == At(l, k + 1) && (k + 1 < |l| ==> 0 <= l[k + 1] < acc.Length)
        && length <= |Bytes(p0, l[k + 1..])| && all == s + Bytes(p0, l[k + 1..])[..length]
    {
      hide Inv, Sized, KeepsRefs, Slice, Mean, Cutting, Lone, Asked;
      CutRead(p0, St(), data, head, tail0, s0, k);
      ghost var l := p0.w[data];
      CutStep(all, s0, Bytes(p0, l[k..]), Slice(p0, cur), Bytes(p0, l[k + 1..]), length0);
      length := length0 - acc[cur].length;
      s := s0 + Slice(p0, cur);
      assert Slice(p0, cur)[..acc[cur].length] == Slice(p0, cur);
      ok, tail := CutMore(cur, acc[cur].length, head, tail0, p0, s0, data);
      if ok { CutRead(p0, St(), data, head, tail, s, k); }
    }

    /** bf_cut, the end: the first length bytes of accessor cur go behind what has been cut so far. */
    method CutRest(ghost p0: Pool, ghost data: int, ghost k: nat, cur: int, length: nat, head: int, tail: int,
                   ghost s: seq<Byte>, ghost all: seq<Byte>)
      returns (ok: bool)
      requires Valid() && Inv(p0) && data in p0.ext && Cutting(p0, St(), head, tail, s) && k <= |Behind(p0.w, data)|
      requires cur == At(Behind(p0.w, data), k) && (cur != NIL && length != 0 ==> 0 <= cur < acc.Length && length < acc[cur].length)
      requires length <= |Bytes(p0, Behind(p0.w, data)[k..])| && all == s + Bytes(p0, Behind(p0.w, data)[k..])[..length]
      modifies this, acc, buf, freelist
      ensures Valid() && (!ok ==> accFree == [])
      ensures Asked(ok, old(asked), asked)
      ensures old(accFree) != [] || k == |Behind(p0.w, data)| ==> ok && spare == old(spare)
      ensures ok ==> exists last :: Cutting(p0, St(), head, last, all)
    {
      hide Inv, Sized, KeepsRefs, Slice, Mean, Bytes, Cutting, Lone;
      LiveRef(p0, data);
      ghost var l := p0.w[data];
      if length == 0 {
        assert all == s;
        return true;
      }
      BytesLeft(p0, l, k);
      CutRead(p0, St(), data, head, tail, s, k);
      CutLast(all, s, Slice(p0, cur), Bytes(p0, l[k + 1..]), length);
      var last;
      ok, last := CutMore(cur, length, head, tail, p0, s, data);
      assert ok ==> Cutting(p0, St(), head, last, all);
    }

    /** bf_cut, for more than nothing. */
    method CutSome(data: int, offset0: nat, length0: nat) returns (ok: bool, head: int)
      requires Valid() && data in ext && length0 > 0 && offset0 + length0 <= |Mean(St(), data)|
      modifies this, acc, buf, freelist
      ensures Valid() && (!ok ==> accFree == [])
      ensures Asked(ok, old(asked), asked)
      ensures |old(accFree)| >= |old(Behind(w, data))| ==> ok && spare == old(spare)
      ensures ok ==> head !in old(ext) && ext == old(ext) + multiset{head} && Private(St(), head)
      ensures ok ==> Mean(St(), head) == Mean(old(St()), data)[offset0..offset0 + length0]
      ensures ok ==> KeepsRefs(old(St()), St(), multiset{})
    {
      hide Inv, Sized, KeepsRefs, Slice, Mean, Bytes, Cutting, Lone, Located, Private, Reclaimed;
      ghost var p0, m := St(), St();
      LiveRef(p0, data);
      var cur, offset, k := Skip(data, offset0);
      ghost var l := p0.w[data];
      LocatedLive(p0, data, offset0, k, cur, offset);
      var length: nat;
      ok, head, length, m := CutFirst(cur, offset, length0, data);
      if !ok { return; }
      CutStart(p0, data, offset0, length0, k, cur, offset, length);
      ghost var all := Mean(p0, data)[offset0..offset0 + length0];
      ghost var s := Slice(p0, cur)[offset..offset + (length0 - length)];
      CutFirstDone(p0, m, St(), head, s);
      CutRead(p0, St(), data, head, head, s, k);
      ok := CutTail(p0, data, k + 1, acc[cur].next, length, head, head, s, all);
      if ok {
        ghost var last :| Cutting(p0, St(), head, last, all);
        CutDone(p0, St(), head, last, all);
      }
    }

    /** bf_cut: what is still missing goes behind the first part. */
    method CutTail(ghost p0: Pool, ghost data: int, ghost k0: nat, cur0: int, length0: nat, head: int, tail0: int,
                   ghost s0: seq<Byte>, ghost all: seq<Byte>)
      returns (ok: bool)
      requires Valid() && Inv(p0) && data in p0.ext && Cutting(p0, St(), head, tail0, s0) && k0 <= |Behind(p0.w, data)|
      requires cur0 == At(Behind(p0.w, data), k0) && (k0 < |Behind(p0.w, data)| ==> 0 <= cur0 < acc.Length)
      requires length0 <= |Bytes(p0, Behind(p0.w, data)[k0..])| && all == s0 + Bytes(p0, Behind(p0.w, data)[k0..])[..length0]
      modifies this, acc, buf, freelist
      ensures Valid() && (!ok ==> accFree == [])
      ensures Asked(ok, old(asked), asked)
      ensures |old(accFree)| >= |Behind(p0.w, data)| - k0 ==> ok && spare == old(spare)
      ensures ok ==> exists last :: Cutting(p0, St(), head, last, all)
    {
      hide Inv, Sized, KeepsRefs, Slice, Mean, Bytes, Cutting;
      ghost var l := Behind(p0.w, data);
      ghost var enough := |accFree| >= |l| - k0;
      var cur, tail := cur0, tail0;
      var length: nat := length0;
      ghost var k, s := k0, s0;
      while cur != NIL && length != 0 && length >= acc[cur].length
        invariant k <= |l| && cur == At(l, k) && (k < |l| ==> 0 <= cur < acc.Length) && asked >= old(asked)
        invariant Valid() && Cutting(p0, St(), head, tail, s) && (enough ==> |accFree| >= |l| - k && spare == old(spare))
        invariant length <= |Bytes(p0, l[k..])| && all == s + Bytes(p0, l[k..])[..length]
        decreases |l| - k
      {
        var last;
        ok, last, length, s := CutStepOver(p0, data, k, cur, length, head, tail, s, all);
        if !ok { return; }
        tail := last;
        cur := acc[cur].next;
        k := k + 1;
      }
      ok := CutRest(p0, data, k, cur, length, head, tail, s, all);
    }

    /** One more reference to a live accessor. */
    method Share(a: int)
      requires Valid() && 0 <= a < acc.Length && acc[a].linkC > 0
      modifies acc, this`ext
      ensures Valid() && ext == old(ext) + multiset{a} && accFree == old(accFree)
      ensures KeepsRefs(old(St()), St(), multiset{}) && Mean(St(), a) == Mean(old(St()), a)
      ensures acc[..] == old(acc[..])[a := old(acc[a]).(linkC := old(acc[a].linkC) + 1)] && w == old(w)
    {
      hide Inv, KeepsRefs, KeepsAll, Mean;
      ghost var p := St();
      IncrInv(p, a);
      AllKept(p, Incr(p, a));
      AllMeans(p, Incr(p, a), a);
      acc[a] := acc[a].(linkC := acc[a].linkC + 1);
      ext := ext + multiset{a};
      assert St() == Incr(p, a);
    }

    /** A reference to a shared accessor becomes one to a copy that is not. */
    method OwnCopy(a: int) returns (ok: bool, n: int, ghost m: Pool)
      requires Valid() && a in ext && 0 <= a < acc.Length && acc[a].linkC > 1
      modifies this, acc, buf, freelist
      ensures Valid() && Inv(m) && Reclaimed(old(St()), m) && (!ok ==> accFree == [])
      ensures Asked(ok, old(asked), asked)
      ensures old(accFree) != [] ==> ok && m == old(St())
      ensures ok ==> Owned(m, St(), a, n) && spare == m.spare
    {
      hide Inv, Sized, KeepsRefs, KeepsAll, Mean, Owned, Reclaimed, Asked;
      LiveRef(St(), a);
      ok, n, m := BfDupacc(a, a);
      if !ok { return; }
      ReclaimedExt(old(St()), m);
      TableSizes(m);
      ghost var q := St();
      AfterDup(m, q, a);
      BfAfree(a);
      UnshareDone(m, q, St(), a, n);
    }

    /** A reference to an accessor that may be shared becomes one to an accessor that is not. */
    method Unshare(a: int) returns (ok: bool, n: int, ghost m: Pool)
      requires Valid() && a in ext && 0 <= a < acc.Length
      modifies this, acc, buf, freelist
      ensures Valid() && Inv(m) && Reclaimed(old(St()), m) && (!ok ==> accFree == [])
      ensures Asked(ok, old(asked), asked)
      ensures old(accFree) != [] || old(acc[a].linkC) == 1 ==> ok && m == old(St())
      ensures ok ==> Owned(m, St(), a, n) && spare == m.spare
    {
      hide Inv, Sized, KeepsRefs, KeepsAll, Mean, Owned, Reclaimed;
      ghost var p := St();
      LiveRef(p, a);
      if acc[a].linkC != 1 {
        ok, n, m := OwnCopy(a);
      } else {
        ok, n, m := true, a, p;
        ReclaimedNone(p);
        OwnAlready(p, a);
      }
    }

    /** bf_delhead: a reference to accessor cur instead of one to data, on whose chain it is. */
    method MoveTo(data: int, cur: int) returns (r: int)
      requires Valid() && data in ext && 0 <= cur < acc.Length && acc[cur].linkC > 0
      modifies this`acc_freelist, this`accFree, this`bufFree, this`ext, this`bf_free_bufsize, acc, buf, freelist
      ensures Valid() && r == cur && cur in ext && ext == old(ext) - multiset{data} + multiset{cur}
      ensures Mean(St(), cur) == Mean(old(St()), cur) && acc[cur].length == old(acc[cur].length)
      ensures KeepsRefs(old(St()), St(), multiset{data}) && Supplies(old(St()), St(), 0)
      ensures NoMoreRefs(old(acc[..]), acc[..], cur) && Behind(w, cur) == old(Behind(w, cur))
    {
      hide Inv, Sized, KeepsRefs, KeepsAll, Mean;
      ghost var p0 := St();
      KeepsSelf(p0, multiset{data});
      r := data;
      if cur != data {
        Share(cur);
        ghost var p1 := St();
        BfAfree(data);
        MoveDone(p0, p1, St(), data, cur);
        r := cur;
      }
    }

    /** A solely referenced accessor loses its first n bytes. */
    method Narrow(a: int, n: nat)
      requires Valid() && Sole(St(), a) && n <= acc[a].length
      modifies acc
      ensures Valid() && Sole(St(), a) && n <= |Mean(old(St()), a)| && Mean(St(), a) == Mean(old(St()), a)[n..]
      ensures KeepsRefs(old(St()), St(), multiset{a})
    {
      hide Inv, Sized, KeepsRefs, Mean;
      ghost var p := St();
      NarrowDone(p, a, n, sizes);
      acc[a] := acc[a].(offset := acc[a].offset + n);
      acc[a] := acc[a].(length := acc[a].length - n);
      assert St().t == Narrowed(p, a, n).t;
      assert St() == Narrowed(p, a, n);
    }

    /** bf_delhead: data without its first offset0 bytes. */
    method BfDelhead(data: int, offset0: nat) returns (ok: bool, r: int)
      requires Valid() && data in ext && offset0 < |Mean(St(), data)|
      modifies this, acc, buf, freelist
      ensures Valid() && (!ok ==> accFree == []) && (old(accFree) != [] ==> ok && spare == old(spare))
      ensures Asked(ok, old(asked), asked)
      ensures ok ==> Sole(St(), r) && ext == old(ext) - multiset{data} + multiset{r}
      ensures ok ==> Mean(St(), r) == Mean(old(St()), data)[offset0..]
      ensures ok ==> KeepsRefs(old(St()), St(), multiset{data})
    {
      hide Inv, Sized, KeepsRefs, Mean, Located, Sole, Owned, Reclaimed, Supplies, Asked;
      ghost var p0 := St();
      var new_acc, offset, k := Skip(data, offset0);
      DelheadFound(p0, data, offset0, k, new_acc, offset);
      r := MoveTo(data, new_acc);
      ghost var p, cur, m := St(), r, St();
      StillSupplied(p0, p);
      ok, r, m := Unshare(r);
      if !ok { return; }
      ghost var q := St();
      DelheadStill(p0, p, m, data, cur);
      OwnedRef(m, q, cur, r);
      Narrow(r, offset);
      DelheadDone(p0, m, q, St(), data, cur, r);
    }

    /** bf_bufsize: how many bytes a chain holds. */
    method BfBufsize(a: int) returns (size: nat)
      requires Valid() && a in ext
      ensures size == |Mean(St(), a)|
    {
      hide Inv, Sized, Slice;
      ghost var p, k := St(), 0;
      LiveRef(p, a);
      CursorStart(p, a);
      CursorAt(p, p, a, 0);
      size := 0;
      var cur := a;
      while cur != NIL
        invariant k <= |p.w[a]| && cur == At(p.w[a], k) && (cur != NIL ==> k < |p.w[a]| && 0 <= cur < acc.Length)
        invariant size + |Bytes(p, p.w[a][k..])| == |Mean(p, a)|
        decreases |p.w[a]| - k
      {
        CursorAt(p, p, a, k);
        size := size + acc[cur].length;
        cur := acc[cur].next;
        k := k + 1;
        if k < |p.w[a]| { CursorAt(p, p, a, k); }
      }
      assert k == |p.w[a]| by { if k < |p.w[a]| { CursorAt(p, p, a, k); } }
    }

    /** memcpy of n bytes of accessor src, from offset_old on, into the k-th accessor of the chain of h, from offset_new on. */
    method CopyBlock(src: int, offset_old: nat, dst: int, offset_new: nat, n: nat, ghost h: int, ghost k: nat)
      requires Valid() && Writable(St(), h) && k < |w[h]| && dst == w[h][k]
      requires 0 <= dst < acc.Length && offset_new + n <= acc[dst].length
      requires 0 <= src < acc.Length && acc[src].linkC > 0 && offset_old + n <= acc[src].length
      modifies buf
      ensures Valid() && Writable(St(), h) && KeepsRefs(old(St()), St(), multiset{h})
      ensures offset_old + n <= |Slice(old(St()), src)|
      ensures CopiedAt(old(St()), St(), h, k, offset_new, Slice(old(St()), src)[offset_old..offset_old + n])
    {
      hide Inv, Sized, KeepsRefs, Slice, Mean, Writable, CopiedAt;
      ghost var p := St();
      Copyable(p, h, k, src, sizes);
      var x, y := acc[src], acc[dst];
      var block := buf[x.buffer].data[x.offset + offset_old..x.offset + offset_old + n];
      var data := buf[y.buffer].data;
      data := Over(data, y.offset + offset_new, block);
      CopyDoneAt(p, h, k, offset_new, block, data, sizes);
      assert block == Slice(p, src)[offset_old..offset_old + n];
      buf[y.buffer] := buf[y.buffer].(data := data);
      assert St().s == Rewritten(p, dst, y.offset, y.length, data).s;
      assert St() == Rewritten(p, dst, y.offset, y.length, data);
    }

    /** bf_pack: a chain nobody else sees, in buffers filled from the first byte on, with what old_acc holds. */
    method BfPack(old_acc: int) returns (ok: bool, r: int)
      requires Valid() && (old_acc == NIL || old_acc in ext)
      requires old_acc != NIL && !Contiguous(St(), old_acc) ==> |Mean(St(), old_acc)| > 0
      modifies this, acc, buf, freelist
      ensures Valid() && |bufFree| == |sizes|
      ensures Asked(ok, old(asked), asked)
      ensures old_acc == NIL || old(Contiguous(St(), old_acc) || Needed(|Mean(St(), old_acc)|, sizes[|sizes| - 1]) <= |bufFree[|sizes| - 1]|)
        ==> ok && spare == old(spare)
      ensures !ok ==> Needed(|Mean(old(St()), old_acc)|, sizes[|sizes| - 1]) > |bufFree[|sizes| - 1]|
      ensures ok ==> (old_acc == NIL ==> r == NIL && ext == old(ext)) && KeepsRefs(old(St()), St(), multiset{old_acc})
      ensures ok && old_acc != NIL ==>
        && ext == old(ext) - multiset{old_acc} + multiset{r} && Mean(St(), r) == Mean(old(St()), old_acc) && Writable(St(), r)
        && 0 <= r < acc.Length && (acc[r].length >= sizes[|sizes| - 1] || acc[r].length == |Mean(St(), r)|)
    {
      hide Inv, KeepsRefs, Slice, Mean, Writable, Needed;
      ghost var p0 := St();
      ok := true;
      KeepsSelf(p0, multiset{old_acc});
      if old_acc == NIL { return ok, NIL; }
      LiveRef(p0, old_acc);
      if acc[old_acc].next == NIL && acc[old_acc].linkC == 1 && buf[acc[old_acc].buffer].linkC == 1 {
        AlreadyPacked(p0, old_acc);
        return ok, old_acc;
      }
      ok, r := PackCopy(old_acc);
    }

    /** bf_pack: what old_acc holds, in fresh buffers. */
    method PackCopy(old_acc: int) returns (ok: bool, r: int)
      requires Valid() && old_acc in ext && |Mean(St(), old_acc)| > 0
      modifies this, acc, buf, freelist
      ensures Valid() && |bufFree| == |sizes|
      ensures Asked(ok, old(asked), asked)
      ensures old(Needed(|Mean(St(), old_acc)|, sizes[|sizes| - 1]) <= |bufFree[|sizes| - 1]|) ==> ok && spare == old(spare)
      ensures !ok ==> Needed(|Mean(old(St()), old_acc)|, sizes[|sizes| - 1]) > |bufFree[|sizes| - 1]|
      ensures ok ==>
        && ext == old(ext) - multiset{old_acc} + multiset{r} && Mean(St(), r) == Mean(old(St()), old_acc) && Writable(St(), r)
        && KeepsRefs(old(St()), St(), multiset{old_acc})
        && 0 <= r < acc.Length && (acc[r].length >= sizes[|sizes| - 1] || acc[r].length == |Mean(St(), r)|)
    {
      hide Inv, KeepsRefs, Slice, Mean, Writable, CopiedAt, NoMoreRefs, Asked, Needed;
      ghost var p0 := St();
      var size := BfBufsize(old_acc);
      ok, r := BfMemreq(size);
      if !ok { return; }
      ghost var p1 := St();
      PackReady(p0, p1, old_acc);
      CopyChain(old_acc, r, size);
      ghost var p2 := St();
      BfAfree(old_acc);
      PackDone(p0, p1, p2, St(), old_acc, r);
    }

    /** bf_pack: copies what the chain of old_acc holds into the chain of new_acc. */
    method CopyChain(old_acc: int, new_acc: int, size0: nat)
      requires Valid() && old_acc in ext - multiset{new_acc} && Writable(St(), new_acc)
      requires |Mean(St(), old_acc)| == size0 == |Mean(St(), new_acc)|
      modifies buf
      ensures Valid() && Writable(St(), new_acc) && KeepsRefs(old(St()), St(), multiset{new_acc})
      ensures Mean(St(), new_acc) == Mean(old(St()), old_acc)
    {
      hide Inv, Sized, KeepsRefs, Slice, Mean, Writable, CopiedAt;
      ghost var p, ko, kn := St(), 0, 0;
      KeepsSelf(p, multiset{new_acc});
      ghost var all := Mean(p, old_acc);
      var size, acc_ptr_old, acc_ptr_new := size0, old_acc, new_acc;
      var offset_old: nat, offset_new: nat := 0, 0;
      CopyStart(p, old_acc, new_acc);
      while size > 0
        invariant Valid() && size <= size0 && Copying(p, St(), all, old_acc, new_acc, size0 - size)
        invariant Reading(p, all, old_acc, ko, acc_ptr_old, offset_old, size0 - size)
        invariant Filling(St(), new_acc, kn, acc_ptr_new, offset_new, size)
        decreases size, |p.w[old_acc]| - ko + |p.w[new_acc]| - kn
      {
        CopyBounds(p, St(), all, old_acc, new_acc, ko, kn, acc_ptr_old, offset_old, acc_ptr_new, offset_new, size);
        if offset_old == acc[acc_ptr_old].length {
          offset_old := 0;
          acc_ptr_old := acc[acc_ptr_old].next;
          ko := ko + 1;
          continue;
        }
        var block_size_old := acc[acc_ptr_old].length - offset_old;
        if offset_new == acc[acc_ptr_new].length {
          offset_new := 0;
          acc_ptr_new := acc[acc_ptr_new].next;
          kn := kn + 1;
          continue;
        }
        var block_size := acc[acc_ptr_new].length - offset_new;
        if block_size > block_size_old { block_size := block_size_old; }
        ghost var q := St();
        CopyBlock(acc_ptr_old, offset_old, acc_ptr_new, offset_new, block_size, new_acc, kn);
        CopyStep(p, q, St(), all, old_acc, new_acc, ko, kn, acc_ptr_old, offset_old, acc_ptr_new, offset_new, size, block_size);
        offset_new := offset_new + block_size;
        offset_old := offset_old + block_size;
        size := size - block_size;
      }
      assert all[..size0] == all;
    }

    /** bf_packIffLess: at least min_len bytes in the first accessor, if there are that many and one buffer can hold them. */
    method BfPackIffLess(pack: int, min_len: nat) returns (ok: bool, r: int)
      requires Valid() && (pack == NIL || pack in ext)
      requires pack != NIL && !Contiguous(St(), pack) ==> |Mean(St(), pack)| > 0
      modifies this, acc, buf, freelist
      ensures Valid() && |bufFree| == |sizes|
      ensures Asked(ok, old(asked), asked)
      ensures pack == NIL || old(Contiguous(St(), pack) || Needed(|Mean(St(), pack)|, sizes[|sizes| - 1]) <= |bufFree[|sizes| - 1]|)
        ==> ok && spare == old(spare)
      ensures !ok ==> Needed(|Mean(old(St()), pack)|, sizes[|sizes| - 1]) > |bufFree[|sizes| - 1]|
      ensures ok ==> (pack == NIL ==> r == NIL && ext == old(ext)) && KeepsRefs(old(St()), St(), multiset{pack})
      ensures ok && pack != NIL ==>
        && ext == old(ext) - multiset{pack} + multiset{r} && Mean(St(), r) == Mean(old(St()), pack) && 0 <= r < acc.Length
        && (min_len <= |Mean(St(), r)| && min_len <= sizes[|sizes| - 1] ==> min_len <= acc[r].length)
    {
      hide Inv, KeepsRefs, Mean, Writable, Needed;
      ghost var p := St();
      KeepsSelf(p, multiset{pack});
      if pack == NIL { return true, pack; }
      LiveRef(p, pack);
      if acc[pack].length >= min_len { return true, pack; }
      ok, r := BfPack(pack);
    }

    /** bf_append, first loop: the next accessor of the first chain becomes one that nobody else sees. */
    method JoinOwn(data_first: int, ghost head: int, ghost tail: int, ghost p0: Pool, ghost but: multiset<int>,
                   ghost s: seq<Byte>, ghost all: seq<Byte>)
      returns (ok: bool, curr: int)
      requires Valid() && data_first != NIL && data_first in ext && Joining(p0, St(), but, head, tail, data_first, s, all)
      modifies this, acc, buf, freelist
      ensures Valid() && (!ok ==> accFree == []) && (old(accFree) != [] ==> ok && spare == old(spare))
      ensures Asked(ok, old(asked), asked)
      ensures ok ==> Joining(p0, St(), but, head, tail, curr, s, all) && head != curr && curr != NIL && Sole(St(), curr)
      ensures ok ==> Supplies(old(St()), St(), 1) && |Behind(w, acc[curr].next)| < |old(Behind(w, data_first))|
    {
      hide Inv, Sized, KeepsRefs, Mean, Joining, Owned, Reclaimed, Supplies, Asked;
      ghost var p, m := St(), St();
      LiveRef(p, data_first);
      ok, curr, m := Unshare(data_first);
      if ok { JoinOwned(p0, p, m, St(), but, head, tail, data_first, curr, s, all); }
    }

    /** bf_append, first loop: the accessor is cut loose from what is still to come. */
    method JoinCut(curr: int, ghost head: int, ghost tail: int, ghost p0: Pool, ghost but: multiset<int>,
                   ghost s: seq<Byte>, ghost all: seq<Byte>)
      returns (next: int)
      requires Valid() && Joining(p0, St(), but, head, tail, curr, s, all) && head != curr && curr != NIL && Sole(St(), curr)
      modifies this`w, this`ext, acc
      ensures Valid() && Taken(p0, St(), but, head, tail, curr, next, s, all) && 0 <= curr < acc.Length && curr in ext
      ensures Behind(w, next) == old(Behind(w, acc[curr].next))
    {
      hide Inv, Sized, KeepsRefs, Mean, Joining, Taken, Slice;
      ghost var p1 := St();
      next := Unlink(curr);
      JoinDetached(p0, p1, St(), but, head, tail, curr, next, s, all);
      TakenRefs(p0, St(), but, head, tail, curr, next, s, all);
    }

    /** bf_append, first loop: the next accessor of the first chain goes behind what there is. */
    method JoinNext(data_first: int, head0: int, tail0: int, ghost p0: Pool, ghost but: multiset<int>,
                    ghost s0: seq<Byte>, ghost all: seq<Byte>)
      returns (ok: bool, next: int, head: int, tail: int, ghost s: seq<Byte>)
      requires Valid() && data_first != NIL && data_first in ext && Joining(p0, St(), but, head0, tail0, data_first, s0, all)
      modifies this, acc, buf, freelist
      ensures Valid() && (!ok ==> accFree == []) && (old(accFree) != [] ==> ok && spare == old(spare))
      ensures Asked(ok, old(asked), asked)
      ensures ok ==> Joining(p0, St(), but, head, tail, next, s, all) && (next != NIL ==> next in ext)
      ensures ok ==> |Behind(w, next)| < |old(Behind(w, data_first))| && Supplies(old(St()), St(), 1)
    {
      hide Inv, Sized, KeepsRefs, Mean, Joining, Taken, Returned, Slice, Private, Headed, Supplies, Asked;
      ghost var p := St();
      next, head, tail, s := NIL, head0, tail0, s0;
      var curr;
      ok, curr := JoinOwn(data_first, head0, tail0, p0, but, s0, all);
      if !ok { return; }
      ghost var p1 := St();
      next := JoinCut(curr, head0, tail0, p0, but, s0, all);
      ghost var p2 := St();
      head, tail, s := JoinPlace(curr, next, head0, tail0, p0, but, s0, all);
      if next != NIL { JoiningRef(p0, St(), but, head, tail, next, s, all); }
      SuppliedOnce(p, p1, p2, St());
    }

    /** bf_append: an accessor of nothing is given up, any other goes behind what there is. */
    method JoinPlace(curr: int, ghost next: int, head0: int, tail0: int, ghost p0: Pool, ghost but: multiset<int>,
                     ghost s0: seq<Byte>, ghost all: seq<Byte>)
      returns (head: int, tail: int, ghost s: seq<Byte>)
      requires Valid() && Taken(p0, St(), but, head0, tail0, curr, next, s0, all) && 0 <= curr < acc.Length && curr in ext
      modifies this`w, this`acc_freelist, this`accFree, this`bufFree, this`ext, this`bf_free_bufsize, acc, buf, freelist
      ensures Valid() && Joining(p0, St(), but, head, tail, next, s, all)
      ensures Behind(w, next) == old(Behind(w, next)) && Supplies(old(St()), St(), 0)
    {
      hide Inv, Sized, KeepsRefs, Mean, Joining, Taken, Returned, Slice, Private, Headed;
      ghost var p2 := St();
      if acc[curr].length == 0 {
        head, tail, s := head0, tail0, s0;
        BfAfree(curr);
        JoinDropped(p0, p2, St(), but, head0, tail0, curr, next, s0, all);
        ReturnedSupplies(p2, St());
      } else if head0 == NIL {
        head, tail, s := curr, curr, s0 + Slice(p2, curr);
        JoinFirst(p0, p2, but, head0, tail0, curr, next, s0, all);
      } else {
        head, tail, s := head0, curr, s0 + Slice(p2, curr);
        CanLink(p0, p2, but, head0, tail0, curr, next, s0, all);
        Link(tail0, curr, head0);
        JoinLinked(p0, p2, St(), but, head0, tail0, curr, next, s0, all);
      }
    }

    /** bf_append: gives up cur, on whose place its successor comes. */
    method PassOver(cur: int, ghost head: int, ghost tail: int, ghost p0: Pool, ghost but: multiset<int>,
                    ghost s: seq<Byte>, ghost all: seq<Byte>)
      returns (next: int)
      requires Valid() && head != NIL && Passing(p0, St(), but, head, tail, cur, s, all)
      modifies this`acc_freelist, this`accFree, this`bufFree, this`ext, this`bf_free_bufsize, acc, buf, freelist
      ensures Valid() && Joining(p0, St(), but, head, tail, next, s, all) && Supplies(old(St()), St(), 0)
      ensures |Behind(w, next)| < |old(Behind(w, cur))|
    {
      hide Inv, Sized, KeepsRefs, Mean, Joining, Passing, Returned;
      ghost var p := St();
      CanPass(p0, p, but, head, tail, cur, s, all);
      next := acc[cur].next;
      NoRefNil(p);
      if next != NIL {
        var moved := MoveTo(cur, next);
      } else {
        BfAfree(cur);
        ReturnedSupplies(p, St());
        NilMean(p);
        NilMean(St());
      }
      JoinMoved(p0, p, St(), but, head, tail, cur, s, all);
    }

    /** bf_append: the bytes of cur go into the buffer of tail, which nobody else uses, behind those of tail. */
    method AppendInPlace(tail: int, cur: int, ghost head: int, ghost s: seq<Byte>)
      requires Valid() && head != NIL && Headed(St(), head, tail, s)
      requires 0 <= tail < acc.Length && 0 <= cur < acc.Length && acc[cur].linkC > 0 && acc[tail].linkC > 0
      requires 0 <= acc[tail].buffer < buf.Length && buf[acc[tail].buffer].linkC == 1
      requires acc[tail].length + acc[cur].length <= |buf[acc[tail].buffer].data| && tail != cur
      modifies acc, buf
      ensures Valid() && Headed(St(), head, tail, s + Slice(old(St()), cur)) && KeepsRefs(old(St()), St(), multiset{head})
    {
      hide Inv, Sized, KeepsRefs, Headed, Mean, Slice, Over;
      ghost var p := St();
      Sliced(p, tail);
      Sliced(p, cur);
      OwnBuffer(p, tail, cur);
      var b, x := acc[tail].buffer, acc[tail];
      if x.offset > 0 {
        buf[b] := buf[b].(data := Over(buf[b].data, 0, buf[b].data[x.offset..x.offset + x.length]));
        acc[tail] := acc[tail].(offset := 0);
      }
      var block := buf[acc[cur].buffer].data[acc[cur].offset..acc[cur].offset + acc[cur].length];
      assert block == Slice(p, cur);
      buf[b] := buf[b].(data := Over(buf[b].data, x.length, block));
      acc[tail] := acc[tail].(length := acc[tail].length + acc[cur].length);
      InPlaceDone(p, head, tail, s, block, sizes);
      ghost var data := Packed(p.t[b].data, x.offset, x.length, block);
      assert St().t == p.t[b := p.t[b].(data := data)];
      assert St().s == Rewritten(p, tail, 0, x.length + |block|, data).s;
      assert St() == Rewritten(p, tail, 0, x.length + |block|, data);
    }

    /** bf_append, the copying loops: all of accessor src into the chain of new_acc, from its fill mark on. */
    method CopyAcc(src: int, acc_ptr0: int, offset0: nat, ghost new_acc: int, ghost k0: nat, ghost room: nat, ghost r: int)
      returns (acc_ptr_new: int, offset_new: nat, ghost k: nat)
      requires Valid() && Writable(St(), new_acc) && 0 <= src < acc.Length && acc[src].linkC > 0
      requires r in ext - multiset{new_acc} && 0 <= r < |w| && src in w[r]
      requires Filling(St(), new_acc, k0, acc_ptr0, offset0, room) && acc[src].length <= room <= |Mean(St(), new_acc)|
      modifies buf
      ensures Valid() && Writable(St(), new_acc) && KeepsRefs(old(St()), St(), multiset{new_acc})
      ensures |Slice(old(St()), src)| == acc[src].length && |Mean(old(St()), new_acc)| >= room
      ensures Mean(St(), new_acc) == Over(Mean(old(St()), new_acc), |Mean(old(St()), new_acc)| - room, Slice(old(St()), src))
      ensures Filling(St(), new_acc, k, acc_ptr_new, offset_new, room - acc[src].length)
    {
      hide Inv, Sized, KeepsRefs, Slice, Mean, Writable, CopiedAt, Over, Filling;
      ghost var p := St();
      KeepsSelf(p, multiset{new_acc});
      WritableRef(p, new_acc);
      Sliced(p, src);
      ghost var from, data := |Mean(p, new_acc)| - room, Slice(p, src);
      acc_ptr_new, offset_new, k := acc_ptr0, offset0, k0;
      var offset_old: nat, size := 0, acc[src].length;
      OverNothing(Mean(p, new_acc), from, data[..0]);
      while size > 0
        invariant 0 <= size && offset_old + size == acc[src].length
        invariant Valid() && Writable(St(), new_acc) && KeepsRefs(p, St(), multiset{new_acc})
        invariant Filling(St(), new_acc, k, acc_ptr_new, offset_new, room - offset_old)
        invariant Mean(St(), new_acc) == Over(Mean(p, new_acc), from, data[..offset_old])
        decreases size, |w[new_acc]| - k
      {
        ghost var q := St();
        FillBounds(q, new_acc, k, acc_ptr_new, offset_new, room - offset_old);
        if offset_new == acc[acc_ptr_new].length {
          offset_new := 0;
          acc_ptr_new := acc[acc_ptr_new].next;
          k := k + 1;
          continue;
        }
        var block_size_old := acc[src].length - offset_old;
        var block_size := acc[acc_ptr_new].length - offset_new;
        if block_size > block_size_old { block_size := block_size_old; }
        SourceKept(p, q, new_acc, r, src);
        CopyBlock(src, offset_old, acc_ptr_new, offset_new, block_size, new_acc, k);
        FillStep(p, q, St(), new_acc, k, acc_ptr_new, offset_new, room, from, data, offset_old, block_size);
        KeepsRefsTrans(p, q, St(), multiset{new_acc}, multiset{new_acc});
        offset_new := offset_new + block_size;
        offset_old := offset_old + block_size;
        size := size - block_size;
      }
      assert data[..offset_old] == data;
    }

    /** bf_append: the bytes of tail and of cur go into a fresh buffer, which takes the place of tail's. */
    method AppendCopied(tail: int, cur: int, head: int, ghost s: seq<Byte>) returns (ok: bool)
      requires Valid() && head != NIL && Headed(St(), head, tail, s) && head in ext && cur in ext - multiset{head}
      requires 0 <= tail < acc.Length && 0 <= cur < acc.Length && acc[cur].linkC > 0 && acc[tail].linkC > 0
      requires 0 < acc[tail].length + acc[cur].length <= sizes[|sizes| - 1]
      modifies this, acc, buf, freelist
      ensures Valid() && |bufFree| == |sizes| && (!ok ==> bufFree[|sizes| - 1] == [])
      ensures Asked(ok, old(asked), asked)
      ensures old(bufFree[|sizes| - 1]) != [] ==> ok && spare == old(spare)
      ensures ok ==> Headed(St(), head, tail, s + Slice(old(St()), cur)) && KeepsRefs(old(St()), St(), multiset{head})
      ensures ok ==> ext == old(ext)
    {
      hide Inv, KeepsRefs, Headed, Mean, Slice, Writable, Returned, Over, NoMoreRefs, Asked;
      ghost var p := St();
      OneOrMore(acc[tail].length + acc[cur].length, sizes[|sizes| - 1]);
      var new_acc;
      ok, new_acc := BfMemreq(acc[tail].length + acc[cur].length);
      if !ok { return; }
      ghost var p1 := St();
      RequestDone(p, p1, head, tail, s, new_acc);
      RequestKept(p, p1, head, tail, s, cur);
      CopyBoth(tail, cur, new_acc, head, p, s);
      ghost var p2 := St();
      WritableRef(p2, new_acc);
      ghost var p3 := Exchange(tail, new_acc, head, s, Slice(p, cur));
      ExchangeKeeps(p, p1, p2, p3, St(), head, new_acc);
    }

    /** bf_append: tail and the fresh accessor are exchanged, and what tail was is given up. */
    method Exchange(tail: int, new_acc: int, ghost head: int, ghost s: seq<Byte>, ghost more: seq<Byte>) returns (ghost p3: Pool)
      requires Valid() && head != NIL && Headed(St(), head, tail, s) && new_acc in ext - multiset{head} && head in ext - multiset{new_acc}
      requires Writable(St(), new_acc) && 0 <= new_acc < |w| && w[new_acc] == [new_acc] && 0 <= tail < acc.Length
      requires Mean(St(), new_acc) == Slice(St(), tail) + more
      modifies this`acc_freelist, this`accFree, this`bufFree, this`ext, this`bf_free_bufsize, acc, buf, freelist
      ensures Valid() && Headed(St(), head, tail, s + more) && ext == p3.ext - multiset{new_acc} && p3.ext == old(ext)
      ensures KeepsRefs(old(St()), p3, multiset{head, new_acc}) && KeepsRefs(p3, St(), multiset{new_acc})
    {
      hide Inv, Sized, KeepsRefs, Headed, Mean, Slice, Writable, Returned;
      ghost var p2 := St();
      ExchangeDone(p2, head, tail, s, new_acc, more, sizes);
      acc[tail], acc[new_acc] := acc[new_acc], acc[tail];
      assert St() == Swapped(p2, tail, new_acc);
      p3 := St();
      BfAfree(new_acc);
      ExchangedFreed(p3, St(), head, tail, s + more, new_acc);
    }


    /** bf_append: both copying loops. */
    method CopyBoth(tail: int, cur: int, new_acc: int, ghost head: int, ghost p: Pool, ghost s: seq<Byte>)
      requires Valid() && Inv(p) && p.ext == ext - multiset{new_acc} && new_acc in ext - multiset{head} && head in p.ext
      requires Headed(p, head, tail, s) && Headed(St(), head, tail, s) && KeepsRefs(p, St(), multiset{})
      requires head != NIL && cur in p.ext - multiset{head} && Writable(St(), new_acc)
      requires 0 <= tail < acc.Length == |p.s| && 0 <= cur < acc.Length
      requires acc[cur].linkC > 0 && acc[tail].linkC > 0 && |Mean(St(), new_acc)| == acc[tail].length + acc[cur].length
      modifies buf
      ensures Valid() && Writable(St(), new_acc) && KeepsRefs(old(St()), St(), multiset{new_acc})
      ensures Headed(St(), head, tail, s) && Mean(St(), new_acc) == Slice(St(), tail) + Slice(p, cur)
    {
      hide Inv, Sized, KeepsRefs, Headed, Mean, Slice, Writable, Over, Filling;
      ghost var p1 := St();
      BothSources(p, p1, head, tail, s, cur, new_acc);
      FillStart(p1, new_acc);
      var ptr, offset, k := CopyAcc(tail, new_acc, 0, new_acc, 0, acc[tail].length + acc[cur].length, head);
      ghost var q := St();
      BothKept(p1, q, head, tail, s, cur, new_acc);
      ptr, offset, k := CopyAcc(cur, ptr, offset, new_acc, k, acc[cur].length, cur);
      KeepsRefsTrans(p1, q, St(), multiset{new_acc}, multiset{new_acc});
      BothKept(p1, St(), head, tail, s, cur, new_acc);
      OverBoth(Mean(p1, new_acc), Slice(p1, tail), Slice(p1, cur));
    }

    /** bf_append: what follows accessors of nothing at the head of the second chain. */
    method SkipEmpties(data_second: int, ghost head: int, ghost tail: int, ghost p0: Pool, ghost but: multiset<int>,
                       ghost s: seq<Byte>, ghost all: seq<Byte>)
      returns (cur: int)
      requires Valid() && head != NIL && Joining(p0, St(), but, head, tail, data_second, s, all)
      modifies this`acc_freelist, this`accFree, this`bufFree, this`ext, this`bf_free_bufsize, acc, buf, freelist
      ensures Valid() && Joining(p0, St(), but, head, tail, cur, s, all) && Supplies(old(St()), St(), 0)
      ensures cur != NIL ==> 0 <= cur < acc.Length && acc[cur].length > 0
    {
      hide Inv, Sized, KeepsRefs, Mean, Joining, Passing;
      ghost var p := St();
      cur := data_second;
      if cur != NIL { JoiningRef(p0, St(), but, head, tail, cur, s, all); }
      while cur != NIL && acc[cur].length == 0
        invariant cur != NIL ==> cur in ext && 0 <= cur < acc.Length
        invariant Valid() && Joining(p0, St(), but, head, tail, cur, s, all) && Supplies(p, St(), 0)
        decreases |Behind(w, cur)|
      {
        ghost var q := St();
        SkipEmpty(p0, q, but, head, tail, cur, s, all);
        cur := PassOver(cur, head, tail, p0, but, s, all);
        SuppliesTrans(p, q, St(), 0, 0);
        if cur != NIL { JoiningRef(p0, St(), but, head, tail, cur, s, all); }
      }
    }

    /** bf_append, the end: behind the chain of head comes cur, in the same buffer if it fits. */
    method JoinRest(data_second: int, head: int, tail: int, ghost p0: Pool, ghost but: multiset<int>,
                    ghost s: seq<Byte>, ghost all: seq<Byte>)
      returns (ok: bool)
      requires Valid() && head != NIL && Joining(p0, St(), but, head, tail, data_second, s, all) && data_second != NIL
      requires 0 <= data_second < acc.Length && acc[data_second].length > 0
      modifies this, acc, buf, freelist
      ensures Valid() && |bufFree| == |sizes| && (!ok ==> bufFree[|sizes| - 1] == [])
      ensures Asked(ok, old(asked), asked)
      ensures old(bufFree[|sizes| - 1]) != [] ==> ok && spare == old(spare)
      ensures ok ==> Mean(St(), head) == all && ext == p0.ext - but + multiset{head} && KeepsRefs(p0, St(), but)
    {
      hide Inv, KeepsRefs, Mean, Slice, Joining, Passing, Headed, Supplies;
      ghost var p := St();
      CanJoin(p0, p, but, head, tail, data_second, s, all);
      JoiningHeaded(p0, p, but, head, tail, data_second, s, all);
      ok := true;
      if acc[tail].length + acc[data_second].length > |buf[acc[tail].buffer].data| {
        Link(tail, data_second, head);
        JoinDone(p0, p, St(), but, head, tail, data_second, s, all);
        return;
      }
      if |buf[acc[tail].buffer].data| == sizes[0] && buf[acc[tail].buffer].linkC == 1 {
        AppendInPlace(tail, data_second, head, s);
      } else {
        ok := AppendCopied(tail, data_second, head, s);
        if !ok { return; }
      }
      JoinExtended(p0, p, St(), but, head, tail, data_second, s, all);
      JoinTail(data_second, head, tail, p0, but, s + Slice(p, data_second), all);
    }

    /** bf_append: what follows data_second is linked behind tail, and data_second is given up. */
    method JoinTail(data_second: int, head: int, tail: int, ghost p0: Pool, ghost but: multiset<int>,
                    ghost s: seq<Byte>, ghost all: seq<Byte>)
      requires Valid() && head != NIL && Passing(p0, St(), but, head, tail, data_second, s, all)
      modifies this`w, this`acc_freelist, this`accFree, this`bufFree, this`ext, this`bf_free_bufsize, acc, buf, freelist
      ensures Valid() && Mean(St(), head) == all && ext == p0.ext - but + multiset{head} && KeepsRefs(p0, St(), but)
    {
      hide Inv, Sized, KeepsRefs, Mean, Joining, Passing, Headed;
      var next := PassOver(data_second, head, tail, p0, but, s, all);
      ghost var p := St();
      CanJoin(p0, p, but, head, tail, next, s, all);
      if next != NIL {
        Link(tail, next, head);
        JoinDone(p0, p, St(), but, head, tail, next, s, all);
      } else {
        JoinedAll(p0, p, but, head, tail, s, all);
      }
    }

    /** bf_append: one chain for what data_first and data_second hold, one behind the other. */
    method BfAppend(data_first: int, data_second: int) returns (ok: bool, head: int)
      requires Valid() && (data_first == NIL || data_first in ext)
      requires data_second == NIL || data_second in ext - multiset{data_first}
      modifies this, acc, buf, freelist
      ensures Valid() && |bufFree| == |sizes| && (!ok ==> accFree == [] || bufFree[|sizes| - 1] == [])
      ensures Asked(ok, old(asked), asked)
      ensures old(|accFree| >= |Behind(w, data_first)| && bufFree[|sizes| - 1] != []) ==> ok && spare == old(spare)
      ensures ok ==> ext == old(ext) - multiset{data_first, data_second} + Opt(head)
      ensures ok ==> Mean(St(), head) == Mean(old(St()), data_first) + Mean(old(St()), data_second)
      ensures ok ==> KeepsRefs(old(St()), St(), multiset{data_first, data_second})
    {
      hide Inv, KeepsRefs, Mean, Joining, Private, Headed;
      ghost var p0, but, all := St(), multiset{data_first}, Mean(St(), data_first);
      ghost var enough := |accFree| >= |Behind(w, data_first)| && bufFree[|sizes| - 1] != [];
      NoRefNil(p0);
      NilMean(p0);
      KeepsSelf(p0, multiset{data_first, data_second});
      ok, head := true, NIL;
      if data_first == NIL {
        OneLeft(p0.ext, NIL, data_second);
        return ok, data_second;
      }
      if data_second == NIL {
        OneLeft(p0.ext, data_first, NIL);
        return ok, data_first;
      }
      var front, tail, cur := NIL, NIL, data_first;
      ghost var s := [];
      JoinStart(p0, data_first);
      while cur != NIL
        invariant Valid() && Joining(p0, St(), but, front, tail, cur, s, all) && (cur != NIL ==> cur in ext)
        invariant |bufFree| == |sizes| && asked >= old(asked)
        invariant enough ==> |accFree| >= |Behind(w, cur)| && bufFree[|sizes| - 1] != [] && spare == p0.spare
        decreases |Behind(w, cur)|
      {
        LiveRef(St(), cur);
        ok, cur, front, tail, s := JoinNext(cur, front, tail, p0, but, s, all);
        if !ok { return; }
      }
      ok, head := AppendSecond(data_first, data_second, front, tail, p0, s);
    }

    /** bf_append: the second chain, once the first is one that nobody else sees. */
    method AppendSecond(ghost data_first: int, data_second: int, head0: int, tail: int, ghost p0: Pool, ghost s: seq<Byte>)
      returns (ok: bool, head: int)
      requires Valid() && Inv(p0) && data_first in p0.ext && data_second in p0.ext - multiset{data_first}
      requires Joining(p0, St(), multiset{data_first}, head0, tail, NIL, s, Mean(p0, data_first))
      modifies this, acc, buf, freelist
      ensures Valid() && |bufFree| == |sizes| && (!ok ==> bufFree[|sizes| - 1] == [])
      ensures Asked(ok, old(asked), asked)
      ensures old(bufFree[|sizes| - 1]) != [] ==> ok && spare == old(spare)
      ensures ok ==> ext == p0.ext - multiset{data_first, data_second} + Opt(head)
      ensures ok ==> Mean(St(), head) == Mean(p0, data_first) + Mean(p0, data_second)
      ensures ok ==> KeepsRefs(p0, St(), multiset{data_first, data_second})
    {
      hide Inv, KeepsRefs, Mean, Joining, Private, Headed;
      ghost var but, all := multiset{data_first, data_second}, Mean(p0, data_first) + Mean(p0, data_second);
      JoinSecond(p0, St(), data_first, data_second, head0, tail, s);
      ok, head := true, head0;
      if head0 == NIL {
        NothingFirst(p0, St(), but, tail, data_second, s, all);
        return ok, data_second;
      }
      var cur := SkipEmpties(data_second, head, tail, p0, but, s, all);
      if cur == NIL {
        JoinedAll(p0, St(), but, head, tail, s, all);
        return;
      }
      ok := JoinRest(cur, head, tail, p0, but, s, all);
    }
  }
}
