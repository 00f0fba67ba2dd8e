/** What the first-level cache and the disk hold together. */
module Coherence {
  import opened Basics
  import opened BlockTypes

  /** Buffer i is valid for block k. */
  ghost predicate Holds(b: seq<Buf>, i: int, k: Key) {
    0 <= i < |b| && k.dev != NO_DEV && b[i].Name() == k
  }

  /** Some buffer other than x is valid for block k. */
  ghost predicate Cached(b: seq<Buf>, x: int, k: Key) {
    exists i :: i != x && Holds(b, i, k)
  }

  /** No two buffers are valid for the same block. */
  ghost predicate Unique(b: seq<Buf>) {
    forall i, j, k {:trigger Holds(b, i, k), Holds(b, j, k)} :: Holds(b, i, k) && Holds(b, j, k) ==> i == j
  }

  ghost predicate CleanAt(b: seq<Buf>, disk: Disk, i: int) {
    0 <= i < |b| && (b[i].dev != NO_DEV && !b[i].dirty ==> b[i].data == Rd(disk, b[i].Name()))
  }

  /** Every valid CLEAN buffer, except perhaps x, equals the disk. */
  ghost predicate Clean(b: seq<Buf>, disk: Disk, x: int) {
    forall i {:trigger CleanAt(b, disk, i)} :: 0 <= i < |b| && i != x ==> CleanAt(b, disk, i)
  }

  /** The contents of block k as the cache presents them: the valid buffer if there is one, else the disk. */
  ghost function View(b: seq<Buf>, disk: Disk, k: Key): Block {
    if Cached(b, NIL, k) then var i :| i != NIL && Holds(b, i, k); b[i].data else Rd(disk, k)
  }

  lemma ViewHeld(b: seq<Buf>, disk: Disk, k: Key, i: int)
    requires Unique(b) && Holds(b, i, k)
    ensures View(b, disk, k) == b[i].data
  {
    assert i != NIL;
    assert Cached(b, NIL, k);
  }

  /** The disk after the buffers q have been written back in turn. */
  ghost function WriteBack(disk: Disk, b: seq<Buf>, q: seq<int>): Disk
    requires forall i :: 0 <= i < |q| ==> 0 <= q[i] < |b|
  {
    if q == [] then disk
    else WriteBack(disk, b, q[..|q| - 1])[b[q[|q| - 1]].Name() := b[q[|q| - 1]].data]
  }

  lemma {:induction false} WriteBackRd(disk: Disk, b: seq<Buf>, q: seq<int>, k: Key)
    requires Unique(b)
    requires forall i :: 0 <= i < |q| ==> 0 <= q[i] < |b| && b[q[i]].dev != NO_DEV
    ensures forall i :: 0 <= i < |q| && Holds(b, q[i], k) ==> Rd(WriteBack(disk, b, q), k) == b[q[i]].data
    ensures (forall i :: 0 <= i < |q| ==> !Holds(b, q[i], k)) ==> Rd(WriteBack(disk, b, q), k) == Rd(disk, k)
  {
    if q != [] {
      var n := |q| - 1;
      WriteBackRd(disk, b, q[..n], k);
      forall i | 0 <= i < |q| && Holds(b, q[i], k)
        ensures Rd(WriteBack(disk, b, q), k) == b[q[i]].data
      {
        if b[q[n]].Name() == k {
          assert Holds(b, q[n], k);
        } else {
          assert q[..n][i] == q[i];
        }
      }
      if forall i :: 0 <= i < |q| ==> !Holds(b, q[i], k) {
        assert !Holds(b, q[n], k);
        if k.dev == NO_DEV { assert b[q[n]].Name() != k; }
      }
    }
  }

  /** Only dirty bits of buffers of device dev have been cleared. */
  ghost predicate Flushed(b: seq<Buf>, c: seq<Buf>, dev: nat) {
    |b| == |c| && forall i :: 0 <= i < |b| ==> c[i] == b[i].(dirty := b[i].dirty && b[i].dev != dev)
  }

  /** q lists the dirty buffers of dev. */
  ghost predicate DirtyOf(b: seq<Buf>, q: seq<int>, dev: nat) {
    && (forall i :: 0 <= i < |q| ==> 0 <= q[i] < |b| && b[q[i]].dev == dev && b[q[i]].dirty)
    && (forall i :: 0 <= i < |b| && b[i].dev == dev && b[i].dirty ==> i in q)
  }

  /** Flushing a device leaves what every block presents unchanged, and cleans the device. */
  lemma FlushKeeps(b: seq<Buf>, c: seq<Buf>, disk: Disk, q: seq<int>, dev: nat)
    requires Unique(b) && Clean(b, disk, NIL) && dev != NO_DEV
    requires DirtyOf(b, q, dev) && Flushed(b, c, dev)
    ensures var d := WriteBack(disk, b, q);
      && Unique(c) && Clean(c, d, NIL)
      && (forall k :: View(c, d, k) == View(b, disk, k))
      && (forall k :: !Cached(b, NIL, k) ==> Rd(d, k) == Rd(disk, k))
  {
    var d := WriteBack(disk, b, q);
    forall i, k ensures Holds(b, i, k) == Holds(c, i, k) {}
    forall i | 0 <= i < |c| && i != NIL
      ensures CleanAt(c, d, i)
    {
      WriteBackRd(disk, b, q, b[i].Name());
      assert CleanAt(b, disk, i);
      assert b[i].dev != NO_DEV ==> Holds(b, i, b[i].Name());
    }
    forall k ensures !Cached(b, NIL, k) ==> Rd(d, k) == Rd(disk, k)
    {
      WriteBackRd(disk, b, q, k);
      if !Cached(b, NIL, k) { forall i | 0 <= i < |q| ensures !Holds(b, q[i], k) { assert q[i] != NIL; } }
    }
    forall k ensures View(c, d, k) == View(b, disk, k)
    {
      if Cached(b, NIL, k) {
        var i :| i != NIL && Holds(b, i, k);
        ViewHeld(b, disk, k, i);
        ViewHeld(c, d, k, i);
      } else {
        assert !Cached(c, NIL, k);
      }
    }
  }

  /** Apart from x, the buffers keep what they hold. */
  ghost predicate SameCore(b: seq<Buf>, c: seq<Buf>, x: int) {
    && |b| == |c|
    && forall i :: 0 <= i < |b| && i != x ==>
         c[i].data == b[i].data && c[i].Name() == b[i].Name() && c[i].dirty == b[i].dirty
  }

  /** The contents of x could be read back from the disk. */
  ghost predicate Expendable(b: seq<Buf>, disk: Disk, x: int) {
    0 <= x < |b| && (b[x].dev != NO_DEV ==> b[x].data == Rd(disk, b[x].Name()))
  }

  lemma SameCached(b: seq<Buf>, c: seq<Buf>, x: int, k: Key)
    requires SameCore(b, c, x)
    ensures Cached(c, x, k) == Cached(b, x, k)
  {
    if Cached(b, x, k) { var i :| i != x && Holds(b, i, k); assert Holds(c, i, k); }
    if Cached(c, x, k) { var i :| i != x && Holds(c, i, k); assert Holds(b, i, k); }
  }

  lemma CachedOthers(b: seq<Buf>, x: int, k: Key)
    ensures Cached(b, NIL, k) <==> Cached(b, x, k) || Holds(b, x, k)
  {
    if Cached(b, NIL, k) { var i :| i != NIL && Holds(b, i, k); if i != x { assert Cached(b, x, k); } }
    if Cached(b, x, k) { var i :| i != x && Holds(b, i, k); assert i != NIL; }
  }

  /** Reusing an expendable buffer for a block that is not cached leaves every other block as it was. */
  lemma Reuse(b: seq<Buf>, c: seq<Buf>, disk: Disk, x: int, name: Key)
    requires Unique(b) && Clean(b, disk, NIL) && Expendable(b, disk, x)
    requires SameCore(b, c, x)
    requires name.dev != NO_DEV ==> !Cached(b, NIL, name)
    requires c[x].dev != NO_DEV ==> c[x].Name() == name
    ensures Unique(c) && Clean(c, disk, x)
    ensures forall k: Key :: k.dev != NO_DEV && (k != name || c[x].dev == NO_DEV) ==> View(c, disk, k) == View(b, disk, k)
    ensures c[x].dev != NO_DEV ==> View(c, disk, name) == c[x].data
    ensures name.dev != NO_DEV ==> View(b, disk, name) == Rd(disk, name)
  {
    forall i, k ensures i != x ==> Holds(b, i, k) == Holds(c, i, k) {}
    forall i, j, k | Holds(c, i, k) && Holds(c, j, k)
      ensures i == j
    {
      assert i != x ==> Holds(b, i, k) && Cached(b, NIL, k);
      assert j != x ==> Holds(b, j, k) && Cached(b, NIL, k);
    }
    forall i | 0 <= i < |c| && i != x
      ensures CleanAt(c, disk, i)
    {
      assert CleanAt(b, disk, i);
    }
    forall k: Key | k.dev != NO_DEV && (k != name || c[x].dev == NO_DEV)
      ensures View(c, disk, k) == View(b, disk, k)
    {
      ReuseView(b, c, disk, x, k);
    }
    if c[x].dev != NO_DEV { ViewHeld(c, disk, name, x); }
  }

  lemma ReuseView(b: seq<Buf>, c: seq<Buf>, disk: Disk, x: int, k: Key)
    requires Unique(b) && Unique(c) && Expendable(b, disk, x) && SameCore(b, c, x) && !Holds(c, x, k)
    ensures View(c, disk, k) == View(b, disk, k)
  {
    SameCached(b, c, x, k);
    CachedOthers(b, x, k);
    CachedOthers(c, x, k);
    if Cached(b, x, k) {
      var i :| i != x && Holds(b, i, k);
      assert Holds(c, i, k);
      ViewHeld(b, disk, k, i);
      ViewHeld(c, disk, k, i);
    } else if Holds(b, x, k) {
      ViewHeld(b, disk, k, x);
    }
  }

  /** Views depend on names and data only. */
  lemma ViewFrame(b: seq<Buf>, c: seq<Buf>, disk: Disk)
    requires Unique(b) && |b| == |c|
    requires forall i :: 0 <= i < |b| ==> c[i].data == b[i].data && c[i].Name() == b[i].Name()
    ensures Unique(c)
    ensures forall k :: View(c, disk, k) == View(b, disk, k)
  {
    forall i, k ensures Holds(b, i, k) == Holds(c, i, k) {}
    forall k ensures View(c, disk, k) == View(b, disk, k)
    {
      if Cached(b, NIL, k) {
        var i :| i != NIL && Holds(b, i, k);
        ViewHeld(b, disk, k, i);
        ViewHeld(c, disk, k, i);
      } else {
        assert !Cached(c, NIL, k);
      }
    }
  }

  lemma CleanBut(b: seq<Buf>, disk: Disk, x: int)
    requires Clean(b, disk, NIL)
    ensures Clean(b, disk, x)
  {
    forall i | 0 <= i < |b| ensures CleanAt(b, disk, i) {}
  }
}
