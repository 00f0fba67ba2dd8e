/** Which requests for locks an unlock makes possible (src/fs/lock.c), and so who must be woken up when one fails halfway. */
module LockWakeups {
  import opened LockTable

  /** Somebody other than process pid holds a lock on byte x that is in the way of one of this kind. */
  ghost predicate Blocks(t: seq<FileLock>, kind: Kind, pid: int, n: int, x: int) {
    exists k, p :: p != pid && !(kind == RDLCK && k == RDLCK) && Covers(t, k, p, n, x)
  }

  /** What is in the way of a range is in the way of one of its bytes. */
  lemma ConflictAtByte(t: seq<FileLock>, kind: Kind, pid: int, n: int, a: int, b: int)
    requires Proper(t) && a <= b
    ensures Conflict(t, kind, pid, n, a, b) <==> exists x :: a <= x <= b && Blocks(t, kind, pid, n, x)
  {
    if Conflict(t, kind, pid, n, a, b) {
      var i :| 0 <= i < |t| && Conflicts(t[i], kind, pid, n, a, b);
      var x := if t[i].first < a then a else t[i].first;
      assert Locks(t[i], t[i].kind, t[i].pid, n, x);
      assert Covers(t, t[i].kind, t[i].pid, n, x);
      assert Blocks(t, kind, pid, n, x);
    }
    if x :| a <= x <= b && Blocks(t, kind, pid, n, x) {
      var k, p :| p != pid && !(kind == RDLCK && k == RDLCK) && Covers(t, k, p, n, x);
      var i :| 0 <= i < |t| && Locks(t[i], k, p, n, x);
      assert Conflicts(t[i], kind, pid, n, a, b);
    }
  }

  /** This request had to wait with table t, and need not with u. */
  ghost predicate Freed(t: seq<FileLock>, u: seq<FileLock>, w: FileLock) {
    && w.kind != UNUSED && w.first <= w.last
    && Conflict(t, w.kind, w.pid, w.ino, w.first, w.last) && !Conflict(u, w.kind, w.pid, w.ino, w.first, w.last)
  }

  ghost predicate Lost(t: seq<FileLock>, u: seq<FileLock>, k: Kind, p: int, ino: int, x: int) {
    Covers(t, k, p, ino, x) && !Covers(u, k, p, ino, x)
  }

  /** All that is left on byte x belongs to process q. */
  ghost predicate OnlyOf(u: seq<FileLock>, ino: int, x: int, q: int) {
    forall k, p :: Covers(u, k, p, ino, x) ==> p == q
  }

  ghost predicate OnlyReads(u: seq<FileLock>, ino: int, x: int) {
    forall p :: !Covers(u, WRLCK, p, ino, x)
  }

  /** At byte x process p has lost a lock, and what is left there belongs to one other process, or is a read lock of its own
      where the lost lock was for writing. */
  ghost predicate Opens(t: seq<FileLock>, u: seq<FileLock>, k: Kind, p: int, ino: int, x: int) {
    && Lost(t, u, k, p, ino, x)
    && ((exists q :: q != p && OnlyOf(u, ino, x, q)) || (k == WRLCK && OnlyOf(u, ino, x, p) && OnlyReads(u, ino, x)))
  }

  /** Some byte of the range has been opened for a request that had to wait. */
  ghost predicate Opened(t: seq<FileLock>, u: seq<FileLock>, ino: int, first: int, last: int) {
    exists k, p, x :: first <= x <= last && Opens(t, u, k, p, ino, x)
  }

  /** There is a request that no longer has to wait exactly if some byte of the range has been opened. */
  lemma FreedIffOpened(t: seq<FileLock>, u: seq<FileLock>, ino: int, first: int, last: int)
    requires Compatible(t) && Proper(t) && Proper(u) && Unlocking(t, u, ino, first, last)
    ensures (exists w :: Freed(t, u, w)) <==> Opened(t, u, ino, first, last)
  {
    if w :| Freed(t, u, w) { RequestOpens(t, u, ino, first, last, w); }
    if k, p, x :| first <= x <= last && Opens(t, u, k, p, ino, x) { var w := OpensRequest(t, u, k, p, ino, x); }
  }

  lemma RequestOpens(t: seq<FileLock>, u: seq<FileLock>, ino: int, first: int, last: int, w: FileLock)
    requires Compatible(t) && Proper(t) && Proper(u) && Unlocking(t, u, ino, first, last) && Freed(t, u, w)
    ensures Opened(t, u, ino, first, last)
  {
    hide Compatible;
    ConflictAtByte(t, w.kind, w.pid, w.ino, w.first, w.last);
    ConflictAtByte(u, w.kind, w.pid, w.ino, w.first, w.last);
    var x :| w.first <= x <= w.last && Blocks(t, w.kind, w.pid, w.ino, x);
    assert !Blocks(u, w.kind, w.pid, w.ino, x);
    var k, p :| p != w.pid && !(w.kind == RDLCK && k == RDLCK) && Covers(t, k, p, w.ino, x);
    assert Released(t, u, ino, first, last, k, p, w.ino, x);
    assert Lost(t, u, k, p, w.ino, x);
    if w.kind == WRLCK {
      assert OnlyOf(u, w.ino, x, w.pid);
    } else {
      OnlyOwner(t, u, ino, first, last, p, x);
      assert OnlyReads(u, ino, x);
    }
    assert Opens(t, u, k, p, ino, x);
  }

  /** Where a process holds a write lock nobody else holds any. */
  lemma OnlyOwner(t: seq<FileLock>, u: seq<FileLock>, ino: int, first: int, last: int, p: int, x: int)
    requires Compatible(t) && Unlocking(t, u, ino, first, last) && Covers(t, WRLCK, p, ino, x)
    ensures OnlyOf(u, ino, x, p)
  {
    forall k, q | Covers(u, k, q, ino, x) ensures q == p {
      assert Released(t, u, ino, first, last, k, q, ino, x);
      var i :| 0 <= i < |t| && Locks(t[i], WRLCK, p, ino, x);
      var j :| 0 <= j < |t| && Locks(t[j], k, q, ino, x);
      assert Meet(t[i], t[j]) || q == p;
    }
  }

  lemma OpensRequest(t: seq<FileLock>, u: seq<FileLock>, k: Kind, p: int, ino: int, x: int) returns (w: FileLock)
    requires Proper(t) && Proper(u) && Opens(t, u, k, p, ino, x)
    ensures Freed(t, u, w) && w.ino == ino && w.first == w.last == x
  {
    if q :| q != p && OnlyOf(u, ino, x, q) {
      w := FileLock(WRLCK, q, ino, x, x);
    } else {
      w := FileLock(RDLCK, p + 1, ino, x, x);
    }
    ConflictAtByte(t, w.kind, w.pid, ino, x, x);
    ConflictAtByte(u, w.kind, w.pid, ino, x, x);
    assert Blocks(t, w.kind, w.pid, ino, x);
  }

  /** What the scan leaves, whether or not it comes to its end, is what was there without parts of the range. */
  lemma {:induction false} ScanUnlocks(t: seq<FileLock>, i: nat, ino: int, first: int, last: int)
    requires Compatible(t) && Proper(t) && first <= last
    ensures var u := Scan(t, i, ino, first, last).0; Unlocking(t, u, ino, first, last) && Compatible(u) && Proper(u)
    decreases |t| - i
  {
    if i >= |t| {
      UnlockingNone(t, ino, first, last);
    } else if !Overlaps(t[i], ino, first, last) {
      ScanUnlocks(t, i + 1, ino, first, last);
    } else {
      match GivenUp(t, i, first, last)
      case None => UnlockingNone(t, ino, first, last);
      case Some(v) =>
        GivenUpUnlocks(t, i, ino, first, last, v);
        ScanUnlocks(v, i + 1, ino, first, last);
        UnlockingTrans(t, v, Scan(v, i + 1, ino, first, last).0, ino, first, last);
    }
  }

  lemma GivenUpUnlocks(t: seq<FileLock>, i: nat, ino: int, first: int, last: int, v: seq<FileLock>)
    requires Compatible(t) && Proper(t) && first <= last && i < |t| && Overlaps(t[i], ino, first, last)
    requires GivenUp(t, i, first, last) == Some(v)
    ensures |v| == |t| && Unlocking(t, v, ino, first, last) && Compatible(v) && Proper(v)
  {
    hide Compatible;
    var l := t[i];
    var two := !(first <= l.first) && !(last >= l.last);
    var k := if two then FirstFree(t) else i;
    forall kind, pid, n, x ensures LeavesOut(t[i], v[i], v[k], two, first, last, kind, pid, n, x) {}
    ReleaseOne(t, v, i, k, two, ino, first, last);
    PartsOne(t, v, i, k);
    PartsCompatible(t, v);
  }

  /** An unlock that fails halfway strands a request, that is, makes it possible without waking up anybody, exactly if it has
      opened some byte of its range. */
  lemma TornIff(t: seq<FileLock>, u: seq<FileLock>, ino: int, first: int, last: int)
    requires Compatible(t) && Proper(t) && first <= last && Scan(t, 0, ino, first, last) == (u, false)
    ensures (exists w :: Freed(t, u, w)) <==> Opened(t, u, ino, first, last)
  {
    ScanUnlocks(t, 0, ino, first, last);
    FreedIffOpened(t, u, ino, first, last);
  }

  /** An unlock that does: byte 15 is opened, and the request of process 2 stranded. */
  lemma TornOpens(t: seq<FileLock>, u: seq<FileLock>)
    requires t == [FileLock(RDLCK, 1, 0, 15, 40), FileLock(RDLCK, 2, 0, 10, 30)]
    requires u == [FileLock(RDLCK, 1, 0, 21, 40), FileLock(RDLCK, 2, 0, 10, 30)]
    ensures Scan(t, 0, 0, 12, 20) == (u, false) && Opened(t, u, 0, 12, 20) && exists w :: Freed(t, u, w)
  {
    TornUnlock(t, u);
    assert Locks(t[0], RDLCK, 1, 0, 15);
    assert OnlyOf(u, 0, 15, 2);
    assert Opens(t, u, RDLCK, 1, 0, 15);
    TornIff(t, u, 0, 12, 20);
  }
}
