/** Advisory record locks (src/fs/lock.c): a table of locked ranges of bytes. */
module LockTable {
  import opened Basics

  datatype Option<T> = None | Some(value: T)

  datatype Kind = UNUSED | RDLCK | WRLCK

  datatype FileLock = FileLock(kind: Kind, pid: int, ino: int, first: int, last: int)

  datatype Request = GETLK | SETLK | SETLKW

  datatype Outcome = OK | EAGAIN | SUSPENDED | ENOLCK

  /** Entry l locks byte x of inode ino for process pid. */
  predicate Locks(l: FileLock, kind: Kind, pid: int, ino: int, x: int) {
    l.kind == kind && l.pid == pid && l.ino == ino && l.first <= x <= l.last
  }

  /** Byte x of inode ino is locked, by some entry, for process pid. */
  ghost predicate Covers(t: seq<FileLock>, kind: Kind, pid: int, ino: int, x: int) {
    kind != UNUSED && exists i :: 0 <= i < |t| && Locks(t[i], kind, pid, ino, x)
  }

  predicate Overlaps(l: FileLock, ino: int, first: int, last: int) {
    l.kind != UNUSED && l.ino == ino && first <= l.last && l.first <= last
  }

  /** Unlocking the range would leave two parts of entry l. */
  predicate Splits(l: FileLock, ino: int, first: int, last: int) {
    l.kind != UNUSED && l.ino == ino && l.first < first && last < l.last
  }

  /** Entry l stands in the way of a lock of this kind for process pid. */
  predicate Conflicts(l: FileLock, kind: Kind, pid: int, ino: int, first: int, last: int) {
    Overlaps(l, ino, first, last) && l.pid != pid && !(kind == RDLCK && l.kind == RDLCK)
  }

  ghost predicate Conflict(t: seq<FileLock>, kind: Kind, pid: int, ino: int, first: int, last: int) {
    exists i :: 0 <= i < |t| && Conflicts(t[i], kind, pid, ino, first, last)
  }

  /** Entries of different processes lock a byte in common. */
  predicate Meet(l: FileLock, m: FileLock) {
    l.kind != UNUSED && l.pid != m.pid && Overlaps(m, l.ino, l.first, l.last)
  }

  /** Two processes never hold locks on one byte unless both only read. */
  ghost predicate Compatible(t: seq<FileLock>) {
    forall i, j :: 0 <= i < |t| && 0 <= j < |t| && Meet(t[i], t[j]) ==> t[i].kind == RDLCK && t[j].kind == RDLCK
  }

  ghost predicate Proper(t: seq<FileLock>) {
    forall i :: 0 <= i < |t| && t[i].kind != UNUSED ==> t[i].first <= t[i].last
  }

  function One(l: FileLock): nat {
    if l.kind == UNUSED then 0 else 1
  }

  /** How many slots are in use. */
  function Used(t: seq<FileLock>): nat {
    if t == [] then 0 else Used(t[..|t| - 1]) + One(t[|t| - 1])
  }

  lemma {:induction false} UsedUpdate(t: seq<FileLock>, i: nat, l: FileLock)
    requires i < |t|
    ensures Used(t[i := l]) == Used(t) - One(t[i]) + One(l)
  {
    var n := |t| - 1;
    if i == n {
      assert t[i := l][..n] == t[..n];
    } else {
      assert t[i := l][..n] == t[..n][i := l];
      UsedUpdate(t[..n], i, l);
    }
  }

  /** The table is full exactly if no slot is unused. */
  lemma {:induction false} UsedAll(t: seq<FileLock>)
    ensures Used(t) <= |t| && (Used(t) == |t| <==> forall i :: 0 <= i < |t| ==> t[i].kind != UNUSED)
  {
    if t != [] {
      var n := |t| - 1;
      UsedAll(t[..n]);
      assert forall i :: 0 <= i < n ==> t[..n][i] == t[i];
    }
  }

  /** The first slot that is not in use, or the length of the table. */
  function FirstFree(t: seq<FileLock>): (i: nat)
    ensures i <= |t| && (i < |t| ==> t[i].kind == UNUSED) && forall j :: 0 <= j < i ==> t[j].kind != UNUSED
  {
    if t == [] || t[0].kind == UNUSED then 0 else 1 + FirstFree(t[1..])
  }

  // ----- what unlocking does to the table

  /** The table after entry i has given up the range, or None if there is no room for the second part of it. */
  function GivenUp(t: seq<FileLock>, i: nat, first: int, last: int): Option<seq<FileLock>>
    requires i < |t|
  {
    var l := t[i];
    if first <= l.first && last >= l.last then Some(t[i := l.(kind := UNUSED)])
    else if first <= l.first then Some(t[i := l.(first := last + 1)])
    else if last >= l.last then Some(t[i := l.(last := first - 1)])
    else if FirstFree(t) == |t| then None
    else Some(t[FirstFree(t) := l.(first := last + 1)][i := l.(last := first - 1)])
  }

  /** The table after all entries from i on have given up the range, or those before the first that could not. */
  function Scan(t: seq<FileLock>, i: nat, ino: int, first: int, last: int): (seq<FileLock>, bool)
    decreases |t| - i
  {
    if i >= |t| then (t, true)
    else if !Overlaps(t[i], ino, first, last) then Scan(t, i + 1, ino, first, last)
    else match GivenUp(t, i, first, last)
      case None => (t, false)
      case Some(u) => Scan(u, i + 1, ino, first, last)
  }

  /** Half of an unlock can take away a lock that somebody waits for. Process 1 unlocks bytes 12 to 20, process 2 keeps the table
      full, and waits for a lock on bytes 15 to 20 itself: the unlock fails, but nothing is in the way of process 2 any more. */
  lemma TornUnlock(t: seq<FileLock>, u: seq<FileLock>)
    requires t == [FileLock(RDLCK, 1, 0, 15, 40), FileLock(RDLCK, 2, 0, 10, 30)]
    requires u == [FileLock(RDLCK, 1, 0, 21, 40), FileLock(RDLCK, 2, 0, 10, 30)]
    ensures Compatible(t) && Proper(t)
    ensures Scan(t, 0, 0, 12, 20) == (u, false)
    ensures Conflict(t, WRLCK, 2, 0, 15, 20) && !Conflict(u, WRLCK, 2, 0, 15, 20)
  {
    assert Conflicts(t[0], WRLCK, 2, 0, 15, 20);
    assert t[0 := t[0].(first := 21)] == u;
    assert GivenUp(t, 0, 12, 20) == Some(u);
    assert FirstFree(u) == 2;
    assert GivenUp(u, 1, 12, 20) == None;
    assert Scan(u, 1, 0, 12, 20) == (u, false);
  }

  // ----- entries that become smaller

  /** Every entry of u is a part of an entry of t, or the part of it that is not within the range. */
  ghost predicate Parts(t: seq<FileLock>, u: seq<FileLock>) {
    forall j :: 0 <= j < |u| && u[j].kind != UNUSED ==> Part(t, u[j])
  }

  ghost predicate Part(t: seq<FileLock>, l: FileLock) {
    exists i :: 0 <= i < |t| && PartOf(t[i], l)
  }

  predicate PartOf(l: FileLock, m: FileLock) {
    m.kind == l.kind && m.pid == l.pid && m.ino == l.ino && l.first <= m.first <= m.last <= l.last
  }

  lemma PartsCompatible(t: seq<FileLock>, u: seq<FileLock>)
    requires Compatible(t) && Parts(t, u)
    ensures Compatible(u) && Proper(u)
  {
    forall i, j | 0 <= i < |u| && 0 <= j < |u| && Meet(u[i], u[j])
      ensures u[i].kind == RDLCK && u[j].kind == RDLCK
    {
      assert Part(t, u[i]) && Part(t, u[j]);
      var a :| 0 <= a < |t| && PartOf(t[a], u[i]);
      var b :| 0 <= b < |t| && PartOf(t[b], u[j]);
      assert Meet(t[a], t[b]);
    }
    forall i | 0 <= i < |u| && u[i].kind != UNUSED ensures u[i].first <= u[i].last { assert Part(t, u[i]); }
  }

  /** Outside the range both tables lock the same; inside, u locks no more than t. */
  ghost predicate Unlocking(t: seq<FileLock>, u: seq<FileLock>, ino: int, first: int, last: int) {
    && |t| == |u|
    && forall kind, pid, n, x {:trigger Covers(u, kind, pid, n, x)} :: Released(t, u, ino, first, last, kind, pid, n, x)
  }

  ghost predicate Released(t: seq<FileLock>, u: seq<FileLock>, ino: int, first: int, last: int,
                           kind: Kind, pid: int, n: int, x: int) {
    if n == ino && first <= x <= last then Covers(u, kind, pid, n, x) ==> Covers(t, kind, pid, n, x)
    else Covers(u, kind, pid, n, x) <==> Covers(t, kind, pid, n, x)
  }

  /** Of what l locked, m and perhaps r lock all but the range. */
  predicate LeavesOut(l: FileLock, m: FileLock, r: FileLock, two: bool, first: int, last: int, kind: Kind, pid: int, n: int, x: int) {
    kind != UNUSED ==>
      (Locks(m, kind, pid, n, x) || (two && Locks(r, kind, pid, n, x)) <==> Locks(l, kind, pid, n, x) && !(first <= x <= last))
  }

  /** One entry is replaced by parts of it that leave out the range and no byte outside it. */
  lemma ReleaseOne(t: seq<FileLock>, u: seq<FileLock>, i: nat, k: nat, two: bool, ino: int, first: int, last: int)
    requires |t| == |u| && i < |t| && k < |t| && two == (k != i) && (two ==> t[k].kind == UNUSED)
    requires forall j :: 0 <= j < |t| && j != i && j != k ==> u[j] == t[j]
    requires t[i].kind != UNUSED && t[i].ino == ino
    requires forall kind, pid, n, x {:trigger LeavesOut(t[i], u[i], u[k], two, first, last, kind, pid, n, x)} ::
      LeavesOut(t[i], u[i], u[k], two, first, last, kind, pid, n, x)
    ensures Unlocking(t, u, ino, first, last)
  {
    forall kind, pid, n, x ensures Released(t, u, ino, first, last, kind, pid, n, x) {
      assert LeavesOut(t[i], u[i], u[k], two, first, last, kind, pid, n, x);
      if Covers(u, kind, pid, n, x) {
        var j :| 0 <= j < |u| && Locks(u[j], kind, pid, n, x);
        if j != i && j != k { assert Locks(t[j], kind, pid, n, x); } else { assert Locks(t[i], kind, pid, n, x); }
      }
      if Covers(t, kind, pid, n, x) && !(n == ino && first <= x <= last) {
        var j :| 0 <= j < |t| && Locks(t[j], kind, pid, n, x);
        if j != i { assert Locks(u[j], kind, pid, n, x); } else if k != i && !Locks(u[i], kind, pid, n, x) { assert Locks(u[k], kind, pid, n, x); }
      }
    }
  }

  lemma UnlockingTrans(t: seq<FileLock>, u: seq<FileLock>, w: seq<FileLock>, ino: int, first: int, last: int)
    requires Unlocking(t, u, ino, first, last) && Unlocking(u, w, ino, first, last)
    ensures Unlocking(t, w, ino, first, last)
  {
    hide Covers;
    forall kind, pid, n, x ensures Released(t, w, ino, first, last, kind, pid, n, x) {
      assert Released(t, u, ino, first, last, kind, pid, n, x) && Released(u, w, ino, first, last, kind, pid, n, x);
    }
  }

  /** When no entry overlaps the range, no byte in it is locked. */
  lemma AllUnlocked(u: seq<FileLock>, ino: int, first: int, last: int)
    requires forall i :: 0 <= i < |u| ==> !Overlaps(u[i], ino, first, last)
    ensures forall kind, pid, x :: first <= x <= last ==> !Covers(u, kind, pid, ino, x)
  {
  }

  const UNSIGNED_LONG := 0x1_0000_0000
  const MAX_FILE_POS := UNSIGNED_LONG - 1

  /** An unsigned long, read as a signed one. */
  function Signed(x: int): int {
    if x < UNSIGNED_LONG / 2 then x else x - UNSIGNED_LONG
  }

  type ULong = n: int | 0 <= n < UNSIGNED_LONG

  /** What struct flock says: where to count from, the first byte, which may be negative, and how many, or zero for all. */
  datatype Area = Area(whence: int, start: ULong, len: ULong)

  /** What it is counted from: the beginning of the file, the position of the descriptor, or the end; NIL stands for nothing. */
  function BaseOf(a: Area, pos: ULong, size: ULong): int {
    if a.whence == 0 then 0 else if a.whence == 1 then pos else if a.whence == 2 then size else NIL
  }

  /** The area is one of bytes that a file can have. */
  predicate IsArea(a: Area, pos: ULong, size: ULong) {
    var b := BaseOf(a, pos, size);
    b != NIL && 0 <= b + Signed(a.start) && b + Signed(a.start) + (if a.len == 0 then 1 else a.len) <= UNSIGNED_LONG
  }

  function FirstOf(a: Area, pos: ULong, size: ULong): int {
    BaseOf(a, pos, size) + Signed(a.start)
  }

  function LastOf(a: Area, pos: ULong, size: ULong): int {
    if a.len == 0 then MAX_FILE_POS else FirstOf(a, pos, size) + a.len - 1
  }

  class LockTable {
    const file_lock: array<FileLock>
    var nr_locks: int

    ghost predicate Valid()
      reads this, file_lock
    {
      nr_locks == Used(file_lock[..]) && Compatible(file_lock[..]) && Proper(file_lock[..])
    }

    constructor (nr: nat)
      ensures Valid() && fresh(file_lock) && file_lock.Length == nr && nr_locks == 0
      ensures forall i :: 0 <= i < nr ==> file_lock[i].kind == UNUSED
    {
      file_lock := new FileLock[nr](_ => FileLock(UNUSED, 0, NIL, 0, 0));
      nr_locks := 0;
      new;
      NoneUsed(file_lock[..]);
    }

    /** lock_op: the range of bytes of an area; all in unsigned arithmetic. */
    static method Range(a: Area, pos: ULong, size: ULong) returns (ok: bool, first: int, last: int)
      ensures ok <==> IsArea(a, pos, size)
      ensures ok ==> first == FirstOf(a, pos, size) && last == LastOf(a, pos, size) && first <= last
    {
      ok, first, last := false, 0, 0;
      match a.whence {
        case 0 => first := 0;
        case 1 => first := pos;
        case 2 => first := size;
        case _ => return;
      }
      if Signed(a.start) > 0 && (first + a.start) % UNSIGNED_LONG < first { return; }
      if Signed(a.start) < 0 && (first + a.start) % UNSIGNED_LONG > first { return; }
      first := (first + a.start) % UNSIGNED_LONG;
      last := (first + a.len - 1) % UNSIGNED_LONG;
      if a.len == 0 { last := MAX_FILE_POS; }
      ok := last >= first;
    }

    /** lock_op, for a lock: the search for a conflict, and for an unused slot on the way. */
    method Search(kind: Kind, pid: int, ino: int, first: int, last: int) returns (conflict: int, empty: int)
      requires kind != UNUSED
      ensures conflict != NIL ==>
        && 0 <= conflict < file_lock.Length && Conflicts(file_lock[conflict], kind, pid, ino, first, last)
        && forall j :: 0 <= j < conflict ==> !Conflicts(file_lock[j], kind, pid, ino, first, last)
      ensures conflict == NIL ==> forall j :: 0 <= j < file_lock.Length ==> !Conflicts(file_lock[j], kind, pid, ino, first, last)
      ensures conflict == NIL ==>
        if empty == NIL then forall j :: 0 <= j < file_lock.Length ==> file_lock[j].kind != UNUSED
        else 0 <= empty < file_lock.Length && file_lock[empty].kind == UNUSED
    {
      conflict, empty := NIL, NIL;
      var flp := 0;
      while flp < file_lock.Length
        invariant 0 <= flp <= file_lock.Length
        invariant forall j :: 0 <= j < flp ==> !Conflicts(file_lock[j], kind, pid, ino, first, last)
        invariant if empty == NIL then forall j :: 0 <= j < flp ==> file_lock[j].kind != UNUSED
                  else 0 <= empty < flp && file_lock[empty].kind == UNUSED
      {
        var l := file_lock[flp];
        if l.kind == UNUSED {
          if empty == NIL { empty := flp; }
        } else if l.ino == ino && last >= l.first && first <= l.last && !(kind == RDLCK && l.kind == RDLCK) && l.pid != pid {
          conflict := flp;
          return;
        }
        flp := flp + 1;
      }
    }

    /** lock_op, for F_SETLK and F_SETLKW: a lock if nothing stands in its way and there is room for it. */
    method SetLock(wait: bool, kind: Kind, pid: int, ino: int, first: int, last: int) returns (r: Outcome)
      requires Valid() && kind != UNUSED && first <= last
      modifies this, file_lock
      ensures Valid()
      ensures r == EAGAIN || r == SUSPENDED <==> Conflict(old(file_lock[..]), kind, pid, ino, first, last)
      ensures (r == SUSPENDED ==> wait) && (r == EAGAIN ==> !wait)
      ensures r == ENOLCK <==> !Conflict(old(file_lock[..]), kind, pid, ino, first, last) && old(nr_locks) == file_lock.Length
      ensures r != OK ==> file_lock[..] == old(file_lock[..])
      ensures r == OK ==> forall k, p, n, x {:trigger Covers(file_lock[..], k, p, n, x)} ::
        Covers(file_lock[..], k, p, n, x) <==> Covers(old(file_lock[..]), k, p, n, x) || (k == kind && p == pid && n == ino && first <= x <= last)
      ensures r == OK ==> exists i ::
        && 0 <= i < file_lock.Length && old(file_lock[..])[i].kind == UNUSED
        && file_lock[..] == old(file_lock[..])[i := FileLock(kind, pid, ino, first, last)]
    {
      ghost var t := file_lock[..];
      UsedAll(t);
      var conflict, empty := Search(kind, pid, ino, first, last);
      if conflict != NIL {
        assert Conflicts(t[conflict], kind, pid, ino, first, last);
        r := if wait then SUSPENDED else EAGAIN;
        return;
      }
      if empty == NIL { return ENOLCK; }
      var l := FileLock(kind, pid, ino, first, last);
      UsedUpdate(t, empty, l);
      file_lock[empty] := l;
      nr_locks := nr_locks + 1;
      assert file_lock[..] == t[empty := l];
      Locked(t, empty, l);
      r := OK;
    }

    /** lock_op, for F_GETLK: the first entry in the way, if there is one. */
    method GetLock(kind: Kind, pid: int, ino: int, first: int, last: int) returns (found: int)
      requires kind != UNUSED
      ensures found == NIL <==> !Conflict(file_lock[..], kind, pid, ino, first, last)
      ensures found != NIL ==> 0 <= found < file_lock.Length && Conflicts(file_lock[found], kind, pid, ino, first, last)
    {
      var empty;
      found, empty := Search(kind, pid, ino, first, last);
      if found != NIL { assert Conflicts(file_lock[..][found], kind, pid, ino, first, last); }
    }

    /** lock_op, for F_UNLCK: a range of a file is unlocked, for whoever has locked it; changed tells whether anything was.
        It fails when an entry must be split and no slot is left for the second part. */
    method Unlock(ino: int, first: int, last: int) returns (r: Outcome, changed: bool)
      requires Valid() && first <= last
      modifies this, file_lock
      ensures Valid() && (r == OK || r == ENOLCK) && Unlocking(old(file_lock[..]), file_lock[..], ino, first, last)
      ensures (file_lock[..], r == OK) == Scan(old(file_lock[..]), 0, ino, first, last)
      ensures r == OK ==> forall kind, pid, x :: first <= x <= last ==> !Covers(file_lock[..], kind, pid, ino, x)
      ensures !changed ==> file_lock[..] == old(file_lock[..])
      ensures r == ENOLCK ==>
        && changed && nr_locks == file_lock.Length
        && exists i :: 0 <= i < file_lock.Length && Splits(file_lock[i], ino, first, last)
    {
      hide Unlocking, Compatible, Used, Parts, GivenUp;
      ghost var t := file_lock[..];
      UnlockingNone(t, ino, first, last);
      changed := false;
      var flp := 0;
      while flp < file_lock.Length
        invariant 0 <= flp <= file_lock.Length && nr_locks == Used(file_lock[..])
        invariant Unlocking(t, file_lock[..], ino, first, last) && Compatible(file_lock[..]) && Proper(file_lock[..])
        invariant forall j :: 0 <= j < flp ==> !Overlaps(file_lock[j], ino, first, last)
        invariant !changed ==> file_lock[..] == t
        invariant Scan(t, 0, ino, first, last) == Scan(file_lock[..], flp, ino, first, last)
      {
        if Overlaps(file_lock[flp], ino, first, last) {
          changed := true;
          var ok := UnlockOne(flp, first, last, t);
          if !ok { return ENOLCK, changed; }
        }
        flp := flp + 1;
      }
      AllUnlocked(file_lock[..], ino, first, last);
      r := OK;
    }

    /** lock_op: what is left of an entry that overlaps the range. */
    method UnlockOne(flp: nat, first: int, last: int, ghost t: seq<FileLock>) returns (ok: bool)
      requires nr_locks == Used(file_lock[..]) && Compatible(file_lock[..]) && Proper(file_lock[..]) && first <= last
      requires flp < file_lock.Length && Overlaps(file_lock[flp], file_lock[flp].ino, first, last)
      requires Unlocking(t, file_lock[..], file_lock[flp].ino, first, last)
      modifies this, file_lock
      ensures nr_locks == Used(file_lock[..]) && Compatible(file_lock[..]) && Proper(file_lock[..])
      ensures Unlocking(t, file_lock[..], old(file_lock[flp].ino), first, last)
      ensures GivenUp(old(file_lock[..]), flp, first, last) == if ok then Some(file_lock[..]) else None
      ensures ok ==>
        && !Overlaps(file_lock[flp], old(file_lock[flp].ino), first, last)
        && forall j :: 0 <= j < file_lock.Length && !Overlaps(old(file_lock[..])[j], old(file_lock[flp].ino), first, last) ==>
             !Overlaps(file_lock[j], old(file_lock[flp].ino), first, last)
      ensures !ok ==>
        && file_lock[..] == old(file_lock[..]) && nr_locks == file_lock.Length
        && Splits(file_lock[flp], file_lock[flp].ino, first, last)
    {
      hide Unlocking, Compatible, Used;
      ghost var s, ino, k := file_lock[..], file_lock[flp].ino, flp as int;
      var l := file_lock[flp];
      ok := true;
      if first <= l.first && last >= l.last {
        file_lock[flp] := l.(kind := UNUSED);
        nr_locks := nr_locks - 1;
        UsedUpdate(s, flp, l.(kind := UNUSED));
      } else if first <= l.first {
        file_lock[flp] := l.(first := last + 1);
        UsedUpdate(s, flp, l.(first := last + 1));
      } else if last >= l.last {
        file_lock[flp] := l.(last := first - 1);
        UsedUpdate(s, flp, l.(last := first - 1));
      } else {
        UsedAll(s);
        if nr_locks == file_lock.Length { return false; }
        var i := 0;
        while file_lock[i].kind != UNUSED
          invariant 0 <= i < file_lock.Length && forall j :: 0 <= j < i ==> file_lock[j].kind != UNUSED
          decreases file_lock.Length - i
        {
          i := i + 1;
        }
        k := i;
        assert FirstFree(s) == i;
        file_lock[i] := FileLock(l.kind, l.pid, l.ino, last + 1, l.last);
        file_lock[flp] := l.(last := first - 1);
        nr_locks := nr_locks + 1;
        UsedUpdate(s, i, file_lock[i]);
        UsedUpdate(s[i := file_lock[i]], flp, file_lock[flp]);
        assert file_lock[..] == s[i := file_lock[i]][flp := file_lock[flp]];
      }
      assert k == flp ==> file_lock[..] == s[flp := file_lock[flp]];
      ghost var u, two := file_lock[..], k != flp;
      forall kind, pid, n, x ensures LeavesOut(s[flp], u[flp], u[k], two, first, last, kind, pid, n, x) {}
      ReleaseOne(s, u, flp, k, two, ino, first, last);
      UnlockingTrans(t, s, file_lock[..], ino, first, last);
      PartsOne(s, file_lock[..], flp, k);
      PartsCompatible(s, file_lock[..]);
    }

    /** do_close: a process that closes a file gives up all its locks on it. */
    method CloseLocks(ino: int, pid: int) returns (changed: bool)
      requires Valid()
      modifies this, file_lock
      ensures Valid() && (!changed ==> file_lock[..] == old(file_lock[..]))
      ensures forall kind, p, n, x {:trigger Covers(file_lock[..], kind, p, n, x)} ::
        Covers(file_lock[..], kind, p, n, x) <==> Covers(old(file_lock[..]), kind, p, n, x) && !(n == ino && p == pid)
    {
      hide Compatible, Used;
      changed := false;
      ghost var t := file_lock[..];
      if nr_locks == 0 { NothingUsed(t); return; }
      var lock_count := nr_locks;
      var flp := 0;
      while flp < file_lock.Length
        invariant 0 <= flp <= file_lock.Length && nr_locks == Used(file_lock[..]) <= lock_count
        invariant forall j :: 0 <= j < file_lock.Length ==>
          file_lock[j] == if j < flp && t[j].kind != UNUSED && t[j].ino == ino && t[j].pid == pid then t[j].(kind := UNUSED) else t[j]
        invariant nr_locks == lock_count ==> file_lock[..] == t
      {
        if file_lock[flp].kind != UNUSED && file_lock[flp].ino == ino && file_lock[flp].pid == pid {
          UsedUpdate(file_lock[..], flp, file_lock[flp].(kind := UNUSED));
          ghost var s := file_lock[..];
          file_lock[flp] := file_lock[flp].(kind := UNUSED);
          assert file_lock[..] == s[flp := s[flp].(kind := UNUSED)];
          nr_locks := nr_locks - 1;
        }
        flp := flp + 1;
      }
      changed := nr_locks < lock_count;
      Closed(t, file_lock[..], ino, pid);
    }
  }

  lemma {:induction false} NoneUsed(t: seq<FileLock>)
    requires forall i :: 0 <= i < |t| ==> t[i].kind == UNUSED
    ensures Used(t) == 0
  {
    if t != [] { NoneUsed(t[..|t| - 1]); }
  }

  lemma {:induction false} NothingUsed(t: seq<FileLock>)
    requires Used(t) == 0
    ensures forall i :: 0 <= i < |t| ==> t[i].kind == UNUSED
  {
    if t != [] {
      NothingUsed(t[..|t| - 1]);
      assert forall i :: 0 <= i < |t| - 1 ==> t[..|t| - 1][i] == t[i];
    }
  }

  lemma UnlockingNone(t: seq<FileLock>, ino: int, first: int, last: int)
    ensures Unlocking(t, t, ino, first, last)
  {
    forall kind, pid, n, x ensures Released(t, t, ino, first, last, kind, pid, n, x) {}
  }

  /** A lock without conflict in an unused slot. */
  lemma Locked(t: seq<FileLock>, i: nat, l: FileLock)
    requires i < |t| && t[i].kind == UNUSED && l.kind != UNUSED && l.first <= l.last && Compatible(t) && Proper(t)
    requires forall j :: 0 <= j < |t| ==> !Conflicts(t[j], l.kind, l.pid, l.ino, l.first, l.last)
    ensures Compatible(t[i := l]) && Proper(t[i := l])
    ensures forall k, p, n, x {:trigger Covers(t[i := l], k, p, n, x)} ::
      Covers(t[i := l], k, p, n, x) <==> Covers(t, k, p, n, x) || Locks(l, k, p, n, x)
  {
    var u := t[i := l];
    forall k, p, n, x ensures Covers(u, k, p, n, x) <==> Covers(t, k, p, n, x) || Locks(l, k, p, n, x) {
      if Covers(t, k, p, n, x) {
        var j :| 0 <= j < |t| && Locks(t[j], k, p, n, x);
        assert Locks(u[j], k, p, n, x);
      }
      if Locks(l, k, p, n, x) { assert Locks(u[i], k, p, n, x); }
    }
  }

  lemma PartsOne(s: seq<FileLock>, u: seq<FileLock>, i: nat, k: nat)
    requires |s| == |u| && i < |s| && k < |s| && Proper(s) && s[i].kind != UNUSED
    requires forall j :: 0 <= j < |s| && j != i && j != k ==> u[j] == s[j]
    requires u[i].kind != UNUSED ==> PartOf(s[i], u[i])
    requires k != i ==> PartOf(s[i], u[k])
    ensures Parts(s, u)
  {
    forall j | 0 <= j < |u| && u[j].kind != UNUSED ensures Part(s, u[j]) {
      assert PartOf(s[if j == k then i else j], u[j]);
    }
  }

  lemma Closed(t: seq<FileLock>, u: seq<FileLock>, ino: int, pid: int)
    requires |t| == |u| && Compatible(t) && Proper(t)
    requires forall j :: 0 <= j < |t| ==>
      u[j] == if t[j].kind != UNUSED && t[j].ino == ino && t[j].pid == pid then t[j].(kind := UNUSED) else t[j]
    ensures Compatible(u) && Proper(u)
    ensures forall kind, p, n, x {:trigger Covers(u, kind, p, n, x)} ::
      Covers(u, kind, p, n, x) <==> Covers(t, kind, p, n, x) && !(n == ino && p == pid)
  {
    forall j | 0 <= j < |u| && u[j].kind != UNUSED ensures Part(t, u[j]) { assert t[j] == u[j]; }
    PartsCompatible(t, u);
    forall kind, p, n, x ensures Covers(u, kind, p, n, x) <==> Covers(t, kind, p, n, x) && !(n == ino && p == pid) {
      if Covers(u, kind, p, n, x) {
        var j :| 0 <= j < |u| && Locks(u[j], kind, p, n, x);
        assert Locks(t[j], kind, p, n, x);
      }
      if Covers(t, kind, p, n, x) && !(n == ino && p == pid) {
        var j :| 0 <= j < |t| && Locks(t[j], kind, p, n, x);
        assert Locks(u[j], kind, p, n, x);
      }
    }
  }
}
