/** Processes, file descriptors and pipes as the file server sees them (src/fs/fproc.h, src/fs/file.h, src/fs/pipe.c):
    who sleeps, who is to be woken up, and what must hold of pipes for nobody to sleep in vain. */
module Sleepers {
  import opened Basics
  import L = LockTable

  const PIPE_SIZE := 7 * 1024

  datatype Task = XPIPE | XLOCK

  datatype Call = READ | WRITE | FCNTL

  /** What an open file can be used for; N is no use at all. */
  datatype Mode = N | R | W | RW

  /** An entry of fproc: filp is the table of descriptors. While suspended, buf is what is left to write, or where to read to,
      and want the lock it waits for, of this area; partial counts what has been written. */
  datatype Proc = Proc(pid: int, suspended: bool, reviving: bool, task: Task, call: Call, fd: nat, buf: seq<int>,
                       want: L.FileLock, area: L.Area, partial: nat, filp: seq<int>)

  datatype Filp = Filp(count: int, ino: int, mode: Mode, pos: nat, nonblock: bool)

  /** An entry of the inode table: data is what is in the file, count how many use the entry. */
  datatype Inode = Inode(pipe: bool, data: seq<int>, count: int)

  // ----- counting

  function Rev(p: Proc): nat {
    if p.reviving then 1 else 0
  }

  function Asl(p: Proc): nat {
    if p.suspended && !p.reviving && p.task == XPIPE then 1 else 0
  }

  function Uses(p: Proc, f: int): nat {
    multiset(p.filp)[f]
  }

  /** How many processes are to be revived. */
  function Reviving(s: seq<Proc>): nat {
    if s == [] then 0 else Reviving(s[..|s| - 1]) + Rev(s[|s| - 1])
  }

  /** How many processes sleep on pipes. */
  function Sleeping(s: seq<Proc>): nat {
    if s == [] then 0 else Sleeping(s[..|s| - 1]) + Asl(s[|s| - 1])
  }

  /** How many file descriptors share slot f. */
  function Refs(s: seq<Proc>, f: int): nat {
    if s == [] then 0 else Refs(s[..|s| - 1], f) + Uses(s[|s| - 1], f)
  }

  lemma {:induction false} CountUpdate(s: seq<Proc>, i: nat, p: Proc, f: int)
    requires i < |s|
    ensures Reviving(s[i := p]) == Reviving(s) - Rev(s[i]) + Rev(p)
    ensures Sleeping(s[i := p]) == Sleeping(s) - Asl(s[i]) + Asl(p)
    ensures Refs(s[i := p], f) == Refs(s, f) - Uses(s[i], f) + Uses(p, f)
  {
    var n := |s| - 1;
    if i == n {
      assert s[i := p][..n] == s[..n];
    } else {
      assert s[i := p][..n] == s[..n][i := p];
      CountUpdate(s[..n], i, p, f);
    }
  }

  lemma {:induction false} CountOne(s: seq<Proc>, i: nat, f: int)
    requires i < |s|
    ensures Reviving(s) >= Rev(s[i]) && Sleeping(s) >= Asl(s[i]) && Refs(s, f) >= Uses(s[i], f)
  {
    if i < |s| - 1 { CountOne(s[..|s| - 1], i, f); }
  }

  /** If the count of those to be revived is not zero, there is one. */
  lemma {:induction false} SomeReviving(s: seq<Proc>) returns (i: nat)
    requires Reviving(s) > 0
    ensures i < |s| && s[i].reviving
  {
    if s[|s| - 1].reviving { i := |s| - 1; } else { i := SomeReviving(s[..|s| - 1]); }
  }

  lemma {:induction false} NoneReviving(s: seq<Proc>)
    requires Reviving(s) == 0
    ensures forall i :: 0 <= i < |s| ==> !s[i].reviving
  {
    if s != [] {
      NoneReviving(s[..|s| - 1]);
      assert forall i :: 0 <= i < |s| - 1 ==> s[..|s| - 1][i] == s[i];
    }
  }

  function Holds(x: Filp, ino: int): nat {
    if x.count > 0 && x.ino == ino then 1 else 0
  }

  /** How many open files use this inode. */
  function Holders(t: seq<Filp>, ino: int): nat {
    if t == [] then 0 else Holders(t[..|t| - 1], ino) + Holds(t[|t| - 1], ino)
  }

  lemma {:induction false} HoldersUpdate(t: seq<Filp>, f: nat, x: Filp, ino: int)
    requires f < |t|
    ensures Holders(t[f := x], ino) == Holders(t, ino) - Holds(t[f], ino) + Holds(x, ino)
  {
    var n := |t| - 1;
    if f == n {
      assert t[f := x][..n] == t[..n];
    } else {
      assert t[f := x][..n] == t[..n][f := x];
      HoldersUpdate(t[..n], f, x, ino);
    }
  }

  lemma {:induction false} HoldersOne(t: seq<Filp>, f: nat, ino: int)
    requires f < |t|
    ensures Holders(t, ino) >= Holds(t[f], ino)
  {
    if f < |t| - 1 { HoldersOne(t[..|t| - 1], f, ino); }
  }

  /** Open files that differ in other ways use the same inodes. */
  lemma {:induction false} SameHolders(t: seq<Filp>, u: seq<Filp>, ino: int)
    requires |t| == |u| && forall f :: 0 <= f < |t| ==> Holds(u[f], ino) == Holds(t[f], ino)
    ensures Holders(u, ino) == Holders(t, ino)
  {
    if t != [] { SameHolders(t[..|t| - 1], u[..|t| - 1], ino); }
  }

  lemma {:induction false} NoneSleeping(s: seq<Proc>)
    ensures Sleeping(s) <= |s|
    ensures Sleeping(s) == 0 ==> forall i :: 0 <= i < |s| ==> Asl(s[i]) == 0
  {
    if s != [] {
      NoneSleeping(s[..|s| - 1]);
      assert forall i :: 0 <= i < |s| - 1 ==> s[..|s| - 1][i] == s[i];
    }
  }

  // ----- what holds

  /** The slot that descriptor k of process i refers to. */
  function FilpOf(s: seq<Proc>, i: int, k: int): int {
    if 0 <= i < |s| && 0 <= k < |s[i].filp| then s[i].filp[k] else NIL
  }

  function InoOf(s: seq<Proc>, t: seq<Filp>, i: int, k: int): int {
    if 0 <= FilpOf(s, i, k) < |t| then t[FilpOf(s, i, k)].ino else NIL
  }

  /** Process i sleeps in this call on the file with inode ino. */
  predicate Waits(s: seq<Proc>, t: seq<Filp>, i: int, call: Call, ino: int) {
    && 0 <= i < |s| && s[i].suspended && !s[i].reviving && s[i].call == call && InoOf(s, t, i, s[i].fd) == ino
  }

  predicate IsPipe(n: seq<Inode>, ino: int) {
    0 <= ino < |n| && n[ino].pipe
  }

  /** Some descriptor refers to this end of a pipe. */
  ghost predicate Open(t: seq<Filp>, ino: int, mode: Mode) {
    exists f :: 0 <= f < |t| && t[f].count > 0 && t[f].ino == ino && t[f].mode == mode
  }

  /** What a suspended process waits for makes sense. */
  predicate Sound(p: Proc, s: seq<Proc>, t: seq<Filp>, n: seq<Inode>, i: int) {
    && (p.reviving ==> p.suspended)
    && (p.suspended && p.task == XPIPE ==>
          && (p.call == READ || p.call == WRITE) && p.buf != [] && 0 <= FilpOf(s, i, p.fd) < |t|
          && t[FilpOf(s, i, p.fd)].mode == (if p.call == READ then R else W) && IsPipe(n, InoOf(s, t, i, p.fd)))
    && (p.suspended && p.task == XLOCK ==>
          p.call == FCNTL && p.want.kind != L.UNUSED && p.want.pid == p.pid && p.want.first <= p.want.last)
  }

  ghost predicate Procs(s: seq<Proc>, t: seq<Filp>, n: seq<Inode>) {
    forall i :: 0 <= i < |s| ==> Sound(s[i], s, t, n, i)
  }

  ghost predicate Counted(s: seq<Proc>, t: seq<Filp>, f: int) {
    0 <= f < |t| ==> t[f].count == Refs(s, f)
  }

  /** Descriptors refer to slots, and each slot knows how many do. */
  ghost predicate Slots(s: seq<Proc>, t: seq<Filp>) {
    && (forall i, k :: 0 <= i < |s| && 0 <= k < |s[i].filp| ==> s[i].filp[k] == NIL || 0 <= s[i].filp[k] < |t|)
    && forall f {:trigger Counted(s, t, f)} :: Counted(s, t, f)
  }

  ghost predicate Held(t: seq<Filp>, n: seq<Inode>, ino: int) {
    0 <= ino < |n| ==> n[ino].count >= Holders(t, ino) && (n[ino].pipe ==> n[ino].count == Holders(t, ino) > 0)
  }

  /** Open files are in the inode table, which knows how often a pipe is used. */
  ghost predicate Nodes(t: seq<Filp>, n: seq<Inode>) {
    && (forall f :: 0 <= f < |t| && t[f].count > 0 ==> 0 <= t[f].ino < |n|)
    && forall ino {:trigger Held(t, n, ino)} :: Held(t, n, ino)
  }

  /** Where the ends of a pipe are: the writer at the end of what is in it, the reader before that unless it is empty. */
  predicate InPlace(x: Filp, n: seq<Inode>) {
    x.count > 0 && IsPipe(n, x.ino) ==>
      x.mode != RW && x.mode != N && if x.mode == W then x.pos == |n[x.ino].data| else x.pos < |n[x.ino].data| || (x.pos == 0 && |n[x.ino].data| == 0)
  }

  ghost predicate Ends(t: seq<Filp>, n: seq<Inode>) {
    && (forall f :: 0 <= f < |t| ==> InPlace(t[f], n))
    && (forall f, g :: 0 <= f < |t| && 0 <= g < |t| && SameEnd(t[f], t[g], n) ==> f == g)
    && forall i :: 0 <= i < |n| && n[i].pipe ==> |n[i].data| <= PIPE_SIZE
  }

  predicate SameEnd(x: Filp, y: Filp, n: seq<Inode>) {
    x.count > 0 && y.count > 0 && x.ino == y.ino && x.mode == y.mode && IsPipe(n, x.ino)
  }

  /** A sleeping reader's pipe is empty and can still be written to, and no writer sleeps on it. */
  ghost predicate ReaderOk(s: seq<Proc>, t: seq<Filp>, n: seq<Inode>, i: int, ino: int) {
    Waits(s, t, i, READ, ino) ==>
      IsPipe(n, ino) && n[ino].data == [] && Open(t, ino, W) && forall j :: !Waits(s, t, j, WRITE, ino)
  }

  /** A sleeping writer's pipe can still be read from. */
  ghost predicate WriterOk(s: seq<Proc>, t: seq<Filp>, n: seq<Inode>, j: int, ino: int) {
    Waits(s, t, j, WRITE, ino) ==> IsPipe(n, ino) && Open(t, ino, R)
  }

  ghost predicate NobodyInVain(s: seq<Proc>, t: seq<Filp>, n: seq<Inode>) {
    && (forall i, ino {:trigger ReaderOk(s, t, n, i, ino)} :: ReaderOk(s, t, n, i, ino))
    && forall j, ino {:trigger WriterOk(s, t, n, j, ino)} :: WriterOk(s, t, n, j, ino)
  }

  ghost predicate Base(s: seq<Proc>, t: seq<Filp>, n: seq<Inode>) {
    Procs(s, t, n) && Slots(s, t) && Nodes(t, n) && Ends(t, n)
  }

  ghost predicate Tables(s: seq<Proc>, t: seq<Filp>, n: seq<Inode>) {
    Base(s, t, n) && NobodyInVain(s, t, n)
  }

  ghost predicate Counts(s: seq<Proc>, susp_count: int, reviving: int) {
    reviving == Reviving(s) && susp_count >= Sleeping(s)
  }

  predicate LockWait(p: Proc) {
    p.suspended && !p.reviving && p.task == XLOCK
  }

  /** What a process waits for that sleeps until it can have a lock is indeed in the way. */
  ghost predicate Blocked(s: seq<Proc>, l: seq<L.FileLock>, init: nat) {
    forall i :: init < i < |s| && LockWait(s[i]) ==> InTheWay(l, s[i].want)
  }

  ghost predicate InTheWay(l: seq<L.FileLock>, w: L.FileLock) {
    L.Conflict(l, w.kind, w.pid, w.ino, w.first, w.last)
  }

  lemma SameBlocked(s: seq<Proc>, u: seq<Proc>, l: seq<L.FileLock>, init: nat)
    requires Blocked(s, l, init) && |s| == |u|
    requires forall i :: init < i < |s| && LockWait(u[i]) ==> LockWait(s[i]) && u[i].want == s[i].want
    ensures Blocked(u, l, init)
  {
  }

  /** More locks are as much in the way. */
  lemma MoreLocks(s: seq<Proc>, l: seq<L.FileLock>, init: nat, k: nat, x: L.FileLock)
    requires Blocked(s, l, init) && k < |l| && l[k].kind == L.UNUSED
    ensures Blocked(s, l[k := x], init)
  {
    forall i | init < i < |s| && LockWait(s[i]) ensures InTheWay(l[k := x], s[i].want) {
      var w := s[i].want;
      assert InTheWay(l, w);
      var j :| 0 <= j < |l| && L.Conflicts(l[j], w.kind, w.pid, w.ino, w.first, w.last);
      assert L.Conflicts(l[k := x][j], w.kind, w.pid, w.ino, w.first, w.last);
    }
  }

  /** No reader sleeps on a pipe on which a writer sleeps. */
  lemma NotBothAsleep(s: seq<Proc>, t: seq<Filp>, n: seq<Inode>)
    requires Tables(s, t, n)
    ensures forall i, j, ino {:trigger Waits(s, t, i, READ, ino), Waits(s, t, j, WRITE, ino)} ::
      !(Waits(s, t, i, READ, ino) && Waits(s, t, j, WRITE, ino))
  {
    forall i, ino | Waits(s, t, i, READ, ino) ensures forall j :: !Waits(s, t, j, WRITE, ino) { assert ReaderOk(s, t, n, i, ino); }
  }

  // ----- waking up

  /** u is s with those woken up that wait in this call for ino, and are in the first m places. */
  predicate Woken(s: seq<Proc>, u: seq<Proc>, t: seq<Filp>, call: Call, ino: int, m: int) {
    |u| == |s| && forall i :: 0 <= i < |s| ==> u[i] == if i < m && Waits(s, t, i, call, ino) then s[i].(reviving := true) else s[i]
  }

  lemma WokenWaits(s: seq<Proc>, u: seq<Proc>, t: seq<Filp>, call: Call, ino: int, m: int, j: int, other: Call, k: int)
    requires Woken(s, u, t, call, ino, m)
    ensures Waits(u, t, j, other, k) <==> Waits(s, t, j, other, k) && !(other == call && k == ino && j < m)
  {
  }

  lemma {:induction false} SameUses(s: seq<Proc>, u: seq<Proc>, f: int)
    requires |s| == |u| && forall i :: 0 <= i < |s| ==> u[i].filp == s[i].filp
    ensures Refs(u, f) == Refs(s, f)
  {
    if s != [] { SameUses(s[..|s| - 1], u[..|s| - 1], f); }
  }

  /** What processes do without touching their descriptors. */
  lemma SameFiles(s: seq<Proc>, u: seq<Proc>, t: seq<Filp>, n: seq<Inode>)
    requires Base(s, t, n) && |s| == |u| && forall i :: 0 <= i < |s| ==> u[i].filp == s[i].filp && Sound(u[i], s, t, n, i)
    ensures Base(u, t, n)
  {
    forall i | 0 <= i < |u| ensures Sound(u[i], u, t, n, i) {}
    forall f ensures Counted(u, t, f) { assert Counted(s, t, f); SameUses(s, u, f); }
  }

  lemma FewerWaits(s: seq<Proc>, u: seq<Proc>, t: seq<Filp>, n: seq<Inode>)
    requires NobodyInVain(s, t, n)
    requires forall j, call, k :: call != FCNTL && Waits(u, t, j, call, k) ==> Waits(s, t, j, call, k)
    ensures NobodyInVain(u, t, n)
  {
    forall i, k ensures ReaderOk(u, t, n, i, k) {
      assert ReaderOk(s, t, n, i, k) && (Waits(u, t, i, READ, k) ==> Waits(s, t, i, READ, k));
      forall j ensures Waits(u, t, j, WRITE, k) ==> Waits(s, t, j, WRITE, k) {}
    }
    forall j, k ensures WriterOk(u, t, n, j, k) {
      assert WriterOk(s, t, n, j, k) && (Waits(u, t, j, WRITE, k) ==> Waits(s, t, j, WRITE, k));
    }
  }

  /** Waking processes up keeps the tables in order. */
  lemma WokenTables(s: seq<Proc>, u: seq<Proc>, t: seq<Filp>, n: seq<Inode>, call: Call, ino: int, m: int)
    requires Base(s, t, n) && Woken(s, u, t, call, ino, m)
    ensures Base(u, t, n) && (NobodyInVain(s, t, n) ==> NobodyInVain(u, t, n))
  {
    forall i | 0 <= i < |u| ensures u[i].filp == s[i].filp && Sound(u[i], s, t, n, i) { assert Sound(s[i], s, t, n, i); }
    SameFiles(s, u, t, n);
    if NobodyInVain(s, t, n) {
      forall j, other, k | other != FCNTL && Waits(u, t, j, other, k) ensures Waits(s, t, j, other, k) {
        WokenWaits(s, u, t, call, ino, m, j, other, k);
      }
      FewerWaits(s, u, t, n);
    }
  }

  // ----- going to sleep

  /** Process i now sleeps as p tells. */
  predicate FallsAsleep(s: seq<Proc>, t: seq<Filp>, n: seq<Inode>, i: nat, p: Proc) {
    i < |s| && !s[i].suspended && p.filp == s[i].filp && p.pid == s[i].pid && p.suspended && !p.reviving && Sound(p, s, t, n, i)
  }

  lemma Sleeps(s: seq<Proc>, t: seq<Filp>, n: seq<Inode>, i: nat, p: Proc)
    requires Base(s, t, n) && FallsAsleep(s, t, n, i, p)
    ensures Base(s[i := p], t, n)
    ensures forall j, call, k {:trigger Waits(s[i := p], t, j, call, k)} ::
      Waits(s[i := p], t, j, call, k) <==> Waits(s, t, j, call, k) || (j == i && call == p.call && k == InoOf(s, t, i, p.fd))
  {
    forall j | 0 <= j < |s| && j != i ensures Sound(s[j], s, t, n, j) {}
    SameFiles(s, s[i := p], t, n);
  }

  /** A reader falls asleep on an empty pipe, and the writers that slept on it have been woken up. */
  lemma ReaderSleeps(s: seq<Proc>, w: seq<Proc>, t: seq<Filp>, n: seq<Inode>, i: nat, p: Proc, ino: int)
    requires Tables(s, t, n) && FallsAsleep(s, t, n, i, p) && p.task == XPIPE && p.call == READ && ino == InoOf(s, t, i, p.fd)
    requires n[ino].data == [] && Open(t, ino, W) && Woken(s[i := p], w, t, WRITE, ino, |s|)
    ensures Tables(w, t, n)
  {
    var u := s[i := p];
    Sleeps(s, t, n, i, p);
    WokenTables(u, w, t, n, WRITE, ino, |s|);
    forall j, k ensures ReaderOk(w, t, n, j, k) {
      WokenWaits(u, w, t, WRITE, ino, |s|, j, READ, k);
      assert ReaderOk(s, t, n, j, k);
      forall l ensures Waits(w, t, l, WRITE, k) ==> k != ino && Waits(s, t, l, WRITE, k) {
        WokenWaits(u, w, t, WRITE, ino, |s|, l, WRITE, k);
      }
    }
    forall j, k ensures WriterOk(w, t, n, j, k) {
      WokenWaits(u, w, t, WRITE, ino, |s|, j, WRITE, k);
      assert WriterOk(s, t, n, j, k);
    }
  }

  /** A writer falls asleep on a pipe somebody can still read from, and nobody sleeps reading. */
  lemma WriterSleeps(s: seq<Proc>, t: seq<Filp>, n: seq<Inode>, i: nat, p: Proc, ino: int)
    requires Tables(s, t, n) && FallsAsleep(s, t, n, i, p) && p.task == XPIPE && p.call == WRITE && ino == InoOf(s, t, i, p.fd)
    requires Open(t, ino, R) && forall j :: !Waits(s, t, j, READ, ino)
    ensures Tables(s[i := p], t, n)
  {
    var u := s[i := p];
    Sleeps(s, t, n, i, p);
    forall j, k ensures ReaderOk(u, t, n, j, k) { assert ReaderOk(s, t, n, j, k); }
    forall j, k ensures WriterOk(u, t, n, j, k) { assert WriterOk(s, t, n, j, k); }
  }

  lemma LockSleeps(s: seq<Proc>, t: seq<Filp>, n: seq<Inode>, i: nat, p: Proc)
    requires Tables(s, t, n) && FallsAsleep(s, t, n, i, p) && p.task == XLOCK
    ensures Tables(s[i := p], t, n)
  {
    Sleeps(s, t, n, i, p);
    FewerWaits(s, s[i := p], t, n);
  }

  /** Process i no longer sleeps. */
  lemma WakesUp(s: seq<Proc>, t: seq<Filp>, n: seq<Inode>, i: nat, p: Proc)
    requires Tables(s, t, n) && i < |s| && p.filp == s[i].filp && !p.suspended && !p.reviving
    ensures Tables(s[i := p], t, n)
  {
    forall j | 0 <= j < |s| && j != i ensures Sound(s[j], s, t, n, j) {}
    SameFiles(s, s[i := p], t, n);
    FewerWaits(s, s[i := p], t, n);
  }
}
