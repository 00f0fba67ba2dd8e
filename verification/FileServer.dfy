/** The file server as it suspends and revives processes (src/fs/pipe.c, src/fs/lock.c, src/fs/main.c, src/fs/misc.c,
    src/fs/open.c, src/fs/filedes.c). */
module FileServer {
  import opened Basics
  import opened Sleepers
  import opened SleepSteps
  import L = LockTable
  import LW = LockWakeups

  datatype Error = EBADF | EINVAL | EAGAIN | EPIPE | EFBIG | EIO | EMFILE | ENFILE | ENOLCK

  /** What a call returns; nothing at all when the process is suspended. */
  datatype Reply = Done(value: int) | Failed(error: Error) | NoReply

  /** The messages that matter for who sleeps; upto is how many bytes can be moved before something fails. */
  datatype Message =
    | READING(who: nat, fd: nat, buf: seq<int>, upto: nat)
    | WRITING(who: nat, fd: nat, buf: seq<int>, upto: nat)
    | LOCKING(who: nat, fd: nat, req: L.Request, kind: L.Kind, area: L.Area)
    | OPENING(who: nat, mode: Mode, ino: nat)
    | PIPING(who: nat, room: bool)
    | DUPPING(who: nat, fd: nat, start: nat)
    | SETTING(who: nat, fd: nat, nonblock: bool)
    | CLOSING(who: nat, fd: nat)
    | FORKING(parent: nat, child: nat, pid: int)
    | EXITING(who: nat)
    | SIGNALLED(who: nat)

  /** Where a descriptor is in a file, and where the file ends. */
  datatype Place = Place(pos: L.ULong, size: L.ULong)

  class Server {
    const fproc: array<Proc>
    const filp: array<Filp>
    const inode: array<Inode>
    const locks: L.LockTable
    const init_proc_nr: nat
    const max_size: nat
    var susp_count: int
    var reviving: int
    ghost var torn: bool

    /** Since the last time that all who wait for locks were woken up, no attempt to unlock has failed after it had opened a
        byte: then whoever still waits, waits for a reason. */
    ghost predicate Locking()
      reads this, fproc, locks, locks.file_lock
    {
      locks.Valid() && (!torn ==> Blocked(fproc[..], locks.file_lock[..], init_proc_nr))
    }

    ghost predicate Valid()
      reads this, fproc, filp, inode, locks, locks.file_lock
    {
      Tables(fproc[..], filp[..], inode[..]) && Counts(fproc[..], susp_count, reviving) && Locking()
    }

    /** When the file server starts nothing is open, and nobody sleeps. */
    constructor (nr_procs: nat, open_max: nat, nr_filps: nat, nr_inodes: nat, nr_locks: nat, init: nat, max: nat)
      ensures Valid() && fresh(fproc) && fresh(filp) && fresh(inode) && fresh(locks) && fresh(locks.file_lock)
      ensures fproc.Length == nr_procs && filp.Length == nr_filps && inode.Length == nr_inodes
    {
      var none := L.FileLock(L.UNUSED, 0, NIL, 0, 0);
      var p := Proc(0, false, false, XPIPE, READ, 0, [], none, L.Area(0, 0, 0), 0, Nothing(open_max));
      fproc := new Proc[nr_procs](_ => p);
      filp := new Filp[nr_filps](_ => Filp(0, NIL, N, 0, false));
      inode := new Inode[nr_inodes](_ => Inode(false, [], 0));
      locks := new L.LockTable(nr_locks);
      init_proc_nr, max_size, susp_count, reviving, torn := init, max, 0, 0, false;
      new;
      Initially(fproc[..], filp[..], inode[..]);
    }

    // ----- suspending and reviving

    /** suspend */
    method Suspend(who: nat, task: Task, call: Call, fd: nat, buf: seq<int>, want: L.FileLock, area: L.Area)
      requires who < fproc.Length && !fproc[who].suspended && !fproc[who].reviving
      modifies this`susp_count, fproc
      ensures fproc[..] == old(fproc[..])[who :=
        old(fproc[who]).(suspended := true, task := task, call := call, fd := fd, buf := buf, want := want, area := area)]
      ensures susp_count - Sleeping(fproc[..]) == old(susp_count - Sleeping(fproc[..])) && Reviving(fproc[..]) == old(Reviving(fproc[..]))
    {
      if task == XPIPE { susp_count := susp_count + 1; }
      ghost var s := fproc[..];
      fproc[who] := fproc[who].(suspended := true, task := task, call := call, fd := fd, buf := buf, want := want, area := area);
      CountUpdate(s, who, fproc[who], 0);
      assert fproc[..] == s[who := fproc[who]];
    }

    /** revive, for who sleeps on a pipe or waits for a lock. */
    method Revive(i: nat)
      requires i < fproc.Length
      modifies this`reviving, fproc
      ensures fproc[..] == old(fproc[..])[i := if old(fproc[i]).suspended then old(fproc[i]).(reviving := true) else old(fproc[i])]
      ensures reviving - Reviving(fproc[..]) == old(reviving - Reviving(fproc[..]))
      ensures Sleeping(fproc[..]) == old(Sleeping(fproc[..])) - Asl(old(fproc[i]))
    {
      ghost var s := fproc[..];
      if !fproc[i].suspended || fproc[i].reviving {
        assert s[i := s[i]] == s;
        return;
      }
      fproc[i] := fproc[i].(reviving := true);
      reviving := reviving + 1;
      CountUpdate(s, i, fproc[i], 0);
      assert fproc[..] == s[i := fproc[i]];
    }

    /** release: wake up those that sleep in this call on the pipe, but no more than count of them. */
    method Release(ip: nat, call: Call, count: int)
      requires Base(fproc[..], filp[..], inode[..]) && call != FCNTL
      requires count <= 0 || count >= Sleeping(fproc[..])
      modifies this`reviving, this`susp_count, fproc
      ensures Woken(old(fproc[..]), fproc[..], filp[..], call, ip, fproc.Length)
      ensures reviving - Reviving(fproc[..]) == old(reviving - Reviving(fproc[..]))
      ensures susp_count - Sleeping(fproc[..]) == old(susp_count - Sleeping(fproc[..]))
    {
      hide Reviving, Sleeping, Base, Woken, Waits;
      ghost var s, t := fproc[..], filp[..];
      var left := count;
      var rp := 0;
      NotYetWoken(s, t, call, ip);
      while rp < fproc.Length
        invariant 0 <= rp <= fproc.Length && Woken(s, fproc[..], t, call, ip, rp)
        invariant reviving - Reviving(fproc[..]) == old(reviving - Reviving(fproc[..]))
        invariant susp_count - Sleeping(fproc[..]) == old(susp_count - Sleeping(fproc[..]))
        invariant left - Sleeping(fproc[..]) == count - Sleeping(s) && (if count > 0 then left > 0 else left <= count)
      {
        var p := fproc[rp];
        ghost var u := fproc[..];
        Matching(s, u, t, inode[..], call, ip, rp);
        if p.suspended && !p.reviving && p.call == call && filp[p.filp[p.fd]].ino == ip {
          Revive(rp);
          WokenOne(s, u, t, call, ip, rp);
          susp_count := susp_count - 1;
          left := left - 1;
          if left == 0 {
            NoneSleeping(fproc[..]);
            AllWoken(s, fproc[..], t, inode[..], call, ip, rp + 1);
            return;
          }
        } else {
          WokenOne(s, u, t, call, ip, rp);
        }
        rp := rp + 1;
      }
    }

    /** lock_revive: wake up all that wait for a lock. */
    method LockRevive()
      modifies this`reviving, this`torn, fproc
      ensures LocksWoken(old(fproc[..]), fproc[..], init_proc_nr, fproc.Length) && !torn
      ensures reviving - Reviving(fproc[..]) == old(reviving - Reviving(fproc[..])) && Sleeping(fproc[..]) == old(Sleeping(fproc[..]))
    {
      ghost var s := fproc[..];
      var i := init_proc_nr + 1;
      while i < fproc.Length
        invariant init_proc_nr < i && LocksWoken(s, fproc[..], init_proc_nr, i)
        invariant reviving - Reviving(fproc[..]) == old(reviving - Reviving(fproc[..])) && Sleeping(fproc[..]) == Sleeping(s)
      {
        if fproc[i].suspended && fproc[i].task == XLOCK { Revive(i); }
        i := i + 1;
      }
      torn := false;
    }

    /** get_work, when somebody is to be revived: there is such a process, and the first one is to make its call again. */
    method ReviveOne() returns (who: nat)
      requires Valid() && reviving != 0
      modifies this`reviving, fproc
      ensures Valid() && who < fproc.Length && old(fproc[who]).reviving && reviving == old(reviving) - 1
      ensures forall i :: 0 <= i < who ==> !old(fproc[i]).reviving
      ensures fproc[..] == old(fproc[..])[who := old(fproc[who]).(suspended := false, reviving := false)]
      ensures Sound(old(fproc[who]), old(fproc[..]), filp[..], inode[..], who)
    {
      hide Tables, Blocked, Sound;
      ghost var s := fproc[..];
      ghost var w := SomeReviving(s);
      who := 0;
      while !fproc[who].reviving
        invariant 0 <= who <= w && forall i :: 0 <= i < who ==> !fproc[i].reviving
        decreases w - who
      {
        who := who + 1;
      }
      var p := fproc[who].(suspended := false, reviving := false);
      GoesOn(s, filp[..], inode[..], who, p, susp_count, reviving);
      fproc[who] := p;
      reviving := reviving - 1;
      assert fproc[..] == s[who := p];
      if !torn { SameBlocked(s, fproc[..], locks.file_lock[..], init_proc_nr); }
    }

    // ----- pipes

    /** Process who, awake, has a pipe open for this call, as descriptor fd, in slot f. */
    ghost predicate OnPipe(who: nat, fd: nat, f: nat, call: Call)
      reads fproc, filp, inode
    {
      && who < fproc.Length && !fproc[who].suspended && !fproc[who].reviving && fd < |fproc[who].filp|
      && fproc[who].filp[fd] == f < filp.Length && IsPipe(inode[..], filp[f].ino)
      && filp[f].mode == (if call == READ then R else W)
    }

    /** find_filp: an open file for this end of a pipe. */
    method FindFilp(ino: nat, mode: Mode) returns (g: int)
      requires Ends(filp[..], inode[..]) && IsPipe(inode[..], ino) && (mode == R || mode == W)
      ensures if Open(filp[..], ino, mode) then 0 <= g < filp.Length && filp[g].count > 0 && filp[g].ino == ino && filp[g].mode == mode
              else g == NIL
    {
      g := 0;
      while g < filp.Length
        invariant 0 <= g <= filp.Length
        invariant forall f :: 0 <= f < g ==> !(filp[f].count > 0 && filp[f].ino == ino && filp[f].mode == mode)
      {
        assert InPlace(filp[..][g], inode[..]);
        if filp[g].count > 0 && filp[g].ino == ino && (filp[g].mode == mode || filp[g].mode == RW) {
          assert filp[..][g].mode == mode;
          return;
        }
        g := g + 1;
      }
      g := NIL;
    }

    /** pipe_check, for a reader: whether there is something to read. If not, but somebody can still write, the reader falls
        asleep, or is told to try again, and all writers that sleep on the pipe are woken up. */
    method CheckRead(who: nat, fd: nat, f: nat, buf: seq<int>) returns (go: bool, r: Reply)
      requires Valid() && OnPipe(who, fd, f, READ) && buf != []
      modifies this`susp_count, this`reviving, fproc
      ensures Valid() && go == (filp[f].pos < |inode[filp[f].ino].data|)
      ensures go || !Open(filp[..], filp[f].ino, W) ==>
        fproc[..] == old(fproc[..]) && susp_count == old(susp_count) && reviving == old(reviving)
      ensures !go ==> r == AfterCheck(Open(filp[..], filp[f].ino, W), filp[f].nonblock)
      ensures !go && r != Done(0) ==>
        Woken(if r == NoReply then old(fproc[..])[who := Asleep(old(fproc[who]), READ, fd, buf)] else old(fproc[..]), fproc[..],
              filp[..], WRITE, filp[f].ino, fproc.Length)
    {
      hide Reviving, Sleeping, Base, NobodyInVain, Blocked, Slots, Nodes, Ends, Procs, Sound, Waits;
      ghost var s, t, n := fproc[..], filp[..], inode[..];
      var ino := filp[f].ino;
      go, r := false, Done(0);
      if filp[f].pos < |inode[ino].data| { return true, r; }
      ReadEmpty(s, t, n, who, fd, buf);
      var w := FindFilp(ino, W);
      if w == NIL { return; }
      if filp[f].nonblock {
        r := Failed(EAGAIN);
      } else {
        Suspend(who, XPIPE, READ, fd, buf, fproc[who].want, fproc[who].area);
        Sleeps(s, t, n, who, Asleep(s[who], READ, fd, buf));
        r := NoReply;
      }
      ghost var u := fproc[..];
      if susp_count > 0 {
        Release(ino, WRITE, susp_count);
      } else {
        NoneSleeping(u);
        AllWoken(u, u, t, n, WRITE, ino, 0);
      }
      if r == NoReply {
        ReaderSleeps(s, fproc[..], t, n, who, Asleep(s[who], READ, fd, buf), ino);
      } else {
        WokenTables(s, fproc[..], t, n, WRITE, ino, fproc.Length);
      }
      if !torn { SameBlocked(s, fproc[..], locks.file_lock[..], init_proc_nr); }
    }

    /** pipe_check, for a writer: how many bytes can be written now, none if the writer has to wait or to give up.
        Readers that sleep on the pipe are woken up before anything is written. */
    method CheckWrite(who: nat, fd: nat, f: nat, buf: seq<int>) returns (room: nat, r: Reply)
      requires Valid() && OnPipe(who, fd, f, WRITE) && buf != []
      modifies this`susp_count, this`reviving, fproc
      ensures Valid() && room == Room(Open(filp[..], filp[f].ino, R), filp[f].pos, |buf|) && (room > 0 ==> r == Done(0))
      ensures room == 0 ==> r == AfterCheckWrite(Open(filp[..], filp[f].ino, R), filp[f].nonblock, |buf|)
      ensures room == 0 ==>
        fproc[..] == if r == NoReply then old(fproc[..])[who := Asleep(old(fproc[who]), WRITE, fd, buf)] else old(fproc[..])
      ensures room > 0 ==>
        && Woken(old(fproc[..]), fproc[..], filp[..], READ, filp[f].ino, fproc.Length)
        && forall j :: !Waits(fproc[..], filp[..], j, READ, filp[f].ino)
    {
      hide Reviving, Sleeping, Base, NobodyInVain, Blocked, Slots, Nodes, Ends, Procs, Sound;
      ghost var s, t, n := fproc[..], filp[..], inode[..];
      var ino, position, bytes := filp[f].ino, filp[f].pos, |buf|;
      room, r := 0, Done(0);
      WriterPlace(s, t, n, who, fd, buf);
      var reader := FindFilp(ino, R);
      if reader == NIL { return room, Failed(EPIPE); }
      if position + bytes > PIPE_SIZE {
        if bytes <= PIPE_SIZE || position >= PIPE_SIZE {
          if filp[f].nonblock && bytes != PIPE_SIZE { return room, Failed(EAGAIN); }
          NobodyReads(s, t, n, ino);
          Suspend(who, XPIPE, WRITE, fd, buf, fproc[who].want, fproc[who].area);
          WriterSleeps(s, t, n, who, Asleep(s[who], WRITE, fd, buf), ino);
          if !torn { SameBlocked(s, fproc[..], locks.file_lock[..], init_proc_nr); }
          return room, NoReply;
        }
        room := PIPE_SIZE - position;
        Release(ino, READ, susp_count);
      } else {
        room := bytes;
        if position == 0 { Release(ino, READ, susp_count); } else { NobodyReads(s, t, n, ino); NotWoken(s, t, READ, ino); }
      }
      WokenTables(s, fproc[..], t, n, READ, ino, fproc.Length);
      forall j ensures !Waits(fproc[..], t, j, READ, ino) { WokenWaits(s, fproc[..], t, READ, ino, fproc.Length, j, READ, ino); }
      if !torn { SameBlocked(s, fproc[..], locks.file_lock[..], init_proc_nr); }
    }

    /** read_write, for a read from a pipe of which at most upto bytes can be moved: the reader gets what comes first. */
    method PipeRead(who: nat, fd: nat, f: nat, buf: seq<int>, upto: nat) returns (r: Reply, got: seq<int>)
      requires Valid() && OnPipe(who, fd, f, READ) && buf != []
      modifies this`susp_count, this`reviving, fproc, filp, inode
      ensures Valid() && Consumed(old(filp[..]), old(inode[..]), filp[..], inode[..], f, got)
      ensures |got| == Least(|buf|, old(|Pending(filp[..], inode[..], f)|), upto)
      ensures r == ReadReply(old(Pending(filp[..], inode[..], f)), |buf|, |got|, old(fproc[who].partial),
                             old(Open(filp[..], filp[f].ino, W)), filp[f].nonblock)
      ensures r == NoReply ==> Waits(fproc[..], filp[..], who, READ, filp[f].ino) && fproc[who].buf == buf
    {
      hide Reviving, Sleeping, Base, NobodyInVain;
      ghost var s, t, n := fproc[..], filp[..], inode[..];
      var ino, position := filp[f].ino, filp[f].pos;
      ReaderPlace(s, t, n, who, fd);
      got := [];
      var go;
      go, r := CheckRead(who, fd, f, buf);
      if !go { return; }
      var want := Least(|buf|, |inode[ino].data| - position, |buf|);
      var k := Least(want, upto, upto);
      got := Take(f, k);
      if k < want { return Failed(EIO), got; }
      r := Done(fproc[who].partial + k);
      Completed(who, 0);
    }

    /** read_write: k bytes are taken out of a pipe; when all has been read, both ends start anew. */
    method Take(f: nat, k: nat) returns (got: seq<int>)
      requires Valid() && f < filp.Length && filp[f].count > 0 && IsPipe(inode[..], filp[f].ino) && filp[f].mode == R
      requires filp[f].pos < |inode[filp[f].ino].data| && k <= |inode[filp[f].ino].data| - filp[f].pos
      modifies filp, inode
      ensures Valid() && Consumed(old(filp[..]), old(inode[..]), filp[..], inode[..], f, got) && |got| == k
    {
      hide NobodyInVain, Procs, Slots, Counts, Locking, Ends, Nodes, Sound, Consumed, Rewound;
      ghost var s, t, n := fproc[..], filp[..], inode[..];
      var ino := filp[f].ino;
      var position := filp[f].pos + k;
      got := inode[ino].data[filp[f].pos..position];
      if position >= |inode[ino].data| {
        Rewind(f, ino);
        inode[ino] := inode[ino].(data := []);
        Emptied(s, t, n, filp[..], ino);
        TookAll(t, n, filp[..], f, got);
        assert inode[..] == n[ino := n[ino].(data := [])];
      } else {
        Advanced(s, t, n, f, k);
        TookSome(t, n, f, k);
        filp[f] := filp[f].(pos := position);
        assert filp[..] == t[f := t[f].(pos := t[f].pos + k)];
        assert inode[..] == n;
      }
    }

    /** fp_cum_io_partial */
    method Completed(who: nat, partial: nat)
      requires Valid() && who < fproc.Length && !fproc[who].suspended && !fproc[who].reviving
      modifies fproc
      ensures Valid() && fproc[..] == old(fproc[..])[who := old(fproc[who]).(partial := partial)]
    {
      ghost var s := fproc[..];
      fproc[who] := fproc[who].(partial := partial);
      CountUpdate(s, who, fproc[who], 0);
      WakesUp(s, filp[..], inode[..], who, fproc[who]);
      assert fproc[..] == s[who := fproc[who]];
    }

    /** read_write: when all has been read, both ends of the pipe start anew. */
    method Rewind(f: nat, ino: nat)
      requires Ends(filp[..], inode[..]) && IsPipe(inode[..], ino) && f < filp.Length && filp[f].count > 0 && filp[f].ino == ino && filp[f].mode == R
      modifies filp
      ensures Rewound(old(filp[..]), filp[..], ino)
    {
      ghost var t, n := filp[..], inode[..];
      var wf := FindFilp(ino, W);
      forall g | 0 <= g < |t| && t[g].count > 0 && t[g].ino == ino ensures g == f || g == wf {
        assert InPlace(t[g], n);
        if t[g].mode == R { assert SameEnd(t[g], t[f], n); } else {
          assert Open(t, ino, W);
          assert SameEnd(t[g], t[wf], n);
        }
      }
      if wf != NIL { filp[wf] := filp[wf].(pos := 0); }
      filp[f] := filp[f].(pos := 0);
    }

    /** read_write, for a write to a pipe of which at most upto bytes can be moved: they come after all that is in the pipe.
        When only a part fits the writer sleeps until it can go on, unless it does not want to wait. */
    method PipeWrite(who: nat, fd: nat, f: nat, buf: seq<int>, upto: nat) returns (r: Reply, ghost room: nat)
      requires Valid() && OnPipe(who, fd, f, WRITE) && buf != []
      modifies this`susp_count, this`reviving, fproc, filp, inode
      ensures Valid() && room == Room(old(Open(filp[..], filp[f].ino, R)), old(filp[f].pos), |buf|) <= |buf|
      ensures Extended(old(filp[..]), old(inode[..]), filp[..], inode[..], f, buf[..if upto < room then upto else room])
      ensures r == WriteReply(room, upto, |buf|, old(fproc[who].partial), old(Open(filp[..], filp[f].ino, R)), filp[f].nonblock)
      ensures r == NoReply ==>
        && Waits(fproc[..], filp[..], who, WRITE, filp[f].ino) && fproc[who].buf == buf[room..]
        && (room > 0 ==> fproc[who].partial == old(fproc[who].partial) + room)
    {
      hide Reviving, Sleeping, Base, NobodyInVain, Slots, Nodes, Ends, Procs, Counts, Sound;
      ghost var s, t, n := fproc[..], filp[..], inode[..];
      WriterPlace(s, t, n, who, fd, buf);
      var limit;
      limit, r := CheckWrite(who, fd, f, buf);
      room := limit;
      if limit == 0 {
        ExtendedByNothing(t, n, f, buf);
        return;
      }
      var k := if upto < limit then upto else limit;
      Put(f, buf[..k]);
      if k < limit { return Failed(EIO), room; }
      var cum_io := fproc[who].partial + k;
      if limit < |buf| && !filp[f].nonblock {
        Completed(who, cum_io);
        SuspendWriter(who, fd, f, buf[k..]);
        return NoReply, room;
      }
      r := Done(cum_io);
      Completed(who, 0);
    }

    /** read_write: bytes are put into a pipe that nobody sleeps reading from. */
    method Put(f: nat, b: seq<int>)
      requires Valid() && f < filp.Length && filp[f].count > 0 && IsPipe(inode[..], filp[f].ino) && filp[f].mode == W
      requires filp[f].pos + |b| <= PIPE_SIZE && forall j :: !Waits(fproc[..], filp[..], j, READ, filp[f].ino)
      modifies filp, inode
      ensures Valid() && Extended(old(filp[..]), old(inode[..]), filp[..], inode[..], f, b)
      ensures Open(filp[..], filp[f].ino, R) == old(Open(filp[..], filp[f].ino, R))
    {
      hide NobodyInVain, Procs, Slots, Counts, Locking;
      ghost var s, t, n := fproc[..], filp[..], inode[..];
      var ino := filp[f].ino;
      assert InPlace(t[f], n);
      Appended(s, t, n, f, b);
      inode[ino] := inode[ino].(data := inode[ino].data + b);
      filp[f] := filp[f].(pos := filp[f].pos + |b|);
      assert inode[..] == n[ino := n[ino].(data := n[ino].data + b)];
      assert filp[..] == t[f := t[f].(pos := t[f].pos + |b|)];
      MovedOpen(t, filp[..], ino, R);
    }

    /** The rest of a write waits until there is room again. */
    method SuspendWriter(who: nat, fd: nat, f: nat, rest: seq<int>)
      requires Valid() && OnPipe(who, fd, f, WRITE) && rest != [] && Open(filp[..], filp[f].ino, R)
      requires inode[filp[f].ino].data != []
      modifies this`susp_count, fproc
      ensures Valid() && fproc[..] == old(fproc[..])[who := Asleep(old(fproc[who]), WRITE, fd, rest)]
    {
      hide Reviving, Sleeping, Base, NobodyInVain;
      ghost var s, t, n := fproc[..], filp[..], inode[..];
      WriterPlace(s, t, n, who, fd, rest);
      NobodyReads(s, t, n, filp[f].ino);
      Suspend(who, XPIPE, WRITE, fd, rest, fproc[who].want, fproc[who].area);
      WriterSleeps(s, t, n, who, Asleep(s[who], WRITE, fd, rest), filp[f].ino);
      if !torn { SameBlocked(s, fproc[..], locks.file_lock[..], init_proc_nr); }
    }

    // ----- locks

    /** lock_op, for F_SETLK and F_SETLKW. */
    method SetLock(who: nat, fd: nat, wait: bool, want: L.FileLock, area: L.Area) returns (r: Reply)
      requires Valid() && who < fproc.Length && !fproc[who].suspended && !fproc[who].reviving
      requires want.kind != L.UNUSED && want.first <= want.last && want.pid == fproc[who].pid
      modifies this`susp_count, fproc, locks, locks.file_lock
      ensures Valid()
      ensures r == LockReply(InTheWay(old(locks.file_lock[..]), want), wait, old(locks.nr_locks) == locks.file_lock.Length)
      ensures fproc[..] == if r == NoReply then old(fproc[..])[who := Waiting(old(fproc[who]), fd, want, area)] else old(fproc[..])
      ensures r != Done(0) ==> locks.file_lock[..] == old(locks.file_lock[..])
      ensures r == Done(0) ==> forall k, p, n, x {:trigger L.Covers(locks.file_lock[..], k, p, n, x)} ::
        L.Covers(locks.file_lock[..], k, p, n, x) <==> L.Covers(old(locks.file_lock[..]), k, p, n, x) || L.Locks(want, k, p, n, x)
    {
      hide Reviving, Sleeping, Base, NobodyInVain;
      ghost var s, t, n, l := fproc[..], filp[..], inode[..], locks.file_lock[..];
      var o := locks.SetLock(wait, want.kind, want.pid, want.ino, want.first, want.last);
      match o
      case OK =>
        if !torn {
          var i :| 0 <= i < |l| && l[i].kind == L.UNUSED && locks.file_lock[..] == l[i := want];
          MoreLocks(s, l, init_proc_nr, i, want);
        }
        r := Done(0);
      case EAGAIN =>
        r := Failed(EAGAIN);
      case ENOLCK =>
        r := Failed(ENOLCK);
      case SUSPENDED =>
        var p := Waiting(fproc[who], fd, want, area);
        AsleepForLock(s, t, n, who, fd, want, area);
        Suspend(who, XLOCK, FCNTL, fd, fproc[who].buf, want, area);
        LockSleeps(s, t, n, who, p);
        r := NoReply;
    }

    /** lock_op, for F_UNLCK: unless it fails, all that wait for locks are woken up if anything was unlocked. */
    method Unlock(ino: int, first: int, last: int) returns (r: Reply)
      requires Valid() && first <= last
      modifies this`reviving, this`torn, fproc, locks, locks.file_lock
      ensures Valid() && (r == Done(0) || r == Failed(ENOLCK))
      ensures (locks.file_lock[..], r == Done(0)) == L.Scan(old(locks.file_lock[..]), 0, ino, first, last)
      ensures L.Unlocking(old(locks.file_lock[..]), locks.file_lock[..], ino, first, last)
      ensures r == Done(0) ==> forall kind, pid, x :: first <= x <= last ==> !L.Covers(locks.file_lock[..], kind, pid, ino, x)
      ensures r == Done(0) && locks.file_lock[..] != old(locks.file_lock[..]) ==>
        !torn && LocksWoken(old(fproc[..]), fproc[..], init_proc_nr, fproc.Length)
      ensures r == Done(0) && locks.file_lock[..] == old(locks.file_lock[..]) ==>
        fproc[..] == old(fproc[..]) || LocksWoken(old(fproc[..]), fproc[..], init_proc_nr, fproc.Length)
      ensures r != Done(0) ==>
        && fproc[..] == old(fproc[..])
        && torn == (old(torn) || LW.Opened(old(locks.file_lock[..]), locks.file_lock[..], ino, first, last))
    {
      hide Reviving, Sleeping, Base, NobodyInVain;
      ghost var s, t := fproc[..], locks.file_lock[..];
      var o, changed := locks.Unlock(ino, first, last);
      if o == L.ENOLCK {
        ghost var u := locks.file_lock[..];
        ghost var open := LW.Opened(t, u, ino, first, last);
        if !torn && !open { StillBlocked(s, filp[..], inode[..], t, u, ino, first, last, init_proc_nr); }
        torn := torn || open;
        return Failed(ENOLCK);
      }
      if changed {
        LockRevive();
        LocksWokenTables(s, fproc[..], filp[..], inode[..], init_proc_nr, locks.file_lock[..]);
      }
      r := Done(0);
    }

    // ----- closing

    /** do_close */
    method Close(who: nat, fd: nat) returns (r: Reply)
      requires Valid() && who < fproc.Length && !fproc[who].suspended && !fproc[who].reviving
      modifies this, fproc, filp, inode, locks, locks.file_lock
      ensures Valid()
      ensures r == if fd < |old(fproc[who].filp)| && old(fproc[who].filp)[fd] != NIL then Done(0) else Failed(EBADF)
      ensures r != Done(0) ==> fproc[..] == old(fproc[..]) && filp[..] == old(filp[..]) && inode[..] == old(inode[..])
      ensures r == Done(0) ==>
        && fproc[who] == old(fproc[who]).(filp := old(fproc[who].filp)[fd := NIL])
        && ClosedSlot(old(filp[..]), filp[..], old(inode[..]), inode[..], old(fproc[who].filp)[fd])
        && ClosedLocks(old(locks.file_lock[..]), locks.file_lock[..], old(filp[..]), old(fproc[who].filp)[fd], old(fproc[who].pid))
      ensures r == Done(0) ==> Forsaken(fproc[..], filp[..], old(filp[..])[old(fproc[who].filp)[fd]])
      ensures Roused(old(fproc[..]), fproc[..], who)
    {
      hide Reviving, Sleeping, Base, NobodyInVain, Slots;
      if fd >= |fproc[who].filp| || fproc[who].filp[fd] == NIL { return Failed(EBADF); }
      ghost var s, t, n := fproc[..], filp[..], inode[..];
      var f := fproc[who].filp[fd];
      OpenNode(s, t, n, who, fd);
      CloseEnd(who, fd, f);
      ghost var u, l := fproc[..], locks.file_lock[..];
      var changed := locks.CloseLocks(filp[f].ino, fproc[who].pid);
      if changed {
        LockRevive();
        LocksWokenTables(u, fproc[..], filp[..], inode[..], init_proc_nr, locks.file_lock[..]);
      }
      r := Done(0);
    }

    /** do_close, as far as the descriptor: who sleeps at the other end of a pipe is woken up. */
    method CloseEnd(who: nat, fd: nat, f: nat)
      requires Valid() && who < fproc.Length && !fproc[who].suspended && !fproc[who].reviving
      requires fd < |fproc[who].filp| && fproc[who].filp[fd] == f < filp.Length
      modifies this`susp_count, this`reviving, fproc, filp, inode
      ensures Valid()
      ensures fproc[who] == old(fproc[who]).(filp := old(fproc[who].filp)[fd := NIL])
      ensures ClosedSlot(old(filp[..]), filp[..], old(inode[..]), inode[..], f)
      ensures Forsaken(fproc[..], filp[..], old(filp[f])) && Roused(old(fproc[..]), fproc[..], who)
    {
      hide Reviving, Sleeping, Base, NobodyInVain, Slots, Ends, Nodes, Blocked, Procs, Uses;
      OpenNode(fproc[..], filp[..], inode[..], who, fd);
      WakeOtherEnd(who, f);
      ghost var s, t, n := fproc[..], filp[..], inode[..];
      Closed(s, t, n, who, fd, f, OtherEnd(filp[f]));
      OpenNode(s, t, n, who, fd);
      PointUses(s, who, fd, NIL, 0);
      GiveUp(who, fd, f);
      if !torn { SameBlocked(s, fproc[..], locks.file_lock[..], init_proc_nr); }
      StillForsaken(s, t, fproc[..], filp[..], who, fd, f);
    }

    /** do_close: the descriptor, and what goes with it if it was the last one. */
    method GiveUp(who: nat, fd: nat, f: nat)
      requires who < fproc.Length && fd < |fproc[who].filp| && f < filp.Length && 0 <= filp[f].ino < inode.Length
      requires filp[f].count > 0 && inode[filp[f].ino].count > 0
      modifies fproc, filp, inode
      ensures fproc[..] == Point(old(fproc[..]), who, fd, NIL)
      ensures ClosedSlot(old(filp[..]), filp[..], old(inode[..]), inode[..], f)
    {
      ghost var s, t, n := fproc[..], filp[..], inode[..];
      var ino := filp[f].ino;
      filp[f] := filp[f].(count := filp[f].count - 1);
      if filp[f].count == 0 { PutInode(ino); }
      fproc[who] := fproc[who].(filp := fproc[who].filp[fd := NIL]);
      assert fproc[..] == Point(s, who, fd, NIL) && filp[..] == t[f := t[f].(count := t[f].count - 1)];
      assert inode[..] == n[ino := LeftBy(t, n, f)];
    }

    /** do_close: before one end of a pipe is given up, all that sleep at the other end are woken up. */
    method WakeOtherEnd(who: nat, f: nat)
      requires Valid() && who < fproc.Length && !fproc[who].suspended && f < filp.Length && 0 <= filp[f].ino < inode.Length
      modifies this`susp_count, this`reviving, fproc
      ensures Valid() && Forsaken(fproc[..], filp[..], filp[f]) && fproc[who] == old(fproc[who])
      ensures Woken(old(fproc[..]), fproc[..], filp[..], OtherEnd(filp[f]), filp[f].ino, fproc.Length)
    {
      hide Reviving, Sleeping, Base, NobodyInVain, Slots, Ends, Nodes;
      ghost var s, t, n := fproc[..], filp[..], inode[..];
      var ino, call := filp[f].ino, OtherEnd(filp[f]);
      NoneSleeping(s);
      if inode[ino].pipe { Release(ino, call, fproc.Length); } else { NobodyThere(s, t, n, call, ino); NotWoken(s, t, call, ino); }
      WokenTables(s, fproc[..], t, n, call, ino, |s|);
      forall j ensures !Waits(fproc[..], t, j, call, ino) { WokenWaits(s, fproc[..], t, call, ino, |s|, j, call, ino); }
      if !torn { SameBlocked(s, fproc[..], locks.file_lock[..], init_proc_nr); }
    }

    /** put_inode: when nobody uses a pipe any more, it is gone. */
    method PutInode(ino: nat)
      requires ino < inode.Length && inode[ino].count > 0
      modifies inode
      ensures inode[..] == old(inode[..])[ino := LeftInode(old(inode[ino]))]
    {
      inode[ino] := inode[ino].(count := inode[ino].count - 1);
      if inode[ino].count == 0 {
        if inode[ino].pipe { inode[ino] := inode[ino].(data := []); }
        inode[ino] := inode[ino].(pipe := false);
      }
    }

    // ----- descriptors

    /** get_fd: the first free descriptor from start on, and a free slot, which is made ready. */
    method GetFd(who: nat, start: nat, mode: Mode) returns (e: Reply, k: nat, f: nat)
      requires who < fproc.Length
      modifies filp
      ensures (e == Done(0) || e == Failed(EMFILE) || e == Failed(ENFILE))
      ensures e == Failed(EMFILE) <==> forall j :: start <= j < |fproc[who].filp| ==> fproc[who].filp[j] != NIL
      ensures e == Failed(ENFILE) ==> forall g :: 0 <= g < filp.Length ==> filp[g].count != 0
      ensures e != Done(0) ==> filp[..] == old(filp[..])
      ensures e == Done(0) ==>
        && start <= k < |fproc[who].filp| && fproc[who].filp[k] == NIL && (forall j :: start <= j < k ==> fproc[who].filp[j] != NIL)
        && f < filp.Length && filp[f].count == 0 && (forall g :: 0 <= g < f ==> filp[g].count != 0)
        && filp[..] == old(filp[..])[f := old(filp[f]).(mode := mode, pos := 0, nonblock := false)]
    {
      ghost var t := filp[..];
      k, f := start, 0;
      while k < |fproc[who].filp| && fproc[who].filp[k] != NIL
        invariant start <= k && forall j :: start <= j < k && j < |fproc[who].filp| ==> fproc[who].filp[j] != NIL
      {
        k := k + 1;
      }
      if k >= |fproc[who].filp| { return Failed(EMFILE), k, f; }
      while f < filp.Length && filp[f].count != 0
        invariant 0 <= f <= filp.Length && forall g :: 0 <= g < f ==> filp[g].count != 0
      {
        f := f + 1;
      }
      if f == filp.Length { return Failed(ENFILE), k, f; }
      filp[f] := filp[f].(mode := mode, pos := 0, nonblock := false);
      assert filp[..] == t[f := filp[f]];
      e := Done(0);
    }

    /** A new descriptor for slot f. */
    method Claim(who: nat, k: nat, f: nat)
      requires who < fproc.Length && k < |fproc[who].filp| && f < filp.Length
      modifies fproc, filp
      ensures fproc[..] == Point(old(fproc[..]), who, k, f)
      ensures filp[..] == old(filp[..])[f := old(filp[f]).(count := old(filp[f].count) + 1)]
      ensures Reviving(fproc[..]) == old(Reviving(fproc[..])) && Sleeping(fproc[..]) == old(Sleeping(fproc[..]))
    {
      ghost var s, t := fproc[..], filp[..];
      PointUses(s, who, k, f, 0);
      filp[f] := filp[f].(count := filp[f].count + 1);
      fproc[who] := fproc[who].(filp := fproc[who].filp[k := f]);
      assert fproc[..] == Point(s, who, k, f) && filp[..] == t[f := filp[f]];
    }

    /** do_fcntl, for F_DUPFD */
    method Dup(who: nat, fd: nat, start: nat) returns (r: Reply)
      requires Valid() && who < fproc.Length && !fproc[who].suspended && !fproc[who].reviving
      modifies fproc, filp
      ensures Valid()
      ensures r.Done? ==>
        && 0 <= r.value < |old(fproc[who].filp)| && start <= r.value && old(fproc[who].filp)[r.value] == NIL
        && fd < |old(fproc[who].filp)| && old(fproc[who].filp)[fd] != NIL
        && fproc[..] == Point(old(fproc[..]), who, r.value, old(fproc[who].filp)[fd])
        && 0 <= old(fproc[who].filp)[fd] < filp.Length
        && filp[old(fproc[who].filp)[fd]] == OnceMore(old(filp[..]), old(fproc[who].filp)[fd])
      ensures !r.Done? ==> fproc[..] == old(fproc[..])
      ensures r == Failed(EBADF) <==> !(fd < |old(fproc[who].filp)| && old(fproc[who].filp)[fd] != NIL)
    {
      hide Reviving, Sleeping, Base, NobodyInVain;
      if fd >= |fproc[who].filp| || fproc[who].filp[fd] == NIL { return Failed(EBADF); }
      var f := fproc[who].filp[fd];
      OpenNode(fproc[..], filp[..], inode[..], who, fd);
      ghost var t0 := filp[..];
      var e, k, g := GetFd(who, start, N);
      if e != Done(0) { return e; }
      ghost var s, t := fproc[..], filp[..];
      UnusedSlots(s, t0, inode[..], t);
      Shared(s, t, inode[..], who, k, f);
      Claim(who, k, f);
      if !torn { SameBlocked(s, fproc[..], locks.file_lock[..], init_proc_nr); }
      r := Done(k);
    }

    /** do_open, for a file that is found in the inode table and is not a pipe. */
    method OpenFile(who: nat, mode: Mode, ino: nat) returns (r: Reply)
      requires Valid() && who < fproc.Length && !fproc[who].suspended && !fproc[who].reviving
      requires ino < inode.Length && !inode[ino].pipe
      modifies fproc, filp, inode
      ensures Valid()
      ensures r.Done? ==>
        && 0 <= r.value < |old(fproc[who].filp)| && old(fproc[who].filp)[r.value] == NIL && r.value < |fproc[who].filp|
        && 0 <= fproc[who].filp[r.value] < filp.Length && old(filp[..])[fproc[who].filp[r.value]].count == 0
        && fproc[..] == Point(old(fproc[..]), who, r.value, fproc[who].filp[r.value])
        && filp[..] == old(filp[..])[fproc[who].filp[r.value] := Filp(1, ino, mode, 0, false)]
        && inode[..] == old(inode[..])[ino := old(inode[ino]).(count := old(inode[ino].count) + 1)]
      ensures !r.Done? ==> fproc[..] == old(fproc[..]) && inode[..] == old(inode[..])
    {
      hide Reviving, Sleeping, Base, NobodyInVain;
      ghost var t0 := filp[..];
      var e, k, f := GetFd(who, 0, mode);
      if e != Done(0) { return e; }
      ghost var s, t, n := fproc[..], filp[..], inode[..];
      ghost var x := Filp(1, ino, mode, 0, false);
      UnusedSlots(s, t0, n, t);
      Opened(s, t, n, who, k, f, x, n[ino].(count := n[ino].count + 1));
      Claim(who, k, f);
      filp[f] := filp[f].(ino := ino);
      inode[ino] := inode[ino].(count := inode[ino].count + 1);
      assert filp[..] == t[f := x] && t[f := x] == t0[f := x];
      assert inode[..] == n[ino := n[ino].(count := n[ino].count + 1)];
      if !torn { SameBlocked(s, fproc[..], locks.file_lock[..], init_proc_nr); }
      r := Done(k);
    }

    /** do_pipe; room tells whether an inode can be allocated on the pipe device. */
    method MakePipe(who: nat, room: bool) returns (r: Reply, fd0: nat, fd1: nat)
      requires Valid() && who < fproc.Length && !fproc[who].suspended && !fproc[who].reviving
      modifies fproc, filp, inode
      ensures Valid()
      ensures r != Done(0) ==> fproc[..] == old(fproc[..]) && inode[..] == old(inode[..]) && SameInUse(old(filp[..]), filp[..])
      ensures r == Done(0) ==>
        && FirstTwo(old(fproc[..]), who, fd0, fd1)
        && NewPipe(old(fproc[..]), fproc[..], old(filp[..]), filp[..], old(inode[..]), inode[..], who, fd0, fd1)
    {
      hide Reviving, Sleeping, Base, NobodyInVain;
      ghost var s, t, n := fproc[..], filp[..], inode[..];
      var e, f0, f1;
      e, fd0, fd1, f0, f1 := ClaimTwo(who);
      if e != Done(0) {
        UnusedSlots(s, t, n, filp[..]);
        return e, fd0, fd1;
      }
      var ino := FreeInode();
      if !room || ino == NIL {
        Unclaim(who, fd1, f1, Point(s, who, fd0, f0), t[f0 := filp[f0]]);
        Unclaim(who, fd0, f0, s, t);
        UnusedSlots(s, t, n, filp[..]);
        return Failed(ENFILE), fd0, fd1;
      }
      filp[f0] := filp[f0].(ino := ino);
      filp[f1] := filp[f1].(ino := ino);
      inode[ino] := Inode(true, [], 2);
      NodeCount(s, t, n, ino);
      Piped(s, t, n, who, fd0, fd1, f0, f1, ino);
      assert inode[..] == n[ino := Inode(true, [], 2)];
      assert filp[..] == t[f0 := Filp(1, ino, R, 0, false)][f1 := Filp(1, ino, W, 0, false)];
      assert AsPipe(s, fproc[..], t, filp[..], n, inode[..], who, fd0, fd1, f0, f1, ino);
      if !torn { SameBlocked(s, fproc[..], locks.file_lock[..], init_proc_nr); }
      r := Done(0);
    }

    /** do_pipe: two descriptors, with a slot for each. */
    method ClaimTwo(who: nat) returns (e: Reply, fd0: nat, fd1: nat, f0: nat, f1: nat)
      requires who < fproc.Length
      modifies fproc, filp
      ensures e == Done(0) || e == Failed(EMFILE) || e == Failed(ENFILE)
      ensures e != Done(0) ==> fproc[..] == old(fproc[..]) && SameInUse(old(filp[..]), filp[..])
      ensures e == Done(0) ==>
        && FirstTwo(old(fproc[..]), who, fd0, fd1) && f0 < filp.Length && f1 < filp.Length && f0 != f1
        && old(filp[f0].count) == 0 && old(filp[f1].count) == 0
        && fproc[..] == Point(Point(old(fproc[..]), who, fd0, f0), who, fd1, f1)
        && filp[..] == old(filp[..])[f0 := Filp(1, filp[f0].ino, R, 0, false)][f1 := Filp(1, filp[f1].ino, W, 0, false)]
      ensures Reviving(fproc[..]) == old(Reviving(fproc[..])) && Sleeping(fproc[..]) == old(Sleeping(fproc[..]))
    {
      hide Reviving, Sleeping;
      ghost var s, t := fproc[..], filp[..];
      fd1, f1 := 0, 0;
      e, fd0, f0 := GetFd(who, 0, R);
      if e != Done(0) { return; }
      Claim(who, fd0, f0);
      e, fd1, f1 := GetFd(who, 0, W);
      if e != Done(0) {
        Unclaim(who, fd0, f0, s, t);
        return;
      }
      Claim(who, fd1, f1);
      forall k | 0 <= k < fd1 && k != fd0 ensures s[who].filp[k] != NIL { assert Point(s, who, fd0, f0)[who].filp[k] == s[who].filp[k]; }
    }

    /** do_pipe gives a descriptor back, and its slot. */
    method Unclaim(who: nat, k: nat, f: nat, ghost s: seq<Proc>, ghost t: seq<Filp>)
      requires who < |s| && k < |s[who].filp| && s[who].filp[k] == NIL && fproc[..] == Point(s, who, k, f)
      requires f < filp.Length == |t| && t[f].count == 0
      requires forall g :: 0 <= g < |t| && g != f ==> filp[g] == t[g] || (filp[g].count == 0 && t[g].count == 0)
      modifies fproc, filp
      ensures fproc[..] == s && SameInUse(t, filp[..])
    {
      fproc[who] := fproc[who].(filp := fproc[who].filp[k := NIL]);
      filp[f] := filp[f].(count := 0);
      assert s[who].filp[k := f][k := NIL] == s[who].filp;
      assert fproc[..] == s;
    }

    /** get_inode: the last entry of the inode table that is not in use. */
    method FreeInode() returns (ino: int)
      ensures ino == NIL ==> forall i :: 0 <= i < inode.Length ==> inode[i].count > 0
      ensures ino != NIL ==> 0 <= ino < inode.Length && inode[ino].count <= 0 && forall i :: ino < i < inode.Length ==> inode[i].count > 0
    {
      ino := NIL;
      var rip := 0;
      while rip < inode.Length
        invariant 0 <= rip <= inode.Length
        invariant ino == NIL ==> forall i :: 0 <= i < rip ==> inode[i].count > 0
        invariant ino != NIL ==> 0 <= ino < rip && inode[ino].count <= 0 && forall i :: ino < i < rip ==> inode[i].count > 0
      {
        if inode[rip].count <= 0 { ino := rip; }
        rip := rip + 1;
      }
    }

    /** do_fork: the child, whose entry is free, shares all that is open with its parent. */
    method Fork(parent: nat, child: nat, pid: int)
      requires Valid() && parent < fproc.Length && child < fproc.Length && !fproc[parent].suspended && !fproc[parent].reviving
      requires !fproc[child].suspended && !fproc[child].reviving && forall k :: 0 <= k < |fproc[child].filp| ==> fproc[child].filp[k] == NIL
      modifies fproc, filp
      ensures Valid() && fproc[..] == old(fproc[..])[child := old(fproc[parent]).(pid := pid)]
      ensures forall f :: 0 <= f < filp.Length ==>
        filp[f] == old(filp[f]).(count := old(filp[f].count) + Uses(old(fproc[parent]), f))
    {
      hide Tables, Counts, Blocked, Uses;
      ghost var s, t, n := fproc[..], filp[..], inode[..];
      Descriptors(s, t, n, parent);
      StillAwake(s, child, fproc[parent].(pid := pid), susp_count, reviving);
      fproc[child] := fproc[parent];
      ShareAll(child);
      fproc[child] := fproc[child].(pid := pid);
      assert fproc[..] == s[child := fproc[child]];
      Forked(s, t, n, parent, child, fproc[child], filp[..]);
      if !torn { SameBlocked(s, fproc[..], locks.file_lock[..], init_proc_nr); }
    }

    /** do_fork: every slot counts one more descriptor for each time that the child refers to it. */
    method ShareAll(child: nat)
      requires child < fproc.Length
      requires forall k :: 0 <= k < |fproc[child].filp| ==> fproc[child].filp[k] == NIL || 0 <= fproc[child].filp[k] < filp.Length
      modifies filp
      ensures forall f :: 0 <= f < filp.Length ==> filp[f] == old(filp[f]).(count := old(filp[f].count) + Uses(fproc[child], f))
    {
      ghost var d, t := fproc[child].filp, filp[..];
      var i := 0;
      while i < |fproc[child].filp|
        invariant 0 <= i <= |d|
        invariant forall f :: 0 <= f < filp.Length ==> filp[f] == t[f].(count := t[f].count + multiset(d[..i])[f])
      {
        assert d[..i + 1] == d[..i] + [d[i]];
        if fproc[child].filp[i] != NIL {
          var f := fproc[child].filp[i];
          filp[f] := filp[f].(count := filp[f].count + 1);
        }
        i := i + 1;
      }
      assert d[..i] == d;
    }

    /** do_fcntl, for F_SETFL */
    method SetFlags(who: nat, fd: nat, nonblock: bool) returns (r: Reply)
      requires Valid() && who < fproc.Length
      modifies filp
      ensures Valid() && r == if fd < |fproc[who].filp| && fproc[who].filp[fd] != NIL then Done(0) else Failed(EBADF)
      ensures r == Done(0) ==>
        && 0 <= fproc[who].filp[fd] < filp.Length
        && filp[..] == old(filp[..])[fproc[who].filp[fd] := old(filp[..])[fproc[who].filp[fd]].(nonblock := nonblock)]
      ensures r != Done(0) ==> filp[..] == old(filp[..])
    {
      hide Reviving, Sleeping, Base, NobodyInVain, Blocked;
      if fd >= |fproc[who].filp| || fproc[who].filp[fd] == NIL { return Failed(EBADF); }
      ghost var s, t, n := fproc[..], filp[..], inode[..];
      var f := fproc[who].filp[fd];
      OpenNode(s, t, n, who, fd);
      filp[f] := filp[f].(nonblock := nonblock);
      assert filp[..] == t[f := filp[f]];
      Flagged(s, t, n, f, nonblock);
      r := Done(0);
    }

    // ----- processes that are stopped

    /** do_unpause: a signal ends the call that a process sleeps in. */
    method Unpause(p: nat)
      requires p < fproc.Length && !fproc[p].reviving && Tables(fproc[..], filp[..], inode[..]) && Locking()
      requires reviving == Reviving(fproc[..]) && susp_count >= Sleeping(fproc[..]) - Asl(fproc[p])
      modifies fproc
      ensures Valid() && fproc[..] == old(fproc[..])[p := old(fproc[p]).(suspended := false)]
    {
      hide Reviving, Sleeping, Base, NobodyInVain;
      ghost var s := fproc[..];
      CountUpdate(s, p, fproc[p].(suspended := false), 0);
      WakesUp(s, filp[..], inode[..], p, fproc[p].(suspended := false));
      fproc[p] := fproc[p].(suspended := false);
      assert fproc[..] == s[p := fproc[p]];
      if !torn { SameBlocked(s, fproc[..], locks.file_lock[..], init_proc_nr); }
    }

    /** do_exit: a process that ends, wherever it is, closes all its files. */
    method Exit(exitee: nat)
      requires Valid() && exitee < fproc.Length && !fproc[exitee].reviving
      modifies this, fproc, filp, inode, locks, locks.file_lock
      ensures Valid() && !fproc[exitee].suspended && !fproc[exitee].reviving
      ensures forall k :: 0 <= k < |fproc[exitee].filp| ==> fproc[exitee].filp[k] == NIL
      ensures fproc[exitee] == old(fproc[exitee]).(suspended := false, filp := fproc[exitee].filp)
      ensures Roused(old(fproc[..]), fproc[..], exitee)
    {
      hide Tables, Base, Blocked;
      if fproc[exitee].suspended {
        if fproc[exitee].task == XPIPE { susp_count := susp_count - 1; }
        Unpause(exitee);
      }
      var n := |fproc[exitee].filp|;
      ghost var s := fproc[..];
      var i := 0;
      while i < n
        invariant 0 <= i <= n == |fproc[exitee].filp| && Valid() && !fproc[exitee].suspended && !fproc[exitee].reviving
        invariant forall k :: 0 <= k < i ==> fproc[exitee].filp[k] == NIL
        invariant fproc[exitee] == s[exitee].(filp := fproc[exitee].filp) && Roused(s, fproc[..], exitee)
      {
        var r := Close(exitee, i);
        i := i + 1;
      }
    }

    // ----- calls, and runs of them

    /** read_write, for a pipe: got is what was read, and sent how much was written. */
    method ReadWrite(who: nat, call: Call, fd: nat, buf: seq<int>, upto: nat) returns (r: Reply, got: seq<int>, ghost sent: nat)
      requires Valid() && Awake(who) && call != FCNTL && Leads(who, fd, true)
      modifies this`susp_count, this`reviving, fproc, filp, inode
      ensures Valid() && sent <= |buf|
      ensures r == Failed(EBADF) <==> !CanUse(old(fproc[..]), old(filp[..]), who, fd, if call == READ then R else W)
      ensures r == Failed(EBADF) || buf == [] ==> filp[..] == old(filp[..]) && inode[..] == old(inode[..]) && fproc[..] == old(fproc[..])
      ensures r != Failed(EBADF) ==> 0 <= old(fproc[who].filp)[fd] < filp.Length && (buf == [] ==> r == Done(0))
      ensures r != Failed(EBADF) && buf != [] ==>
        if call == READ then Consumed(old(filp[..]), old(inode[..]), filp[..], inode[..], old(fproc[who].filp)[fd], got)
        else Extended(old(filp[..]), old(inode[..]), filp[..], inode[..], old(fproc[who].filp)[fd], buf[..sent])
      ensures r == NoReply ==>
        && Waits(fproc[..], filp[..], who, call, filp[old(fproc[who].filp)[fd]].ino)
        && fproc[who].buf == if call == READ then buf else buf[sent..]
    {
      hide Reviving, Sleeping, Base, NobodyInVain, Slots, Blocked;
      got, sent := [], 0;
      if fd >= |fproc[who].filp| || fproc[who].filp[fd] == NIL { return Failed(EBADF), got, sent; }
      OpenNode(fproc[..], filp[..], inode[..], who, fd);
      var f := fproc[who].filp[fd];
      PipeMode(fproc[..], filp[..], inode[..], f);
      if filp[f].mode != (if call == READ then R else W) { return Failed(EBADF), got, sent; }
      if buf == [] { return Done(0), got, sent; }
      if call == READ {
        r, got := PipeRead(who, fd, f, buf, upto);
      } else if filp[f].pos > max_size - |buf| {
        ExtendedByNothing(filp[..], inode[..], f, buf);
        r := Failed(EFBIG);
      } else {
        ghost var room;
        r, room := PipeWrite(who, fd, f, buf, upto);
        sent := if upto < room then upto else room;
      }
    }

    /** do_fcntl and lock_op: kind UNUSED stands for F_UNLCK; found is the lock that is in the way of F_GETLK. The area is counted
        from where the descriptor or the end of the file is at the time of the call. */
    method Lock(who: nat, fd: nat, req: L.Request, kind: L.Kind, area: L.Area, place: Place) returns (r: Reply, found: int)
      requires Valid() && Awake(who)
      modifies this, fproc, locks, locks.file_lock
      ensures Valid()
      ensures r == Failed(EBADF) <==>
        !IsOpen(fproc[..], who, fd) || (!BadLock(fproc[..], filp[..], inode[..], who, fd, req, kind) && req != L.GETLK &&
        ((kind == L.RDLCK && !CanUse(fproc[..], filp[..], who, fd, R)) || (kind == L.WRLCK && !CanUse(fproc[..], filp[..], who, fd, W))))
      ensures r == Failed(EINVAL) <==>
        r != Failed(EBADF) &&
        (BadLock(fproc[..], filp[..], inode[..], who, fd, req, kind) || !L.IsArea(area, place.pos, place.size))
      ensures r == Failed(EBADF) || r == Failed(EINVAL) || req == L.GETLK || r == Failed(EAGAIN) ==>
        locks.file_lock[..] == old(locks.file_lock[..]) && fproc[..] == old(fproc[..])
      ensures r == NoReply ==>
        && req == L.SETLKW && LockWait(fproc[who]) && InTheWay(locks.file_lock[..], fproc[who].want) && fproc[who].area == area
        && fproc[who].want.(ino := 0) ==
             L.FileLock(kind, fproc[who].pid, 0, L.FirstOf(area, place.pos, place.size), L.LastOf(area, place.pos, place.size))
    {
      hide Reviving, Sleeping, Base, NobodyInVain, Slots, Blocked, L.IsArea, L.FirstOf, L.LastOf;
      found := NIL;
      if fd >= |fproc[who].filp| || fproc[who].filp[fd] == NIL { return Failed(EBADF), found; }
      OpenNode(fproc[..], filp[..], inode[..], who, fd);
      var f := fproc[who].filp[fd];
      if req == L.GETLK && kind == L.UNUSED { return Failed(EINVAL), found; }
      if inode[filp[f].ino].pipe { return Failed(EINVAL), found; }
      if req != L.GETLK && kind == L.RDLCK && !Has(filp[f].mode, R) { return Failed(EBADF), found; }
      if req != L.GETLK && kind == L.WRLCK && !Has(filp[f].mode, W) { return Failed(EBADF), found; }
      var ok, first, last := L.LockTable.Range(area, place.pos, place.size);
      if !ok { return Failed(EINVAL), found; }
      if kind == L.UNUSED {
        r := Unlock(filp[f].ino, first, last);
      } else if req == L.GETLK {
        found := locks.GetLock(kind, fproc[who].pid, filp[f].ino, first, last);
        r := Done(0);
      } else {
        r := SetLock(who, fd, req == L.SETLKW, L.FileLock(kind, fproc[who].pid, filp[f].ino, first, last), area);
      }
    }

    /** get_work and main: the process to be revived makes its call again. */
    method Again(upto: nat, place: Place)
      requires Valid() && reviving != 0
      modifies this, fproc, filp, inode, locks, locks.file_lock
      ensures Valid()
    {
      hide Reviving, Sleeping, Base, NobodyInVain, Slots, Blocked;
      var who := ReviveOne();
      var p := fproc[who];
      if p.call == FCNTL {
        var r, found := Lock(who, p.fd, L.SETLKW, p.want.kind, p.area, place);
      } else {
        var r, got, sent := ReadWrite(who, p.call, p.fd, p.buf, upto);
      }
    }

    /** Who sends a message is not waiting for an answer to another one. Reading and writing what is not a pipe is not part of
        this; the memory manager forks into free entries only. */
    predicate Possible(m: Message)
      reads fproc, filp, inode
    {
      match m
      case READING(who, fd, buf, upto) => Awake(who) && Leads(who, fd, true)
      case WRITING(who, fd, buf, upto) => Awake(who) && Leads(who, fd, true)
      case LOCKING(who, fd, req, kind, area) => Awake(who)
      case OPENING(who, mode, ino) => Awake(who) && ino < inode.Length && !inode[ino].pipe
      case PIPING(who, room) => Awake(who)
      case DUPPING(who, fd, start) => Awake(who)
      case SETTING(who, fd, nonblock) => Awake(who)
      case CLOSING(who, fd) => Awake(who)
      case FORKING(parent, child, pid) =>
        Awake(parent) && Awake(child) && forall k :: 0 <= k < |fproc[child].filp| ==> fproc[child].filp[k] == NIL
      case EXITING(who) => who < fproc.Length
      case SIGNALLED(who) => who < fproc.Length
    }

    predicate Awake(who: nat)
      reads fproc
    {
      who < fproc.Length && !fproc[who].suspended && !fproc[who].reviving
    }

    /** If descriptor fd refers to anything, it is a pipe, or is not one. */
    predicate Leads(who: nat, fd: nat, pipe: bool)
      reads fproc, filp, inode
    {
      who < fproc.Length && fd < |fproc[who].filp| && 0 <= fproc[who].filp[fd] < filp.Length ==>
        IsPipe(inode[..], filp[fproc[who].filp[fd]].ino) == pipe
    }

    /** main: a process that is to be revived makes its call again; only when there is none is the next message taken. */
    method Step(m: Message, upto: nat, place: Place)
      requires Valid()
      modifies this, fproc, filp, inode, locks, locks.file_lock
      ensures Valid()
    {
      if reviving != 0 {
        Again(upto, place);
      } else if Possible(m) {
        NoneReviving(fproc[..]);
        Serve(m, place);
      }
    }

    /** main: a message is served. */
    method Serve(m: Message, place: Place)
      requires Valid() && Possible(m) && forall i :: 0 <= i < fproc.Length ==> !fproc[i].reviving
      modifies this, fproc, filp, inode, locks, locks.file_lock
      ensures Valid()
    {
      hide Reviving, Sleeping, Base, NobodyInVain, Slots, Blocked, Counts, Tables, Locking;
      match m
      case READING(who, fd, buf, upto) => var r, got, sent := ReadWrite(who, READ, fd, buf, upto);
      case WRITING(who, fd, buf, upto) => var r, got, sent := ReadWrite(who, WRITE, fd, buf, upto);
      case LOCKING(who, fd, req, kind, area) => var r, found := Lock(who, fd, req, kind, area, place);
      case OPENING(who, mode, ino) => var r := OpenFile(who, mode, ino);
      case PIPING(who, room) => var r, fd0, fd1 := MakePipe(who, room);
      case DUPPING(who, fd, start) => var r := Dup(who, fd, start);
      case SETTING(who, fd, nonblock) => var r := SetFlags(who, fd, nonblock);
      case CLOSING(who, fd) => var r := Close(who, fd);
      case FORKING(parent, child, pid) => Fork(parent, child, pid);
      case EXITING(who) => Exit(who);
      case SIGNALLED(who) => Signal(who);
    }

    /** do_unpause, as called by the memory manager. */
    method Signal(who: nat)
      requires Valid() && who < fproc.Length && !fproc[who].reviving
      modifies fproc
      ensures Valid() && fproc[..] == old(fproc[..])[who := old(fproc[who]).(suspended := false)]
    {
      if !fproc[who].suspended {
        assert fproc[..][who := fproc[who].(suspended := false)] == fproc[..];
        return;
      }
      Unpause(who);
    }

    /** main, for any number of messages; how much a device can transfer, and where files and descriptors that are not those of
        pipes are, may be different each time. */
    method Run(ms: seq<Message>, upto: seq<nat>, places: seq<Place>)
      requires Valid() && |upto| == |places| == |ms|
      modifies this, fproc, filp, inode, locks, locks.file_lock
      ensures Valid()
      ensures forall i, j, ino {:trigger Waits(fproc[..], filp[..], i, READ, ino), Waits(fproc[..], filp[..], j, WRITE, ino)} ::
        !(Waits(fproc[..], filp[..], i, READ, ino) && Waits(fproc[..], filp[..], j, WRITE, ino))
    {
      hide Base, Waits, Counts, Locking;
      var k := 0;
      while k < |ms|
        invariant 0 <= k <= |ms| && Valid()
      {
        Step(ms[k], upto[k], places[k]);
        k := k + 1;
      }
      NotBothAsleep(fproc[..], filp[..], inode[..]);
    }
  }

  /** How many bytes of so many a writer at this position can write at once. */
  function Room(read: bool, position: nat, bytes: nat): nat {
    if !read then 0
    else if position + bytes <= PIPE_SIZE then bytes
    else if bytes <= PIPE_SIZE || position >= PIPE_SIZE then 0
    else PIPE_SIZE - position
  }

  /** What a writer is told that cannot write now. */
  function AfterCheckWrite(read: bool, nonblock: bool, bytes: nat): Reply {
    if !read then Failed(EPIPE) else if nonblock && bytes != PIPE_SIZE then Failed(EAGAIN) else NoReply
  }

  lemma WriterPlace(s: seq<Proc>, t: seq<Filp>, n: seq<Inode>, i: nat, fd: nat, buf: seq<int>)
    requires Base(s, t, n) && i < |s| && !s[i].suspended && !s[i].reviving && fd < |s[i].filp| && 0 <= s[i].filp[fd] < |t|
    requires IsPipe(n, t[s[i].filp[fd]].ino) && t[s[i].filp[fd]].mode == W && buf != []
    ensures |n[t[s[i].filp[fd]].ino].data| == t[s[i].filp[fd]].pos && t[s[i].filp[fd]].count > 0
    ensures FallsAsleep(s, t, n, i, Asleep(s[i], WRITE, fd, buf)) && Ends(t, n)
  {
    InUse(s, t, i, fd);
    assert InPlace(t[s[i].filp[fd]], n);
  }

  lemma ReaderPlace(s: seq<Proc>, t: seq<Filp>, n: seq<Inode>, i: nat, fd: nat)
    requires Base(s, t, n) && i < |s| && fd < |s[i].filp| && 0 <= s[i].filp[fd] < |t|
    requires IsPipe(n, t[s[i].filp[fd]].ino) && t[s[i].filp[fd]].mode == R
    ensures t[s[i].filp[fd]].count > 0 && Ends(t, n)
    ensures t[s[i].filp[fd]].pos < |n[t[s[i].filp[fd]].ino].data| || (t[s[i].filp[fd]].pos == 0 && n[t[s[i].filp[fd]].ino].data == [])
  {
    InUse(s, t, i, fd);
    assert InPlace(t[s[i].filp[fd]], n);
  }

  /** While there is something in a pipe, nobody sleeps reading from it. */
  lemma NobodyReads(s: seq<Proc>, t: seq<Filp>, n: seq<Inode>, ino: nat)
    requires Tables(s, t, n) && IsPipe(n, ino) && n[ino].data != []
    ensures forall j :: !Waits(s, t, j, READ, ino)
  {
    forall j ensures !Waits(s, t, j, READ, ino) { assert ReaderOk(s, t, n, j, ino); }
  }

  function Least(a: nat, b: nat, c: nat): nat {
    if a <= b && a <= c then a else if b <= c then b else c
  }

  /** What can still be read through slot f. */
  function Pending(t: seq<Filp>, n: seq<Inode>, f: nat): seq<int> {
    if f < |t| && IsPipe(n, t[f].ino) && t[f].pos <= |n[t[f].ino].data| then n[t[f].ino].data[t[f].pos..] else []
  }

  /** What was read through slot f came first; only this pipe changes. */
  predicate Consumed(t: seq<Filp>, n: seq<Inode>, u: seq<Filp>, m: seq<Inode>, f: nat, got: seq<int>) {
    && Moved(t, u) && f < |t| && IsPipe(n, t[f].ino) && |n| == |m|
    && (forall i :: 0 <= i < |n| ==> if i == t[f].ino then m[i] == n[i].(data := m[i].data) else m[i] == n[i])
    && (forall g :: 0 <= g < |t| && t[g].ino != t[f].ino ==> u[g] == t[g])
    && got + Pending(u, m, f) == Pending(t, n, f)
  }

  lemma TookAll(t: seq<Filp>, n: seq<Inode>, u: seq<Filp>, f: nat, got: seq<int>)
    requires f < |t| && IsPipe(n, t[f].ino) && Rewound(t, u, t[f].ino) && t[f].count > 0 && t[f].pos <= |n[t[f].ino].data|
    requires got == n[t[f].ino].data[t[f].pos..]
    ensures Consumed(t, n, u, n[t[f].ino := n[t[f].ino].(data := [])], f, got)
  {
  }

  lemma TookSome(t: seq<Filp>, n: seq<Inode>, f: nat, k: nat)
    requires f < |t| && IsPipe(n, t[f].ino) && t[f].pos + k < |n[t[f].ino].data|
    ensures Consumed(t, n, t[f := t[f].(pos := t[f].pos + k)], n, f, n[t[f].ino].data[t[f].pos..t[f].pos + k])
  {
  }

  /** b has been put at the end of the pipe that slot f is the writing end of. */
  predicate Extended(t: seq<Filp>, n: seq<Inode>, u: seq<Filp>, m: seq<Inode>, f: nat, b: seq<int>) {
    && f < |t| && 0 <= t[f].ino < |n| && u == t[f := t[f].(pos := t[f].pos + |b|)]
    && m == n[t[f].ino := n[t[f].ino].(data := n[t[f].ino].data + b)]
  }

  /** What a reader is told that got so many bytes of those pending. */
  function ReadReply(pending: seq<int>, bytes: nat, got: nat, partial: nat, written: bool, nonblock: bool): Reply {
    if pending == [] then AfterCheck(written, nonblock)
    else if got < Least(bytes, |pending|, bytes) then Failed(EIO)
    else Done(partial + got)
  }

  /** What a writer is told for whom there was so much room. */
  function WriteReply(room: nat, upto: nat, bytes: nat, partial: nat, read: bool, nonblock: bool): Reply {
    if room == 0 then AfterCheckWrite(read, nonblock, bytes)
    else if upto < room then Failed(EIO)
    else if room < bytes && !nonblock then NoReply
    else Done(partial + room)
  }

  lemma ExtendedByNothing(t: seq<Filp>, n: seq<Inode>, f: nat, buf: seq<int>)
    requires f < |t| && 0 <= t[f].ino < |n|
    ensures Extended(t, n, t, n, f, buf[..0])
  {
    assert n[t[f].ino].data + buf[..0] == n[t[f].ino].data;
    assert t[f := t[f].(pos := t[f].pos + |buf[..0]|)] == t;
  }

  lemma MovedOpen(t: seq<Filp>, u: seq<Filp>, ino: int, mode: Mode)
    requires Moved(t, u)
    ensures Open(u, ino, mode) == Open(t, ino, mode)
  {
    if Open(t, ino, mode) {
      var f :| 0 <= f < |t| && t[f].count > 0 && t[f].ino == ino && t[f].mode == mode;
      assert u[f].count > 0 && u[f].ino == ino && u[f].mode == mode;
    }
    if Open(u, ino, mode) {
      var f :| 0 <= f < |u| && u[f].count > 0 && u[f].ino == ino && u[f].mode == mode;
      assert t[f].count > 0 && t[f].ino == ino && t[f].mode == mode;
    }
  }

  lemma NotWoken(s: seq<Proc>, t: seq<Filp>, call: Call, ino: int)
    requires forall j :: !Waits(s, t, j, call, ino)
    ensures Woken(s, s, t, call, ino, |s|)
  {
  }

  /** What a process is told that wants a lock. */
  function LockReply(conflict: bool, wait: bool, full: bool): Reply {
    if conflict then (if wait then NoReply else Failed(EAGAIN)) else if full then Failed(ENOLCK) else Done(0)
  }

  /** p, suspended until it can have a lock. */
  function Waiting(p: Proc, fd: nat, want: L.FileLock, area: L.Area): Proc {
    p.(suspended := true, task := XLOCK, call := FCNTL, fd := fd, want := want, area := area)
  }

  /** All but process who are as they were, or have been woken up. */
  predicate Roused(s: seq<Proc>, u: seq<Proc>, who: int) {
    |s| == |u| && forall i :: 0 <= i < |s| && i != who ==> u[i] == s[i] || (s[i].suspended && u[i] == s[i].(reviving := true))
  }

  function OnceMore(t: seq<Filp>, f: nat): Filp
    requires f < |t|
  {
    t[f].(count := t[f].count + 1)
  }

  /** What is open is the same. */
  predicate SameInUse(t: seq<Filp>, u: seq<Filp>) {
    |t| == |u| && forall f :: 0 <= f < |t| ==> u[f] == t[f] || (t[f].count == 0 && u[f].count == 0)
  }

  /** The first two descriptors that are free. */
  predicate FirstTwo(s: seq<Proc>, who: nat, fd0: nat, fd1: nat) {
    && who < |s| && fd0 < fd1 < |s[who].filp| && s[who].filp[fd0] == NIL && s[who].filp[fd1] == NIL
    && forall k :: 0 <= k < fd1 && k != fd0 ==> s[who].filp[k] != NIL
  }

  /** Descriptors fd0 and fd1 are the ends of a new empty pipe. */
  ghost predicate NewPipe(s: seq<Proc>, s': seq<Proc>, t: seq<Filp>, t': seq<Filp>, n: seq<Inode>, n': seq<Inode>,
                          who: nat, fd0: nat, fd1: nat)
  {
    exists f0, f1, ino: nat :: AsPipe(s, s', t, t', n, n', who, fd0, fd1, f0, f1, ino)
  }

  ghost predicate AsPipe(s: seq<Proc>, s': seq<Proc>, t: seq<Filp>, t': seq<Filp>, n: seq<Inode>, n': seq<Inode>,
                         who: nat, fd0: nat, fd1: nat, f0: nat, f1: nat, ino: nat)
  {
    && who < |s| && fd0 < fd1 < |s[who].filp| && f0 < |t| && f1 < |t| && f0 != f1 && ino < |n|
    && t[f0].count == 0 && t[f1].count == 0 && n[ino].count == 0
    && s' == Point(Point(s, who, fd0, f0), who, fd1, f1)
    && t' == t[f0 := Filp(1, ino, R, 0, false)][f1 := Filp(1, ino, W, 0, false)]
    && n' == n[ino := Inode(true, [], 2)]
  }

  lemma Flagged(s: seq<Proc>, t: seq<Filp>, n: seq<Inode>, f: nat, nonblock: bool)
    requires Tables(s, t, n) && f < |t|
    ensures Tables(s, t[f := t[f].(nonblock := nonblock)], n)
  {
    var w := t[f := t[f].(nonblock := nonblock)];
    forall j | 0 <= j < |s| ensures Sound(s[j], s, w, n, j) { assert Sound(s[j], s, t, n, j); }
    forall g ensures Counted(s, w, g) { assert Counted(s, t, g); }
    forall k ensures Held(w, n, k) { assert Held(t, n, k); SameHolders(t, w, k); }
    forall g | 0 <= g < |w| ensures InPlace(w[g], n) { assert InPlace(t[g], n); }
    forall g, h | 0 <= g < |w| && 0 <= h < |w| && SameEnd(w[g], w[h], n) ensures g == h { assert SameEnd(t[g], t[h], n); }
    FlaggedNobody(s, t, n, w);
  }

  lemma FlaggedNobody(s: seq<Proc>, t: seq<Filp>, n: seq<Inode>, w: seq<Filp>)
    requires NobodyInVain(s, t, n) && |t| == |w|
    requires forall f :: 0 <= f < |t| ==> w[f] == t[f].(nonblock := w[f].nonblock)
    ensures NobodyInVain(s, w, n)
  {
    forall k, mode | Open(t, k, mode) ensures Open(w, k, mode) {
      var f :| 0 <= f < |t| && t[f].count > 0 && t[f].ino == k && t[f].mode == mode;
      assert w[f].count > 0 && w[f].ino == k && w[f].mode == mode;
    }
    forall j, call, k ensures Waits(s, w, j, call, k) <==> Waits(s, t, j, call, k) {}
    forall j, k ensures ReaderOk(s, w, n, j, k) { assert ReaderOk(s, t, n, j, k); }
    forall j, k ensures WriterOk(s, w, n, j, k) { assert WriterOk(s, t, n, j, k); }
  }

  lemma NodeCount(s: seq<Proc>, t: seq<Filp>, n: seq<Inode>, ino: int)
    requires Base(s, t, n)
    ensures 0 <= ino < |n| ==> n[ino].count >= 0
  {
    assert Held(t, n, ino);
  }

  /** What descriptors refer to is in use. */
  lemma StillAwake(s: seq<Proc>, i: nat, p: Proc, susp_count: int, reviving: int)
    requires i < |s| && Counts(s, susp_count, reviving) && !s[i].suspended && !s[i].reviving && !p.suspended && !p.reviving
    ensures Counts(s[i := p], susp_count, reviving)
  {
    CountUpdate(s, i, p, 0);
  }

  /** A process that goes on is one less to be revived. */
  lemma GoesOn(s: seq<Proc>, t: seq<Filp>, n: seq<Inode>, i: nat, p: Proc, susp_count: int, reviving: int)
    requires Tables(s, t, n) && Counts(s, susp_count, reviving) && i < |s| && s[i].reviving && p == s[i].(suspended := false, reviving := false)
    ensures Tables(s[i := p], t, n) && Counts(s[i := p], susp_count, reviving - 1) && Sound(s[i], s, t, n, i)
  {
    hide Reviving, Sleeping;
    assert Sound(s[i], s, t, n, i);
    CountUpdate(s, i, p, 0);
    WakesUp(s, t, n, i, p);
  }

  lemma Descriptors(s: seq<Proc>, t: seq<Filp>, n: seq<Inode>, i: nat)
    requires Tables(s, t, n) && i < |s|
    ensures forall k :: 0 <= k < |s[i].filp| ==> s[i].filp[k] == NIL || 0 <= s[i].filp[k] < |t|
  {
  }

  predicate Has(m: Mode, bits: Mode) {
    m == bits || m == RW
  }

  predicate IsOpen(s: seq<Proc>, who: nat, fd: nat) {
    who < |s| && fd < |s[who].filp| && s[who].filp[fd] != NIL
  }

  /** Descriptor fd is open, for these uses at least. */
  predicate CanUse(s: seq<Proc>, t: seq<Filp>, who: nat, fd: nat, bits: Mode) {
    IsOpen(s, who, fd) && 0 <= s[who].filp[fd] < |t| && Has(t[s[who].filp[fd]].mode, bits)
  }

  predicate BadLock(s: seq<Proc>, t: seq<Filp>, n: seq<Inode>, who: nat, fd: nat, req: L.Request, kind: L.Kind) {
    (req == L.GETLK && kind == L.UNUSED) || (IsOpen(s, who, fd) && 0 <= s[who].filp[fd] < |t| && IsPipe(n, t[s[who].filp[fd]].ino))
  }

  lemma PipeMode(s: seq<Proc>, t: seq<Filp>, n: seq<Inode>, f: nat)
    requires Base(s, t, n) && f < |t| && t[f].count > 0 && IsPipe(n, t[f].ino)
    ensures t[f].mode == R || t[f].mode == W
  {
    assert InPlace(t[f], n);
  }

  /** The search of get_work for somebody to be revived succeeds whenever it is made. */
  lemma NoPanic(s: seq<Proc>, susp_count: int, reviving: int)
    requires Counts(s, susp_count, reviving)
    ensures reviving != 0 <==> exists i :: 0 <= i < |s| && s[i].reviving
  {
    if reviving != 0 { var i := SomeReviving(s); } else { NoneReviving(s); }
  }

  function OtherEnd(x: Filp): Call {
    if x.mode == R then WRITE else READ
  }

  /** Nobody sleeps at the other end of a pipe. */
  ghost predicate Forsaken(s: seq<Proc>, t: seq<Filp>, x: Filp) {
    var call := OtherEnd(x);
    forall j :: !Waits(s, t, j, call, x.ino)
  }

  lemma StillForsaken(s: seq<Proc>, t: seq<Filp>, u: seq<Proc>, w: seq<Filp>, i: nat, k: nat, f: nat)
    requires f < |t| && Forsaken(s, t, t[f]) && w == t[f := t[f].(count := t[f].count - 1)]
    requires i < |s| && k < |s[i].filp| && !s[i].suspended && u == Point(s, i, k, NIL)
    ensures Forsaken(u, w, t[f])
  {
    var call := OtherEnd(t[f]);
    forall j ensures !Waits(u, w, j, call, t[f].ino) {
      assert !Waits(s, t, j, call, t[f].ino);
      PointWaits(s, w, i, k, NIL, j, call, t[f].ino);
    }
  }

  /** The inode of an open file is in use. */
  lemma OpenNode(s: seq<Proc>, t: seq<Filp>, n: seq<Inode>, i: nat, k: nat)
    requires Base(s, t, n) && FilpOf(s, i, k) != NIL
    ensures 0 <= FilpOf(s, i, k) < |t|
    ensures t[FilpOf(s, i, k)].count > 0 && 0 <= t[FilpOf(s, i, k)].ino < |n| && n[t[FilpOf(s, i, k)].ino].count > 0
  {
    InUse(s, t, i, k);
    var f := FilpOf(s, i, k);
    assert Held(t, n, t[f].ino);
    HoldersOne(t, f, t[f].ino);
  }

  ghost predicate ClosedSlot(t: seq<Filp>, u: seq<Filp>, n: seq<Inode>, m: seq<Inode>, f: int) {
    && 0 <= f < |t| && 0 <= t[f].ino < |n| && u == t[f := t[f].(count := t[f].count - 1)]
    && m == n[t[f].ino := LeftBy(t, n, f)]
  }

  ghost predicate ClosedLocks(l: seq<L.FileLock>, k: seq<L.FileLock>, t: seq<Filp>, f: int, pid: int) {
    && 0 <= f < |t|
    && forall kind, p, n, x {:trigger L.Covers(k, kind, p, n, x)} ::
      L.Covers(k, kind, p, n, x) <==> L.Covers(l, kind, p, n, x) && !(n == t[f].ino && p == pid)
  }

  lemma AsleepForLock(s: seq<Proc>, t: seq<Filp>, n: seq<Inode>, i: nat, fd: nat, want: L.FileLock, area: L.Area)
    requires Base(s, t, n) && i < |s| && !s[i].suspended && !s[i].reviving
    requires want.kind != L.UNUSED && want.first <= want.last && want.pid == s[i].pid
    ensures FallsAsleep(s, t, n, i, Waiting(s[i], fd, want, area))
  {
  }

  /** An unlock that fails strands nobody if it has opened no byte. */
  lemma StillBlocked(s: seq<Proc>, t: seq<Filp>, n: seq<Inode>, l: seq<L.FileLock>, k: seq<L.FileLock>, ino: int, first: int, last: int, init: nat)
    requires Base(s, t, n) && Blocked(s, l, init) && L.Compatible(l) && L.Proper(l) && first <= last
    requires L.Scan(l, 0, ino, first, last) == (k, false) && !LW.Opened(l, k, ino, first, last)
    ensures Blocked(s, k, init)
  {
    LW.TornIff(l, k, ino, first, last);
    forall i | init < i < |s| && LockWait(s[i]) ensures InTheWay(k, s[i].want) {
      assert Sound(s[i], s, t, n, i) && InTheWay(l, s[i].want) && !LW.Freed(l, k, s[i].want);
    }
  }

  /** What those who wait for locks wait for makes sense. */
  ghost predicate ProperWants(s: seq<Proc>) {
    forall i :: 0 <= i < |s| && LockWait(s[i]) ==> s[i].want.kind != L.UNUSED && s[i].want.first <= s[i].want.last
  }

  /** An unlock that fails can leave a process asleep that nothing is in the way of any more, exactly if it has opened a byte. */
  lemma StrandsIff(l: seq<L.FileLock>, k: seq<L.FileLock>, ino: int, first: int, last: int, init: nat)
    requires L.Compatible(l) && L.Proper(l) && first <= last && L.Scan(l, 0, ino, first, last) == (k, false)
    ensures (exists s: seq<Proc> :: ProperWants(s) && Blocked(s, l, init) && !Blocked(s, k, init)) <==> LW.Opened(l, k, ino, first, last)
  {
    LW.TornIff(l, k, ino, first, last);
    if s: seq<Proc> :| ProperWants(s) && Blocked(s, l, init) && !Blocked(s, k, init) {
      var i :| init < i < |s| && LockWait(s[i]) && !InTheWay(k, s[i].want);
      assert InTheWay(l, s[i].want) && LW.Freed(l, k, s[i].want);
    }
    if w: L.FileLock :| LW.Freed(l, k, w) {
      var p := Proc(w.pid, true, false, XLOCK, FCNTL, 0, [], w, L.Area(0, 0, 0), 0, []);
      var s := Same(p.(suspended := false), init + 1) + [p];
      assert s[init + 1] == p && !InTheWay(k, s[init + 1].want);
      assert ProperWants(s) && Blocked(s, l, init) && !Blocked(s, k, init);
    }
  }

  function Same(p: Proc, n: nat): (s: seq<Proc>)
    ensures |s| == n && forall i :: 0 <= i < n ==> s[i] == p
  {
    if n == 0 then [] else Same(p, n - 1) + [p]
  }

  /** Waking up all that wait for locks. */
  lemma LocksWokenTables(s: seq<Proc>, u: seq<Proc>, t: seq<Filp>, n: seq<Inode>, init: nat, l: seq<L.FileLock>)
    requires Tables(s, t, n) && LocksWoken(s, u, init, |s|)
    ensures Tables(u, t, n) && Blocked(u, l, init)
    ensures forall j, call, k :: Waits(u, t, j, call, k) ==> Waits(s, t, j, call, k)
  {
    forall i | 0 <= i < |u| ensures u[i].filp == s[i].filp && Sound(u[i], s, t, n, i) { assert Sound(s[i], s, t, n, i); }
    SameFiles(s, u, t, n);
    FewerWaits(s, u, t, n);
  }

  /** Nobody sleeps reading or writing what is not a pipe. */
  lemma NobodyThere(s: seq<Proc>, t: seq<Filp>, n: seq<Inode>, call: Call, ino: int)
    requires NobodyInVain(s, t, n) && call != FCNTL && !IsPipe(n, ino)
    ensures forall j :: !Waits(s, t, j, call, ino)
  {
    forall j ensures !Waits(s, t, j, call, ino) { assert ReaderOk(s, t, n, j, ino) && WriterOk(s, t, n, j, ino); }
  }

  /** What a reader of an empty pipe is told. */
  function AfterCheck(written: bool, nonblock: bool): Reply {
    if !written then Done(0) else if nonblock then Failed(EAGAIN) else NoReply
  }

  /** p, suspended on a pipe. */
  function Asleep(p: Proc, call: Call, fd: nat, buf: seq<int>): Proc {
    p.(suspended := true, task := XPIPE, call := call, fd := fd, buf := buf)
  }

  lemma ReadEmpty(s: seq<Proc>, t: seq<Filp>, n: seq<Inode>, i: nat, fd: nat, buf: seq<int>)
    requires Base(s, t, n) && i < |s| && !s[i].suspended && !s[i].reviving && fd < |s[i].filp| && 0 <= s[i].filp[fd] < |t|
    requires IsPipe(n, t[s[i].filp[fd]].ino) && t[s[i].filp[fd]].mode == R && buf != []
    requires t[s[i].filp[fd]].pos >= |n[t[s[i].filp[fd]].ino].data|
    ensures n[t[s[i].filp[fd]].ino].data == [] && FallsAsleep(s, t, n, i, Asleep(s[i], READ, fd, buf)) && Ends(t, n)
  {
    InUse(s, t, i, fd);
    assert InPlace(t[s[i].filp[fd]], n);
  }

  /** Those among the first m, above init, that wait for a lock have been woken up. */
  predicate LocksWoken(s: seq<Proc>, u: seq<Proc>, init: int, m: int) {
    && |u| == |s|
    && forall i :: 0 <= i < |s| ==> u[i] == if init < i < m && s[i].suspended && s[i].task == XLOCK then s[i].(reviving := true) else s[i]
  }

  /** A process asleep in a call refers to a slot. */
  lemma NotYetWoken(s: seq<Proc>, t: seq<Filp>, call: Call, ip: int)
    ensures Woken(s, s, t, call, ip, 0)
  {
  }

  lemma WokenOne(s: seq<Proc>, u: seq<Proc>, t: seq<Filp>, call: Call, ip: int, i: nat)
    requires Woken(s, u, t, call, ip, i) && i < |s|
    ensures Woken(s, if Waits(s, t, i, call, ip) then u[i := s[i].(reviving := true)] else u, t, call, ip, i + 1)
  {
    hide Waits;
  }

  /** What release tests is whether process i waits. */
  lemma Matching(s: seq<Proc>, u: seq<Proc>, t: seq<Filp>, n: seq<Inode>, call: Call, ip: nat, i: nat)
    requires Base(s, t, n) && i < |s| && Woken(s, u, t, call, ip, i) && call != FCNTL
    ensures |u| == |s| && u[i] == s[i]
    ensures var p := s[i];
      && (p.suspended && p.call == call ==>
            Asl(p) == (if p.reviving then 0 else 1) && p.fd < |p.filp| && 0 <= p.filp[p.fd] < |t|)
      && (Waits(s, t, i, call, ip) <==> p.suspended && !p.reviving && p.call == call && t[p.filp[p.fd]].ino == ip)
  {
    hide Woken;
    WokenAt(s, u, t, call, ip, i);
    assert Sound(s[i], s, t, n, i);
  }

  lemma WokenAt(s: seq<Proc>, u: seq<Proc>, t: seq<Filp>, call: Call, ip: int, i: nat)
    requires Woken(s, u, t, call, ip, i) && i < |s|
    ensures |u| == |s| && u[i] == s[i]
  {
  }

  /** When nobody sleeps on pipes any more, all have been woken up. */
  lemma AllWoken(s: seq<Proc>, u: seq<Proc>, t: seq<Filp>, n: seq<Inode>, call: Call, ip: nat, m: nat)
    requires Base(s, t, n) && call != FCNTL && m <= |s| && Woken(s, u, t, call, ip, m) && forall i :: 0 <= i < |u| ==> Asl(u[i]) == 0
    ensures Woken(s, u, t, call, ip, |s|)
  {
    forall i | m <= i < |s| ensures !Waits(s, t, i, call, ip) {
      assert Sound(s[i], s, t, n, i);
      assert Asl(u[i]) == 0;
    }
  }

  /** A table of descriptors none of which is in use. */
  function Nothing(n: nat): (d: seq<int>)
    ensures |d| == n && forall k :: 0 <= k < n ==> d[k] == NIL
  {
    if n == 0 then [] else Nothing(n - 1) + [NIL]
  }

  lemma {:induction false} NoUses(s: seq<Proc>, f: nat)
    requires forall i, k :: 0 <= i < |s| && 0 <= k < |s[i].filp| ==> s[i].filp[k] == NIL
    requires forall i :: 0 <= i < |s| ==> !s[i].suspended && !s[i].reviving
    ensures Refs(s, f) == 0 && Reviving(s) == 0 && Sleeping(s) == 0
  {
    if s != [] {
      assert f !in s[|s| - 1].filp;
      NoUses(s[..|s| - 1], f);
    }
  }

  lemma {:induction false} NoHolders(t: seq<Filp>, ino: int)
    requires forall f :: 0 <= f < |t| ==> t[f].count == 0
    ensures Holders(t, ino) == 0
  {
    if t != [] { NoHolders(t[..|t| - 1], ino); }
  }

  lemma Initially(s: seq<Proc>, t: seq<Filp>, n: seq<Inode>)
    requires forall i, k :: 0 <= i < |s| && 0 <= k < |s[i].filp| ==> s[i].filp[k] == NIL
    requires forall i :: 0 <= i < |s| ==> !s[i].suspended && !s[i].reviving
    requires forall f :: 0 <= f < |t| ==> t[f].count == 0
    requires forall i :: 0 <= i < |n| ==> n[i] == Inode(false, [], 0)
    ensures Tables(s, t, n) && Counts(s, 0, 0)
  {
    forall f ensures Counted(s, t, f) { if f >= 0 { NoUses(s, f); } }
    forall ino ensures Held(t, n, ino) { NoHolders(t, ino); }
    NoUses(s, 0);
  }
}
