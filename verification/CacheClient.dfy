/** Whole runs of a client that holds any number of buffers: it cannot tell the two levels and the disk from a plain map. */
module CacheClient {
  import opened Basics
  import opened BlockTypes
  import opened LruList
  import opened HashChains
  import opened Coherence
  import opened SecondLevel
  import opened CacheSteps
  import opened ReadAheadQueue
  import B = BlockCache

  /** What a client does with the cache; buffers that it holds are numbered in the order in which it got them. */
  datatype Request =
    | Get(name: Key)
    | Ahead(name: Key, blocks: nat)
    | Fill(name: Key, data: Block)
    | Look(h: nat)
    | Change(h: nat, data: Block)
    | GiveBack(h: nat, one_shot: bool, immed: bool)
    | SyncAll
    | Purge(device: nat)

  /** All that such a client can know: what each block contains, and the blocks of the buffers that it holds. */
  datatype Client = Client(m: Disk, names: seq<Key>)

  /** A request names a device, and stays off the RAM disk if that may be the second level; it refers to buffers that are held. */
  ghost predicate Proper(s: Client, r: Request, nr: int) {
    match r
    case SyncAll => true
    case Purge(device) => device != NO_DEV && (device != DEV_RAM || nr == 0) && forall k :: k in s.names ==> k.dev != device
    case Look(h) => h < |s.names|
    case Change(h, _) => h < |s.names|
    case GiveBack(h, _, _) => h < |s.names|
    case _ => Stable(nr, r.name)
  }

  ghost predicate Wants(r: Request) {
    r.Get? || r.Ahead? || r.Fill?
  }

  /** All n buffers are in use, and for other blocks. */
  ghost predicate Panics(s: Client, r: Request, n: nat) {
    Wants(r) && r.name !in s.names && |Elements(s.names)| == n
  }

  ghost function Elements<T>(s: seq<T>): set<T> {
    set x | x in s
  }

  function Minus<T>(s: seq<T>, h: nat): (t: seq<T>)
    requires h < |s|
    ensures |t| == |s| - 1 && forall j :: 0 <= j < |t| ==> t[j] == s[if j < h then j else j + 1]
  {
    s[..h] + s[h + 1..]
  }

  ghost function After(s: Client, r: Request, nr: int): Client
    requires Proper(s, r, nr)
  {
    match r
    case Get(k) => s.(names := s.names + [k])
    case Ahead(k, _) => s.(names := s.names + [k])
    case Fill(k, data) => Client(s.m[k := data], s.names + [k])
    case Change(h, data) => s.(m := s.m[s.names[h] := data])
    case GiveBack(h, _, _) => s.(names := Minus(s.names, h))
    case _ => s
  }

  ghost predicate ProperRun(s: Client, reqs: seq<Request>, nr: int)
    decreases |reqs|
  {
    reqs != [] ==> Proper(s, reqs[0], nr) && ProperRun(After(s, reqs[0], nr), reqs[1..], nr)
  }

  /** The replies to the looks of a run, whether it ended in asking for a buffer too many, and what is so afterwards. */
  datatype Outcome = Outcome(replies: seq<Block>, panic: bool, last: Client)

  /** What the client sees when blocks are a plain map. */
  ghost function Plain(s: Client, reqs: seq<Request>, nr: int, n: nat): Outcome
    requires ProperRun(s, reqs, nr)
    decreases |reqs|
  {
    if reqs == [] then Outcome([], false, s)
    else if Panics(s, reqs[0], n) then Outcome([], true, s)
    else
      var rest := Plain(After(s, reqs[0], nr), reqs[1..], nr, n); rest.(replies := Reply(s, reqs[0]) + rest.replies)
  }

  ghost function Reply(s: Client, r: Request): seq<Block> {
    if r.Look? && r.h < |s.names| then [Rd(s.m, s.names[r.h])] else []
  }

  /** The map m gives the contents of every settled block. */
  ghost predicate Mirrors(m: Disk, b: seq<Buf>, disk: Disk, nr: int) {
    forall k :: Stable(nr, k) ==> Rd(m, k) == View(b, disk, k)
  }

  /** The client holds exactly the buffers in use, each as often as its count says, and they are valid for its blocks. */
  ghost predicate Holding(b: seq<Buf>, held: seq<int>, names: seq<Key>) {
    && |held| == |names| && (forall h :: 0 <= h < |held| ==> Holds(b, held[h], names[h]))
    && forall i :: 0 <= i < |b| ==> b[i].count == multiset(held)[i]
  }

  ghost predicate Settled(names: seq<Key>, nr: int) {
    forall h :: 0 <= h < |names| ==> Stable(nr, names[h])
  }

  ghost predicate Tied(c: B.BlockCache, held: seq<int>, s: Client, nr: int)
    reads c, c.buf, c.buf_hash, c.buf2
  {
    && c.Valid() && (c.nr_buf2 == nr || c.nr_buf2 == 0)
    && Mirrors(s.m, c.buf[..], c.disk, nr) && Holding(c.buf[..], held, s.names) && Settled(s.names, nr)
  }

  /** A buffer more is held. */
  lemma Taking(b: seq<Buf>, c: seq<Buf>, r: int, k: Key, held: seq<int>, names: seq<Key>)
    requires Holding(b, held, names) && ReadFor(b, c, r, k)
    ensures Holding(c, held + [r], names + [k])
  {
    var p, q := held + [r], names + [k];
    forall h | 0 <= h < |held|
      ensures Holds(c, held[h], names[h])
    {
      assert held[h] in multiset(held) && b[held[h]].count > 0;
    }
    assert multiset(p) == multiset(held) + multiset{r};
  }

  /** A buffer is given back. */
  lemma Giving(b: seq<Buf>, c: seq<Buf>, h: nat, held: seq<int>, names: seq<Key>)
    requires Holding(b, held, names) && h < |held| && Put(b, c, held[h])
    ensures Holding(c, Minus(held, h), Minus(names, h))
  {
    MinusOne(held, h);
    var p := Minus(held, h);
    forall j | 0 <= j < |p|
      ensures Holds(c, p[j], Minus(names, h)[j])
    {
      var o := if j < h then j else j + 1;
      assert Holds(b, held[o], names[o]);
    }
  }

  lemma MinusOne(held: seq<int>, h: nat)
    requires h < |held|
    ensures multiset(held) == multiset(Minus(held, h)) + multiset{held[h]}
  {
    assert held == held[..h] + ([held[h]] + held[h + 1..]);
  }

  lemma HeldHere(b: seq<Buf>, held: seq<int>, names: seq<Key>, h: nat)
    requires Holding(b, held, names) && h < |held|
    ensures |held| == |names| && Holds(b, held[h], names[h]) && 0 <= held[h] < |b| && b[held[h]].count > 0
  {
    assert Holds(b, held[h], names[h]) && held[h] in multiset(held);
  }

  /** Buffers keep their names and counts. */
  lemma Keeping(b: seq<Buf>, c: seq<Buf>, held: seq<int>, names: seq<Key>)
    requires Holding(b, held, names) && |b| == |c|
    requires forall i :: 0 <= i < |b| ==> c[i].count == b[i].count && (b[i].count > 0 ==> c[i].Name() == b[i].Name())
    ensures Holding(c, held, names)
  {
    forall h | 0 <= h < |held|
      ensures Holds(c, held[h], names[h])
    {
      assert held[h] in multiset(held);
    }
  }

  lemma ElementsPush<T>(s: seq<T>, x: T)
    ensures |Elements(s + [x])| == |Elements(s)| + if x in s then 0 else 1
  {
    assert Elements(s + [x]) == Elements(s) + {x};
  }

  /** There are as many different blocks held as buffers. */
  lemma {:induction false} AsMany(b: seq<Buf>, held: seq<int>, names: seq<Key>)
    requires Unique(b) && |held| == |names| && forall h :: 0 <= h < |held| ==> Holds(b, held[h], names[h])
    ensures |Elements(names)| == |Elements(held)|
  {
    hide Elements, Unique, Holds;
    if held == [] {
      NoElements(held);
      NoElements(names);
    } else {
      var n := |held| - 1;
      var p, q := held[..n], names[..n];
      AsMany(b, p, q);
      assert held == p + [held[n]] && names == q + [names[n]];
      ElementsPush(p, held[n]);
      ElementsPush(q, names[n]);
      forall h | 0 <= h < n
        ensures p[h] == held[n] <==> q[h] == names[n]
      {
        SameSlot(b, held[h], names[h], held[n], names[n]);
      }
    }
  }

  lemma NoElements<T>(s: seq<T>)
    requires s == []
    ensures |Elements(s)| == 0
  {
    assert Elements(s) == {};
  }

  lemma SameSlot(b: seq<Buf>, i: int, k: Key, j: int, l: Key)
    requires Unique(b) && Holds(b, i, k) && Holds(b, j, l)
    ensures i == j <==> k == l
  {
  }

  lemma OneName(b: seq<Buf>, i: int, j: Key, k: Key)
    requires Holds(b, i, j) && Holds(b, i, k)
    ensures j == k
  {
  }

  ghost function Indices(n: nat): (r: set<int>)
    ensures |r| == n && forall i :: i in r <==> 0 <= i < n
  {
    if n == 0 then {} else Indices(n - 1) + {n - 1}
  }

  /** The table is all in use exactly if as many blocks are held as it has buffers. */
  lemma FullIff(b: seq<Buf>, held: seq<int>, names: seq<Key>)
    requires Unique(b) && Holding(b, held, names)
    ensures AllInUse(b) <==> |Elements(names)| == |b|
  {
    AsMany(b, held, names);
    var p, all := Elements(held), Indices(|b|);
    forall h | 0 <= h < |held| ensures held[h] in all { HeldHere(b, held, names, h); }
    assert p <= all;
    assert |all - p| == |all| - |p|;
    if AllInUse(b) {
      forall i | i in all ensures i in p { assert multiset(held)[i] > 0; }
      assert p == all;
    } else {
      var i :| 0 <= i < |b| && b[i].count == 0;
      assert i !in multiset(held) && i in all - p;
    }
  }

  lemma CachedIsHeld(b: seq<Buf>, held: seq<int>, names: seq<Key>, k: Key)
    requires Holding(b, held, names) && AllInUse(b) && Cached(b, NIL, k)
    ensures k in names
  {
    var i :| i != NIL && Holds(b, i, k);
    assert i in multiset(held);
    var h :| 0 <= h < |held| && held[h] == i;
    HeldHere(b, held, names, h);
    OneName(b, i, k, names[h]);
  }

  /** No buffer is idle and none in use is for the block: exactly then get_block panics. */
  lemma PanicIff(c: B.BlockCache, held: seq<int>, s: Client, r: Request, nr: int)
    requires Tied(c, held, s, nr) && Wants(r) && Stable(nr, r.name)
    ensures Panics(s, r, c.buf.Length) <==> c.front == NIL && !Cached(c.buf[..], NIL, r.name)
  {
    hide HashOk, Clean, Counted, RamOut, Agrees, View, Rd;
    var b := c.buf[..];
    FullIff(b, held, s.names);
    FrontIsBuffer(b, c.front, c.rear, c.lru);
    if c.front != NIL { assert LinkedAt(b, c.lru, 0) && c.front in c.lru; }
    if r.name in s.names {
      var h :| 0 <= h < |s.names| && s.names[h] == r.name;
      HeldIsCached(b, held[h], r.name);
    } else if AllInUse(b) {
      if Cached(b, NIL, r.name) { CachedIsHeld(b, held, s.names, r.name); }
    }
  }

  /** What get_block does to the buffers, as a client sees it. */
  lemma GotFor(b: seq<Buf>, c: seq<Buf>, r: int, k: Key, mode: Mode)
    requires Got(b, c, r, k.dev, k.block, mode) && mode != PREFETCH && k.dev != NO_DEV && (b[r].count > 0 ==> Holds(b, r, k))
    ensures ReadFor(b, c, r, k)
  {
  }

  method DoGet(c: B.BlockCache, k: Key, held: seq<int>, ghost s: Client, ghost nr: int) returns (held': seq<int>, ok: bool)
    requires Tied(c, held, s, nr) && Stable(nr, k)
    modifies c, c.buf, c.buf_hash, c.buf2
    ensures ok == !Panics(s, Get(k), c.buf.Length)
    ensures Tied(c, held', if ok then After(s, Get(k), nr) else s, nr)
  {
    hide IsLru, Idle, HashOk, Unique, Clean, Counted, RamOut, Agrees, View, Cached, Rd, Panics, Holding, ReadFor;
    PanicIff(c, held, s, Get(k), nr);
    ghost var b := c.buf[..];
    var bp := c.GetBlock(k.dev, k.block, NORMAL);
    if bp == NIL { return held, false; }
    GotFor(b, c.buf[..], bp, k, NORMAL);
    Taking(b, c.buf[..], bp, k, held, s.names);
    return held + [bp], true;
  }

  method DoAhead(c: B.BlockCache, k: Key, blocks: nat, held: seq<int>, ghost s: Client, ghost nr: int)
    returns (held': seq<int>, ok: bool)
    requires Tied(c, held, s, nr) && Stable(nr, k)
    modifies c, c.buf, c.buf_hash, c.buf2
    ensures ok == !Panics(s, Ahead(k, blocks), c.buf.Length)
    ensures Tied(c, held', if ok then After(s, Ahead(k, blocks), nr) else s, nr)
  {
    hide IsLru, Idle, HashOk, Unique, Clean, Counted, RamOut, Agrees, View, Cached, Rd, Panics, Holding, ReadFor;
    PanicIff(c, held, s, Ahead(k, blocks), nr);
    ghost var b := c.buf[..];
    var bp := c.RAhead(k.dev, k.block, blocks);
    if bp == NIL {
      Keeping(b, c.buf[..], held, s.names);
      return held, false;
    }
    Taking(b, c.buf[..], bp, k, held, s.names);
    return held + [bp], true;
  }

  /** Get a block without reading it, and write all of it. */
  method DoFill(c: B.BlockCache, k: Key, data: Block, held: seq<int>, ghost s: Client, ghost nr: int)
    returns (held': seq<int>, ok: bool)
    requires Tied(c, held, s, nr) && Stable(nr, k)
    modifies c, c.buf, c.buf_hash, c.buf2
    ensures ok == !Panics(s, Fill(k, data), c.buf.Length)
    ensures Tied(c, held', if ok then After(s, Fill(k, data), nr) else s, nr)
  {
    hide IsLru, Idle, HashOk, Unique, Clean, Counted, RamOut, Agrees, View, Cached, Rd, Panics, Holding, ReadFor;
    hide Mirrors, KeepsViews, Presents;
    PanicIff(c, held, s, Fill(k, data), nr);
    ghost var b, d, nr0 := c.buf[..], c.disk, c.nr_buf2;
    var bp := c.GetBlock(k.dev, k.block, NO_READ);
    if bp == NIL { return held, false; }
    GotFor(b, c.buf[..], bp, k, NO_READ);
    Taking(b, c.buf[..], bp, k, held, s.names);
    ghost var b1 := c.buf[..];
    c.Store(bp, data);
    Keeping(b1, c.buf[..], held + [bp], s.names + [k]);
    Filled(s.m, b, d, b1, c.buf[..], c.disk, bp, k, data, nr, nr0);
    return held + [bp], true;
  }

  /** The block that has been overwritten is the only one that has changed. */
  lemma Filled(m: Disk, b: seq<Buf>, d: Disk, b1: seq<Buf>, c: seq<Buf>, disk: Disk, r: int, k: Key, data: Block,
               nr: int, nr0: int)
    requires Mirrors(m, b, d, nr) && (nr0 == nr || nr0 == 0) && Holds(b1, r, k)
    requires KeepsViews(b, d, b1, disk, nr0, k)
    requires forall j :: View(c, disk, j) == if Holds(c, r, j) then data else View(b1, disk, j)
    requires |c| == |b1| && c[r].Name() == b1[r].Name()
    ensures Mirrors(m[k := data], c, disk, nr)
  {
    hide View;
    forall j | Stable(nr, j)
      ensures Rd(m[k := data], j) == View(c, disk, j)
    {
      assert j != k ==> View(b1, disk, j) == View(b, d, j);
    }
  }

  method DoChange(c: B.BlockCache, h: nat, data: Block, held: seq<int>, ghost s: Client, ghost nr: int)
    requires Tied(c, held, s, nr) && h < |held|
    modifies c.buf
    ensures Tied(c, held, After(s, Change(h, data), nr), nr)
  {
    hide IsLru, Idle, HashOk, Unique, Clean, Counted, RamOut, Agrees, View, Cached;
    ghost var b := c.buf[..];
    HeldHere(b, held, s.names, h);
    CleanBut(b, c.disk, held[h]);
    c.Store(held[h], data);
    Keeping(b, c.buf[..], held, s.names);
  }

  method DoGiveBack(c: B.BlockCache, h: nat, one_shot: bool, immed: bool, held: seq<int>, ghost s: Client, ghost nr: int)
    returns (held': seq<int>)
    requires Tied(c, held, s, nr) && h < |held|
    modifies c, c.buf
    ensures Tied(c, held', After(s, GiveBack(h, one_shot, immed), nr), nr)
  {
    hide IsLru, Idle, HashOk, Unique, Clean, Counted, RamOut, Agrees, View, Cached, Rd, Stable, Holding, Holds, Put;
    ghost var b := c.buf[..];
    HeldHere(b, held, s.names, h);
    c.PutBlock(held[h], one_shot, immed);
    Giving(b, c.buf[..], h, held, s.names);
    return Minus(held, h);
  }

  /** do_close of a block special file: sync, then drop the device's blocks. */
  method DoPurge(c: B.BlockCache, device: nat, held: seq<int>, ghost s: Client, ghost nr: int)
    requires Tied(c, held, s, nr) && Proper(s, Purge(device), nr)
    modifies c, c.buf, c.buf_hash, c.buf2
    ensures Tied(c, held, s, nr)
  {
    hide IsLru, Idle, HashOk, Unique, Clean, Counted, RamOut, Agrees, View, Cached, Rd, Holding;
    ghost var b := c.buf[..];
    c.Sync();
    Keeping(b, c.buf[..], held, s.names);
    ghost var b1 := c.buf[..];
    c.Invalidate(device);
    Undropped(b1, c.buf[..], device, held, s.names);
  }

  /** No buffer in use was for that device. */
  lemma Undropped(b: seq<Buf>, c: seq<Buf>, device: nat, held: seq<int>, names: seq<Key>)
    requires Holding(b, held, names) && |b| == |c| && forall h :: 0 <= h < |names| ==> names[h].dev != device
    requires forall i :: 0 <= i < |b| ==> c[i] == if b[i].dev == device then b[i].(dev := NO_DEV) else b[i]
    ensures Holding(c, held, names)
  {
    forall i | 0 <= i < |b| && b[i].count > 0
      ensures c[i].Name() == b[i].Name()
    {
      assert i in multiset(held);
      var h :| 0 <= h < |held| && held[h] == i;
      assert Holds(b, held[h], names[h]);
    }
    Keeping(b, c, held, names);
  }

  /** do_sync: what the client knows is on the disk. */
  method DoSync(c: B.BlockCache, held: seq<int>, ghost s: Client, ghost nr: int)
    requires Tied(c, held, s, nr)
    modifies c, c.buf
    ensures Tied(c, held, s, nr) && forall k :: Stable(nr, k) ==> Rd(c.disk, k) == Rd(s.m, k)
  {
    hide IsLru, Idle, HashOk, Unique, Clean, Counted, RamOut, Agrees, View, Cached, Rd, Holding;
    ghost var b := c.buf[..];
    c.Sync();
    Keeping(b, c.buf[..], held, s.names);
  }

  method DoLook(c: B.BlockCache, h: nat, held: seq<int>, ghost s: Client, ghost nr: int) returns (reply: Block)
    requires Tied(c, held, s, nr) && h < |held|
    ensures reply == Rd(s.m, s.names[h])
  {
    assert Holds(c.buf[..], held[h], s.names[h]);
    ViewHeld(c.buf[..], c.disk, s.names[h], held[h]);
    reply := c.buf[held[h]].data;
  }

  method Step(c: B.BlockCache, r: Request, held: seq<int>, ghost s: Client, ghost nr: int)
    returns (reply: seq<Block>, held': seq<int>, ok: bool)
    requires Tied(c, held, s, nr) && Proper(s, r, nr)
    modifies c, c.buf, c.buf_hash, c.buf2
    ensures ok == !Panics(s, r, c.buf.Length) && reply == Reply(s, r)
    ensures Tied(c, held', if ok then After(s, r, nr) else s, nr)
  {
    hide Mirrors, Settled, Rd, Stable;
    assert |held| == |s.names| by { assert Holding(c.buf[..], held, s.names); }
    hide Tied;
    reply, held', ok := [], held, true;
    match r
    case Get(k) => held', ok := DoGet(c, k, held, s, nr);
    case Ahead(k, blocks) => held', ok := DoAhead(c, k, blocks, held, s, nr);
    case Fill(k, data) => held', ok := DoFill(c, k, data, held, s, nr);
    case Look(h) => var data := DoLook(c, h, held, s, nr); reply := [data];
    case Change(h, data) => DoChange(c, h, data, held, s, nr);
    case GiveBack(h, one_shot, immed) => held' := DoGiveBack(c, h, one_shot, immed, held, s, nr);
    case SyncAll => DoSync(c, held, s, nr);
    case Purge(device) => DoPurge(c, device, held, s, nr);
  }

  /** Cache transparency: for every run of requests the client sees what it would see of a plain map, up to the first request
      for a buffer when all are in use for other blocks. */
  method Run(c: B.BlockCache, reqs: seq<Request>, held0: seq<int>, ghost s0: Client)
    returns (replies: seq<Block>, held: seq<int>, panic: bool, ghost s: Client)
    requires Tied(c, held0, s0, c.nr_buf2) && ProperRun(s0, reqs, c.nr_buf2)
    modifies c, c.buf, c.buf_hash, c.buf2
    ensures Outcome(replies, panic, s) == Plain(s0, reqs, old(c.nr_buf2), c.buf.Length)
    ensures Tied(c, held, s, old(c.nr_buf2))
  {
    hide Tied, Proper, Panics, Reply, After;
    ghost var nr, n := c.nr_buf2, c.buf.Length;
    ghost var all := Plain(s0, reqs, nr, n);
    replies, held, panic, s := [], held0, false, s0;
    assert reqs[0..] == reqs;
    var i := 0;
    while i < |reqs|
      invariant 0 <= i <= |reqs| && Tied(c, held, s, nr) && ProperRun(s, reqs[i..], nr)
      invariant var rest := Plain(s, reqs[i..], nr, n); all == rest.(replies := replies + rest.replies)
    {
      assert reqs[i..][0] == reqs[i] && reqs[i..][1..] == reqs[i + 1..];
      var reply, held', ok := Step(c, reqs[i], held, s, nr);
      held, panic := held', !ok;
      if panic { break; }
      s := After(s, reqs[i], nr);
      replies := replies + reply;
      i := i + 1;
    }
    assert replies + [] == replies;
  }

  /** A server's life: a new pool of buffers, a second level of the size asked for, and any run of requests. */
  method Session(nr_bufs: nat, nr_buf_hash: nat, max_buf2: nat, nr_ioreqs: nat, size: nat, device: Disk, reqs: seq<Request>)
    returns (replies: seq<Block>, panic: bool)
    requires nr_bufs > 0 && nr_buf_hash > 0 && max_buf2 > 0 && nr_ioreqs > 0
    requires ProperRun(Client(device, []), reqs, if size > max_buf2 then max_buf2 else size)
    ensures var o := Plain(Client(device, []), reqs, if size > max_buf2 then max_buf2 else size, nr_bufs);
      replies == o.replies && panic == o.panic
  {
    hide IsLru, Idle, HashOk, Unique, Clean, Counted, RamOut, Agrees, View, Cached, Rd, ProperRun, Plain;
    var c := new B.BlockCache(nr_bufs, nr_buf_hash, max_buf2, nr_ioreqs, device);
    c.InitCache2(size);
    var held;
    ghost var last;
    replies, held, panic, last := Run(c, reqs, [], Client(device, []));
  }
}
