/** Whole runs of the calls that change directories: what they see is a table of names. */
module TreeClient {
  import D = Directories
  import opened Links
  import opened LinkSteps
  import opened TreeCalls
  import opened NameTree
  import F = FileTree

  /** The calls; each starts where the working directory or root directory of a process is. What the device has room for, and what
      other processes have as their directories, is for them to say. */
  datatype Call =
    | Creat(start: nat, path: seq<string>, name: string, root: nat, room: bool)
    | Mkdir(start: nat, path: seq<string>, name: string, root: nat, room: bool, room1: bool, room2: bool)
    | Link(ostart: nat, opath: seq<string>, oname: string, start: nat, path: seq<string>, name: string, root: nat, room: bool, superUser: bool)
    | Unlink(start: nat, path: seq<string>, name: string, root: nat, superUser: bool)
    | Rmdir(start: nat, path: seq<string>, name: string, root: nat, busy: bool)
    | Rename(ostart: nat, opath: seq<string>, oname: string, start: nat, path: seq<string>, name: string, root: nat, busy: bool, room: bool)
    | Hold(start: nat, path: seq<string>, name: string, root: nat)
    | Drop(x: nat)
    | Stat(start: nat, path: seq<string>, name: string, root: nat)

  datatype Reply = Reply(code: F.Reply, x: nat, links: int)

  /** The directory of the last name, and what that name stands for. */
  function Dir(t: Tree, r: Call): nat
    requires !r.Drop?
  {
    DirOf(t, r.start, r.path, r.root)
  }

  function Old(t: Tree, r: Call): nat
    requires !r.Drop?
  {
    Find(t, r.start, r.path, r.name, r.root)
  }

  /** The same of the first of two paths. */
  function Dir1(t: Tree, r: Call): nat
    requires r.Link? || r.Rename?
  {
    DirOf(t, r.ostart, r.opath, r.root)
  }

  function Old1(t: Tree, r: Call): nat
    requires r.Link? || r.Rename?
  {
    Find(t, r.ostart, r.opath, r.oname, r.root)
  }

  /** A call starts at one of the n inodes; only a path of slashes has no last name. */
  predicate Proper(n: nat, r: Call) {
    match r
    case Drop(_) => true
    case Rmdir(start, path, name, root, _) => 0 < start < n && (name == "" ==> path == [] && start == root)
    case Rename(ostart, opath, oname, start, path, name, root, _, _) =>
      && 0 < start < n && 0 < ostart < n
      && (oname == "" ==> opath == [] && ostart == root) && (name == "" ==> path == [] && start == root)
    case Link(ostart, _, _, start, _, _, _, _, _) => 0 < start < n && 0 < ostart < n
    case _ => 0 < r.start < n
  }

  predicate FreeAt(t: Tree) {
    exists x :: 0 < x < |t.kind| && t.kind[x] == FREE
  }

  /** The first inode from k on that is free. */
  function NewFrom(t: Tree, k: nat): nat
    decreases |t.kind| - k
  {
    if k >= |t.kind| then 0 else if t.kind[k] == FREE then k else NewFrom(t, k + 1)
  }

  /** A directory other than the root, with nothing but dots in it. */
  ghost predicate Empty(t: Tree, x: nat) {
    DirAt(t, x) && x != 0 && x != ROOT_INODE && forall m :: Ordinary(m) ==> NameAt(t, x, m) == 0
  }

  /** Nothing speaks against giving x, which is oname in od, the name nname in nd instead, which now stands for y. */
  ghost predicate Movable(t: Tree, od: nat, oname: string, nd: nat, nname: string, x: nat, y: nat, busy: bool) {
    && x != y && oname != "." && oname != ".." && nname != "." && nname != ".."
    && (if y == 0 then DirAt(t, x) && od != nd ==> LinkCount(t, nd) < F.LINK_MAX else DirAt(t, x) == DirAt(t, y))
    && (DirAt(t, x) && od != nd ==> !Over(t, x, nd))
    && (y != 0 ==> nname != "" && (DirAt(t, y) ==> Empty(t, y) && !busy))
  }

  /** Which calls succeed, provided there is space for a name. */
  ghost predicate Allowed(t: Tree, r: Call) {
    match r
    case Creat(_, _, name, root, _) => Dir(t, r) != 0 && Old(t, r) == 0 && FreeAt(t)
    case Mkdir(_, _, name, root, _, room1, _) =>
      Dir(t, r) != 0 && Old(t, r) == 0 && FreeAt(t) && LinkCount(t, Dir(t, r)) < F.LINK_MAX && room1
    case Link(_, _, _, _, _, _, _, _, superUser) =>
      && Old1(t, r) != 0 && LinkCount(t, Old1(t, r)) < F.LINK_MAX && (DirAt(t, Old1(t, r)) ==> superUser)
      && Dir(t, r) != 0 && Old(t, r) == 0
    case Unlink(_, _, name, _, superUser) =>
      && Dir(t, r) != 0 && Old(t, r) != 0 && Old(t, r) != ROOT_INODE && name != "" && (DirAt(t, Old(t, r)) ==> superUser)
    case Rmdir(_, _, name, root, busy) =>
      var x := NameAt(t, Dir(t, r), name); Dir(t, r) != 0 && Ordinary(name) && Empty(t, x) && !busy && x != root
    case Rename(_, _, oname, _, _, name, root, busy, _) =>
      var od, nd, x, y := Dir1(t, r), Dir(t, r), Old1(t, r), Old(t, r);
      && od != 0 && nd != 0 && x != 0
      && (x == y || (Movable(t, od, oname, nd, name, x, y, busy || y == root) && (od == nd ==> oname != "")))
    case Drop(x) => 0 < x < |t.uses| && t.uses[x] > 0
    case _ => Old(t, r) != 0
  }

  /** A device that has room. */
  predicate Roomy(r: Call) {
    (r.Creat? || r.Mkdir? || r.Link? || r.Rename?) ==> r.room
  }

  /** A root directory is renamed to a name in itself: what has that name is removed before the call fails. */
  ghost predicate Wasted(t: Tree, r: Call) {
    r.Rename? && r.oname == "" && Dir1(t, r) != 0 && Dir1(t, r) == Dir(t, r) && Old(t, r) != 0
    && Movable(t, Dir1(t, r), "", Dir(t, r), r.name, Old1(t, r), Old(t, r), r.busy || Old(t, r) == r.root)
  }

  /** The replies that a table of names gives. */
  ghost predicate Gives(t: Tree, r: Call, reply: Reply) {
    && (reply.code == F.OK ==> Allowed(t, r)) && (Allowed(t, r) && Roomy(r) ==> reply.code == F.OK)
    && (r.Creat? ==> (reply.code == F.EEXIST <==> Dir(t, r) != 0 && Old(t, r) != 0))
    && (r.Creat? && reply.code == F.OK ==> reply.x == NewFrom(t, 1))
    && (r.Hold? ==> reply.x == Old(t, r))
    && (r.Stat? && reply.code == F.OK ==> reply.x == Old(t, r) && reply.links == LinkCount(t, reply.x))
  }

  function Using(t: Tree, x: nat, k: nat): Tree {
    if x < |t.uses| then t.(uses := t.uses[x := k]) else t
  }

  function Being(t: Tree, x: nat, k: Kind): Tree {
    if x < |t.kind| then t.(kind := t.kind[x := k]) else t
  }

  function NewDir(t: Tree, d: nat, name: string, x: nat): Tree {
    SetName(SetName(SetName(Being(t, x, DIRECTORY), d, name, x), x, ".", x), x, "..", d)
  }

  /** Inode y has lost the name, and its dots if it is a directory. */
  function Without(t: Tree, d: nat, name: string, y: nat): Tree {
    CutName(if DirAt(t, y) then CutAll(t, y) else t, d, name)
  }

  function Moved(t: Tree, od: nat, oname: string, nd: nat, nname: string, x: nat, y: nat): Tree {
    var u := CutName(if y != 0 then Without(t, nd, nname, y) else t, od, oname);
    var v := SetName(u, nd, nname, x);
    if DirAt(t, x) then SetName(v, x, "..", nd) else v
  }

  /** The names after a call. */
  ghost function After(t: Tree, r: Call, reply: Reply): Tree
    requires |t.uses| == |t.kind|
  {
    if reply.code != F.OK then
      if r.Creat? && reply.code == F.EEXIST then Using(t, Old(t, r), if Old(t, r) < |t.uses| then t.uses[Old(t, r)] + 1 else 0)
      else if Wasted(t, r) then Swept(Without(t, Dir(t, r), r.name, Old(t, r)))
      else t
    else
      match r
      case Creat(_, _, name, _, _) => var x := NewFrom(t, 1); SetName(Being(Using(t, x, 1), x, FILE), Dir(t, r), name, x)
      case Mkdir(_, _, name, _, _, _, _) => NewDir(t, Dir(t, r), name, NewFrom(t, 1))
      case Link(_, _, _, _, _, name, _, _, _) => SetName(t, Dir(t, r), name, Old1(t, r))
      case Unlink(_, _, name, _, _) => Swept(CutName(t, Dir(t, r), name))
      case Rmdir(_, _, name, _, _) => Swept(Without(t, Dir(t, r), name, NameAt(t, Dir(t, r), name)))
      case Rename(_, _, oname, _, _, name, _, _, _) =>
        if Old1(t, r) == Old(t, r) then t
        else Swept(Moved(t, Dir1(t, r), oname, Dir(t, r), name, Old1(t, r), Old(t, r)))
      case Hold(_, _, _, _) => Using(t, Old(t, r), if Old(t, r) < |t.uses| then t.uses[Old(t, r)] + 1 else 0)
      case Drop(x) => if 0 < x < |t.uses| && t.uses[x] > 0 then Swept(Using(t, x, t.uses[x] - 1)) else t
      case Stat(_, _, _, _) => t
  }

  /** After such a call the directories are no tree any more, or links are not names. */
  ghost predicate Spoils(t: Tree, r: Call, reply: Reply) {
    reply.code == F.OK && Dangerous(t, r)
  }

  /** The superuser links or unlinks a directory, or a root directory is renamed. */
  predicate Dangerous(t: Tree, r: Call) {
    (r.Link? && DirAt(t, Old1(t, r))) || (r.Unlink? && DirAt(t, Old(t, r))) || (r.Rename? && r.oname == "" && Old1(t, r) != Old(t, r))
  }

  // ----- what the inodes show after a call

  lemma Renaming(t: Tree, n: seq<Node>, c: seq<nat>, rank: seq<nat>, od: nat, oname: string, nd: nat, nname: string, x: nat, y: nat, busy: bool)
    requires Shows(t, n, c) && Sound(n, rank) && Live(n, nd) && 0 < nd && x < |n| && y < |n|
    ensures Movable(t, od, oname, nd, nname, x, y, busy) <==>
      F.Renamable(n, rank, od, oname, nd, nname, x, y) && F.Clear(n, nd, nname, y, busy)
  {
    hide Shape, Law, Above, Over;
    ShowsOver(t, n, c, rank, x, nd);
    ShowsLinks(t, n, c, rank, nd);
    Emptiness(t, n, c, y);
  }

  lemma Emptiness(t: Tree, n: seq<Node>, c: seq<nat>, x: nat)
    requires Shows(t, n, c)
    ensures Empty(t, x) <==> F.CanRemove(n, x)
    ensures DirAt(t, x) == IsDir(n, x)
  {
    if Empty(t, x) { forall m | Ordinary(m) ensures Look(n, x, m) == 0 { ShowsName(t, n, c, x, m); } }
    if F.CanRemove(n, x) { forall m | Ordinary(m) ensures NameAt(t, x, m) == 0 { ShowsName(t, n, c, x, m); } }
  }

  /** Where the names of a call lead. */
  lemma Leading(t: Tree, n: seq<Node>, c: seq<nat>, rank: seq<nat>, start: nat, path: seq<string>, name: string, root: nat)
    requires Shows(t, n, c) && Sound(n, rank)
    ensures var d := F.Last(n, start, path, root);
      && DirOf(t, start, path, root) == d && Find(t, start, path, name, root) == F.Eat(n, start, path, name, root)
      && NameAt(t, d, name) == Look(n, d, name) && Go(t, d, name, root) == F.Step(n, d, name, root)
  {
    ShowsDir(t, n, c, rank, start, path, root);
    ShowsGo(t, n, c, F.Last(n, start, path, root), name, root);
    ShowsName(t, n, c, F.Last(n, start, path, root), name);
  }

  lemma FreeNodes(t: Tree, n: seq<Node>, c: seq<nat>, x: nat)
    requires Shows(t, n, c)
    ensures FreeAt(t) <==> F.HasFree(n)
    ensures F.IsLowest(n, x) ==> NewFrom(t, 1) == x && 0 < x < |n| && n[x].kind == FREE
  {
    if F.IsLowest(n, x) { FirstFree(t, n, c, x, 1); }
    if F.HasFree(n) { var y :| 0 < y < |n| && n[y].kind == FREE; assert t.kind[y] == FREE; }
    if FreeAt(t) { var y :| 0 < y < |t.kind| && t.kind[y] == FREE; assert n[y].kind == FREE; }
  }

  lemma {:induction false} FirstFree(t: Tree, n: seq<Node>, c: seq<nat>, x: nat, k: nat)
    requires Shows(t, n, c) && F.IsLowest(n, x) && 0 < k <= x
    ensures NewFrom(t, k) == x
    decreases x - k
  {
    if k < x { FirstFree(t, n, c, x, k + 1); }
  }

  /** A name is set, and inode x may be a new one. */
  lemma Setting(t: Tree, n: seq<Node>, c: seq<nat>, n': seq<Node>, c': seq<nat>, d: nat, name: string, x: nat)
    requires Shows(t, n, c) && Binds(n, n', d, name, x) && d < |n| && x != 0 && x < |n| && |c'| == |c|
    requires forall y :: 0 <= y < |n| && y != x ==> n'[y].kind == n[y].kind
    ensures Shows(SetName(Being(t.(uses := c'), x, n'[x].kind), d, name, x), n', c')
  {
    var u := Being(t.(uses := c'), x, n'[x].kind);
    var t' := SetName(u, d, name, x);
    forall e: nat, m ensures NameAt(t', e, m) == Look(n', e, m) {
      SetAt(u, d, name, x, e, m);
      ShowsName(t, n, c, e, m);
      assert NameAt(u, e, m) == NameAt(t, e, m);
    }
  }

  lemma Cutting(t: Tree, n: seq<Node>, c: seq<nat>, n': seq<Node>, rank': seq<nat>, d: nat, name: string)
    requires Shows(t, n, c) && Binds(n, n', d, name, 0) && Sound(n', rank') && F.Kept(n', c) && F.OnlyFrees(n, n')
    requires |n| > 0 && n[0].kind == FREE
    ensures Shows(Swept(CutName(t, d, name)), n', c)
  {
    var u := CutName(t, d, name);
    forall e: nat, m ensures NameAt(u, e, m) == Look(n', e, m) {
      SetAt(t, d, name, 0, e, m);
      ShowsName(t, n, c, e, m);
    }
    ShowsSwept(u, n, n', c, rank');
  }

  lemma Vanishing(t: Tree, n: seq<Node>, c: seq<nat>, n': seq<Node>, rank': seq<nat>, d: nat, name: string, x: nat)
    requires Shows(t, n, c) && F.Vanished(n, n', d, name, x) && Sound(n', rank') && F.Kept(n', c) && F.OnlyFrees(n, n')
    requires |n| > 0 && n[0].kind == FREE && IsDir(n, x)
    ensures Shows(Swept(Without(t, d, name, x)), n', c)
  {
    var v := CutAll(t, x);
    var u := CutName(v, d, name);
    forall e: nat, m ensures NameAt(u, e, m) == Look(n', e, m) {
      SetAt(t, x, name, 0, e, m);
      SetAt(v, d, name, 0, e, m);
      ShowsName(t, n, c, e, m);
    }
    ShowsSwept(u, n, n', c, rank');
  }

  /** Every name after a renaming. */
  lemma MovedAt(t: Tree, od: nat, on: string, nd: nat, nn: string, x: nat, y: nat, e: nat, m: string)
    requires nd < |t.names| && (DirAt(t, x) ==> x < |t.names| && x != nd) && (y != 0 && DirAt(t, y) ==> nd != y && x != y)
    ensures NameAt(Moved(t, od, on, nd, nn, x, y), e, m) ==
      if e == nd && m == nn then x else if e == x && DirAt(t, x) && m == ".." then nd else if e == od && m == on then 0
      else if y != 0 && ((DirAt(t, y) && e == y) || (e == nd && m == nn)) then 0 else NameAt(t, e, m)
  {
    var a := if y != 0 && DirAt(t, y) then CutAll(t, y) else t;
    var b := if y != 0 then CutName(a, nd, nn) else a;
    var u := CutName(b, od, on);
    var v := SetName(u, nd, nn, x);
    SetAt(t, y, nn, 0, e, m);
    SetAt(a, nd, nn, 0, e, m);
    SetAt(b, od, on, 0, e, m);
    SetAt(u, nd, nn, x, e, m);
    SetAt(v, x, "..", nd, e, m);
  }

  lemma Moving(t: Tree, n: seq<Node>, c: seq<nat>, n': seq<Node>, rank': seq<nat>, od: nat, on: string, nd: nat, nn: string, x: nat, y: nat)
    requires Shows(t, n, c) && F.Everything(n, n', od, on, nd, nn, x, y) && Sound(n', rank') && F.Kept(n', c) && F.OnlyFrees(n, n')
    requires |n| > 0 && n[0].kind == FREE && nd < |n| && 0 < nd && 0 < x < |n| && x != y
    requires IsDir(n, x) ==> nn != ".." && on != ".." && x != nd
    requires y != 0 && IsDir(n, y) ==> nd != y
    ensures Shows(Swept(Moved(t, od, on, nd, nn, x, y)), n', c)
  {
    hide Law, Shape, NameAt, Look;
    var w := Moved(t, od, on, nd, nn, x, y);
    assert DirAt(t, x) == IsDir(n, x) && DirAt(t, y) == IsDir(n, y);
    forall e: nat, m ensures NameAt(w, e, m) == Look(n', e, m) {
      MovedAt(t, od, on, nd, nn, x, y, e, m);
      ShowsName(t, n, c, e, m);
    }
    NoZeros(t, od, on, nd, nn, x, y);
    ShowsSwept(w, n, n', c, rank');
  }

  predicate NonZero(t: Tree) {
    forall d, m :: 0 <= d < |t.names| && m in t.names[d] ==> t.names[d][m] != 0
  }

  lemma NoZeros(t: Tree, od: nat, on: string, nd: nat, nn: string, x: nat, y: nat)
    requires NonZero(t) && x != 0 && nd != 0
    ensures NonZero(Moved(t, od, on, nd, nn, x, y))
  {
    hide Swept;
  }

  // ----- the calls

  ghost predicate Tied(fs: F.FileTree, t: Tree)
    reads fs, fs.inode, fs.icount
  {
    fs.Valid() && Shows(t, fs.inode[..], fs.icount[..])
  }

  lemma TiedFacts(fs: F.FileTree, t: Tree)
    requires Tied(fs, t)
    ensures var n := fs.inode[..];
      && Sound(n, fs.rank) && F.Kept(n, fs.icount[..]) && |t.kind| == |t.uses| == |t.names| == |n| == fs.icount.Length > 0 && n[0].kind == FREE
      && t.uses == fs.icount[..]
  {
  }

  lemma MakesUse(t: Tree, n: seq<Node>, c: seq<nat>, x: nat, k: nat)
    requires Shows(t, n, c) && x < |n|
    ensures Using(t, x, k) == t.(uses := c[x := k]) && Shows(Using(t, x, k), n, c[x := k])
  {
    var u := Using(t, x, k);
    forall d: nat, m ensures NameAt(u, d, m) == Look(n, d, m) { ShowsName(t, n, c, d, m); }
  }

  method DoCreat(fs: F.FileTree, r: Call, ghost t: Tree) returns (reply: Reply)
    requires Tied(fs, t) && r.Creat? && Proper(fs.inode.Length, r)
    modifies fs.inode, fs.icount
    ensures Gives(t, r, reply) && |t.uses| == |t.kind| && Tied(fs, After(t, r, reply))
  {
    hide Sound, F.Kept, Shows, SetName, Being, Using, F.Last, Find, DirOf, FreeAt, Binds, F.IsLowest;
    TiedFacts(fs, t);
    ghost var n, c := fs.inode[..], fs.icount[..];
    ghost var d := F.Last(n, r.start, r.path, r.root);
    Leading(t, n, c, fs.rank, r.start, r.path, r.name, r.root);
    F.LastLive(n, fs.rank, r.start, r.path, r.root);
    var code, x := fs.Create(r.start, r.path, r.name, r.room, r.root);
    reply := Reply(code, x, 0);
    FreeNodes(t, n, c, x);
    if code == F.OK {
      MakesUse(t, n, c, x, 1);
      Setting(t, n, c, fs.inode[..], fs.icount[..], d, r.name, x);
    } else if code == F.EEXIST {
      MakesUse(t, n, c, x, c[x] + 1);
    }
  }

  method DoMkdir(fs: F.FileTree, r: Call, ghost t: Tree) returns (reply: Reply)
    requires Tied(fs, t) && r.Mkdir? && Proper(fs.inode.Length, r)
    modifies fs`rank, fs.inode, fs.icount
    ensures Gives(t, r, reply) && |t.uses| == |t.kind| && Tied(fs, After(t, r, reply))
  {
    hide Sound, F.Kept, Shows, SetName, Being, Using, F.Last, Find, DirOf, FreeAt, F.IsLowest, Made, NewDir;
    TiedFacts(fs, t);
    ghost var n, c := fs.inode[..], fs.icount[..];
    ghost var d := F.Last(n, r.start, r.path, r.root);
    Leading(t, n, c, fs.rank, r.start, r.path, r.name, r.root);
    F.LastLive(n, fs.rank, r.start, r.path, r.root);
    if d != 0 { ShowsLinks(t, n, c, fs.rank, d); }
    ghost var rank := fs.rank;
    var code := fs.Mkdir(r.start, r.path, r.name, r.room, r.room1, r.room2, r.root);
    reply := Reply(code, 0, 0);
    FreeNodes(t, n, c, Look(fs.inode[..], d, r.name));
    if code == F.OK {
      NothingThere(n, rank, Look(fs.inode[..], d, r.name)) by { SoundLaw(n, rank); }
      Making(t, n, c, fs.inode[..], d, r.name, Look(fs.inode[..], d, r.name));
    } else {
      Same(t, n, c, fs.inode[..]);
    }
  }

  lemma Same(t: Tree, n: seq<Node>, c: seq<nat>, n': seq<Node>)
    requires Shows(t, n, c) && SameNames(n, n') && F.SameNodes(n, n')
    ensures Shows(t, n', c)
  {
    forall d: nat, m ensures NameAt(t, d, m) == Look(n', d, m) { ShowsName(t, n, c, d, m); }
  }

  lemma Making(t: Tree, n: seq<Node>, c: seq<nat>, n': seq<Node>, d: nat, name: string, x: nat)
    requires Shows(t, n, c) && Made(n, n', d, name, x) && 0 < d < |n| && d != x && (forall m :: Look(n, x, m) == 0)
    ensures Shows(NewDir(t, d, name, x), n', c)
  {
    var a := Being(t, x, DIRECTORY);
    var b := SetName(a, d, name, x);
    var e := SetName(b, x, ".", x);
    var u := SetName(e, x, "..", d);
    forall p: nat, m ensures NameAt(u, p, m) == Look(n', p, m) {
      ShowsName(t, n, c, p, m);
      assert NameAt(a, p, m) == NameAt(t, p, m);
      SetAt(a, d, name, x, p, m);
      SetAt(b, x, ".", x, p, m);
      SetAt(e, x, "..", d, p, m);
    }
  }

  method DoLink(fs: F.FileTree, r: Call, ghost t: Tree) returns (reply: Reply)
    requires Tied(fs, t) && r.Link? && Proper(fs.inode.Length, r)
    modifies fs.inode
    ensures Gives(t, r, reply) && |t.uses| == |t.kind| && (!Spoils(t, r, reply) ==> Tied(fs, After(t, r, reply)))
  {
    hide Sound, F.Kept, Shows, SetName, Being, F.Last, Find, DirOf;
    TiedFacts(fs, t);
    ghost var n, c := fs.inode[..], fs.icount[..];
    ghost var d := F.Last(n, r.start, r.path, r.root);
    Leading(t, n, c, fs.rank, r.start, r.path, r.name, r.root);
    Leading(t, n, c, fs.rank, r.ostart, r.opath, r.oname, r.root);
    F.LastLive(n, fs.rank, r.start, r.path, r.root);
    var x := fs.EatPath(r.ostart, r.opath, r.oname, r.root);
    if x == 0 { return Reply(F.ENOENT, 0, 0); }
    ShowsLinks(t, n, c, fs.rank, x);
    Emptiness(t, n, c, x);
    Linked(n, fs.rank, x);
    var code := fs.Link(x, r.start, r.path, r.name, r.room, r.root, r.superUser);
    reply := Reply(code, 0, 0);
    if code == F.OK && n[x].kind != DIRECTORY { Naming(t, n, c, fs.inode[..], d, r.name, x); }
  }

  lemma Naming(t: Tree, n: seq<Node>, c: seq<nat>, n': seq<Node>, d: nat, name: string, x: nat)
    requires Shows(t, n, c) && Binds(n, n', d, name, x) && d < |n| && 0 < x < |n| && F.SameKinds(n, n')
    ensures Shows(SetName(t, d, name, x), n', c)
  {
    var u := SetName(t, d, name, x);
    forall e: nat, m ensures NameAt(u, e, m) == Look(n', e, m) {
      SetAt(t, d, name, x, e, m);
      ShowsName(t, n, c, e, m);
    }
  }

  lemma Linked(n: seq<Node>, rank: seq<nat>, x: nat)
    requires Sound(n, rank) && x < |n| && n[x].nlinks > 0
    ensures n[x].kind != FREE
  {
  }

  method DoUnlink(fs: F.FileTree, r: Call, ghost t: Tree) returns (reply: Reply)
    requires Tied(fs, t) && r.Unlink? && Proper(fs.inode.Length, r)
    modifies fs.inode, fs.icount
    ensures Gives(t, r, reply) && |t.uses| == |t.kind| && (!Spoils(t, r, reply) ==> Tied(fs, After(t, r, reply)))
  {
    hide Sound, F.Kept, Shows, CutName, Swept, F.Last, Find, DirOf;
    TiedFacts(fs, t);
    ghost var n, c := fs.inode[..], fs.icount[..];
    ghost var d := F.Last(n, r.start, r.path, r.root);
    Leading(t, n, c, fs.rank, r.start, r.path, r.name, r.root);
    F.NotNameless(n, fs.rank, d) by { SoundLaw(n, fs.rank); }
    Emptiness(t, n, c, Old(t, r));
    var code := fs.Unlink(r.start, r.path, r.name, r.root, r.superUser);
    reply := Reply(code, 0, 0);
    if code == F.OK && !IsDir(n, Old(t, r)) { Cutting(t, n, c, fs.inode[..], fs.rank, d, r.name); }
  }

  method DoRmdir(fs: F.FileTree, r: Call, ghost t: Tree) returns (reply: Reply)
    requires Tied(fs, t) && r.Rmdir? && Proper(fs.inode.Length, r)
    modifies fs.inode, fs.icount
    ensures Gives(t, r, reply) && |t.uses| == |t.kind| && Tied(fs, After(t, r, reply))
  {
    hide Sound, F.Kept, Shows, Without, Swept, F.Last, Find, DirOf, Empty, F.Vanished;
    TiedFacts(fs, t);
    ghost var n, c := fs.inode[..], fs.icount[..];
    ghost var d := F.Last(n, r.start, r.path, r.root);
    Leading(t, n, c, fs.rank, r.start, r.path, r.name, r.root);
    Emptiness(t, n, c, NameAt(t, d, r.name));
    var code := fs.Rmdir(r.start, r.path, r.name, r.root, r.busy);
    reply := Reply(code, 0, 0);
    if code == F.OK { Vanishing(t, n, c, fs.inode[..], fs.rank, d, r.name, Look(n, d, r.name)); }
  }

  method DoRename(fs: F.FileTree, r: Call, ghost t: Tree) returns (reply: Reply)
    requires Tied(fs, t) && r.Rename? && Proper(fs.inode.Length, r)
    modifies fs`rank, fs.inode, fs.icount
    ensures Gives(t, r, reply) && |t.uses| == |t.kind| && (!Spoils(t, r, reply) ==> Tied(fs, After(t, r, reply)))
  {
    hide Sound, F.Kept, Shows, Without, Moved, Swept, F.Last, Find, DirOf, Movable, F.Renamable, F.Clear, F.Everything, F.Vanished, Look, F.Step;
    TiedFacts(fs, t);
    ghost var n, c, rank := fs.inode[..], fs.icount[..], fs.rank;
    ghost var od, nd := F.Last(n, r.ostart, r.opath, r.root), F.Last(n, r.start, r.path, r.root);
    ghost var x, y := Old1(t, r), Old(t, r);
    Leading(t, n, c, rank, r.start, r.path, r.name, r.root);
    Leading(t, n, c, rank, r.ostart, r.opath, r.oname, r.root);
    Renaming2(t, n, c, rank, r, od, nd, x, y);
    var code := fs.Rename(r.ostart, r.opath, r.oname, r.start, r.path, r.name, r.root, r.busy, r.room);
    reply := Reply(code, 0, 0);
    ghost var n' := fs.inode[..];
    if code == F.OK {
      if x != y && r.oname != "" {
        MovingRight(n, rank, od, r.oname, nd, r.name, x, y, r.root, r.busy || y == r.root);
        Moving(t, n, c, n', fs.rank, od, r.oname, nd, r.name, x, y);
      }
    } else if Wasted(t, r) {
      Vanishing(t, n, c, n', fs.rank, nd, r.name, y);
    }
  }

  method DoHold(fs: F.FileTree, r: Call, ghost t: Tree) returns (reply: Reply)
    requires Tied(fs, t) && r.Hold? && Proper(fs.inode.Length, r)
    modifies fs.icount
    ensures Gives(t, r, reply) && |t.uses| == |t.kind| && Tied(fs, After(t, r, reply))
  {
    hide Sound, F.Kept, Shows, Using, Find, DirOf, F.Eat;
    TiedFacts(fs, t);
    ghost var n, c := fs.inode[..], fs.icount[..];
    Leading(t, n, c, fs.rank, r.start, r.path, r.name, r.root);
    var x := fs.Hold(r.start, r.path, r.name, r.root);
    reply := Reply(if x == 0 then F.ENOENT else F.OK, x, 0);
    if x != 0 { MakesUse(t, n, c, x, c[x] + 1); }
  }

  /** put_inode, for an inode that is in use. */
  method DoDrop(fs: F.FileTree, r: Call, ghost t: Tree) returns (reply: Reply)
    requires Tied(fs, t) && r.Drop?
    modifies fs.inode, fs.icount
    ensures Gives(t, r, reply) && |t.uses| == |t.kind| && Tied(fs, After(t, r, reply))
  {
    hide Sound, F.Kept, Shows, Using, Swept, F.OnlyFrees, F.Quiet;
    TiedFacts(fs, t);
    if r.x == 0 || r.x >= fs.icount.Length || fs.icount[r.x] == 0 { return Reply(F.EINVAL, 0, 0); }
    ghost var n, c := fs.inode[..], fs.icount[..];
    fs.Release(r.x);
    MakesUse(t, n, c, r.x, c[r.x] - 1);
    Dropping(Using(t, r.x, c[r.x] - 1), n, fs.inode[..], fs.icount[..], fs.rank);
    reply := Reply(F.OK, 0, 0);
  }

  lemma Dropping(t: Tree, n: seq<Node>, n': seq<Node>, c': seq<nat>, rank': seq<nat>)
    requires Shows(t, n, c') && SameNames(n, n') && Sound(n', rank') && F.Kept(n', c') && F.OnlyFrees(n, n') && |n| > 0 && n[0].kind == FREE
    ensures Shows(Swept(t), n', c')
  {
    hide Sound, F.Kept;
    forall d: nat, m ensures NameAt(t, d, m) == Look(n', d, m) { ShowsName(t, n, c', d, m); }
    ShowsSwept(t, n, n', c', rank');
  }

  method DoStat(fs: F.FileTree, r: Call, ghost t: Tree) returns (reply: Reply)
    requires Tied(fs, t) && r.Stat? && Proper(fs.inode.Length, r)
    ensures Gives(t, r, reply) && |t.uses| == |t.kind| && Tied(fs, After(t, r, reply))
  {
    hide Sound, F.Kept, Shows, Find, DirOf, F.Eat;
    TiedFacts(fs, t);
    Leading(t, fs.inode[..], fs.icount[..], fs.rank, r.start, r.path, r.name, r.root);
    var x := fs.EatPath(r.start, r.path, r.name, r.root);
    if x == 0 { return Reply(F.ENOENT, 0, 0); }
    ShowsLinks(t, fs.inode[..], fs.icount[..], fs.rank, x);
    reply := Reply(F.OK, x, fs.inode[x].nlinks);
  }

  /** What the conditions for renaming come to. */
  lemma Renaming2(t: Tree, n: seq<Node>, c: seq<nat>, rank: seq<nat>, r: Call, od: nat, nd: nat, x: nat, y: nat)
    requires Shows(t, n, c) && Sound(n, rank) && F.Kept(n, c) && r.Rename? && Proper(|n|, r)
    requires od == F.Last(n, r.ostart, r.opath, r.root) && nd == F.Last(n, r.start, r.path, r.root)
    requires x == Old1(t, r) && y == Old(t, r)
    ensures od != 0 ==> Live(n, od) && x < |n|
    ensures nd != 0 ==> Live(n, nd) && y < |n|
    ensures nd != 0 && od != 0 ==>
      var busy := r.busy || y == r.root;
      Movable(t, od, r.oname, nd, r.name, x, y, busy) <==>
        F.Renamable(n, rank, od, r.oname, nd, r.name, x, y) && F.Clear(n, nd, r.name, y, busy)
    ensures r.oname == "" && od != 0 ==> x == od && IsDir(n, x)
    ensures nd != 0 && od != 0 && y != 0 && Movable(t, od, r.oname, nd, r.name, x, y, r.busy || y == r.root) ==> IsDir(n, x) == IsDir(n, y)
  {
    hide Sound, F.Kept, Shows, F.Last;
    Leading(t, n, c, rank, r.start, r.path, r.name, r.root);
    Leading(t, n, c, rank, r.ostart, r.opath, r.oname, r.root);
    F.LastLive(n, rank, r.start, r.path, r.root);
    F.LastLive(n, rank, r.ostart, r.opath, r.root);
    if nd != 0 { F.OnWay(n, rank, nd, r.name, r.root); }
    if od != 0 { F.OnWay(n, rank, od, r.oname, r.root); }
    if nd != 0 && od != 0 {
      Renaming(t, n, c, rank, od, r.oname, nd, r.name, x, y, r.busy || y == r.root);
      Emptiness(t, n, c, x);
      Emptiness(t, n, c, y);
    }
  }

  /** A directory that can be renamed is not the one it goes to, nor is what is there now. */
  lemma MovingRight(n: seq<Node>, rank: seq<nat>, od: nat, on: string, nd: nat, nn: string, x: nat, y: nat, root: nat, busy: bool)
    requires Sound(n, rank) && Live(n, od) && Live(n, nd) && on != "" && x == F.Step(n, od, on, root) && y == F.Step(n, nd, nn, root)
    requires F.Renamable(n, rank, od, on, nd, nn, x, y) && F.Clear(n, nd, nn, y, busy) && x != 0
    ensures x < |n| && (IsDir(n, x) ==> nn != ".." && on != ".." && x != nd) && (y != 0 && IsDir(n, y) ==> nd != y)
  {
    hide Shape, Law, Above;
    F.RenamableMeans(n, rank, od, on, nd, nn, x, y);
    F.Leads(n, rank, od, on);
    F.Leads(n, rank, nd, nn);
    if IsDir(n, x) {
      if od == nd { ParentOf(n, rank, od, on, x); } else { Reflexive(n, rank, x); }
    }
    if y != 0 && IsDir(n, y) { ParentOf(n, rank, nd, nn, y); }
  }

  lemma Reflexive(n: seq<Node>, rank: seq<nat>, x: nat)
    ensures Above(n, rank, x, x)
  {
  }

  method Step(fs: F.FileTree, r: Call, ghost t: Tree) returns (reply: Reply)
    requires Tied(fs, t) && Proper(fs.inode.Length, r)
    modifies fs`rank, fs.inode, fs.icount
    ensures Gives(t, r, reply) && |t.uses| == |t.kind| && (!Spoils(t, r, reply) ==> Tied(fs, After(t, r, reply)))
  {
    hide Tied, Gives, After, Proper;
    match r
    case Creat(_, _, _, _, _) => reply := DoCreat(fs, r, t);
    case Mkdir(_, _, _, _, _, _, _) => reply := DoMkdir(fs, r, t);
    case Link(_, _, _, _, _, _, _, _, _) => reply := DoLink(fs, r, t);
    case Unlink(_, _, _, _, _) => reply := DoUnlink(fs, r, t);
    case Rmdir(_, _, _, _, _) => reply := DoRmdir(fs, r, t);
    case Rename(_, _, _, _, _, _, _, _, _) => reply := DoRename(fs, r, t);
    case Hold(_, _, _, _) => reply := DoHold(fs, r, t);
    case Drop(_) => reply := DoDrop(fs, r, t);
    case Stat(_, _, _, _) => reply := DoStat(fs, r, t);
  }

  // ----- runs

  /** These are the replies that a table of names gives; the table is last in the end, unless the last call has spoiled it. */
  ghost predicate Explains(t: Tree, calls: seq<Call>, replies: seq<Reply>, last: Tree, spoiled: bool)
    decreases |replies|
  {
    if replies == [] || calls == [] then replies == [] && last == t && !spoiled
    else
      && |t.uses| == |t.kind| && Gives(t, calls[0], replies[0])
      && if Spoils(t, calls[0], replies[0]) then |replies| == 1 && spoiled
         else Explains(After(t, calls[0], replies[0]), calls[1..], replies[1..], last, spoiled)
  }

  lemma {:induction false} OneMore(t: Tree, calls: seq<Call>, replies: seq<Reply>, last: Tree, reply: Reply, next: Tree, spoils: bool)
    requires Explains(t, calls, replies, last, false) && |replies| < |calls|
    requires |last.uses| == |last.kind| && Gives(last, calls[|replies|], reply)
    requires spoils == Spoils(last, calls[|replies|], reply) && (!spoils ==> next == After(last, calls[|replies|], reply))
    ensures Explains(t, calls, replies + [reply], next, spoils)
    decreases |replies|
  {
    hide Gives, Spoils, After;
    var r := replies + [reply];
    if replies == [] {
      assert r[1..] == [];
    } else {
      assert r[0] == replies[0] && r[1..] == replies[1..] + [reply] && calls[1..][|replies| - 1] == calls[|replies|];
      OneMore(After(t, calls[0], replies[0]), calls[1..], replies[1..], last, reply, next, spoils);
    }
  }

  /** Whether a call that succeeds will spoil the tree can be told before. */
  method IsDangerous(fs: F.FileTree, r: Call, ghost t: Tree) returns (b: bool)
    requires Tied(fs, t) && Proper(fs.inode.Length, r)
    ensures b == Dangerous(t, r)
  {
    hide Sound, F.Kept, Shows, Find, DirOf, F.Eat;
    TiedFacts(fs, t);
    b := false;
    if r.Link? || r.Rename? {
      Leading(t, fs.inode[..], fs.icount[..], fs.rank, r.ostart, r.opath, r.oname, r.root);
      var x := fs.EatPath(r.ostart, r.opath, r.oname, r.root);
      Emptiness(t, fs.inode[..], fs.icount[..], x);
      if r.Link? { return fs.inode[x].kind == DIRECTORY; }
      Leading(t, fs.inode[..], fs.icount[..], fs.rank, r.start, r.path, r.name, r.root);
      var y := fs.EatPath(r.start, r.path, r.name, r.root);
      return r.oname == "" && x != y;
    }
    if r.Unlink? {
      Leading(t, fs.inode[..], fs.icount[..], fs.rank, r.start, r.path, r.name, r.root);
      var x := fs.EatPath(r.start, r.path, r.name, r.root);
      Emptiness(t, fs.inode[..], fs.icount[..], x);
      return fs.inode[x].kind == DIRECTORY;
    }
  }

  /** For every run of calls, up to one that spoils the tree, the replies are those of a table of names. */
  method Run(fs: F.FileTree, calls: seq<Call>, ghost t0: Tree) returns (replies: seq<Reply>, ghost t: Tree, spoiled: bool)
    requires Tied(fs, t0) && forall k :: 0 <= k < |calls| ==> Proper(fs.inode.Length, calls[k])
    modifies fs`rank, fs.inode, fs.icount
    ensures |replies| <= |calls| && Explains(t0, calls, replies, t, spoiled)
    ensures !spoiled ==> Tied(fs, t) && |replies| == |calls|
  {
    hide Tied, Proper, Gives, Dangerous, After;
    replies, t, spoiled := [], t0, false;
    while |replies| < |calls| && !spoiled
      invariant |replies| <= |calls| && Explains(t0, calls, replies, t, spoiled) && (!spoiled ==> Tied(fs, t))
      decreases |calls| - |replies|
    {
      var r := calls[|replies|];
      var danger := IsDangerous(fs, r, t);
      var reply := Step(fs, r, t);
      spoiled := danger && reply.code == F.OK;
      ghost var next := if spoiled then t else After(t, r, reply);
      OneMore(t0, calls, replies, t, reply, next, spoiled);
      replies, t := replies + [reply], next;
    }
  }

  /** The names of a device with nothing but an empty root directory, that somebody uses. */
  function OnlyRoot(n: nat): Tree {
    Tree(seq(n, x => if x == ROOT_INODE then DIRECTORY else FREE),
         seq(n, x => if x == ROOT_INODE then map["." := ROOT_INODE, ".." := ROOT_INODE] else map[]),
         seq(n, x => if x == ROOT_INODE then 1 else 0))
  }

  /** The same for every run on a new device. */
  method Session(ninodes: nat, calls: seq<Call>) returns (replies: seq<Reply>, spoiled: bool, ghost t: Tree)
    requires ninodes >= ROOT_INODE && forall k :: 0 <= k < |calls| ==> Proper(ninodes + 1, calls[k])
    ensures |replies| <= |calls| && (!spoiled ==> |replies| == |calls|)
    ensures Explains(OnlyRoot(ninodes + 1), calls, replies, t, spoiled)
  {
    hide Proper, Explains, F.FileTree.Valid;
    var fs := new F.FileTree(ninodes);
    ghost var t0 := OnlyRoot(ninodes + 1);
    NewDevice(t0, fs.inode[..], fs.icount[..]);
    replies, t, spoiled := Run(fs, calls, t0);
  }

  lemma NewDevice(t: Tree, n: seq<Node>, c: seq<nat>)
    requires |n| == |c| > ROOT_INODE && t == OnlyRoot(|n|)
    requires forall x :: 0 <= x < |n| ==>
      && c[x] == (if x == ROOT_INODE then 1 else 0)
      && n[x] == if x == ROOT_INODE then Node(DIRECTORY, 2, [D.Entry(ROOT_INODE, "."), D.Entry(ROOT_INODE, "..")]) else Node(FREE, 0, [])
    ensures Shows(t, n, c)
  {
    var s := n[ROOT_INODE].slots;
    forall d: nat, m ensures NameAt(t, d, m) == Look(n, d, m) {
      if d == ROOT_INODE {
        D.Found(s, 0);
        D.Found(s, 1);
        D.NotFound(s, m);
      } else if d < |n| {
        D.NotFound(n[d].slots, m);
      }
    }
  }
}
