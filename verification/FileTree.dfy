/** The calls that change directories (src/fs/link.c, src/fs/open.c, src/fs/path.c), on one device. */
module FileTree {
  import opened Directories
  import opened Links
  import opened LinkSteps
  import opened TreeCalls

  const LINK_MAX := 127

  datatype Reply = OK | EEXIST | ENOENT | ENOTDIR | EISDIR | ENOTEMPTY | EMLINK | EPERM | ENOSPC | ENFILE | EINVAL | EBUSY | SAME

  predicate KeptOne(v: Node, c: nat) {
    v.nlinks <= LINK_MAX && if v.kind == FREE then v == Node(FREE, 0, []) && c == 0 else v.nlinks == 0 ==> c > 0
  }

  /** An inode that nobody uses and nothing names is free, and a free one is empty; no inode has too many links. */
  ghost predicate Kept(n: seq<Node>, c: seq<nat>) {
    && |c| == |n|
    && forall x :: 0 <= x < |n| ==> KeptOne(n[x], c[x])
  }

  /** Where advance gets to: at the root of a process, dot-dot leads nowhere; no name at all stands for the directory itself. */
  function Step(n: seq<Node>, d: nat, name: string, root: nat): nat {
    if name == "" || (d == root && name == ".." && Look(n, d, name) != 0) then d else Look(n, d, name)
  }

  /** The directory that a path leads to from directory d, component by component. */
  function Walk(n: seq<Node>, d: nat, path: seq<string>, root: nat): (w: (Reply, nat))
    ensures w.0 == OK || ((w.0 == ENOENT || w.0 == ENOTDIR) && w.1 == 0)
    decreases |path|
  {
    if !IsDir(n, d) then (ENOTDIR, 0)
    else if path == [] then (OK, d)
    else
      var x := Step(n, d, path[0], root); if x == 0 then (ENOENT, 0) else Walk(n, x, path[1..], root)
  }

  /** The last directory of a path, which may start in a directory that has been removed; zero if there is none. */
  function Last(n: seq<Node>, start: nat, path: seq<string>, root: nat): nat {
    if start < |n| && n[start].nlinks != 0 then Walk(n, start, path, root).1 else 0
  }

  function Eat(n: seq<Node>, start: nat, path: seq<string>, name: string, root: nat): nat {
    var d := Last(n, start, path, root); if d == 0 then 0 else Step(n, d, name, root)
  }

  ghost predicate HasRoom(n: seq<Node>, d: nat) {
    d < |n| && exists s :: 0 <= s < |n[d].slots| && n[d].slots[s].ino == 0
  }

  /** Another name can be entered in directory d: there is a slot, or room for one in the last block, or for another block. */
  ghost predicate Space(n: seq<Node>, d: nat, room: bool) {
    d < |n| && (HasRoom(n, d) || |n[d].slots| % NR_DIR_ENTRIES != 0 || room)
  }

  ghost predicate HasFree(n: seq<Node>) {
    exists y :: 0 < y < |n| && n[y].kind == FREE
  }

  class FileTree {
    const inode: array<Node>
    const icount: array<nat>
    ghost var rank: seq<nat>

    ghost predicate Valid()
      reads this, inode, icount
    {
      Sound(inode[..], rank) && Kept(inode[..], icount[..])
    }

    /** A device with nothing but an empty root directory, that somebody uses. */
    constructor (ninodes: nat)
      requires ninodes >= ROOT_INODE
      ensures Valid() && fresh(inode) && fresh(icount) && inode.Length == icount.Length == ninodes + 1
      ensures forall x :: 0 <= x <= ninodes ==>
        && icount[x] == (if x == ROOT_INODE then 1 else 0)
        && inode[x] == if x == ROOT_INODE then Node(DIRECTORY, 2, [Entry(ROOT_INODE, "."), Entry(ROOT_INODE, "..")]) else Node(FREE, 0, [])
    {
      inode := new Node[ninodes + 1](_ => Node(FREE, 0, []));
      icount := new nat[ninodes + 1](x => if x == ROOT_INODE then 1 else 0);
      rank := Zeros(ninodes + 1);
      new;
      inode[ROOT_INODE] := Node(DIRECTORY, 2, [Entry(ROOT_INODE, "."), Entry(ROOT_INODE, "..")]);
      Fresh(inode[..], rank);
    }

    // ----- inodes in use

    /** get_inode and dup_inode */
    method Get(x: nat)
      requires x < icount.Length
      modifies icount
      ensures icount[..] == old(icount[..])[x := old(icount[x]) + 1]
    {
      icount[x] := icount[x] + 1;
    }

    /** put_inode: an inode that nobody uses and nothing names is freed. */
    method Put(x: nat)
      requires x < icount.Length == inode.Length && icount[x] > 0
      modifies inode, icount
      ensures icount[..] == old(icount[..])[x := old(icount[x]) - 1]
      ensures inode[..] == if old(icount[x]) == 1 && old(inode[x].nlinks) == 0 then old(inode[..])[x := Node(FREE, 0, [])] else old(inode[..])
    {
      icount[x] := icount[x] - 1;
      if icount[x] == 0 && inode[x].nlinks == 0 { inode[x] := Node(FREE, 0, []); }
    }

    /** put_inode, when all else is done. */
    method Release(x: nat)
      requires 0 < x < inode.Length == icount.Length && icount[x] > 0
      modifies inode, icount
      ensures icount[..] == old(icount[..])[x := old(icount[x]) - 1]
      ensures inode[x] == if old(icount[x]) == 1 && old(inode[x].nlinks) == 0 then Node(FREE, 0, []) else old(inode[x])
      ensures forall y :: 0 <= y < inode.Length && y != x ==> inode[y] == old(inode[y])
      ensures old(Valid()) ==> Valid() && SameNames(old(inode[..]), inode[..])
      ensures Quiet(old(inode[..])) ==> Quiet(inode[..]) && Owes(old(inode[..]), inode[..], 0, 0) && SameNames(old(inode[..]), inode[..])
      ensures OnlyFrees(old(inode[..]), inode[..])
    {
      hide Law, Shape, Quiet;
      ghost var n, c := inode[..], icount[..];
      if Quiet(n) && inode[x].nlinks == 0 { QuietFreed(n, x); }
      if Sound(n, rank) && inode[x].nlinks == 0 { Freed(n, rank, x); FreedLook(n, rank, x); }
      Put(x);
      if old(Valid()) {
        forall y | 0 <= y < |n| ensures KeptOne(inode[..][y], icount[..][y]) { assert KeptOne(n[y], c[y]); }
      }
    }

    /** eat_path, as chdir and open call it: the inode is in use once more. */
    method Hold(start: nat, path: seq<string>, name: string, root: nat) returns (x: nat)
      requires Valid() && 0 < start < inode.Length
      modifies icount
      ensures Valid() && x == Eat(inode[..], start, path, name, root) < |old(icount[..])|
      ensures icount[..] == if x == 0 then old(icount[..]) else old(icount[..])[x := old(icount[..])[x] + 1]
    {
      hide Shape, Law;
      ghost var c := icount[..];
      x := EatPath(start, path, name, root);
      if x == 0 { return; }
      Get(x);
      KeptUsed(inode[..], c, icount[..], x);
    }

    // ----- searching a directory

    /** search_dir, LOOK_UP */
    method LookUp(d: nat, name: string) returns (x: nat)
      requires d < inode.Length
      ensures x == Look(inode[..], d, name)
    {
      var i := 0;
      while i < |inode[d].slots|
        invariant 0 <= i <= |inode[d].slots|
        invariant forall j :: 0 <= j < i ==> !(inode[d].slots[j].ino != 0 && inode[d].slots[j].name == name)
      {
        if inode[d].slots[i].ino != 0 && inode[d].slots[i].name == name { return inode[d].slots[i].ino; }
        i := i + 1;
      }
      x := 0;
    }

    /** search_dir, DELETE */
    method Delete(d: nat, name: string) returns (ok: bool)
      requires d < inode.Length
      modifies inode
      ensures ok == (Look(old(inode[..]), d, name) != 0)
      ensures inode[..] == if ok then Erase(old(inode[..]), d, Find(old(inode[d].slots), name)) else old(inode[..])
    {
      ghost var n := inode[..];
      ghost var k := Find(inode[d].slots, name);
      var i := 0;
      while i < |inode[d].slots|
        invariant 0 <= i <= k && inode[..] == n
      {
        if inode[d].slots[i].ino != 0 && inode[d].slots[i].name == name {
          inode[d] := inode[d].(slots := Erased(inode[d].slots, i));
          assert inode[..] == Erase(n, d, k);
          return true;
        }
        i := i + 1;
      }
      ok := false;
    }

    /** search_dir, ENTER: in the first slot that is not in use, or after the last; room tells whether the directory can have
        another block when its last one is full. */
    method Enter(d: nat, name: string, x: nat, room: bool) returns (ok: bool, ghost i: nat)
      requires d < inode.Length
      modifies inode
      ensures i <= |old(inode[d].slots)| && (i < |old(inode[d].slots)| ==> old(inode[d].slots[i].ino) == 0)
      ensures forall j :: 0 <= j < i ==> old(inode[d].slots[j].ino) != 0
      ensures ok == Space(old(inode[..]), d, room)
      ensures inode[..] == if ok then Links.Enter(old(inode[..]), d, i, name, x) else old(inode[..])
    {
      ghost var n := inode[..];
      var k := 0;
      while k < |inode[d].slots| && inode[d].slots[k].ino != 0
        invariant 0 <= k <= |inode[d].slots| && forall j :: 0 <= j < k ==> inode[d].slots[j].ino != 0
      {
        k := k + 1;
      }
      i := k;
      ok := k < |inode[d].slots| || k % NR_DIR_ENTRIES != 0 || room;
      if ok {
        inode[d] := inode[d].(slots := Entered(inode[d].slots, k, name, x));
        assert inode[..] == Links.Enter(n, d, i, name, x);
      }
    }

    /** search_dir, IS_EMPTY */
    method IsEmpty(d: nat) returns (e: bool)
      requires d < inode.Length && Distinct(inode[d].slots) && Look(inode[..], d, "") == 0
      ensures e <==> forall m :: Ordinary(m) ==> Look(inode[..], d, m) == 0
    {
      ghost var s := inode[d].slots;
      var i := 0;
      while i < |inode[d].slots|
        invariant 0 <= i <= |s| && forall j :: 0 <= j < i ==> !(s[j].ino != 0 && Ordinary(s[j].name))
      {
        if inode[d].slots[i].ino != 0 && inode[d].slots[i].name != "." && inode[d].slots[i].name != ".." {
          Found(s, i);
          NotFound(s, "");
          assert Look(inode[..], d, s[i].name) != 0 && Ordinary(s[i].name);
          return false;
        }
        i := i + 1;
      }
      e := true;
    }

    /** advance */
    method Advance(d: nat, name: string, root: nat) returns (x: nat)
      requires d < inode.Length
      ensures x == Step(inode[..], d, name, root)
    {
      if name == "" { return d; }
      x := LookUp(d, name);
      if x != 0 && d == root && name == ".." { x := d; }
    }

    /** last_dir: where a path starts is the only directory that may have been removed. */
    method LastDir(start: nat, path: seq<string>, root: nat) returns (r: Reply, d: nat)
      requires Sound(inode[..], rank) && 0 < start < inode.Length
      ensures d == Last(inode[..], start, path, root) && (r == OK <==> d != 0) && (d != 0 ==> Live(inode[..], d))
      ensures r == if inode[start].nlinks == 0 then ENOENT else Walk(inode[..], start, path, root).0
      ensures r == OK || r == ENOENT || r == ENOTDIR
    {
      hide Shape, Law;
      ghost var n := inode[..];
      NotNegative(n, start);
      if inode[start].nlinks == 0 { return ENOENT, 0; }
      var i := 0;
      d := start;
      while i < |path|
        invariant 0 <= i <= |path| && 0 < d < |n| && n[d].nlinks > 0
        invariant Walk(n, d, path[i..], root) == Walk(n, start, path, root)
      {
        if inode[d].kind != DIRECTORY { return ENOTDIR, 0; }
        OnWay(n, rank, d, path[i], root);
        var x := Advance(d, path[i], root);
        assert path[i..][1..] == path[i + 1..];
        if x == 0 { return ENOENT, 0; }
        d := x;
        i := i + 1;
      }
      if inode[d].kind != DIRECTORY { return ENOTDIR, 0; }
      r := OK;
    }

    /** eat_path: the inode that a path with a last component leads to, zero if there is none. */
    method EatPath(start: nat, path: seq<string>, name: string, root: nat) returns (x: nat)
      requires Sound(inode[..], rank) && 0 < start < inode.Length
      ensures x == Eat(inode[..], start, path, name, root) && x < inode.Length && (x != 0 ==> inode[x].nlinks > 0)
    {
      hide Shape, Law;
      var r, d := LastDir(start, path, root);
      if r != OK { return 0; }
      OnWay(inode[..], rank, d, name, root);
      x := Advance(d, name, root);
    }

    // ----- new files and directories

    /** alloc_inode: the first that is free, with a link for the name it is about to get. */
    method AllocInode(kind: Kind) returns (x: nat)
      requires Kept(inode[..], icount[..]) && kind != FREE
      modifies inode, icount
      ensures x == 0 ==> inode[..] == old(inode[..]) && icount[..] == old(icount[..])
      ensures x == 0 ==> !HasFree(inode[..])
      ensures x != 0 ==>
        && x < inode.Length && old(inode[x]) == Node(FREE, 0, []) && HasFree(old(inode[..])) && IsLowest(old(inode[..]), x)
        && inode[..] == old(inode[..])[x := Node(kind, 1, [])] && old(icount[x]) == 0 && icount[..] == old(icount[..])[x := 1]
    {
      ghost var n, c := inode[..], icount[..];
      x := 1;
      while x < inode.Length && inode[x].kind != FREE
        invariant 1 <= x && forall y :: 0 < y < x && y < inode.Length ==> inode[y].kind != FREE
      {
        x := x + 1;
      }
      if x >= inode.Length { return 0; }
      assert KeptOne(n[x], c[x]);
      inode[x] := Node(kind, 1, []);
      icount[x] := 1;
      assert inode[..] == n[x := Node(kind, 1, [])];
    }

    /** new_node: an inode with a name in directory d, unless there is one of that name already. */
    method NewNode(d: nat, name: string, kind: Kind, room: bool, root: nat) returns (r: Reply, x: nat, ghost i: nat)
      requires Valid() && 0 < d && Live(inode[..], d) && kind != FREE
      modifies inode, icount
      ensures r == OK ==> IsNew(old(inode[..]), d, i, name, x) && IsLowest(old(inode[..]), x)
      ensures r == OK ==>
        inode[..] == Links.Enter(old(inode[..])[x := Node(kind, 1, [])], d, i, name, x) && icount[..] == old(icount[..])[x := 1]
      ensures r != OK ==> inode[..] == old(inode[..])
      ensures r != OK ==> icount[..] == if r == EEXIST && x < inode.Length then old(icount[..])[x := old(icount[x]) + 1] else old(icount[..])
      ensures r == OK <==> Step(old(inode[..]), d, name, root) == 0 && HasFree(old(inode[..])) && Space(old(inode[..]), d, room)
      ensures r == EEXIST <==> Step(old(inode[..]), d, name, root) != 0
      ensures r == EEXIST ==> 0 < x < inode.Length && inode[x].nlinks > 0 && x == Step(old(inode[..]), d, name, root)
    {
      hide Shape, Law, Look, Space, HasFree, IsNew, IsLowest;
      ghost var n, c := inode[..], icount[..];
      x, i := 0, 0;
      DotDot(n, rank, d);
      x := Advance(d, name, root);
      if x != 0 {
        NewOrNot(n, rank, d, name, root);
        Get(x);
        return EEXIST, x, i;
      }
      x := AllocInode(kind);
      if x == 0 { return ENFILE, x, i; }
      NewOrNot(n, rank, d, name, root);
      Lowest(n, d, x, Node(kind, 1, []), room);
      var ok;
      ok, i := Enter(d, name, x, room);
      if !ok {
        inode[x] := inode[x].(nlinks := 0);
        Put(x);
        assert inode[..] == n && icount[..] == c;
        return ENOSPC, x, i;
      }
      IsNewHere(n, rank, d, i, name, x);
      r := OK;
    }

    /** do_creat and do_mknod: a new file, which is in use from now on. */
    method Create(start: nat, path: seq<string>, name: string, room: bool, root: nat) returns (r: Reply, x: nat)
      requires Valid() && 0 < start < inode.Length
      modifies inode, icount
      ensures Valid()
      ensures var n, d := old(inode[..]), Last(old(inode[..]), start, path, root);
        && (r == OK <==> d != 0 && Step(n, d, name, root) == 0 && HasFree(n) && Space(n, d, room))
        && (r == EEXIST <==> d != 0 && Step(n, d, name, root) != 0) && (r == EEXIST ==> x == Step(n, d, name, root) < |n|)
        && (r == OK ==> Look(n, d, name) == 0 && Binds(n, inode[..], d, name, x) && IsLowest(n, x) && inode[x] == Node(FILE, 1, []))
        && (r == OK ==> forall y :: 0 <= y < |n| && y != x ==> inode[y].kind == n[y].kind)
        && (r != OK ==> inode[..] == n)
      ensures r == OK ==> x < |old(icount[..])| && icount[..] == old(icount[..])[x := 1]
      ensures r != OK ==> icount[..] == if r == EEXIST && x < |old(icount[..])| then old(icount[..])[x := old(icount[..])[x] + 1] else old(icount[..])
    {
      hide Shape, Law, Look, HasFree, IsLowest, Last;
      ghost var n, c := inode[..], icount[..];
      ghost var i;
      var d;
      r, d := LastDir(start, path, root);
      if r != OK { return r, 0; }
      r, x, i := NewNode(d, name, FILE, room, root);
      if r == OK {
        CreatedFile(n, rank, d, i, name, x);
        KeptNew(n, c, inode[..], icount[..], d, x);
      } else {
        KeptUsed(n, c, icount[..], x);
      }
    }

    /** do_mkdir: a new directory, with both dots; room1 and room2 are for its own first block. */
    method Mkdir(start: nat, path: seq<string>, name: string, room: bool, room1: bool, room2: bool, root: nat) returns (r: Reply)
      requires Valid() && 0 < start < inode.Length
      modifies this`rank, inode, icount
      ensures Valid() && icount[..] == old(icount[..])
      ensures var n, d := old(inode[..]), Last(old(inode[..]), start, path, root);
        && (r == OK <==>
              d != 0 && d < |n| && n[d].nlinks < LINK_MAX && Step(n, d, name, root) == 0 && HasFree(n) && Space(n, d, room) && room1)
        && (r == OK ==>
              var x := Look(inode[..], d, name);
              && Look(n, d, name) == 0 && IsLowest(n, x) && Made(n, inode[..], d, name, x)
              && inode[d].nlinks == n[d].nlinks + 1 && inode[x].nlinks == 2)
        && (r != OK ==> SameNames(n, inode[..]) && SameNodes(n, inode[..]))
    {
      hide Shape, Law, Look, IsLowest, Last;
      ghost var n, c := inode[..], icount[..];
      var d;
      r, d := LastDir(start, path, root);
      if r != OK { return; }
      if inode[d].nlinks >= LINK_MAX { return EMLINK; }
      DotDot(n, rank, d);
      var x;
      ghost var i;
      r, x, i := NewNode(d, name, DIRECTORY, room, root);
      if r != OK {
        if r == EEXIST {
          Put(x);
          assert icount[..] == c;
        }
        return;
      }
      var ok := AddDots(n, c, d, i, name, x, room1, room2);
      if !ok { r := ENOSPC; }
    }

    /** do_mkdir: both dots are entered, or everything is taken back. */
    method AddDots(ghost n: seq<Node>, ghost c: seq<nat>, d: nat, ghost i: nat, name: string, x: nat, room1: bool, room2: bool)
      returns (ok: bool)
      requires Sound(n, rank) && Kept(n, c) && 0 < d < inode.Length == |n| && IsNew(n, d, i, name, x) && d != x && n[d].nlinks < LINK_MAX
      requires inode[..] == Links.Enter(n[x := Node(DIRECTORY, 1, [])], d, i, name, x) && icount[..] == c[x := 1]
      modifies this`rank, inode, icount
      ensures Valid() && icount[..] == c && ok == room1
      ensures ok ==> Made(n, inode[..], d, name, x) && inode[d].nlinks == n[d].nlinks + 1 && inode[x].nlinks == 2
      ensures !ok ==> SameNames(n, inode[..]) && SameNodes(n, inode[..])
    {
      hide Shape, Law, Lookup, Kept, Made, SameNames, SameNodes;
      NewSlots(n, c, d, i, name, x);
      var ok1, i1 := Enter(x, ".", x, room1);
      var ok2, i2 := Enter(x, "..", d, room2);
      ok := ok1 && ok2;
      if ok {
        inode[x] := inode[x].(nlinks := inode[x].nlinks + 1);
        inode[d] := inode[d].(nlinks := inode[d].nlinks + 1);
        assert inode[..] == MadeDir(n, d, i, name, x);
        MadeDone(n, c, rank, d, i, name, x);
        rank := rank[x := rank[d] + 1];
        Put(x);
        KeptDone(inode[..], c[x := 1], x, icount[..]);
        assert icount[..] == c;
      } else {
        TakeBack(n, c, d, i, name, x);
      }
    }

    /** do_mkdir, when there was no room for the dots. */
    method TakeBack(ghost n: seq<Node>, ghost c: seq<nat>, d: nat, ghost i: nat, name: string, x: nat)
      requires Sound(n, rank) && Kept(n, c) && 0 < d < inode.Length && IsNew(n, d, i, name, x) && d != x && x < inode.Length
      requires inode[x].kind == DIRECTORY && inode[x].nlinks == 1 && inode[d] == Links.Enter(n, d, i, name, x)[d]
      requires inode.Length == |n| && forall y :: 0 <= y < |n| && y != x && y != d ==> inode[y] == n[y]
      requires icount[..] == c[x := 1] && c[x] == 0
      modifies inode, icount
      ensures Valid() && icount[..] == c && SameNames(n, inode[..]) && SameNodes(n, inode[..])
    {
      hide Shape, Law, Kept, SameNames, SameNodes, IsNew, Lookup;
      BackDone(n, c, rank, d, i, name, x);
      var ok := Delete(d, name);
      assert inode[d] == Erase(Links.Enter(n, d, i, name, x), d, i)[d];
      inode[x] := inode[x].(nlinks := inode[x].nlinks - 1);
      Put(x);
      assert inode[..] == Erase(Links.Enter(n, d, i, name, x), d, i);
      assert icount[..] == c;
    }

    // ----- links

    /** do_link: another name for inode x. The superuser can give one to a directory, and then there is no tree any more. */
    method Link(x: nat, start: nat, path: seq<string>, name: string, room: bool, root: nat, superUser: bool) returns (r: Reply)
      requires Valid() && 0 < x < inode.Length && 0 < start < inode.Length && inode[x].kind != FREE
      modifies inode
      ensures var n, d := old(inode[..]), Last(old(inode[..]), start, path, root);
        && (r == OK <==>
              && n[x].nlinks < LINK_MAX && (n[x].kind == DIRECTORY ==> superUser) && d != 0
              && Step(n, d, name, root) == 0 && Space(n, d, room))
        && (r == OK ==>
              && Look(n, d, name) == 0 && Binds(n, inode[..], d, name, x) && inode[x].nlinks == n[x].nlinks + 1 && Law(inode[..]))
        && (r != OK ==> inode[..] == n)
      ensures SameKinds(old(inode[..]), inode[..])
      ensures Valid() <==> !(r == OK && old(inode[x].kind) == DIRECTORY)
      ensures IsTree(inode[..]) <==> !(r == OK && old(inode[x].kind) == DIRECTORY)
      ensures r == EMLINK <==> old(inode[x].nlinks) >= LINK_MAX
      ensures r == EPERM <==> old(inode[x].nlinks) < LINK_MAX && old(inode[x].kind) == DIRECTORY && !superUser
    {
      hide Shape, Law, IsTree, Look, Binds, Space, Kept;
      ghost var n, c := inode[..], icount[..];
      StillTree(n, rank);
      SameLength(n, c);
      if inode[x].nlinks >= LINK_MAX { return EMLINK; }
      if inode[x].kind == DIRECTORY && !superUser { return EPERM; }
      var d;
      r, d := LastDir(start, path, root);
      if r != OK { return; }
      NewOrNot(n, rank, d, name, root);
      var y := Advance(d, name, root);
      if y != 0 { return EEXIST; }
      var ok, i := Enter(d, name, x, room);
      if !ok { return ENOSPC; }
      inode[x] := inode[x].(nlinks := inode[x].nlinks + 1);
      assert inode[..] == Count(Links.Enter(n, d, i, name, x), x, 1);
      LinkDone(n, c, rank, d, i, name, x);
      r := OK;
    }

    /** unlink_file, for an inode that is in use. */
    method UnlinkFile(d: nat, x: nat, name: string) returns (ok: bool)
      requires d < inode.Length && x < inode.Length == icount.Length && icount[x] > 0
      modifies inode, icount
      ensures ok == (Look(old(inode[..]), d, name) != 0) && icount[..] == old(icount[..])
      ensures inode[..] == if ok then Count(Erase(old(inode[..]), d, Find(old(inode[d].slots), name)), x, -1) else old(inode[..])
    {
      ghost var n, c := inode[..], icount[..];
      Get(x);
      ok := Delete(d, name);
      if ok { inode[x] := inode[x].(nlinks := inode[x].nlinks - 1); }
      Put(x);
      assert icount[..] == c;
    }

    /** do_unlink. The superuser can take away any entry of a directory other than the root: then there is no tree any more, and
        in the root directory of a process dot-dot takes the law with it. */
    method Unlink(start: nat, path: seq<string>, name: string, root: nat, superUser: bool) returns (r: Reply)
      requires Valid() && 0 < start < inode.Length
      modifies inode, icount
      ensures icount[..] == old(icount[..])
      ensures var n := old(inode[..]); var d := Last(n, start, path, root); var x := Step(n, d, name, root);
        && (r == OK <==>
              d != 0 && x != 0 && x != ROOT_INODE && Look(n, d, name) != 0 && (IsDir(n, x) ==> superUser))
        && (r == OK ==> 0 < x < inode.Length && Binds(n, inode[..], d, name, 0))
        && (r == OK && !IsDir(n, x) ==>
              inode[x] == if n[x].nlinks == 1 && old(icount[..])[x] == 0 then Node(FREE, 0, []) else n[x].(nlinks := n[x].nlinks - 1))
        && (r == OK && IsDir(n, x) ==> inode[x].nlinks == n[x].nlinks - 1)
        && (r != OK ==> inode[..] == n)
        && (Valid() <==> !(r == OK && IsDir(n, x)))
        && (IsTree(inode[..]) <==> !(r == OK && IsDir(n, x)))
        && (Law(inode[..]) <==> !(r == OK && IsDir(n, x) && d == root && name == ".."))
      ensures OnlyFrees(old(inode[..]), inode[..])
    {
      hide Shape, Law;
      ghost var n := inode[..];
      StillTree(n, rank);
      var d;
      r, d := LastDir(start, path, root);
      if r != OK { return; }
      RootIsDir(n, rank);
      Leads(n, rank, d, name);
      OnlyDirs(n, rank, d, name, root);
      NotNameless(n, rank, d);
      var x := Advance(d, name, root);
      if x == 0 { return ENOENT; }
      if x == ROOT_INODE { return EBUSY; }
      if inode[x].kind == DIRECTORY {
        if !superUser { return EPERM; }
        r := UnlinkDir(d, name, x, root);
      } else {
        UnlinkName(d, name, x);
        StillTree(inode[..], rank);
        r := OK;
      }
    }

    /** do_unlink by the superuser, for a name that stands for a directory. */
    method UnlinkDir(d: nat, name: string, x: nat, ghost root: nat) returns (r: Reply)
      requires Valid() && Live(inode[..], d) && IsDir(inode[..], x) && x == Step(inode[..], d, name, root) != 0 && x != ROOT_INODE && d != 0
      modifies inode, icount
      ensures icount[..] == old(icount[..]) && (r == OK <==> name != "") && (r != OK ==> inode[..] == old(inode[..]))
      ensures r == OK ==>
        && Binds(old(inode[..]), inode[..], d, name, 0) && inode[x].nlinks == old(inode[x].nlinks) - 1
        && !IsTree(inode[..]) && (Law(inode[..]) <==> !(d == root && name == ".."))
      ensures OnlyFrees(old(inode[..]), inode[..])
    {
      hide Shape, Law, Binds, IsTree, Lookup, Kept;
      ghost var n, c := inode[..], icount[..];
      SameLength(n, c);
      UnlinkDone(n, rank, d, name, x, root);
      Get(x);
      var ok := UnlinkFile(d, x, name);
      ghost var m := inode[..];
      Put(x);
      assert icount[..] == c && inode[..] == m;
      r := if ok then OK else ENOENT;
    }

    /** do_unlink, for a name that stands for a file. */
    method UnlinkName(d: nat, name: string, x: nat)
      requires Valid() && Live(inode[..], d) && IsFile(inode[..], x) && Look(inode[..], d, name) == x != 0
      modifies inode, icount
      ensures Valid() && icount[..] == old(icount[..]) && Binds(old(inode[..]), inode[..], d, name, 0)
      ensures inode[x] == if old(inode[x].nlinks) == 1 && old(icount[x]) == 0 then Node(FREE, 0, [])
                          else old(inode[x]).(nlinks := old(inode[x].nlinks) - 1)
      ensures OnlyFrees(old(inode[..]), inode[..])
    {
      hide Shape, Law;
      ghost var n, c := inode[..], icount[..];
      ShapeDistinct(n, rank);
      Get(x);
      ghost var i := Find(inode[d].slots, name);
      UnlinkedFile(n, rank, d, i, x);
      var ok := UnlinkFile(d, x, name);
      ghost var m := inode[..];
      forall z | 0 <= z < |n| ensures KeptOne(m[z], icount[..][z]) { assert KeptOne(n[z], c[z]); }
      Release(x);
      assert icount[..] == c;
    }

    // ----- removing directories

    /** unlink_file, for a dot: the inode it stands for is looked up first. */
    method UnlinkDot(x: nat, name: string)
      requires x < inode.Length == icount.Length && Look(inode[..], x, name) < inode.Length
      modifies inode, icount
      ensures icount[..] == old(icount[..])
      ensures Look(old(inode[..]), x, name) == 0 ==> inode[..] == old(inode[..])
      ensures var y := Look(old(inode[..]), x, name);
        y != 0 && (old(icount[..])[y] > 0 || old(inode[..])[y].nlinks > 1) ==>
          inode[..] == Count(Erase(old(inode[..]), x, Find(old(inode[x].slots), name)), y, -1)
    {
      ghost var c := icount[..];
      var y := LookUp(x, name);
      if y == 0 { return; }
      Get(y);
      var ok := Delete(x, name);
      inode[y] := inode[y].(nlinks := inode[y].nlinks - 1);
      Put(y);
      assert icount[..] == c;
    }

    /** remove_dir; busy tells whether it is the root or the working directory of a process. */
    method RemoveDir(d: nat, x: nat, name: string, busy: bool) returns (r: Reply)
      requires Valid() && Live(inode[..], d) && 0 < d && 0 < x < inode.Length && icount[x] > 0 && icount[d] > 0
      requires if name == "" then x == ROOT_INODE || busy else Ordinary(name) ==> Look(inode[..], d, name) == x
      modifies inode, icount
      ensures icount[..] == old(icount[..]) && Valid()
      ensures r == OK <==> CanRemove(old(inode[..]), x) && Ordinary(name) && !busy
      ensures r == OK ==>
        && d != x && Removed(old(inode[..]), inode[..], d, name, x) && inode[x].nlinks == 0 && HasRoom(inode[..], d)
        && inode[d].nlinks == old(inode[d].nlinks) - 1
      ensures r != OK ==> inode[..] == old(inode[..])
    {
      hide Shape, Law, Removed, CanRemove, HasRoom, Kept, Lookup, Distinct;
      ghost var n, c := inode[..], icount[..];
      SameLength(n, c);
      RemoveCheck(n, rank, x);
      if inode[x].kind != DIRECTORY { return ENOTDIR; }
      var e := IsEmpty(x);
      if !e { return ENOTEMPTY; }
      if name == "." || name == ".." { return EINVAL; }
      if x == ROOT_INODE { return EBUSY; }
      if busy { return EBUSY; }
      ghost var i, j, k := Find(n[d].slots, name), Find(n[x].slots, "."), Find(n[x].slots, "..");
      RemoveDone(n, c, rank, d, x, name, i, j, k);
      var ok := UnlinkFile(d, x, name);
      UnlinkDot(x, ".");
      UnlinkDot(x, "..");
      assert inode[..] == RemovedDir(n, d, i, x, j, k);
      r := OK;
    }

    /** do_unlink, as do_rmdir calls it; busy tells whether what is to be removed is the root or the working directory of another
        process. A path of slashes only is that of the root directory, without a name. */
    method Rmdir(start: nat, path: seq<string>, name: string, root: nat, busy: bool) returns (r: Reply)
      requires Valid() && 0 < start < inode.Length && (name == "" ==> path == [] && start == root)
      modifies inode, icount
      ensures Valid() && icount[..] == old(icount[..])
      ensures var n := old(inode[..]); var d := Last(n, start, path, root); var x := Look(n, d, name);
        && (r == OK <==> d != 0 && Ordinary(name) && CanRemove(n, x) && !busy && x != root)
        && (r == OK ==>
              && Vanished(n, inode[..], d, name, x) && d < |n| && inode[d].nlinks == n[d].nlinks - 1
              && 0 < x < inode.Length && (old(icount[..])[x] == 0 ==> inode[x] == Node(FREE, 0, [])))
        && (r != OK ==> inode[..] == n)
      ensures OnlyFrees(old(inode[..]), inode[..])
    {
      hide Shape, Law;
      ghost var n := inode[..];
      var d;
      r, d := LastDir(start, path, root);
      if r != OK { return; }
      RootIsDir(n, rank);
      Leads(n, rank, d, name);
      DotDot(n, rank, d);
      var x := Advance(d, name, root);
      if x == 0 { return ENOENT; }
      if x == ROOT_INODE { return EBUSY; }
      r := RmdirFound(d, x, name, busy || x == root);
    }

    /** do_unlink, as do_rmdir calls it, once it knows what is to be removed. */
    method RmdirFound(d: nat, x: nat, name: string, busy: bool) returns (r: Reply)
      requires Valid() && Live(inode[..], d) && 0 < d && 0 < x < inode.Length && inode[x].kind != FREE
      requires if name == "" then busy else Ordinary(name) ==> Look(inode[..], d, name) == x
      modifies inode, icount
      ensures Valid() && icount[..] == old(icount[..])
      ensures r == OK <==> CanRemove(old(inode[..]), x) && Ordinary(name) && !busy
      ensures r == OK ==>
        && Vanished(old(inode[..]), inode[..], d, name, x) && inode[d].nlinks == old(inode[d].nlinks) - 1
        && (old(icount[..])[x] == 0 ==> inode[x] == Node(FREE, 0, []))
      ensures r != OK ==> inode[..] == old(inode[..])
      ensures OnlyFrees(old(inode[..]), inode[..])
    {
      hide Shape, Law, Removed, OnlyFrees, CanRemove, Look, Quiet, HasRoom, Owes;
      ghost var n, c := inode[..], icount[..];
      Get(d);
      Get(x);
      KeptMore(n, c, icount[..]);
      r := RemoveDir(d, x, name, busy);
      ghost var m := inode[..];
      if r == OK { Gone(n, m, d, name, x); } else { FreesNone(n); }
      Release(x);
      FreesTrans(n, m, inode[..]);
      m := inode[..];
      Release(d);
      FreesTrans(n, m, inode[..]);
      assert icount[..] == c;
    }

    // ----- renaming

    /** do_rename: whether directory x is nd, or above it. */
    method IsAbove(x: nat, nd: nat) returns (above: bool)
      requires Sound(inode[..], rank) && Live(inode[..], nd)
      ensures above == Above(inode[..], rank, x, nd)
    {
      hide Law, Lookup;
      ghost var n := inode[..];
      var sup: nat := nd;
      while true
        invariant Live(n, sup) && sup < |rank| == |n| && Above(n, rank, x, nd) == Above(n, rank, x, sup)
        decreases rank[sup]
      {
        if sup == x { return true; }
        var next := LookUp(sup, "..");
        DotDot(n, rank, sup);
        assert Rooted(n, rank, sup);
        if next == sup { return false; }
        sup := next;
      }
    }

    /** do_rename: what speaks against it. */
    method RenameCheck(od: nat, oname: string, nd: nat, nname: string, x: nat, t: nat) returns (r: Reply)
      requires Sound(inode[..], rank) && Live(inode[..], nd) && 0 < x < inode.Length && t < inode.Length
      ensures r == OK ==>
        && oname != "." && oname != ".." && nname != "." && nname != ".." && x != t
        && (t != 0 ==> IsDir(inode[..], t) == IsDir(inode[..], x))
        && (IsDir(inode[..], x) && od != nd ==> !Above(inode[..], rank, x, nd))
      ensures r == OK <==> Renamable(inode[..], rank, od, oname, nd, nname, x, t)
      ensures r == SAME <==> x == t
    {
      r := OK;
      var odir, same_pdir := inode[x].kind == DIRECTORY, od == nd;
      if odir && !same_pdir {
        var above := IsAbove(x, nd);
        if above { r := EINVAL; }
      }
      if oname == "." || oname == ".." || nname == "." || nname == ".." { r := EINVAL; }
      if t == 0 {
        if odir && inode[nd].nlinks >= LINK_MAX && !same_pdir && r == OK { r := EMLINK; }
      } else {
        if x == t { r := SAME; }
        var ndir := inode[t].kind == DIRECTORY;
        if odir && !ndir { r := ENOTDIR; }
        if !odir && ndir { r := EISDIR; }
      }
    }

    /** do_rename: what had the new name is removed. */
    method Displace(nd: nat, nname: string, t: nat, odir: bool, busy: bool) returns (r: Reply)
      requires Valid() && Live(inode[..], nd) && 0 < nd && 0 < t < inode.Length && icount[t] > 0 && icount[nd] > 0
      requires odir == IsDir(inode[..], t) && (!odir ==> IsFile(inode[..], t) && Look(inode[..], nd, nname) == t)
      requires if nname == "" then t == ROOT_INODE || busy else Ordinary(nname) && Look(inode[..], nd, nname) == t
      modifies inode, icount
      ensures icount[..] == old(icount[..]) && Valid()
      ensures r == OK ==> Ordinary(nname) && Displaced(old(inode[..]), inode[..], nd, nname, t) && HasRoom(inode[..], nd)
      ensures r == OK <==> Ordinary(nname) && (odir ==> CanRemove(old(inode[..]), t) && !busy)
      ensures r != OK ==> inode[..] == old(inode[..])
    {
      hide Shape, Law;
      ghost var n, c := inode[..], icount[..];
      if odir {
        r := RemoveDir(nd, t, nname, busy);
        if r == OK { StillLive(n, inode[..], rank, nd, t, nname); }
      } else {
        ShapeDistinct(n, rank);
        FileIsOrdinary(n, rank, nd, nname);
        UnlinkedFile(n, rank, nd, Find(n[nd].slots, nname), t);
        var ok := UnlinkFile(nd, t, nname);
        assert inode[nd].slots[Find(n[nd].slots, nname)].ino == 0;
        KeptRemoved(n, c, inode[..], rank, nd, t);
        r := OK;
      }
    }

    /** do_rename, within one directory: the old name is erased first, so that there is room for the new one. */
    method MoveWithin(d: nat, oname: string, nname: string, x: nat) returns (r: Reply)
      requires Valid() && Live(inode[..], d) && Ordinary(nname) && oname != "." && oname != ".." && Look(inode[..], d, nname) == 0
      requires Look(inode[..], d, oname) != 0 ==> Look(inode[..], d, oname) == x
      modifies inode
      ensures Valid() && r == if Look(old(inode[..]), d, oname) != 0 then OK else ENOENT
      ensures r == OK ==> Replaces(old(inode[..]), inode[..], d, oname, d, nname, x)
      ensures r != OK ==> inode[..] == old(inode[..])
      ensures OnlyFrees(old(inode[..]), inode[..])
    {
      hide Shape, Law, Replaces, Find;
      ghost var n, c := inode[..], icount[..];
      ShapeDistinct(n, rank);
      Leads(n, rank, d, oname);
      NotNameless(n, rank, d);
      ghost var i := Find(inode[d].slots, oname);
      var deleted := Delete(d, oname);
      if !deleted { return ENOENT; }
      assert inode[..] == Erase(n, d, i);
      assert inode[d].slots == Erased(n[d].slots, i) && inode[d].slots[i].ino == 0;
      var ok, j := Enter(d, nname, x, false);
      assert j <= i && ok;
      assert inode[..] == Renamed(n, d, i, d, j, nname, x);
      RenamedOne(n, d, i, d, j, nname, x);
      if IsDir(n, x) { RenamedDir(n, rank, d, i, j, nname, x); } else { NotFree(n, c, rank, x); RenamedFile(n, rank, d, i, d, j, nname, x); }
      KeptNames(n, c, inode[..]);
      r := OK;
    }

    /** do_rename, from one directory to another: the new name is entered first; the dot-dot of a directory is replaced. */
    method MoveAcross(od: nat, oname: string, nd: nat, nname: string, x: nat, room: bool, ghost rank': seq<nat>) returns (r: Reply)
      requires Valid() && Live(inode[..], od) && Live(inode[..], nd) && od != nd && Ordinary(oname) && Ordinary(nname)
      requires Look(inode[..], od, oname) == x != 0 && Look(inode[..], nd, nname) == 0 && icount[od] > 0
      requires IsDir(inode[..], x) ==> x != nd && Ranks(inode[..], rank', x, nd) && inode[nd].nlinks < LINK_MAX
      modifies this`rank, inode, icount
      ensures Valid() && icount[..] == old(icount[..]) && r == if Space(old(inode[..]), nd, room) then OK else ENOSPC
      ensures r == OK ==>
        if IsDir(old(inode[..]), x) then Moved(old(inode[..]), inode[..], x, od, oname, nd, nname)
        else Replaces(old(inode[..]), inode[..], od, oname, nd, nname, x)
      ensures r != OK ==> inode[..] == old(inode[..])
      ensures OnlyFrees(old(inode[..]), inode[..])
    {
      hide Shape, Law, Moved, OnlyFrees, Ranks, Space, HasRoom, Replaces;
      FreesNone(inode[..]);
      ghost var n, c := inode[..], icount[..];
      ShapeDistinct(n, rank);
      Leads(n, rank, od, oname);
      var ok, j := Enter(nd, nname, x, room);
      if !ok { return ENOSPC; }
      ghost var i := Find(n[od].slots, oname);
      var deleted := Delete(od, oname);
      assert inode[..] == Renamed(n, od, i, nd, j, nname, x);
      RenamedOne(n, od, i, nd, j, nname, x);
      r := OK;
      if inode[x].kind == DIRECTORY {
        Reparent(n, od, oname, i, nd, nname, j, x, rank');
        MovedFrees(n, inode[..], x, od, oname, nd, nname);
      } else {
        NotFree(n, c, rank, x);
        RenamedFile(n, rank, od, i, nd, j, nname, x);
        KeptNames(n, c, inode[..]);
        FreesNames(n, inode[..]);
      }
    }

    /** do_rename: the dot-dot of a directory that has moved. */
    method Reparent(ghost n: seq<Node>, od: nat, ghost oname: string, ghost i: nat, nd: nat, ghost nname: string, ghost j: nat, x: nat,
                    ghost rank': seq<nat>)
      requires Sound(n, rank) && Kept(n, icount[..]) && Live(n, od) && Live(n, nd) && od != nd && Ordinary(oname) && Ordinary(nname)
      requires Look(n, od, oname) == x != 0 && IsDir(n, x) && x != nd && Ranks(n, rank', x, nd) && CanRename(n, od, i, nd, j, nname)
      requires i == Find(n[od].slots, oname) && inode[..] == Renamed(n, od, i, nd, j, nname, x) && icount[od] > 0 && n[nd].nlinks < LINK_MAX
      modifies this`rank, inode, icount
      ensures Valid() && icount[..] == old(icount[..]) && Moved(n, inode[..], x, od, oname, nd, nname)
    {
      hide Shape, Law, Moved, Ranks, Redirected;
      ghost var c := icount[..];
      ShapeDistinct(n, rank);
      NamedLives(n, od, oname);
      ParentOf(n, rank, od, oname, x);
      DotDot(n, rank, x);
      assert inode[x] == n[x];
      DotDot(n, rank, nd);
      ghost var k, l := Redirect(x, od, nd);
      MovedDirTree(n, rank, rank', od, i, nd, j, nname, x, k, l);
      KeptMoved(n, c, od, i, nd, j, nname, x, k, l);
      rank := rank';
    }

    /** do_rename: dot-dot of directory x stood for od, and stands for nd now. */
    method Redirect(x: nat, ghost od: nat, nd: nat) returns (ghost k: nat, ghost l: nat)
      requires x < inode.Length == icount.Length && 0 < od < inode.Length && 0 < nd < inode.Length && x != od && x != nd
      requires Distinct(inode[x].slots) && Look(inode[..], x, "..") == od && (icount[od] > 0 || inode[od].nlinks > 1)
      modifies inode, icount
      ensures icount[..] == old(icount[..])
      ensures k < |old(inode[x].slots)| && old(inode[x].slots)[k] == Entry(od, "..")
      ensures l < |old(inode[x].slots)| && (old(inode[x].slots)[l].ino == 0 || l == k)
      ensures inode[..] == Redirected(old(inode[..]), x, k, l, od, nd)
    {
      ghost var n := inode[..];
      k := Find(n[x].slots, "..");
      UnlinkDot(x, "..");
      ghost var m := inode[..];
      assert m[x].slots == Erased(n[x].slots, k);
      assert m[x].slots[k].ino == 0;
      var ok;
      ok, l := Enter(x, "..", nd, false);
      assert l <= k;
      inode[nd] := inode[nd].(nlinks := inode[nd].nlinks + 1);
      assert inode[..] == Redirected(n, x, k, l, od, nd);
    }

    /** do_rename; room tells whether the new directory can have another block, busy whether what has the new name is the root or
        the working directory of another process. All is well unless a root directory without a name there gets one. */
    method Rename(ostart: nat, opath: seq<string>, oname: string, nstart: nat, npath: seq<string>, nname: string, root: nat,
                  busy: bool, room: bool)
      returns (r: Reply)
      requires Valid() && 0 < ostart < inode.Length && 0 < nstart < inode.Length
      requires (oname == "" ==> opath == [] && ostart == root) && (nname == "" ==> npath == [] && nstart == root)
      modifies this`rank, inode, icount
      ensures icount[..] == old(icount[..])
      ensures var n := old(inode[..]); var od, nd := Last(n, ostart, opath, root), Last(n, nstart, npath, root);
        var x, t := Step(n, od, oname, root), Step(n, nd, nname, root);
        && (r == OK <==> od != 0 && nd != 0 && x != 0 && Renames(n, old(rank), od, oname, nd, nname, x, t, busy || t == root, room))
        && (Law(inode[..]) <==> !(r == OK && oname == "" && x != t))
        && (Law(inode[..]) ==> Valid())
        && (r == OK && x == t ==> inode[..] == n)
        && (r == OK && x != t ==> Everything(n, inode[..], od, oname, nd, nname, x, t))
        && (r != OK ==>
              if od != 0 && Wasted(n, old(rank), od, oname, nd, nname, x, t, busy || t == root)
              then Vanished(n, inode[..], nd, nname, t)
              else inode[..] == n)
      ensures Law(inode[..]) ==> OnlyFrees(old(inode[..]), inode[..])
    {
      hide Shape, Law, Everything, Renames, Wasted, Vanished, Look, Kept;
      ghost var n := inode[..];
      assert Law(n);
      var od, nd, r1;
      r, od := LastDir(ostart, opath, root);
      if r != OK { return; }
      Leads(n, rank, od, oname);
      var x := Advance(od, oname, root);
      r1, nd := LastDir(nstart, npath, root);
      NothingWasted(n, rank, od, oname, nd, nname, x, Step(n, nd, nname, root), busy || Step(n, nd, nname, root) == root);
      if r1 != OK { return r1; }
      Leads(n, rank, nd, nname);
      NotNameless(n, rank, nd);
      var t := Advance(nd, nname, root);
      if x == 0 { return ENOENT; }
      r := RenameFound(od, oname, nd, nname, x, t, busy || t == root, room);
    }

    /** do_rename, once it knows what the names stand for. */
    method RenameFound(od: nat, oname: string, nd: nat, nname: string, x: nat, t: nat, busy: bool, room: bool) returns (r: Reply)
      requires Valid() && Live(inode[..], od) && Live(inode[..], nd) && 0 < od && 0 < nd && 0 < x < inode.Length && t < inode.Length
      requires if oname == "" then x == od else oname != ".." ==> Look(inode[..], od, oname) == x
      requires if nname == "" then t == nd && busy else nname != ".." ==> Look(inode[..], nd, nname) == t
      modifies this`rank, inode, icount
      ensures icount[..] == old(icount[..])
      ensures r == OK <==> Renames(old(inode[..]), old(rank), od, oname, nd, nname, x, t, busy, room)
      ensures Law(inode[..]) <==> !(r == OK && oname == "" && x != t)
      ensures Law(inode[..]) ==> Valid()
      ensures r == OK ==> if x == t then inode[..] == old(inode[..]) else Everything(old(inode[..]), inode[..], od, oname, nd, nname, x, t)
      ensures r != OK ==>
        if Wasted(old(inode[..]), old(rank), od, oname, nd, nname, x, t, busy) then Vanished(old(inode[..]), inode[..], nd, nname, t)
        else inode[..] == old(inode[..])
      ensures Law(inode[..]) ==> OnlyFrees(old(inode[..]), inode[..])
    {
      hide Shape, Law, Everything, Above, Renamable, Clear, Vanished;
      ghost var n := inode[..];
      r := RenameCheck(od, oname, nd, nname, x, t);
      NothingWasted(n, rank, od, oname, nd, nname, x, t, busy);
      if r == SAME { return OK; }
      if r != OK { return; }
      RenamableMeans(n, rank, od, oname, nd, nname, x, t);
      if oname == "" && od != nd {
        r := RenameNameless(od, nd, nname, t, busy, room);
      } else {
        r := RenameChecked(od, oname, nd, nname, x, t, busy, room);
      }
    }

    /** do_rename, when nothing speaks against it. */
    method RenameChecked(od: nat, oname: string, nd: nat, nname: string, x: nat, t: nat, busy: bool, room: bool) returns (r: Reply)
      requires Valid() && Live(inode[..], od) && Live(inode[..], nd) && 0 < od && 0 < nd && 0 < x < inode.Length && t < inode.Length
      requires Renamable(inode[..], rank, od, oname, nd, nname, x, t)
      requires if oname == "" then od == nd && x == od else Look(inode[..], od, oname) == x
      requires if nname == "" then t == nd && busy else Look(inode[..], nd, nname) == t
      modifies this`rank, inode, icount
      ensures Valid() && icount[..] == old(icount[..])
      ensures r == OK <==> oname != "" && Clear(old(inode[..]), nd, nname, t, busy) && (t == 0 && od != nd ==> Space(old(inode[..]), nd, room))
      ensures r == OK ==> Everything(old(inode[..]), inode[..], od, oname, nd, nname, x, t)
      ensures r != OK ==>
        if oname == "" && t != 0 && Clear(old(inode[..]), nd, nname, t, busy) then Vanished(old(inode[..]), inode[..], nd, nname, t)
        else inode[..] == old(inode[..])
      ensures OnlyFrees(old(inode[..]), inode[..])
    {
      hide Shape, Law, Moved, Displaced, Renamable, Everything, Gotten, More, Look, HasRoom, OnlyFrees, Space, Vanished, Quiet;
      FreesNone(inode[..]);
      ghost var n, c := inode[..], icount[..];
      UsedNodes(n, c, rank, od, nd, x, t, oname, nname);
      RenamableMeans(n, rank, od, oname, nd, nname, x, t);
      GetAll(od, x, nd, t);
      GottenKept(n, c, icount[..], od, x, nd, t);
      r := OK;
      if t != 0 {
        var odir := inode[x].kind == DIRECTORY;
        CanDisplace(n, c, rank, nd, nname, x, t, odir, od, oname);
        r := Displace(nd, nname, t, odir, busy);
      }
      ghost var m, cleared := inode[..], r == OK;
      if t != 0 && r == OK { DisplacedKinds(n, m, nd, nname, t); }
      assert r == OK ==> Ordinary(nname);
      if r == OK {
        ghost var rank' := rank;
        if IsDir(n, x) && od != nd { rank' := NewRanks(n, rank, x, nd); }
        r := MoveIt(n, od, oname, nd, nname, x, t, room, rank');
      }
      ghost var w := inode[..];
      FreesTrans(n, m, w);
      ReleaseAll(od, x, nd, t, c);
      FreesTrans(n, w, inode[..]);
      if r == OK { EverythingStill(n, w, inode[..], od, oname, nd, nname, x, t); }
      if oname == "" && t != 0 && cleared { DisplacedDir(n, m, inode[..], nd, nname, t); }
    }

    method GetAll(od: nat, x: nat, nd: nat, t: nat)
      requires od < icount.Length && x < icount.Length && nd < icount.Length && t < icount.Length
      modifies icount
      ensures icount[..] == Gotten(old(icount[..]), od, x, nd, t)
    {
      Get(od);
      Get(x);
      Get(nd);
      if t != 0 { Get(t); }
    }

    /** do_rename: all inodes are given back. */
    method ReleaseAll(od: nat, x: nat, nd: nat, t: nat, ghost c: seq<nat>)
      requires 0 < od < inode.Length && 0 < x < inode.Length && 0 < nd < inode.Length && t < inode.Length == |c|
      requires icount.Length == inode.Length && icount[..] == Gotten(c, od, x, nd, t)
      modifies inode, icount
      ensures icount[..] == c
      ensures GivenBack(old(inode[..]), old(icount[..]), inode[..], icount[..], rank, c)
    {
      hide Sound, Kept, More, GivenBack;
      ghost var n, c4, c3 := inode[..], icount[..], if t == 0 then c else More(c, t);
      GottenBack(c, od, x, nd, t);
      MoreStill(c3, od, nd, x, c, t);
      ReleaseOne(od, More(More(c3, nd), x), c);
      ghost var m := inode[..];
      ReleaseOne(x, More(c3, nd), c);
      BackTrans(n, c4, m, More(More(c3, nd), x), inode[..], icount[..], rank, c);
      m := inode[..];
      ReleaseOne(nd, c3, c);
      BackTrans(n, c4, m, More(c3, nd), inode[..], icount[..], rank, c);
      if t != 0 {
        m := inode[..];
        ReleaseOne(t, c, c);
        BackTrans(n, c4, m, c3, inode[..], icount[..], rank, c);
      }
    }

    method ReleaseOne(x: nat, ghost c': seq<nat>, ghost c: seq<nat>)
      requires 0 < x < inode.Length == icount.Length == |c'| == |c| && icount[..] == More(c', x) && c'[x] >= c[x]
      modifies inode, icount
      ensures icount[..] == c'
      ensures GivenBack(old(inode[..]), old(icount[..]), inode[..], icount[..], rank, c)
    {
      hide Sound, Quiet, OnlyFrees;
      ghost var n := inode[..];
      if Kept(n, c) { assert KeptOne(n[x], c[x]); }
      Release(x);
      assert icount[..] == c';
    }

    /** do_rename: the entries themselves. */
    method MoveIt(ghost n: seq<Node>, od: nat, oname: string, nd: nat, nname: string, x: nat, t: nat, room: bool, ghost rank': seq<nat>)
      returns (r: Reply)
      requires Valid() && Sound(n, rank) && Live(n, od) && Live(n, nd) && 0 < od && 0 < nd && 0 < x < inode.Length && t < inode.Length == |n|
      requires Ordinary(nname) && oname != "." && oname != ".." && Renamable(n, rank, od, oname, nd, nname, x, t) && n[nd].nlinks <= LINK_MAX
      requires if oname == "" then od == nd && x == od else Look(n, od, oname) == x
      requires Look(n, nd, nname) == t && icount[od] > 0 && (IsDir(n, x) && od != nd ==> Ranks(n, rank', x, nd))
      requires if t == 0 then inode[..] == n else Displaced(n, inode[..], nd, nname, t) && HasRoom(inode[..], nd)
      requires t != 0 && IsDir(n, t) ==> CanRemove(n, t)
      modifies this`rank, inode, icount
      ensures Valid() && icount[..] == old(icount[..]) && (r != OK ==> inode[..] == old(inode[..]))
      ensures r == OK <==> oname != "" && (t == 0 && od != nd ==> Space(n, nd, room))
      ensures r == OK ==> Everything(n, inode[..], od, oname, nd, nname, x, t)
      ensures OnlyFrees(old(inode[..]), inode[..])
    {
      hide Shape, Law, Moved, Displaced, Ranks, Everything, Renamable;
      ghost var m := inode[..];
      RenamableMeans(n, rank, od, oname, nd, nname, x, t);
      Between(n, m, rank, rank', od, oname, nd, nname, x, t);
      if t != 0 { LinkLeft(n, m, nd, nname, t); }
      if od == nd {
        r := MoveWithin(od, oname, nname, x);
        if oname != "" { Within(n, m, inode[..], od, oname, nname, x, t); }
      } else {
        r := MoveAcross(od, oname, nd, nname, x, room, rank');
        if r == OK { Across(n, m, inode[..], od, oname, nd, nname, x, t); }
      }
    }

    /** do_rename of the root directory of a process into another directory: it has no name to lose, so that afterwards one more
        entry names it than it has links. */
    method RenameNameless(od: nat, nd: nat, nname: string, t: nat, busy: bool, room: bool) returns (r: Reply)
      requires Valid() && Live(inode[..], od) && Live(inode[..], nd) && 0 < od && 0 < nd && t < inode.Length && od != nd
      requires Renamable(inode[..], rank, od, "", nd, nname, od, t)
      requires if nname == "" then t == nd && busy else Look(inode[..], nd, nname) == t
      modifies inode, icount
      ensures icount[..] == old(icount[..]) && (r != OK ==> Valid() && inode[..] == old(inode[..]))
      ensures r == OK <==> Clear(old(inode[..]), nd, nname, t, busy) && (t == 0 ==> Space(old(inode[..]), nd, room))
      ensures r == OK ==> !Law(inode[..]) && Named(inode[..], od) == inode[od].nlinks + 1
      ensures r == OK ==> Everything(old(inode[..]), inode[..], od, "", nd, nname, od, t)
    {
      hide Shape, Law, Displaced, Renamable, Everything, Gotten, Look, Quiet, Above;
      ghost var n, c := inode[..], icount[..];
      UsedNodes(n, c, rank, od, nd, od, t, "", nname);
      RenamableMeans(n, rank, od, "", nd, nname, od, t);
      NotRoot(n, rank, od, nd);
      GetAll(od, od, nd, t);
      GottenKept(n, c, icount[..], od, od, nd, t);
      r := OK;
      if t != 0 {
        CanDisplace(n, c, rank, nd, nname, od, t, true, od, "");
        r := Displace(nd, nname, t, true, busy);
      }
      if r == OK { r := EnterNameless(n, od, nd, nname, t, room); }
      ghost var w := inode[..];
      ReleaseAll(od, od, nd, t, c);
      if r == OK {
        assert Debt(w, od) == 1;
        EverythingStill(n, w, inode[..], od, "", nd, nname, od, t);
        Indebted(inode[..], od);
      }
    }

    /** do_rename of the root directory of a process, once there is nothing of the new name. */
    method EnterNameless(ghost n: seq<Node>, od: nat, nd: nat, nname: string, ghost t: nat, room: bool) returns (r: Reply)
      requires Sound(n, rank) && Sound(inode[..], rank) && Live(n, od) && Live(n, nd) && od != nd && od != ROOT_INODE && od != t
      requires Ordinary(nname) && Look(n, nd, nname) == t && icount.Length == inode.Length == |n| && (t != 0 ==> IsDir(n, t))
      requires if t == 0 then inode[..] == n else Displaced(n, inode[..], nd, nname, t) && HasRoom(inode[..], nd)
      modifies inode, icount
      ensures icount[..] == old(icount[..]) && (r != OK ==> inode[..] == old(inode[..]))
      ensures r == OK <==> (t == 0 ==> Space(n, nd, room))
      ensures r == OK ==> Quiet(inode[..]) && Debt(inode[..], od) == 1 && Everything(n, inode[..], od, "", nd, nname, od, t)
    {
      hide Shape, Law, Displaced, Everything, Quiet, Redirected;
      ghost var m := inode[..];
      NamelessBetween(n, m, rank, od, nd, nname, t);
      ShapeDistinct(m, rank);
      var ok, j := Enter(nd, nname, od, room);
      if !ok { return ENOSPC; }
      ghost var m1 := inode[..];
      NotNameless(m, rank, od);
      var gone := Delete(od, "");
      assert !gone && inode[..] == m1 == Links.Enter(m, nd, j, nname, od);
      ghost var p := Look(m, od, "..");
      DotDot(m, rank, od);
      TwoNames(m, rank, od);
      ghost var k, l := Redirect(od, p, nd);
      RootRenamed(m, rank, nd, j, nname, od, k, l);
      NamelessDone(n, m, inode[..], rank, od, nd, j, nname, t, k, l, p);
      r := OK;
    }
  }

  lemma Indebted(n: seq<Node>, x: nat)
    requires 0 < x < |n| && Debt(n, x) == 1
    ensures !Law(n) && Named(n, x) == n[x].nlinks + 1
  {
  }

  /** The root is above every directory. */
  lemma {:induction false} RootAbove(n: seq<Node>, rank: seq<nat>, d: nat)
    requires Shape(n, rank) && Live(n, d)
    ensures Above(n, rank, ROOT_INODE, d)
    decreases rank[d]
  {
    DotDot(n, rank, d);
    assert Rooted(n, rank, d);
    if d != ROOT_INODE { RootAbove(n, rank, Look(n, d, "..")); }
  }

  lemma NotRoot(n: seq<Node>, rank: seq<nat>, od: nat, nd: nat)
    requires Shape(n, rank) && Live(n, nd) && !Above(n, rank, od, nd)
    ensures od != ROOT_INODE
  {
    RootAbove(n, rank, nd);
  }

  lemma NamelessBetween(n: seq<Node>, m: seq<Node>, rank: seq<nat>, od: nat, nd: nat, nn: string, t: nat)
    requires Sound(n, rank) && Sound(m, rank) && Live(n, od) && Live(n, nd) && od != nd && od != t && Look(n, nd, nn) == t
    requires if t == 0 then m == n else Displaced(n, m, nd, nn, t)
    ensures Live(m, od) && Live(m, nd) && Look(m, nd, nn) == 0 && 0 < nd && 0 < od
  {
    DotDot(n, rank, od);
    DotDot(n, rank, nd);
    DotLives(m, rank, od);
  }

  /** The directory above another one has a link for itself, and one for that. */
  lemma TwoNames(n: seq<Node>, rank: seq<nat>, d: nat)
    requires Sound(n, rank) && Live(n, d) && d != ROOT_INODE
    ensures var p := Look(n, d, ".."); p < |n| && p != d && p != 0 && n[p].nlinks > 1
  {
    var p := Look(n, d, "..");
    assert Rooted(n, rank, d);
    DotDot(n, rank, d);
    DotDot(n, rank, p);
    NamedTwo(n, d, p, p);
    NoHits(n[d].slots, p);
    NoHits(n[p].slots, p);
    assert Debt(n, p) == 0;
  }

  lemma NamelessDone(n: seq<Node>, m: seq<Node>, w: seq<Node>, rank: seq<nat>, od: nat, nd: nat, j: nat, nn: string, t: nat,
                     k: nat, l: nat, p: nat)
    requires Sound(n, rank) && Sound(m, rank) && Live(m, od) && Live(m, nd) && od != nd && Room(m, nd, j, nn) && Look(n, nd, nn) == t
    requires p < |m| && p != 0 && p != od && m[p].nlinks > 1 && nd != 0 && od != t
    requires Used(m, od, k) && m[od].slots[k] == Entry(p, "..") && l < |m[od].slots| && (m[od].slots[l].ino == 0 || l == k)
    requires w == Redirected(Links.Enter(m, nd, j, nn, od), od, k, l, p, nd)
    requires if t == 0 then m == n else IsDir(n, t) && Displaced(n, m, nd, nn, t)
    ensures Quiet(w) && Everything(n, w, od, "", nd, nn, od, t)
  {
    hide Lookup, Distinct, Debt, Law, OneParent, Rooted;
    var m1 := Links.Enter(m, nd, j, nn, od);
    EntersOne(m, nd, j, nn, od);
    RedirectedOne(m1, od, k, l, p, nd);
    forall e, a ensures Look(w, e, a) == if e == nd && a == nn then od else if e == od && a == ".." then nd else Look(m, e, a) {
      assert Look(m1, e, a) == if e == nd && a == nn then od else Look(m, e, a);
    }
    NotNameless(n, rank, od);
    forall x, a | 0 < x < |w| && w[x].nlinks == 0 ensures Look(w, x, a) == 0 && Distinct(w[x].slots) {
      assert Says(m, x, a) && m[x].nlinks == 0;
    }
  }

  /** No inode has changed, but some may have been freed. */
  ghost predicate OnlyFrees(n: seq<Node>, n': seq<Node>) {
    |n'| == |n| && forall y :: 0 <= y < |n| ==> n'[y].kind == n[y].kind || n'[y].kind == FREE
  }

  ghost predicate SameKinds(n: seq<Node>, n': seq<Node>) {
    |n'| == |n| && forall y :: 0 <= y < |n| ==> n'[y].kind == n[y].kind
  }

  lemma FreesNone(n: seq<Node>)
    ensures OnlyFrees(n, n)
  {
  }

  lemma FreesNames(n: seq<Node>, n': seq<Node>)
    requires |n'| == |n| && forall y :: 0 <= y < |n| ==> n'[y] == n[y].(slots := n'[y].slots)
    ensures OnlyFrees(n, n')
  {
  }

  lemma MovedFrees(n: seq<Node>, n': seq<Node>, x: nat, od: nat, on: string, nd: nat, nn: string)
    requires Moved(n, n', x, od, on, nd, nn)
    ensures OnlyFrees(n, n')
  {
  }

  lemma FreesTrans(n: seq<Node>, m: seq<Node>, n': seq<Node>)
    requires OnlyFrees(n, m) && OnlyFrees(m, n')
    ensures OnlyFrees(n, n')
  {
  }

  /** What has no links says nothing. */
  ghost predicate Quiet(n: seq<Node>) {
    forall x, m {:trigger Look(n, x, m)} :: 0 < x < |n| && n[x].nlinks == 0 ==> Look(n, x, m) == 0 && Distinct(n[x].slots)
  }

  lemma QuietFreed(n: seq<Node>, x: nat)
    requires Quiet(n) && 0 < x < |n| && n[x].nlinks == 0
    ensures var n' := n[x := Node(FREE, 0, [])]; Quiet(n') && Owes(n, n', 0, 0) && SameNames(n, n')
  {
    hide Debt, Lookup, Distinct, Find;
    var n' := n[x := Node(FREE, 0, [])];
    assert Look(n, x, "") == 0 && Distinct(n[x].slots);
    EmptySlots();
    forall e, m ensures Look(n', e, m) == Look(n, e, m) {
      if e == x { assert Look(n, x, m) == 0 == Lookup([], m); }
    }
    forall y: nat | y != 0 ensures Debt(n', y) == Debt(n, y) { EmptyDebt(n, x, y); }
    forall e, m | 0 < e < |n| && n'[e].nlinks == 0 ensures Look(n', e, m) == 0 && Distinct(n'[e].slots) { assert Look(n, e, m) == Look(n', e, m); }
  }

  lemma EmptySlots()
    ensures Distinct([]) && forall m :: Lookup([], m) == 0
  {
  }

  /** An inode that has no links and says nothing takes no part in the counts. */
  lemma EmptyDebt(n: seq<Node>, x: nat, y: nat)
    requires Quiet(n) && 0 < x < |n| && n[x].nlinks == 0 && y != 0
    ensures Debt(n[x := Node(FREE, 0, [])], y) == Debt(n, y)
  {
    assert Look(n, x, "") == 0;
    EmptyHits(n, x, y);
    DebtUpdate(n, x, Node(FREE, 0, []), y);
  }

  function Zeros(n: nat): (s: seq<nat>)
    ensures |s| == n && forall i :: 0 <= i < n ==> s[i] == 0
  {
    if n == 0 then [] else Zeros(n - 1) + [0]
  }

  lemma Fresh(n: seq<Node>, rank: seq<nat>)
    requires |n| == |rank| > ROOT_INODE && n[ROOT_INODE] == Node(DIRECTORY, 2, [Entry(ROOT_INODE, "."), Entry(ROOT_INODE, "..")])
    requires forall x :: 0 <= x < |n| && x != ROOT_INODE ==> n[x] == Node(FREE, 0, [])
    ensures Sound(n, rank)
  {
    var s := n[ROOT_INODE].slots;
    Found(s, 0);
    Found(s, 1);
    forall d: nat, m ensures Look(n, d, m) == if d == ROOT_INODE && (m == "." || m == "..") then ROOT_INODE else 0 {
      if d < |n| { NotFound(n[d].slots, m); }
    }
    forall d: nat, m ensures Says(n, d, m) {}
    forall p: nat, m, q: nat, k ensures OneParent(n, p, m, q, k) {}
    forall d: nat ensures Rooted(n, rank, d) {}
    forall x | 0 < x < |n| ensures Debt(n, x) == 0 {
      var v := n[ROOT_INODE := Node(FREE, 0, [])];
      forall d | 0 <= d < |n| ensures Hits(v[d].slots, x) == 0 {}
      NamedNone(v, x);
      NamedUpdate(v, ROOT_INODE, n[ROOT_INODE], x);
      assert v[ROOT_INODE := n[ROOT_INODE]] == n;
      assert s[..1] == [s[0]] && s[..1][..0] == [];
      assert Hits(s, x) == Hits(s[..1], x) + Hit(s[1], x);
      assert Hits(s[..1], x) == Hits(s[..1][..0], x) + Hit(s[0], x);
    }
  }

  lemma FreedLook(n: seq<Node>, rank: seq<nat>, x: nat)
    requires Shape(n, rank) && 0 < x < |n| && n[x].nlinks == 0
    ensures SameNames(n, n[x := Node(FREE, 0, [])])
  {
    var n' := n[x := Node(FREE, 0, [])];
    forall e, m ensures Look(n', e, m) == Look(n, e, m) { assert Says(n, e, m); }
  }

  /** The first inode that is free. */
  ghost predicate IsLowest(n: seq<Node>, x: nat) {
    0 < x < |n| && n[x].kind == FREE && forall y :: 0 < y < x ==> n[y].kind != FREE
  }

  /** A free inode, and a slot for its name in a directory. */
  ghost predicate IsNew(n: seq<Node>, d: nat, i: nat, name: string, x: nat) {
    0 < x < |n| && n[x] == Node(FREE, 0, []) && Live(n, d) && Ordinary(name) && Room(n, d, i, name)
  }

  /** The first free inode, put to use, does not change the directory that is to name it. */
  lemma Lowest(n: seq<Node>, d: nat, x: nat, v: Node, room: bool)
    requires Live(n, d) && IsLowest(n, x)
    ensures x != d && n[x := v][d] == n[d] && Space(n[x := v], d, room) == Space(n, d, room)
  {
  }

  /** remove_dir: what is tested. */
  lemma RemoveCheck(n: seq<Node>, rank: seq<nat>, x: nat)
    requires Shape(n, rank) && 0 < x < |n|
    ensures Distinct(n[x].slots) && Look(n, x, "") == 0
    ensures CanRemove(n, x) <==> IsDir(n, x) && x != ROOT_INODE && forall m :: Ordinary(m) ==> Look(n, x, m) == 0
  {
    hide Shape;
    ShapeDistinct(n, rank);
    Unnamed(n, rank, x);
  }

  /** remove_dir: what is left. */
  lemma RemoveDone(n: seq<Node>, c: seq<nat>, rank: seq<nat>, d: nat, x: nat, name: string, i: nat, j: nat, k: nat)
    requires Sound(n, rank) && Kept(n, c) && Live(n, d) && 0 < d && 0 < x < |n| && c[x] > 0 && c[d] > 0
    requires CanRemove(n, x) && Ordinary(name) && Look(n, d, name) == x
    requires i == Find(n[d].slots, name) && j == Find(n[x].slots, ".") && k == Find(n[x].slots, "..")
    ensures d != x && i < |n[d].slots| && j < |n[x].slots| && k < |n[x].slots|
    ensures Look(n, x, ".") == x && Find(Erased(n[x].slots, j), "..") == k && Lookup(Erased(n[x].slots, j), "..") == d
    ensures var w := RemovedDir(n, d, i, x, j, k);
      && Sound(w, rank) && Kept(w, c) && Removed(n, w, d, name, x) && HasRoom(w, d) && w[x].nlinks == 0 && w[d].nlinks == n[d].nlinks - 1
  {
    hide Shape, Law, Removed;
    ShapeDistinct(n, rank);
    Leads(n, rank, d, name);
    ParentOf(n, rank, d, name, x);
    DotDot(n, rank, x);
    RemovedDirectory(n, rank, d, i, x, j, k);
    ErasedDot(n[x].slots, j, k, d);
    var w := RemovedDir(n, d, i, x, j, k);
    assert w[d].slots[i].ino == 0;
    KeptRemoved(n, c, w, rank, d, x);
  }

  /** do_unlink by the superuser: the name is gone, and a directory has lost it. */
  lemma UnlinkDone(n: seq<Node>, rank: seq<nat>, d: nat, name: string, x: nat, root: nat)
    requires Sound(n, rank) && Live(n, d) && IsDir(n, x) && x == Step(n, d, name, root) != 0 && x != ROOT_INODE && d != 0
    ensures Look(n, d, name) != 0 <==> name != ""
    ensures name != "" ==>
      var i := Find(n[d].slots, name);
      && i < |n[d].slots|
      && var w := Count(Erase(n, d, i), x, -1);
        Binds(n, w, d, name, 0) && w[x].nlinks > 0 && !IsTree(w) && (Law(w) <==> !(d == root && name == ".."))
  {
    hide Shape, Law, Binds, IsTree;
    NotNameless(n, rank, d);
    if name != "" {
      DotDot(n, rank, d);
      ShapeDistinct(n, rank);
      Leads(n, rank, d, name);
      var i := Find(n[d].slots, name);
      UnbindsOne(n, d, i, x);
      if d == root && name == ".." { WrongDotDot(n, rank, d, i); } else { SuperUnlink(n, rank, d, i, x); }
    }
  }

  lemma UnbindsOne(n: seq<Node>, d: nat, i: nat, x: nat)
    requires Used(n, d, i) && n[d].slots[i].ino < |n| && x < |n|
    ensures Binds(n, Count(Erase(n, d, i), x, -1), d, n[d].slots[i].name, 0)
  {
    hide Lookup, Debt;
    ErasesOne(n, d, i);
    Counts(Erase(n, d, i), x, -1);
  }

  /** do_mkdir: the new directory is empty, and not that of its name. */
  lemma NewSlots(n: seq<Node>, c: seq<nat>, d: nat, i: nat, name: string, x: nat)
    requires Kept(n, c) && IsNew(n, d, i, name, x) && d != x
    ensures |c| == |n| && c[x] == 0 && i <= |n[d].slots| && n[d].kind != FREE
    ensures var m := Links.Enter(n[x := Node(DIRECTORY, 1, [])], d, i, name, x); |m| == |n| && m[x].slots == []
  {
    assert KeptOne(n[x], c[x]);
  }

  lemma MadeDone(n: seq<Node>, c: seq<nat>, rank: seq<nat>, d: nat, i: nat, name: string, x: nat)
    requires Sound(n, rank) && Kept(n, c) && IsNew(n, d, i, name, x) && d != x && n[d].nlinks < LINK_MAX
    ensures var w := MadeDir(n, d, i, name, x);
      && x < |rank| && d < |rank| && Sound(w, rank[x := rank[d] + 1]) && Made(n, w, d, name, x) && Kept(w, c[x := 1])
      && w[d].nlinks == n[d].nlinks + 1 && w[x].nlinks == 2
  {
    hide Shape, Law, Made;
    ShapeDistinct(n, rank);
    MadeDirectory(n, rank, d, i, name, x);
    KeptNew(n, c, MadeDir(n, d, i, name, x), c[x := 1], d, x);
  }

  /** do_mkdir: nothing is left of a name that was taken back. */
  lemma BackDone(n: seq<Node>, c: seq<nat>, rank: seq<nat>, d: nat, i: nat, name: string, x: nat)
    requires Sound(n, rank) && Kept(n, c) && IsNew(n, d, i, name, x) && d != x
    ensures var m := Links.Enter(n, d, i, name, x);
      && |c| == |n| && n[x] == Node(FREE, 0, []) && i <= |n[d].slots| && m[x] == n[x] && Look(m, d, name) != 0
      && Find(m[d].slots, name) == i < |m[d].slots|
      && var w := Erase(m, d, i); Sound(w, rank) && Kept(w, c) && SameNames(n, w) && SameNodes(n, w)
  {
    hide Shape, Law, SameNames, Lookup, Distinct;
    TakenBack(n, rank, d, i, name, x);
    var m := Links.Enter(n, d, i, name, x);
    EntersOne(n, d, i, name, x);
    assert Look(m, d, name) == x;
    var w := Erase(m, d, i);
    forall y | 0 <= y < |n| ensures KeptOne(w[y], c[y]) { assert KeptOne(n[y], c[y]); }
  }

  /** do_link: a file has one name more; a directory has two, which no tree has. */
  lemma LinkDone(n: seq<Node>, c: seq<nat>, rank: seq<nat>, d: nat, i: nat, name: string, x: nat)
    requires Sound(n, rank) && Kept(n, c) && Live(n, d) && Look(n, d, name) == 0 && name != ""
    requires 0 < x < |n| && n[x].kind != FREE && n[x].nlinks < LINK_MAX
    requires i <= |n[d].slots| && (i < |n[d].slots| ==> n[d].slots[i].ino == 0)
    ensures var w := Count(Links.Enter(n, d, i, name, x), x, 1);
      && Law(w) && Binds(n, w, d, name, x)
      && if n[x].kind == DIRECTORY then !IsTree(w) && !Shape(w, rank) else IsTree(w) && Sound(w, rank) && Kept(w, c)
  {
    hide Shape, Law, Binds, IsTree, Kept;
    DotDot(n, rank, d);
    ShapeDistinct(n, rank);
    var w := Count(Links.Enter(n, d, i, name, x), x, 1);
    if n[x].kind == DIRECTORY {
      SuperLink(n, rank, d, i, name, x);
      NoTree(w, rank);
    } else {
      LinkedFile(n, rank, d, i, name, x);
      StillTree(w, rank);
      NotNegative(n, x);
      KeptLinked(n, c, w, d, x);
    }
  }

  lemma KeptLinked(n: seq<Node>, c: seq<nat>, w: seq<Node>, d: nat, x: nat)
    requires Kept(n, c) && |w| == |n| && d < |n| && x < |n| && n[x].kind != FREE && LINK_MAX > n[x].nlinks >= 0 && n[d].kind != FREE
    requires n[d].nlinks > 0 && w[d].kind == n[d].kind && w[d].nlinks == n[d].nlinks + (if d == x then 1 else 0)
    requires w[x].kind == n[x].kind && w[x].nlinks == n[x].nlinks + 1 && forall y :: 0 <= y < |n| && y != x && y != d ==> w[y] == n[y]
    ensures Kept(w, c)
  {
    forall z | 0 <= z < |n| ensures KeptOne(w[z], c[z]) { assert KeptOne(n[z], c[z]); }
  }

  lemma NoTree(n: seq<Node>, rank: seq<nat>)
    requires !IsTree(n)
    ensures !Shape(n, rank)
  {
    if Shape(n, rank) { StillTree(n, rank); }
  }

  lemma SameLength(n: seq<Node>, c: seq<nat>)
    requires Kept(n, c)
    ensures |c| == |n|
  {
  }

  /** A name leads to an inode, or a new one can have it. */
  lemma NewOrNot(n: seq<Node>, rank: seq<nat>, d: nat, name: string, root: nat)
    requires Sound(n, rank) && 0 < d && Live(n, d)
    ensures var x := Step(n, d, name, root); (x == 0 ==> Look(n, d, name) == 0) && (x != 0 ==> x < |n| && n[x].nlinks > 0)
  {
    hide Shape, Law, Look;
    Leads(n, rank, d, name);
  }

  lemma IsNewHere(n: seq<Node>, rank: seq<nat>, d: nat, i: nat, name: string, x: nat)
    requires Sound(n, rank) && Live(n, d) && 0 < x < |n| && n[x] == Node(FREE, 0, []) && Look(n, d, name) == 0 && name != ""
    requires i <= |n[d].slots| && (i < |n[d].slots| ==> n[d].slots[i].ino == 0)
    ensures IsNew(n, d, i, name, x)
  {
    hide Shape, Law;
    DotDot(n, rank, d);
    ShapeDistinct(n, rank);
  }

  lemma StillTree(n: seq<Node>, rank: seq<nat>)
    requires Shape(n, rank)
    ensures IsTree(n)
  {
  }

  lemma NotNegative(n: seq<Node>, x: nat)
    requires Law(n) && 0 < x < |n|
    ensures n[x].nlinks >= 0
  {
    assert Debt(n, x) == 0;
  }

  /** Where a name leads there is an inode with links. */
  lemma Leads(n: seq<Node>, rank: seq<nat>, d: nat, name: string)
    requires Sound(n, rank) && Live(n, d)
    ensures Look(n, d, name) != 0 ==> Look(n, d, name) < |n| && n[Look(n, d, name)].nlinks > 0
  {
    assert Says(n, d, name);
    if Look(n, d, name) != 0 { NamedLives(n, d, name); }
  }

  lemma KeptNew(n: seq<Node>, c: seq<nat>, n': seq<Node>, c': seq<nat>, d: nat, x: nat)
    requires Kept(n, c) && d < |n| && x < |n| && |n'| == |n| && c' == c[x := 1] && n'[x].kind != FREE && n[d].kind != FREE
    requires n'[d].kind != FREE && LINK_MAX >= n'[d].nlinks >= n[d].nlinks > 0 && n'[x].nlinks <= LINK_MAX
    requires forall y :: 0 <= y < |n| && y != x && y != d ==> n'[y] == n[y]
    ensures Kept(n', c')
  {
    forall y | 0 <= y < |n| ensures KeptOne(n'[y], c'[y]) { assert KeptOne(n[y], c[y]); }
  }

  lemma KeptUsed(n: seq<Node>, c: seq<nat>, c': seq<nat>, x: nat)
    requires Kept(n, c) && (c' == c || (x < |n| && n[x].nlinks > 0 && c' == c[x := c[x] + 1]))
    ensures Kept(n, c')
  {
    forall y | 0 <= y < |n| ensures KeptOne(n[y], c'[y]) { assert KeptOne(n[y], c[y]); }
  }

  /** The same inodes, with as many links. */
  ghost predicate SameNodes(n: seq<Node>, n': seq<Node>) {
    |n'| == |n| && forall y :: 0 <= y < |n| ==> n'[y].kind == n[y].kind && n'[y].nlinks == n[y].nlinks
  }

  /** An inode that has links need not be in use. */
  lemma KeptDone(n: seq<Node>, c: seq<nat>, x: nat, c': seq<nat>)
    requires Kept(n, c) && x < |n| == |c'| && n[x].kind != FREE && n[x].nlinks != 0 && c' == c[x := c'[x]]
    ensures Kept(n, c')
  {
    forall y | 0 <= y < |n| ensures KeptOne(n[y], c'[y]) { assert KeptOne(n[y], c[y]); }
  }

  lemma RootIsDir(n: seq<Node>, rank: seq<nat>)
    requires Shape(n, rank)
    ensures Live(n, ROOT_INODE) && |n| > ROOT_INODE
  {
  }

  predicate IsFile(n: seq<Node>, x: nat) {
    x < |n| && n[x].kind == FILE
  }

  lemma OnWay(n: seq<Node>, rank: seq<nat>, d: nat, name: string, root: nat)
    requires Sound(n, rank) && Live(n, d)
    ensures Step(n, d, name, root) < |n| && (Step(n, d, name, root) != 0 ==> n[Step(n, d, name, root)].nlinks > 0)
  {
    Leads(n, rank, d, name);
  }

  lemma {:induction false} WalkLive(n: seq<Node>, rank: seq<nat>, d: nat, path: seq<string>, root: nat)
    requires Sound(n, rank) && d < |n| && n[d].nlinks > 0
    ensures Walk(n, d, path, root).1 != 0 ==> Live(n, Walk(n, d, path, root).1)
    decreases |path|
  {
    hide Sound;
    if IsDir(n, d) && path != [] {
      OnWay(n, rank, d, path[0], root);
      if Step(n, d, path[0], root) != 0 { WalkLive(n, rank, Step(n, d, path[0], root), path[1..], root); }
    }
  }

  lemma LastLive(n: seq<Node>, rank: seq<nat>, start: nat, path: seq<string>, root: nat)
    requires Sound(n, rank) && 0 < start
    ensures Last(n, start, path, root) != 0 ==> Live(n, Last(n, start, path, root))
  {
    hide Shape, Law;
    if start < |n| && n[start].nlinks != 0 {
      NotNegative(n, start);
      WalkLive(n, rank, start, path, root);
    }
  }

  /** What advance does not find by name alone is a directory. */
  lemma OnlyDirs(n: seq<Node>, rank: seq<nat>, d: nat, name: string, root: nat)
    requires Sound(n, rank) && Live(n, d)
    ensures d != 0 && (name == "" || name == ".." ==> !IsFile(n, Look(n, d, name)))
    ensures Look(n, d, name) != 0 ==> Look(n, d, name) < |n| && n[Look(n, d, name)].kind != FREE
  {
    DotDot(n, rank, d);
    Leads(n, rank, d, name);
    assert Says(n, d, name);
  }

  /** A directory other than the root, with nothing but dots in it. */
  ghost predicate CanRemove(n: seq<Node>, x: nat) {
    IsDir(n, x) && x != 0 && x != ROOT_INODE && forall m :: Ordinary(m) ==> Look(n, x, m) == 0
  }

  /** Inode x says nothing any more, and is not in directory d. */
  ghost predicate Vanished(n: seq<Node>, n': seq<Node>, d: nat, name: string, x: nat) {
    |n'| == |n| && forall e, m {:trigger Look(n', e, m)} :: Look(n', e, m) == if e == x || (e == d && m == name) then 0 else Look(n, e, m)
  }

  /** With the first dot gone the other one is still where it was. */
  lemma ErasedDot(s: seq<Entry>, j: nat, k: nat, d: nat)
    requires Distinct(s) && j < |s| && k < |s| && s[j].ino != 0 && s[j].name == "." && s[k] == Entry(d, "..") && d != 0
    ensures Find(s, ".") == j && Find(s, "..") == k
    ensures Find(Erased(s, j), "..") == k && Erased(s, j)[k] == Entry(d, "..") && Lookup(Erased(s, j), "..") == d
  {
    Found(s, j);
    Found(s, k);
    ErasedLookup(s, j, "..");
    Found(Erased(s, j), k);
  }

  lemma KeptRemoved(n: seq<Node>, c: seq<nat>, n': seq<Node>, rank: seq<nat>, d: nat, x: nat)
    requires Kept(n, c) && |n'| == |n| && d < |n| && x < |n| && c[x] > 0 && c[d] > 0 && n'[x].kind == n[x].kind != FREE
    requires n'[x].nlinks <= n[x].nlinks && n'[d].nlinks <= n[d].nlinks
    requires n'[d].kind == n[d].kind != FREE && forall y :: 0 <= y < |n| && y != x && y != d ==> n'[y] == n[y]
    ensures Kept(n', c)
  {
    forall y | 0 <= y < |n| ensures KeptOne(n'[y], c[y]) { assert KeptOne(n[y], c[y]); }
  }

  /** Using inodes that are not free keeps them. */
  lemma KeptMore(n: seq<Node>, c: seq<nat>, c': seq<nat>)
    requires Kept(n, c) && |c'| == |c| && forall y :: 0 <= y < |n| ==> c'[y] >= c[y] && (n[y].kind == FREE ==> c'[y] == c[y])
    ensures Kept(n, c')
  {
    forall y | 0 <= y < |n| ensures KeptOne(n[y], c'[y]) { assert KeptOne(n[y], c[y]); }
  }

  /** Nothing speaks against renaming x, which is oname in od, to nname in nd, where t is now. */
  ghost predicate Renamable(n: seq<Node>, rank: seq<nat>, od: nat, oname: string, nd: nat, nname: string, x: nat, t: nat) {
    && x != t && x < |n| && t < |n| && nd < |n|
    && (if t == 0 then IsDir(n, x) && od != nd ==> n[nd].nlinks < LINK_MAX else IsDir(n, x) == IsDir(n, t))
    && (t == 0 ==> oname != "." && oname != ".." && nname != "." && nname != "..")
    && (t != 0 ==> oname != "." && oname != ".." && nname != "." && nname != "..")
    && (IsDir(n, x) && od != nd ==> !Above(n, rank, x, nd))
  }

  /** Exactly when a name can be changed: it stands for the same as the new one, or nothing speaks against it, what has the new name
      can be removed, and there is space for it. */
  ghost predicate Renames(n: seq<Node>, rank: seq<nat>, od: nat, oname: string, nd: nat, nname: string, x: nat, t: nat,
                          busy: bool, room: bool)
  {
    x == t || (Renamable(n, rank, od, oname, nd, nname, x, t) && Clear(n, nd, nname, t, busy)
               && if od == nd then oname != "" else t == 0 ==> Space(n, nd, room))
  }

  /** A root directory cannot be renamed to a name in itself: what has that name is removed first, and the call fails then. */
  ghost predicate Wasted(n: seq<Node>, rank: seq<nat>, od: nat, oname: string, nd: nat, nname: string, x: nat, t: nat, busy: bool) {
    oname == "" && od == nd && t != 0 && Renamable(n, rank, od, oname, nd, nname, x, t) && Clear(n, nd, nname, t, busy)
  }

  lemma NothingWasted(n: seq<Node>, rank: seq<nat>, od: nat, oname: string, nd: nat, nname: string, x: nat, t: nat, busy: bool)
    ensures Wasted(n, rank, od, oname, nd, nname, x, t, busy) ==> oname == "" && od == nd && x != t
  {
  }

  /** What has the new name can be removed. */
  ghost predicate Clear(n: seq<Node>, nd: nat, nname: string, t: nat, busy: bool) {
    t != 0 ==> Ordinary(nname) && (IsDir(n, t) ==> CanRemove(n, t) && !busy)
  }

  lemma RenamableMeans(n: seq<Node>, rank: seq<nat>, od: nat, oname: string, nd: nat, nname: string, x: nat, t: nat)
    requires Renamable(n, rank, od, oname, nd, nname, x, t)
    ensures x != t && oname != "." && oname != ".." && nname != "." && nname != ".."
    ensures IsDir(n, x) && od != nd ==> !Above(n, rank, x, nd)
    ensures t != 0 ==> IsDir(n, x) == IsDir(n, t)
    ensures t == 0 && IsDir(n, x) && od != nd ==> nd < |n| && n[nd].nlinks < LINK_MAX
  {
  }

  lemma Gone(n: seq<Node>, n': seq<Node>, d: nat, name: string, x: nat)
    requires Removed(n, n', d, name, x)
    ensures Vanished(n, n', d, name, x) && OnlyFrees(n, n')
  {
  }

  /** What nname stood for in nd has lost that name, and if it was a directory both dots. */
  ghost predicate Displaced(n: seq<Node>, n': seq<Node>, nd: nat, nname: string, t: nat) {
    && |n'| == |n| && (forall y :: 0 <= y < |n| ==> n'[y].kind == n[y].kind) && Live(n', nd)
    && (IsDir(n, t) ==> t != nd && nd < |n| && n'[t].nlinks == 0 && n'[nd].nlinks < n[nd].nlinks)
    && forall e, m {:trigger Look(n', e, m)} ::
      Look(n', e, m) == if (IsDir(n, t) && e == t) || (e == nd && m == nname) then 0 else Look(n, e, m)
  }

  lemma LinkLeft(n: seq<Node>, n': seq<Node>, nd: nat, nname: string, t: nat)
    requires Displaced(n, n', nd, nname, t)
    ensures IsDir(n, t) ==> nd < |n| == |n'| && n'[nd].nlinks < n[nd].nlinks
  {
  }

  lemma DisplacedKinds(n: seq<Node>, m: seq<Node>, nd: nat, nname: string, t: nat)
    requires Displaced(n, m, nd, nname, t)
    ensures OnlyFrees(n, m)
  {
  }

  /** A directory that has been displaced has vanished. */
  lemma DisplacedDir(n: seq<Node>, m: seq<Node>, n': seq<Node>, nd: nat, nname: string, t: nat)
    requires Displaced(n, m, nd, nname, t) && IsDir(n, t) && SameNames(m, n')
    ensures Vanished(n, n', nd, nname, t)
  {
  }

  lemma StillLive(n: seq<Node>, n': seq<Node>, rank: seq<nat>, nd: nat, t: nat, nname: string)
    requires Sound(n, rank) && Sound(n', rank) && Live(n, nd) && Removed(n, n', nd, nname, t) && nd != t && Ordinary(nname) && nd != 0
    ensures Live(n', nd)
  {
    DotDot(n, rank, nd);
    assert Look(n', nd, ".") == nd;
    NamedLives(n', nd, ".");
  }

  /** No entry is without a name. */
  lemma NotNameless(n: seq<Node>, rank: seq<nat>, d: nat)
    requires Shape(n, rank)
    ensures Look(n, d, "") == 0
  {
    Unnamed(n, rank, d);
  }

  lemma NotFree(n: seq<Node>, c: seq<nat>, rank: seq<nat>, x: nat)
    requires Kept(n, c) && x < |n| && n[x].nlinks > 0 && !IsDir(n, x)
    ensures n[x].kind == FILE
  {
    assert KeptOne(n[x], c[x]);
  }

  lemma KeptNames(n: seq<Node>, c: seq<nat>, n': seq<Node>)
    requires Kept(n, c) && |n'| == |n|
    requires forall y :: 0 <= y < |n| ==> n'[y] == n[y].(slots := n'[y].slots) && (n[y].kind == FREE ==> n'[y] == n[y])
    ensures Kept(n', c)
  {
    forall y | 0 <= y < |n| ensures KeptOne(n'[y], c[y]) { assert KeptOne(n[y], c[y]); }
  }

  lemma KeptMoved(n: seq<Node>, c: seq<nat>, od: nat, i: nat, nd: nat, j: nat, nn: string, x: nat, k: nat, l: nat)
    requires Kept(n, c) && od < |n| && nd < |n| && x < |n| && x != od && x != nd && od != nd && c[od] > 0
    requires i < |n[od].slots| && j <= |n[nd].slots| && k < |n[x].slots| && l <= |n[x].slots|
    requires n[od].kind != FREE && n[nd].kind != FREE && n[x].kind != FREE && 0 <= n[nd].nlinks < LINK_MAX
    ensures Kept(MovedDir(n, od, i, nd, j, nn, x, k, l), c)
  {
    var n' := MovedDir(n, od, i, nd, j, nn, x, k, l);
    forall y | 0 <= y < |n| ensures KeptOne(n'[y], c[y]) { assert KeptOne(n[y], c[y]); }
  }

  function More(c: seq<nat>, x: nat): (d: seq<nat>)
    requires x < |c|
    ensures |d| == |c| && forall y :: 0 <= y < |c| ==> d[y] == c[y] + if y == x then 1 else 0
  {
    c[x := c[x] + 1]
  }

  /** The counts when four inodes, the last of which may be none, have been taken into use once more. */
  function Gotten(c: seq<nat>, od: nat, x: nat, nd: nat, t: nat): seq<nat>
    requires od < |c| && x < |c| && nd < |c| && t < |c|
  {
    var c3 := More(More(More(c, od), x), nd);
    if t == 0 then c3 else More(c3, t)
  }

  lemma GottenKept(n: seq<Node>, c: seq<nat>, c': seq<nat>, od: nat, x: nat, nd: nat, t: nat)
    requires Kept(n, c) && od < |n| && x < |n| && nd < |n| && t < |n| && c' == Gotten(c, od, x, nd, t)
    requires n[od].kind != FREE && n[nd].kind != FREE && n[x].kind != FREE && (t != 0 ==> n[t].kind != FREE)
    ensures Kept(n, c') && c'[od] > 0 && c'[x] > 0 && c'[nd] > 0 && (t != 0 ==> c'[t] > 0)
  {
    KeptMore(n, c, c');
  }

  /** Inodes are given back: those that nothing names any more are freed, and nothing else changes. */
  ghost predicate GivenBack(n: seq<Node>, c: seq<nat>, n': seq<Node>, c': seq<nat>, rank: seq<nat>, least: seq<nat>) {
    && (Sound(n, rank) && Kept(n, c) ==> Sound(n', rank) && Kept(n', c') && SameNames(n, n'))
    && (Kept(n, least) ==> n' == n)
    && (Quiet(n) ==> Quiet(n') && Owes(n, n', 0, 0) && SameNames(n, n'))
    && OnlyFrees(n, n')
  }

  lemma BackTrans(n: seq<Node>, c: seq<nat>, m: seq<Node>, c1: seq<nat>, w: seq<Node>, c2: seq<nat>, rank: seq<nat>, least: seq<nat>)
    requires GivenBack(n, c, m, c1, rank, least) && GivenBack(m, c1, w, c2, rank, least)
    ensures GivenBack(n, c, w, c2, rank, least)
  {
    hide Sound, Kept, Quiet, Debt, Look;
  }

  /** The order in which inodes are taken into use does not matter. */
  lemma MoreSwap(c: seq<nat>, x: nat, y: nat)
    requires x < |c| && y < |c|
    ensures More(More(c, x), y) == More(More(c, y), x)
  {
  }

  lemma GottenBack(c: seq<nat>, od: nat, x: nat, nd: nat, t: nat)
    requires od < |c| && x < |c| && nd < |c| && t < |c|
    ensures Gotten(c, od, x, nd, t) == More(More(More(if t == 0 then c else More(c, t), nd), x), od)
  {
    hide More;
    MoreSwap(c, od, x);
    MoreSwap(More(c, x), od, nd);
    MoreSwap(c, x, nd);
    if t != 0 {
      MoreSwap(More(More(c, nd), x), od, t);
      MoreSwap(More(c, nd), x, t);
      MoreSwap(c, nd, t);
    }
  }

  lemma MoreStill(c3: seq<nat>, od: nat, nd: nat, x: nat, c: seq<nat>, t: nat)
    requires od < |c| && nd < |c| && x < |c| && t < |c| && c3 == if t == 0 then c else More(c, t)
    ensures More(More(c3, nd), x)[od] >= c[od] && More(c3, nd)[x] >= c[x] && c3[nd] >= c[nd]
  {
  }

  /** All that rename does to names: the old one is gone, the new one stands for x, what it stood for has lost it, and its dots
      if it was a directory, and the dot-dot of x stands for the directory it is in. */
  ghost predicate Everything(n: seq<Node>, n': seq<Node>, od: nat, on: string, nd: nat, nn: string, x: nat, t: nat) {
    && |n'| == |n|
    && forall e, m {:trigger Look(n', e, m)} :: Look(n', e, m) ==
         if e == nd && m == nn then x else if e == od && m == on then 0
         else if t != 0 && IsDir(n, t) && e == t then 0 else if IsDir(n, x) && e == x && m == ".." then nd else Look(n, e, m)
  }

  lemma EverythingStill(n: seq<Node>, w: seq<Node>, n': seq<Node>, od: nat, on: string, nd: nat, nn: string, x: nat, t: nat)
    requires Everything(n, w, od, on, nd, nn, x, t) && SameNames(w, n')
    ensures Everything(n, n', od, on, nd, nn, x, t)
  {
  }

  lemma UsedNodes(n: seq<Node>, c: seq<nat>, rank: seq<nat>, od: nat, nd: nat, x: nat, t: nat, on: string, nn: string)
    requires Sound(n, rank) && Kept(n, c) && Live(n, od) && Live(n, nd) && x < |n| && t < |n|
    requires if on == "" then x == od else Look(n, od, on) == x != 0
    requires if nn == "" then t == nd else Look(n, nd, nn) == t
    ensures n[od].kind != FREE && n[nd].kind != FREE && n[x].kind != FREE && (t != 0 ==> n[t].kind != FREE) && n[nd].nlinks <= LINK_MAX
  {
    Leads(n, rank, od, on);
    Leads(n, rank, nd, nn);
    assert KeptOne(n[x], c[x]) && KeptOne(n[t], c[t]) && KeptOne(n[nd], c[nd]);
  }

  lemma CanDisplace(n: seq<Node>, c: seq<nat>, rank: seq<nat>, nd: nat, nn: string, x: nat, t: nat, odir: bool, od: nat, on: string)
    requires Sound(n, rank) && Kept(n, c) && Live(n, nd) && x < |n| && 0 < t < |n| && odir == IsDir(n, x)
    requires Renamable(n, rank, od, on, nd, nn, x, t) && (if nn == "" then t == nd else Look(n, nd, nn) == t)
    ensures odir == IsDir(n, t) && (!odir ==> IsFile(n, t) && Look(n, nd, nn) == t) && (nn != "" ==> Ordinary(nn))
  {
    Leads(n, rank, nd, nn);
    assert KeptOne(n[t], c[t]);
  }

  /** A directory with a dot can be reached. */
  lemma DotLives(n: seq<Node>, rank: seq<nat>, d: nat)
    requires Sound(n, rank) && IsDir(n, d) && d != 0 && Look(n, d, ".") == d
    ensures Live(n, d)
  {
    NamedLives(n, d, ".");
  }

  /** After what had the new name has been removed, the old one is still there, and so are both directories. */
  lemma Between(n: seq<Node>, m: seq<Node>, rank: seq<nat>, rank': seq<nat>, od: nat, on: string, nd: nat, nn: string, x: nat, t: nat)
    requires Sound(n, rank) && Sound(m, rank) && Live(n, od) && Live(n, nd) && 0 < x < |n| && t < |n| && x != t && od != 0
    requires Ordinary(nn) && on != "." && on != ".." && (if on == "" then od == nd && x == od else Look(n, od, on) == x)
    requires Look(n, nd, nn) == t && (IsDir(n, x) && od != nd ==> Ranks(n, rank', x, nd))
    requires if t == 0 then m == n else Displaced(n, m, nd, nn, t)
    requires t != 0 && IsDir(n, t) ==> CanRemove(n, t)
    ensures Live(m, od) && Live(m, nd) && Look(m, nd, nn) == 0 && IsDir(m, x) == IsDir(n, x) && (t != 0 && IsDir(n, t) ==> od != t)
    ensures if on == "" then Look(m, od, on) == 0 else Look(m, od, on) == x
    ensures IsDir(m, x) && od != nd ==> x != nd && Ranks(m, rank', x, nd)
    ensures IsDir(n, x) && on != "" ==> x != od && Look(n, x, "..") == od
  {
    hide Law, Lookup;
    NotNameless(m, rank, od);
    DotDot(n, rank, od);
    if IsDir(n, x) && on != "" {
      NamedLives(n, od, on);
      ParentOf(n, rank, od, on, x);
    }
    DotLives(m, rank, od);
    if IsDir(n, x) && od != nd && t != 0 { RanksStay(n, m, rank, rank', nd, nn, x, t); }
  }

  lemma RanksStay(n: seq<Node>, m: seq<Node>, rank: seq<nat>, rank': seq<nat>, nd: nat, nn: string, x: nat, t: nat)
    requires Sound(n, rank) && Sound(m, rank) && Displaced(n, m, nd, nn, t) && Ordinary(nn) && Ranks(n, rank', x, nd)
    ensures Ranks(m, rank', x, nd)
  {
    hide Law, Lookup;
    forall c: nat | Live(m, c) && c != x && c != ROOT_INODE && Look(m, c, "..") < |m| ensures rank'[Look(m, c, "..")] < rank'[c] {
      DotDot(m, rank, c);
      assert Says(n, c, ".") && Look(n, c, ".") != 0;
      assert Live(n, c) && Look(n, c, "..") == Look(m, c, "..");
    }
  }

  lemma Within(n: seq<Node>, m: seq<Node>, n': seq<Node>, d: nat, on: string, nn: string, x: nat, t: nat)
    requires |m| == |n| && Look(n, d, nn) == t && Replaces(m, n', d, on, d, nn, x)
    requires if t == 0 then m == n else Displaced(n, m, d, nn, t)
    requires IsDir(n, x) ==> x != d && Look(n, x, "..") == d && x != t
    ensures Everything(n, n', d, on, d, nn, x, t)
  {
    hide Lookup;
  }

  lemma Across(n: seq<Node>, m: seq<Node>, n': seq<Node>, od: nat, on: string, nd: nat, nn: string, x: nat, t: nat)
    requires |m| == |n| && Look(n, nd, nn) == t && IsDir(m, x) == IsDir(n, x) && x != t
    requires if IsDir(m, x) then Moved(m, n', x, od, on, nd, nn) else Replaces(m, n', od, on, nd, nn, x)
    requires if t == 0 then m == n else Displaced(n, m, nd, nn, t)
    ensures Everything(n, n', od, on, nd, nn, x, t)
  {
    hide Lookup;
  }
}
