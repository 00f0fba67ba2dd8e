/** The effect of each call on the tree as a whole (src/fs/link.c, src/fs/open.c): what the steps of a call add up to. */
module TreeCalls {
  import opened Directories
  import opened Links
  import opened LinkSteps

  /** All debts are paid. */
  lemma Paid(n: seq<Node>, n': seq<Node>)
    requires Law(n) && |n'| == |n| && forall y: nat {:trigger Debt(n', y)} :: y != 0 ==> Debt(n', y) == Debt(n, y)
    ensures Law(n')
  {
    forall y | 0 < y < |n'| ensures Debt(n', y) == 0 { assert Debt(n, y) == 0; }
  }

  function Created(n: seq<Node>, d: nat, i: nat, name: string, x: nat): seq<Node>
    requires x < |n| && d < |n| && d != x && i <= |n[d].slots|
  {
    Enter(n[x := Node(FILE, 1, [])], d, i, name, x)
  }

  /** new_node, for a file. */
  lemma CreatedFile(n: seq<Node>, rank: seq<nat>, d: nat, i: nat, name: string, x: nat)
    requires Sound(n, rank) && 0 < x < |n| && n[x] == Node(FREE, 0, []) && Live(n, d) && Room(n, d, i, name) && Ordinary(name)
    ensures Sound(Created(n, d, i, name, x), rank) && Binds(n, Created(n, d, i, name, x), d, name, x)
  {
    hide Shape, Lookup, Debt, Distinct;
    var m := n[x := Node(FILE, 1, [])];
    Blank(n, x, FILE, 1);
    assert Look(m, d, name) == Look(n, d, name);
    EntersOne(m, d, i, name, x);
    var n' := Created(n, d, i, name, x);
    Paid(n, n');
    CreatedShape(n, rank, n', d, name, x);
  }

  lemma CreatedShape(n: seq<Node>, rank: seq<nat>, n': seq<Node>, d: nat, name: string, x: nat)
    requires Shape(n, rank) && Live(n, d) && Ordinary(name) && 0 < x < |n| && n[x].kind == FREE && Binds(n, n', d, name, x)
    requires Look(n, d, name) == 0 && n'[x].kind == FILE && Distinct(n'[d].slots) && Distinct(n'[x].slots)
    requires n'[d].kind == n[d].kind && n'[d].nlinks == n[d].nlinks && forall y :: 0 <= y < |n| && y != x && y != d ==> n'[y] == n[y]
    ensures Shape(n', rank)
  {
    forall e, m ensures FileName(n, n', e, m) {}
    FileNames(n, n', rank);
  }

  /** do_link */
  lemma LinkedFile(n: seq<Node>, rank: seq<nat>, d: nat, i: nat, name: string, x: nat)
    requires Sound(n, rank) && 0 < x < |n| && n[x].kind == FILE && Live(n, d) && Room(n, d, i, name) && Ordinary(name)
    ensures Sound(Count(Enter(n, d, i, name, x), x, 1), rank) && Binds(n, Count(Enter(n, d, i, name, x), x, 1), d, name, x)
  {
    hide Shape, Lookup, Debt, Distinct;
    var m := Enter(n, d, i, name, x);
    EntersOne(n, d, i, name, x);
    Counts(m, x, 1);
    var n' := Count(m, x, 1);
    assert Binds(n, n', d, name, x);
    Paid(n, n');
    LinkedShape(n, rank, n', d, name, x);
  }

  lemma LinkedShape(n: seq<Node>, rank: seq<nat>, n': seq<Node>, d: nat, name: string, x: nat)
    requires Shape(n, rank) && Live(n, d) && Ordinary(name) && x < |n| && n[x].kind == FILE && Binds(n, n', d, name, x)
    requires Look(n, d, name) == 0 && n'[x].kind == FILE && n'[x].slots == n[x].slots && Distinct(n'[d].slots)
    requires n'[d].kind == n[d].kind && n'[d].nlinks == n[d].nlinks && forall y :: 0 <= y < |n| && y != x && y != d ==> n'[y] == n[y]
    ensures Shape(n', rank)
  {
    forall e, m ensures FileName(n, n', e, m) {}
    FileNames(n, n', rank);
  }

  /** unlink_file, for a file. */
  lemma UnlinkedFile(n: seq<Node>, rank: seq<nat>, d: nat, i: nat, x: nat)
    requires Sound(n, rank) && Used(n, d, i) && n[d].slots[i].ino == x < |n| && n[x].kind == FILE
    ensures Sound(Count(Erase(n, d, i), x, -1), rank) && Binds(n, Count(Erase(n, d, i), x, -1), d, n[d].slots[i].name, 0)
  {
    hide Shape, Lookup, Debt;
    var m, name := Erase(n, d, i), n[d].slots[i].name;
    ErasesOne(n, d, i);
    Counts(m, x, -1);
    var n' := Count(m, x, -1);
    assert Binds(n, n', d, name, 0);
    Paid(n, n');
    Found(n[d].slots, i);
    FileIsOrdinary(n, rank, d, name);
    UnlinkedShape(n, rank, n', d, name, x);
  }

  lemma UnlinkedShape(n: seq<Node>, rank: seq<nat>, n': seq<Node>, d: nat, name: string, x: nat)
    requires Shape(n, rank) && Look(n, d, name) == x && x != 0 && x < |n| && n[x].kind == FILE && Binds(n, n', d, name, 0)
    requires d < |n| && n'[x].kind == FILE && n'[x].slots == n[x].slots && Distinct(n'[d].slots)
    requires n'[d].kind == n[d].kind && n'[d].nlinks == n[d].nlinks && forall y :: 0 <= y < |n| && y != x && y != d ==> n'[y] == n[y]
    ensures Shape(n', rank)
  {
    FileIsOrdinary(n, rank, d, name);
    forall e, m ensures FileName(n, n', e, m) {}
    FileNames(n, n', rank);
  }

  /** Dots do not stand for files. */
  lemma FileIsOrdinary(n: seq<Node>, rank: seq<nat>, d: nat, name: string)
    requires Shape(n, rank) && Look(n, d, name) != 0 && !IsDir(n, Look(n, d, name))
    ensures Live(n, d) && Ordinary(name)
  {
    assert Says(n, d, name) && Rooted(n, rank, d);
    DotDot(n, rank, d);
  }

  /** What dot-dot stands for is a directory. */
  lemma DotDot(n: seq<Node>, rank: seq<nat>, d: nat)
    requires Shape(n, rank) && Live(n, d)
    ensures Live(n, Look(n, d, "..")) && Look(n, d, "..") != 0 && Look(n, d, ".") == d != 0
  {
    assert Rooted(n, rank, d) && n[0].kind == FREE;
    if d != ROOT_INODE {
      var p := Look(n, d, "..");
      var m :| Ordinary(m) && Look(n, p, m) == d;
      assert Says(n, p, m);
    }
  }

  // ----- directories

  /** do_mkdir: the new directory has a name, both dots, and a link for each entry. */
  function MadeDir(n: seq<Node>, d: nat, i: nat, name: string, x: nat): seq<Node>
    requires x < |n| && d < |n| && d != x && i <= |n[d].slots|
  {
    var m := Enter(Enter(Enter(n[x := Node(DIRECTORY, 1, [])], d, i, name, x), x, 0, ".", x), x, 1, "..", d);
    Count(Count(m, x, 1), d, 1)
  }

  lemma MadeDirectory(n: seq<Node>, rank: seq<nat>, d: nat, i: nat, name: string, x: nat)
    requires Sound(n, rank) && 0 < x < |n| && n[x] == Node(FREE, 0, []) && Live(n, d) && Room(n, d, i, name) && Ordinary(name)
    ensures Sound(MadeDir(n, d, i, name, x), rank[x := rank[d] + 1])
    ensures Made(n, MadeDir(n, d, i, name, x), d, name, x)
  {
    hide Shape, Lookup, Debt, Distinct;
    DotDot(n, rank, d);
    Blank(n, x, DIRECTORY, 1);
    var m0 := n[x := Node(DIRECTORY, 1, [])];
    assert Look(m0, d, name) == Look(n, d, name);
    EntersOne(m0, d, i, name, x);
    var m1 := Enter(m0, d, i, name, x);
    NothingThere(n, rank, x);
    assert Look(m1, x, ".") == Look(m0, x, ".") == Look(n, x, ".");
    NothingDistinct(m1[x].slots);
    EntersOne(m1, x, 0, ".", x);
    var m2 := Enter(m1, x, 0, ".", x);
    assert Look(m2, x, "..") == Look(m1, x, "..") == Look(m0, x, "..") == Look(n, x, "..");
    EntersOne(m2, x, 1, "..", d);
    var m3 := Enter(m2, x, 1, "..", d);
    Counts(m3, x, 1);
    Counts(Count(m3, x, 1), d, 1);
    var n' := MadeDir(n, d, i, name, x);
    Paid(n, n');
    ShapeDistinct(n, rank);
    assert Made(n, n', d, name, x);
    NewDirectory(n, n', rank, d, name, x);
  }

  lemma NothingDistinct(s: seq<Entry>)
    requires s == []
    ensures Distinct(s)
  {
  }

  /** An inode that is free says nothing. */
  lemma NothingThere(n: seq<Node>, rank: seq<nat>, x: nat)
    requires Shape(n, rank) && x < |n| && n[x].kind == FREE
    ensures forall m :: Look(n, x, m) == 0
  {
    forall m ensures Look(n, x, m) == 0 { assert Says(n, x, m); }
  }

  lemma ShapeDistinct(n: seq<Node>, rank: seq<nat>)
    requires Shape(n, rank)
    ensures |rank| == |n| > ROOT_INODE && forall y :: 0 <= y < |n| ==> Distinct(n[y].slots) && (n[y].kind == FREE ==> n[y].nlinks == 0)
  {
  }

  /** do_mkdir, when there is no room for the dots: the name is taken back. */
  lemma TakenBack(n: seq<Node>, rank: seq<nat>, d: nat, i: nat, name: string, x: nat)
    requires Sound(n, rank) && 0 < x < |n| && Live(n, d) && Room(n, d, i, name)
    ensures Find(Enter(n, d, i, name, x)[d].slots, name) == i && i < |Enter(n, d, i, name, x)[d].slots|
    ensures Sound(Erase(Enter(n, d, i, name, x), d, i), rank) && SameNames(n, Erase(Enter(n, d, i, name, x), d, i))
  {
    var m := Enter(n, d, i, name, x);
    EntersOne(n, d, i, name, x);
    assert m[d].slots[i] == Entry(x, name);
    Found(m[d].slots, i);
    ErasesOne(m, d, i);
    var n' := Erase(m, d, i);
    Paid(n, n');
    assert SameNames(n, n');
    forall e, k ensures FileName(n, n', e, k) {}
    FileNames(n, n', rank);
  }

  lemma Unnamed(n: seq<Node>, rank: seq<nat>, x: nat)
    requires Shape(n, rank)
    ensures Look(n, x, "") == 0
  {
    assert Says(n, x, "");
  }

  /** remove_dir: the name and both dots are gone. */
  function RemovedDir(n: seq<Node>, d: nat, i: nat, x: nat, j: nat, k: nat): seq<Node>
    requires d < |n| && x < |n| && d != x && i < |n[d].slots| && j < |n[x].slots| && k < |n[x].slots|
  {
    Count(Erase(Count(Erase(Count(Erase(n, d, i), x, -1), x, j), x, -1), x, k), d, -1)
  }

  lemma RemovedDirectory(n: seq<Node>, rank: seq<nat>, d: nat, i: nat, x: nat, j: nat, k: nat)
    requires Sound(n, rank) && Used(n, d, i) && n[d].slots[i].ino == x && IsDir(n, x) && Ordinary(n[d].slots[i].name) && d != x
    requires Live(n, d)
    requires Used(n, x, j) && n[x].slots[j] == Entry(x, ".") && Used(n, x, k) && n[x].slots[k] == Entry(d, "..")
    requires forall m :: Ordinary(m) ==> Look(n, x, m) == 0
    ensures Sound(RemovedDir(n, d, i, x, j, k), rank) && RemovedDir(n, d, i, x, j, k)[x].nlinks == 0
    ensures Removed(n, RemovedDir(n, d, i, x, j, k), d, n[d].slots[i].name, x)
  {
    hide Shape, Lookup, Debt, Distinct;
    var name := n[d].slots[i].name;
    Found(n[d].slots, i);
    Found(n[x].slots, j);
    Found(n[x].slots, k);
    ErasesOne(n, d, i);
    var m1 := Count(Erase(n, d, i), x, -1);
    Counts(Erase(n, d, i), x, -1);
    ErasesOne(m1, x, j);
    var m2 := Count(Erase(m1, x, j), x, -1);
    Counts(Erase(m1, x, j), x, -1);
    ErasesOne(m2, x, k);
    Counts(Erase(m2, x, k), d, -1);
    var n' := RemovedDir(n, d, i, x, j, k);
    Paid(n, n');
    ShapeDistinct(n, rank);
    forall e, m ensures Look(n', e, m) == if e == x || (e == d && m == name) then 0 else Look(n, e, m) {
      assert Look(n, x, "") == 0 by { Unnamed(n, rank, x); }
    }
    assert Removed(n, n', d, name, x);
    OldDirectory(n, n', rank, d, name, x);
  }

  // ----- renaming

  /** do_rename, for a name that was not there: first what was there is erased, or first the new name is entered. */
  function Renamed(n: seq<Node>, od: nat, i: nat, nd: nat, j: nat, nn: string, x: nat): seq<Node>
    requires od < |n| && nd < |n| && i < |n[od].slots| && j <= |n[nd].slots|
  {
    if od == nd then Enter(Erase(n, od, i), nd, j, nn, x) else Erase(Enter(n, nd, j, nn, x), od, i)
  }

  /** The old entry, and a slot for the new one that is free once the old one is gone. */
  predicate CanRename(n: seq<Node>, od: nat, i: nat, nd: nat, j: nat, nn: string) {
    && Used(n, od, i) && nd < |n| && Distinct(n[nd].slots) && Look(n, nd, nn) == 0
    && if od == nd then j < |n[nd].slots| && (n[nd].slots[j].ino == 0 || j == i) else Room(n, nd, j, nn)
  }

  /** Instead of the old name in directory od it is now the new one in directory nd that stands for x. */
  ghost predicate Replaces(n: seq<Node>, n': seq<Node>, od: nat, on: string, nd: nat, nn: string, x: nat) {
    && |n'| == |n|
    && forall e, m {:trigger Look(n', e, m)} ::
      Look(n', e, m) == if e == nd && m == nn then x else if e == od && m == on then 0 else Look(n, e, m)
  }

  lemma RenamedOne(n: seq<Node>, od: nat, i: nat, nd: nat, j: nat, nn: string, x: nat)
    requires CanRename(n, od, i, nd, j, nn) && n[od].slots[i].ino == x < |n|
    ensures Replaces(n, Renamed(n, od, i, nd, j, nn, x), od, n[od].slots[i].name, nd, nn, x)
    ensures Owes(n, Renamed(n, od, i, nd, j, nn, x), x, 0)
    ensures Distinct(Renamed(n, od, i, nd, j, nn, x)[od].slots) && Distinct(Renamed(n, od, i, nd, j, nn, x)[nd].slots)
  {
    hide Lookup, Debt, Distinct;
    Found(n[od].slots, i);
    if od == nd {
      ErasesOne(n, od, i);
      EntersOne(Erase(n, od, i), nd, j, nn, x);
    } else {
      EntersOne(n, nd, j, nn, x);
      ErasesOne(Enter(n, nd, j, nn, x), od, i);
    }
  }

  lemma RenamedFile(n: seq<Node>, rank: seq<nat>, od: nat, i: nat, nd: nat, j: nat, nn: string, x: nat)
    requires Sound(n, rank) && CanRename(n, od, i, nd, j, nn) && n[od].slots[i].ino == x < |n| && n[x].kind == FILE
    requires Live(n, nd) && Ordinary(nn)
    ensures Sound(Renamed(n, od, i, nd, j, nn, x), rank)
  {
    var n' := Renamed(n, od, i, nd, j, nn, x);
    RenamedOne(n, od, i, nd, j, nn, x);
    Paid(n, n');
    Found(n[od].slots, i);
    FileIsOrdinary(n, rank, od, n[od].slots[i].name);
    RenamedFileShape(n, rank, n', od, n[od].slots[i].name, nd, nn, x);
  }

  lemma RenamedFileShape(n: seq<Node>, rank: seq<nat>, n': seq<Node>, od: nat, on: string, nd: nat, nn: string, x: nat)
    requires Shape(n, rank) && |n'| == |n| && x < |n| && n[x].kind == FILE && Live(n, od) && Live(n, nd) && Ordinary(on) && Ordinary(nn)
    requires Look(n, od, on) == x && Look(n, nd, nn) == 0
    requires forall y :: 0 <= y < |n| ==> n'[y] == n[y].(slots := n'[y].slots) && Distinct(n'[y].slots)
    requires Replaces(n, n', od, on, nd, nn, x)
    ensures Shape(n', rank)
  {
    hide Lookup, Distinct;
    forall e, m ensures FileName(n, n', e, m) {}
    FileNames(n, n', rank);
  }

  /** A directory that gets another name where it is. */
  lemma RenamedDir(n: seq<Node>, rank: seq<nat>, od: nat, i: nat, j: nat, nn: string, x: nat)
    requires Sound(n, rank) && CanRename(n, od, i, od, j, nn) && n[od].slots[i].ino == x && IsDir(n, x)
    requires Live(n, od) && Ordinary(nn) && Ordinary(n[od].slots[i].name)
    ensures Sound(Renamed(n, od, i, od, j, nn, x), rank)
  {
    hide Lookup, Debt, Distinct;
    var n', on := Renamed(n, od, i, od, j, nn, x), n[od].slots[i].name;
    RenamedOne(n, od, i, od, j, nn, x);
    Paid(n, n');
    Found(n[od].slots, i);
    NamedLives(n, od, on);
    ParentOf(n, rank, od, on, x);
    ShapeDistinct(n, rank);
    assert Moved(n, n', x, od, on, od, nn);
    MovedDirectory(n, n', rank, rank, x, od, on, od, nn);
  }

  /** Dot-dot leads to the only directory that names this one. */
  lemma ParentOf(n: seq<Node>, rank: seq<nat>, d: nat, name: string, x: nat)
    requires Shape(n, rank) && Live(n, x) && Look(n, d, name) == x && Ordinary(name)
    ensures Look(n, x, "..") == d != x && x != ROOT_INODE && Ranks(n, rank, x, d)
  {
    assert Rooted(n, rank, x) && Says(n, d, name);
    var p := Look(n, x, "..");
    var m :| Ordinary(m) && Look(n, p, m) == x;
    assert OneParent(n, p, m, d, name);
    forall c: nat | Live(n, c) && c != x && c != ROOT_INODE && Look(n, c, "..") < |n| ensures rank[Look(n, c, "..")] < rank[c] {
      assert Rooted(n, rank, c);
    }
  }

  /** The dot-dot of directory x, entry k, is replaced, in slot l. */
  function Redirected(n: seq<Node>, x: nat, k: nat, l: nat, od: nat, nd: nat): seq<Node>
    requires od < |n| && nd < |n| && x < |n| && k < |n[x].slots| && l <= |n[x].slots| && x != od && x != nd
  {
    Count(Enter(Count(Erase(n, x, k), od, -1), x, l, "..", nd), nd, 1)
  }

  lemma RedirectedOne(n: seq<Node>, x: nat, k: nat, l: nat, od: nat, nd: nat)
    requires 0 < od < |n| && 0 < nd < |n| && x != od && x != nd
    requires Used(n, x, k) && n[x].slots[k] == Entry(od, "..") && l < |n[x].slots| && (n[x].slots[l].ino == 0 || l == k)
    ensures Binds(n, Redirected(n, x, k, l, od, nd), x, "..", nd) && Owes(n, Redirected(n, x, k, l, od, nd), x, 0)
    ensures Distinct(Redirected(n, x, k, l, od, nd)[x].slots)
  {
    hide Lookup, Debt, Distinct;
    ErasesOne(n, x, k);
    var m2 := Erase(n, x, k);
    Counts(m2, od, -1);
    var m3 := Count(m2, od, -1);
    EntersOne(m3, x, l, "..", nd);
    var m4 := Enter(m3, x, l, "..", nd);
    Counts(m4, nd, 1);
  }

  /** A directory that moves to another one. */
  function MovedDir(n: seq<Node>, od: nat, i: nat, nd: nat, j: nat, nn: string, x: nat, k: nat, l: nat): seq<Node>
    requires od < |n| && nd < |n| && x < |n| && i < |n[od].slots| && j <= |n[nd].slots| && x != od && x != nd
    requires k < |n[x].slots| && l <= |n[x].slots|
  {
    Redirected(Renamed(n, od, i, nd, j, nn, x), x, k, l, od, nd)
  }

  lemma MovedDirTree(n: seq<Node>, rank: seq<nat>, rank': seq<nat>, od: nat, i: nat, nd: nat, j: nat, nn: string, x: nat, k: nat, l: nat)
    requires Sound(n, rank) && CanRename(n, od, i, nd, j, nn) && n[od].slots[i].ino == x && IsDir(n, x) && od != nd && x != od && x != nd
    requires Live(n, od) && Live(n, nd) && Ordinary(nn) && Ordinary(n[od].slots[i].name)
    requires Used(n, x, k) && n[x].slots[k] == Entry(od, "..") && l < |n[x].slots| && (n[x].slots[l].ino == 0 || l == k)
    requires Ranks(n, rank', x, nd)
    ensures Sound(MovedDir(n, od, i, nd, j, nn, x, k, l), rank')
    ensures Moved(n, MovedDir(n, od, i, nd, j, nn, x, k, l), x, od, n[od].slots[i].name, nd, nn)
  {
    hide Lookup, Debt, Distinct, Shape, Ranks;
    var m, on, n' := Renamed(n, od, i, nd, j, nn, x), n[od].slots[i].name, MovedDir(n, od, i, nd, j, nn, x, k, l);
    RenamedOne(n, od, i, nd, j, nn, x);
    Found(n[od].slots, i);
    DotDot(n, rank, nd);
    DotDot(n, rank, od);
    RedirectedOne(m, x, k, l, od, nd);
    Paid(n, n');
    ShapeDistinct(n, rank);
    assert Moved(n, n', x, od, on, nd, nn);
    MovedDirectory(n, n', rank, rank', x, od, on, nd, nn);
  }

  // ----- where the law fails

  ghost predicate IsTree(n: seq<Node>) {
    exists r {:trigger Shape(n, r)} :: Shape(n, r)
  }

  /** In the root directory of a process dot-dot stands for that directory itself, so that when the superuser unlinks it
      there, the link is taken from the wrong inode. */
  lemma WrongDotDot(n: seq<Node>, rank: seq<nat>, d: nat, i: nat)
    requires Sound(n, rank) && Used(n, d, i) && n[d].slots[i].name == ".." && Live(n, d) && d != ROOT_INODE
    ensures var w := Count(Erase(n, d, i), d, -1); !Law(w) && !IsTree(w) && w[d].nlinks > 0
  {
    hide Debt, Shape;
    var p, w := n[d].slots[i].ino, Count(Erase(n, d, i), d, -1);
    Found(n[d].slots, i);
    DotDot(n, rank, d);
    DotRooted(n, rank, d);
    assert p != d && p < |n|;
    ErasesOne(n, d, i);
    Counts(Erase(n, d, i), d, -1);
    assert Debt(n, d) == 0 && Debt(Erase(n, d, i), d) == 0 && Debt(w, d) == 1;
    TwoLinks(n, rank, d);
    forall r ensures !Shape(w, r) { NoDotDot(w, r, d); }
  }

  lemma DotRooted(n: seq<Node>, rank: seq<nat>, d: nat)
    requires Shape(n, rank)
    ensures |rank| == |n| && Says(n, d, "..") && Rooted(n, rank, d)
  {
  }

  lemma NoDotDot(n: seq<Node>, r: seq<nat>, d: nat)
    requires Live(n, d) && Look(n, d, "..") == 0
    ensures !Shape(n, r)
  {
    assert !Rooted(n, r, d) || |r| != |n|;
  }

  /** A directory other than the root has a name and a dot. */
  lemma TwoLinks(n: seq<Node>, rank: seq<nat>, d: nat)
    requires Sound(n, rank) && Live(n, d) && d != ROOT_INODE
    ensures n[d].nlinks > 1
  {
    var p := Look(n, d, "..");
    assert Rooted(n, rank, d) && n[0].kind == FREE;
    var m :| Ordinary(m) && Look(n, p, m) == d;
    assert Look(n, d, ".") == d;
    NamedTwo(n, d, p, d);
    NoHits(n[d].slots, d);
    NoHits(n[p].slots, d);
    assert Debt(n, d) == 0;
  }

  lemma NamedTwo(n: seq<Node>, d: nat, e: nat, x: nat)
    requires d < |n| && e < |n| && d != e
    ensures Named(n, x) >= Hits(n[d].slots, x) + Hits(n[e].slots, x)
  {
    var v := Node(FREE, 0, []);
    NamedUpdate(n, d, v, x);
    NamedOne(n[d := v], e, x);
  }

  /** The superuser may take away any entry of a directory: the law still holds, but no longer is there a tree. */
  lemma SuperUnlink(n: seq<Node>, rank: seq<nat>, d: nat, i: nat, x: nat)
    requires Sound(n, rank) && Used(n, d, i) && n[d].slots[i].ino == x && IsDir(n, x) && (x != ROOT_INODE || n[d].slots[i].name == "..")
    ensures Law(Count(Erase(n, d, i), x, -1))
    ensures x != ROOT_INODE ==> Count(Erase(n, d, i), x, -1)[x].nlinks > 0 && !IsTree(Count(Erase(n, d, i), x, -1))
  {
    hide Debt;
    var m, name := Erase(n, d, i), n[d].slots[i].name;
    var n' := Count(m, x, -1);
    Found(n[d].slots, i);
    ErasesOne(n, d, i);
    Counts(m, x, -1);
    Paid(n, n');
    if x != ROOT_INODE {
      forall r ensures n'[x].nlinks > 0 && !Shape(n', r) { NoMoreTree(n, n', rank, r, d, name, x); }
      NoMoreTree(n, n', rank, rank, d, name, x);
    }
  }

  /** The superuser may give a directory another name: the law still holds, but no longer is there a tree. */
  lemma SuperLink(n: seq<Node>, rank: seq<nat>, d: nat, i: nat, name: string, x: nat)
    requires Sound(n, rank) && 0 < x < |n| && IsDir(n, x) && Live(n, d) && Room(n, d, i, name) && Ordinary(name)
    ensures var w := Count(Enter(n, d, i, name, x), x, 1); Law(w) && !IsTree(w) && Binds(n, w, d, name, x)
  {
    hide Debt, Lookup;
    var m, w := Enter(n, d, i, name, x), Count(Enter(n, d, i, name, x), x, 1);
    EntersOne(n, d, i, name, x);
    Counts(m, x, 1);
    Paid(n, w);
    assert Look(w, d, name) == x;
    if x != ROOT_INODE {
      assert Live(w, x) by { NamedLives(w, d, name); }
      if Live(n, x) {
        assert Rooted(n, rank, x);
        var p := Look(n, x, "..");
        var k :| Ordinary(k) && Look(n, p, k) == x;
        forall r ensures !Shape(w, r) { assert Look(w, p, k) == x && !OneParent(w, p, k, d, name); }
      } else {
        forall r ensures !Shape(w, r) {
          assert Says(n, x, ".") && Look(w, x, ".") == 0;
          assert !Rooted(w, r, x) || |r| != |w|;
        }
      }
    } else {
      forall r ensures !Shape(w, r) { assert !Says(w, d, name); }
    }
  }

  lemma NoMoreTree(n: seq<Node>, n': seq<Node>, rank: seq<nat>, r: seq<nat>, d: nat, name: string, x: nat)
    requires Sound(n, rank) && Law(n') && Look(n, d, name) == x && IsDir(n, x) && x != 0 && x != ROOT_INODE && Binds(n, n', d, name, 0)
    requires forall y :: 0 <= y < |n| ==> n'[y].kind == n[y].kind && (y != x ==> n'[y].nlinks == n[y].nlinks)
    ensures n'[x].nlinks > 0 && !Shape(n', r)
  {
    hide Debt, Lookup;
    assert Says(n, d, name) && Rooted(n, rank, d);
    NamedLives(n, d, name);
    assert Rooted(n, rank, x);
    var p := Look(n, x, "..");
    var k :| Ordinary(k) && Look(n, p, k) == x;
    if name == "." {
      assert Look(n', p, k) == x;
      NamedLives(n', p, k);
      assert Live(n', d) && Look(n', d, ".") == 0;
      assert !Rooted(n', r, d) || |r| != |n|;
    } else {
      assert Look(n', x, ".") == x;
      NamedLives(n', x, ".");
      if name == ".." {
        assert Live(n', d) && Look(n', d, "..") == 0;
        assert !Rooted(n', r, d) || |r| != |n|;
      } else {
        assert Look(n', x, "..") == p && Live(n', x);
        forall m ensures !(Ordinary(m) && Look(n', p, m) == x) { assert OneParent(n, p, m, d, name); }
        assert !Rooted(n', r, x) || |r| != |n|;
      }
    }
  }

  /** Directory x, the root directory of a process, has no name there that could be taken away. When it has been given one in
      another directory and dot-dot has been replaced, the entries outnumber its links, whatever dot-dot stood for. */
  lemma RootRenamed(n: seq<Node>, rank: seq<nat>, nd: nat, j: nat, nn: string, x: nat, k: nat, l: nat)
    requires Sound(n, rank) && 0 < x < |n| && x != ROOT_INODE && Live(n, x) && Live(n, nd) && x != nd && Room(n, nd, j, nn)
    requires Used(n, x, k) && n[x].slots[k].name == ".." && l < |n[x].slots| && (n[x].slots[l].ino == 0 || l == k)
    ensures var p := n[x].slots[k].ino;
      && 0 < p < |n| && p != x
      && var w := Redirected(Enter(n, nd, j, nn, x), x, k, l, p, nd); Named(w, x) == w[x].nlinks + 1 && !Law(w) && Owes(n, w, x, 1)
  {
    hide Lookup, Distinct;
    var p, m := n[x].slots[k].ino, Enter(n, nd, j, nn, x);
    Found(n[x].slots, k);
    DotDot(n, rank, x);
    assert Rooted(n, rank, x);
    DotDot(n, rank, nd);
    EntersOne(n, nd, j, nn, x);
    RedirectedOne(m, x, k, l, p, nd);
    var w := Redirected(m, x, k, l, p, nd);
    assert Debt(n, x) == 0 && Debt(m, x) == 1 && Debt(w, x) == 1;
  }
}
