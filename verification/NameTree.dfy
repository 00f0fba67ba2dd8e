/** What a user knows of the directories of a device: which inodes there are, what names stand for, and how many use an inode.
    There are no link counts, slots or ranks: an inode has as many links as it has names. */
module NameTree {
  import opened Directories
  import opened Links
  import opened LinkSteps
  import F = FileTree

  datatype Tree = Tree(kind: seq<Kind>, names: seq<map<string, nat>>, uses: seq<nat>)

  /** What a name in directory d stands for. */
  function NameAt(t: Tree, d: nat, m: string): nat {
    if d < |t.names| && m in t.names[d] then t.names[d][m] else 0
  }

  predicate DirAt(t: Tree, d: nat) {
    d < |t.kind| && t.kind[d] == DIRECTORY
  }

  /** A directory that has not been removed. */
  predicate Open(t: Tree, d: nat) {
    DirAt(t, d) && NameAt(t, d, ".") != 0
  }

  /** A step along a path; nobody gets above his root directory. */
  function Go(t: Tree, d: nat, name: string, root: nat): nat {
    if name == "" || (d == root && name == ".." && NameAt(t, d, name) != 0) then d else NameAt(t, d, name)
  }

  function Way(t: Tree, d: nat, path: seq<string>, root: nat): nat
    decreases |path|
  {
    if !DirAt(t, d) then 0
    else if path == [] then d
    else
      var x := Go(t, d, path[0], root); if x == 0 then 0 else Way(t, x, path[1..], root)
  }

  /** The directory that a path leads to. */
  function DirOf(t: Tree, start: nat, path: seq<string>, root: nat): nat {
    if Open(t, start) then Way(t, start, path, root) else 0
  }

  /** What a path and a last name lead to. */
  function Find(t: Tree, start: nat, path: seq<string>, name: string, root: nat): nat {
    var d := DirOf(t, start, path, root); if d == 0 then 0 else Go(t, d, name, root)
  }

  // ----- links are names

  function NamesIn(t: Tree, d: nat, x: nat): set<string>
    requires d < |t.names|
  {
    set m | m in t.names[d] && t.names[d][m] == x
  }

  function LinksIn(t: Tree, x: nat, k: nat): nat
    requires k <= |t.names|
  {
    if k == 0 then 0 else LinksIn(t, x, k - 1) + |NamesIn(t, k - 1, x)|
  }

  /** The number of names that an inode has, dots included. */
  function LinkCount(t: Tree, x: nat): nat {
    LinksIn(t, x, |t.names|)
  }

  ghost predicate Unnamed(t: Tree, x: nat) {
    forall d: nat, m :: NameAt(t, d, m) != x
  }

  /** What has no name and no user is not there any more. */
  ghost function Swept(t: Tree): Tree
    requires |t.uses| == |t.kind|
  {
    t.(kind := seq(|t.kind|, x requires 0 <= x < |t.kind| => if t.uses[x] == 0 && Unnamed(t, x) then FREE else t.kind[x]))
  }

  // ----- changes of names

  function SetName(t: Tree, d: nat, m: string, x: nat): Tree {
    if d < |t.names| then
      var names: map<string, nat> := t.names[d]; t.(names := t.names[d := names[m := x]])
    else t
  }

  function CutName(t: Tree, d: nat, m: string): Tree {
    if d < |t.names| then t.(names := t.names[d := t.names[d] - {m}]) else t
  }

  function CutAll(t: Tree, d: nat): Tree {
    if d < |t.names| then t.(names := t.names[d := map[]]) else t
  }

  lemma SetAt(t: Tree, d: nat, name: string, x: nat, e: nat, m: string)
    ensures NameAt(SetName(t, d, name, x), e, m) == if e == d < |t.names| && m == name then x else NameAt(t, e, m)
    ensures NameAt(CutName(t, d, name), e, m) == if e == d && m == name then 0 else NameAt(t, e, m)
    ensures NameAt(CutAll(t, d), e, m) == if e == d then 0 else NameAt(t, e, m)
  {
  }

  // ----- the order of directories

  /** k steps up from directory d. */
  function Up(t: Tree, d: nat, k: nat): nat {
    if k == 0 then d else NameAt(t, Up(t, d, k - 1), "..")
  }

  /** Directory c is d, or above it. */
  ghost predicate Over(t: Tree, c: nat, d: nat) {
    exists k: nat :: Up(t, d, k) == c
  }

  // ----- what the inodes show

  ghost predicate Shows(t: Tree, n: seq<Node>, c: seq<nat>) {
    ShowsNames(t, n, c) && forall x :: 0 <= x < |n| ==> t.kind[x] == n[x].kind
  }

  ghost predicate ShowsNames(t: Tree, n: seq<Node>, c: seq<nat>) {
    && |t.kind| == |t.names| == |n| && t.uses == c && |c| == |n|
    && (forall d: nat, m {:trigger NameAt(t, d, m)} :: NameAt(t, d, m) == Look(n, d, m))
    && forall d, m :: 0 <= d < |n| && m in t.names[d] ==> t.names[d][m] != 0
  }

  lemma ShowsName(t: Tree, n: seq<Node>, c: seq<nat>, d: nat, m: string)
    requires Shows(t, n, c)
    ensures NameAt(t, d, m) == Look(n, d, m)
  {
  }

  lemma ShowsGo(t: Tree, n: seq<Node>, c: seq<nat>, d: nat, m: string, root: nat)
    requires Shows(t, n, c)
    ensures Go(t, d, m, root) == F.Step(n, d, m, root) && DirAt(t, d) == IsDir(n, d)
  {
    ShowsName(t, n, c, d, m);
  }

  lemma ShowsOpen(t: Tree, n: seq<Node>, c: seq<nat>, rank: seq<nat>, d: nat)
    requires Shows(t, n, c) && Sound(n, rank)
    ensures Open(t, d) == Live(n, d)
  {
    ShowsName(t, n, c, d, ".");
    assert Says(n, d, ".") && Rooted(n, rank, d) && n[0].kind == FREE;
  }

  lemma {:induction false} ShowsWay(t: Tree, n: seq<Node>, c: seq<nat>, d: nat, path: seq<string>, root: nat)
    requires Shows(t, n, c)
    ensures Way(t, d, path, root) == F.Walk(n, d, path, root).1
    decreases |path|
  {
    hide Shows;
    ShowsGo(t, n, c, d, if path == [] then "" else path[0], root);
    if DirAt(t, d) && path != [] && Go(t, d, path[0], root) != 0 { ShowsWay(t, n, c, Go(t, d, path[0], root), path[1..], root); }
  }

  /** Paths lead to the same places. */
  lemma ShowsDir(t: Tree, n: seq<Node>, c: seq<nat>, rank: seq<nat>, start: nat, path: seq<string>, root: nat)
    requires Shows(t, n, c) && Sound(n, rank)
    ensures DirOf(t, start, path, root) == F.Last(n, start, path, root)
  {
    hide Shows, Sound;
    ShowsOpen(t, n, c, rank, start);
    ShowsWay(t, n, c, start, path, root);
    if IsDir(n, start) && start != 0 { F.NotNegative(n, start) by { SoundLaw(n, rank); } }
    ZeroIsFree(n, rank);
  }

  lemma SoundLaw(n: seq<Node>, rank: seq<nat>)
    requires Sound(n, rank)
    ensures Law(n) && Shape(n, rank)
  {
  }

  lemma ZeroIsFree(n: seq<Node>, rank: seq<nat>)
    requires Sound(n, rank)
    ensures !IsDir(n, 0) && |rank| == |n| > 0
  {
  }

  // ----- links

  lemma {:induction false} HitsAreNames(s: seq<Entry>, x: nat, names: set<string>)
    requires Distinct(s) && x != 0 && forall m :: m in names <==> Lookup(s, m) == x
    ensures Hits(s, x) == |names|
  {
    if s == [] {
      assert names == {} by { forall m ensures m !in names { assert Lookup(s, m) == 0; } }
    } else {
      var k := |s| - 1;
      var p, e := s[..k], s[k];
      LookupPrefix(s, k);
      if e.ino == x {
        Found(s, k);
        assert e.name in names;
        var rest := names - {e.name};
        HitsAreNames(p, x, rest);
      } else {
        HitsAreNames(p, x, names);
      }
    }
  }

  lemma LookupPrefix(s: seq<Entry>, k: nat)
    requires Distinct(s) && |s| == k + 1
    ensures Distinct(s[..k])
    ensures forall m :: Lookup(s[..k], m) == if s[k].ino != 0 && s[k].name == m then 0 else Lookup(s, m)
  {
    var p := s[..k];
    forall m ensures Lookup(p, m) == if s[k].ino != 0 && s[k].name == m then 0 else Lookup(s, m) {
      if s[k].ino != 0 && s[k].name == m {
        NotFound(p, m);
      } else if Lookup(p, m) != 0 {
        var i := Directories.Find(p, m);
        assert s[i] == p[i];
        Found(s, i);
      } else {
        NotFound(p, m);
        NotFound(s, m);
        assert forall i :: 0 <= i < k ==> s[i] == p[i];
      }
    }
  }

  lemma {:induction false} LinksAreHits(t: Tree, n: seq<Node>, c: seq<nat>, x: nat, k: nat)
    requires Shows(t, n, c) && x != 0 && k <= |n| && forall d :: 0 <= d < |n| ==> Distinct(n[d].slots)
    ensures LinksIn(t, x, k) == Named(n[..k], x)
  {
    if k > 0 {
      LinksAreHits(t, n, c, x, k - 1);
      assert n[..k][..k - 1] == n[..k - 1];
      var names, s := NamesIn(t, k - 1, x), n[k - 1].slots;
      forall m ensures m in names <==> Lookup(s, m) == x { ShowsName(t, n, c, k - 1, m); }
      HitsAreNames(s, x, names);
    }
  }

  /** An inode has as many links as names. */
  lemma ShowsLinks(t: Tree, n: seq<Node>, c: seq<nat>, rank: seq<nat>, x: nat)
    requires Shows(t, n, c) && Sound(n, rank) && 0 < x < |n|
    ensures LinkCount(t, x) == n[x].nlinks
  {
    assert n[..|n|] == n;
    LinksAreHits(t, n, c, x, |n|);
    assert Debt(n, x) == 0;
  }

  /** After a call that only frees inodes, those that are still there are the ones that have a name or a user. */
  lemma ShowsSwept(t: Tree, n: seq<Node>, n': seq<Node>, c': seq<nat>, rank': seq<nat>)
    requires ShowsNames(t, n', c') && Sound(n', rank') && F.Kept(n', c') && F.OnlyFrees(n, n')
    requires |n| > 0 && n[0].kind == FREE && forall x :: 0 <= x < |n| == |t.kind| ==> t.kind[x] == n[x].kind
    ensures Shows(Swept(t), n', c')
  {
    hide Debt, Lookup, Look;
    var w := Swept(t);
    forall d: nat, m ensures NameAt(w, d, m) == Look(n', d, m) { assert NameAt(w, d, m) == NameAt(t, d, m); }
    forall x | 0 <= x < |n'| ensures w.kind[x] == n'[x].kind {
      assert F.KeptOne(n'[x], c'[x]);
      if x > 0 { NamesUnnamed(t, n', c', rank', x); }
    }
  }

  lemma NamesUnnamed(t: Tree, n: seq<Node>, c: seq<nat>, rank: seq<nat>, x: nat)
    requires ShowsNames(t, n, c) && Sound(n, rank) && 0 < x < |n|
    ensures Unnamed(t, x) <==> n[x].nlinks == 0
  {
    if Unnamed(t, x) {
      forall d: nat, m ensures Look(n, d, m) != x { assert NameAt(t, d, m) != x; }
      UnnamedDies(n, x);
    } else {
      var d: nat, m :| NameAt(t, d, m) == x;
      NamedLives(n, d, m);
    }
  }

  // ----- above

  lemma {:induction false} ShowsUp(t: Tree, n: seq<Node>, c: seq<nat>, rank: seq<nat>, x: nat, d: nat, k: nat)
    requires Shows(t, n, c) && Shape(n, rank) && Live(n, d) && Up(t, d, k) == x
    ensures Above(n, rank, x, d)
    decreases k
  {
    hide Shows;
    if k > 0 && x != d {
      var p := Look(n, d, "..");
      ShowsName(t, n, c, d, "..");
      UpFirst(t, d, k);
      assert Rooted(n, rank, d) && n[0].kind == FREE;
      LiveParent(n, rank, d);
      ShowsUp(t, n, c, rank, x, p, k - 1);
      if d == ROOT_INODE { RootOnly(n, rank, x); }
    }
  }

  lemma LiveParent(n: seq<Node>, rank: seq<nat>, d: nat)
    requires Shape(n, rank) && Live(n, d)
    ensures Live(n, Look(n, d, ".."))
  {
    assert Rooted(n, rank, d);
    if d != ROOT_INODE {
      var p := Look(n, d, "..");
      var m :| Ordinary(m) && Look(n, p, m) == d;
      assert Says(n, p, m) && n[0].kind == FREE;
    }
  }

  /** Above the root there is nothing else. */
  lemma RootOnly(n: seq<Node>, rank: seq<nat>, x: nat)
    requires Above(n, rank, x, ROOT_INODE)
    ensures x == ROOT_INODE
  {
  }

  lemma {:induction false} UpFirst(t: Tree, d: nat, k: nat)
    requires k > 0
    ensures Up(t, d, k) == Up(t, NameAt(t, d, ".."), k - 1)
  {
    if k > 1 { UpFirst(t, d, k - 1); }
  }

  lemma {:induction false} AboveUp(t: Tree, n: seq<Node>, c: seq<nat>, rank: seq<nat>, x: nat, d: nat) returns (k: nat)
    requires Shows(t, n, c) && Above(n, rank, x, d)
    ensures Up(t, d, k) == x
    decreases if d < |rank| then rank[d] else 0
  {
    hide Shows;
    if x == d { k := 0; } else {
      ShowsName(t, n, c, d, "..");
      k := AboveUp(t, n, c, rank, x, Look(n, d, ".."));
      k := k + 1;
      UpFirst(t, d, k);
    }
  }

  lemma ShowsOver(t: Tree, n: seq<Node>, c: seq<nat>, rank: seq<nat>, x: nat, d: nat)
    requires Shows(t, n, c) && Shape(n, rank) && Live(n, d)
    ensures Over(t, x, d) <==> Above(n, rank, x, d)
  {
    if Above(n, rank, x, d) {
      var k := AboveUp(t, n, c, rank, x, d);
    }
    if Over(t, x, d) {
      var k: nat :| Up(t, d, k) == x;
      ShowsUp(t, n, c, rank, x, d, k);
    }
  }
}
