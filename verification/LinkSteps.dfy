/** What creating, linking, unlinking and renaming do to the tree (src/fs/link.c, src/fs/open.c): it stays a tree. */
module LinkSteps {
  import opened Directories
  import opened Links

  /** The directories are the same, and so is what they say about each other. */
  ghost predicate SameDirs(n: seq<Node>, n': seq<Node>) {
    && |n'| == |n| > 0 && n'[0].kind == FREE
    && (forall x :: 0 <= x < |n| ==> Distinct(n'[x].slots) && (n'[x].kind == FREE ==> n'[x].nlinks == 0))
    && (forall x :: 0 <= x < |n| && (n[x].kind == DIRECTORY || n'[x].kind == DIRECTORY) ==>
         n'[x].kind == n[x].kind && n'[x].nlinks == n[x].nlinks)
    && forall d, m {:trigger Look(n', d, m)} :: FileName(n, n', d, m)
  }

  /** A name stays the same, unless it is that of a file before and after. */
  predicate FileName(n: seq<Node>, n': seq<Node>, d: nat, m: string) {
    Look(n', d, m) == Look(n, d, m) ||
    (Ordinary(m) && Live(n, d) && !IsDir(n, Look(n, d, m)) && !IsDir(n', Look(n', d, m)) && Look(n', d, m) < |n|)
  }

  /** Whatever happens to the names of files, the tree is the same. */
  lemma FileNames(n: seq<Node>, n': seq<Node>, rank: seq<nat>)
    requires Shape(n, rank) && SameDirs(n, n')
    ensures Shape(n', rank)
  {
    hide Lookup, Distinct;
    assert Live(n', ROOT_INODE) by { assert Live(n, ROOT_INODE); }
    forall d, m ensures Says(n', d, m) { assert FileName(n, n', d, m) && Says(n, d, m); }
    forall p, m, q, k ensures OneParent(n', p, m, q, k) {
      assert FileName(n, n', p, m) && FileName(n, n', q, k) && OneParent(n, p, m, q, k);
    }
    forall d ensures Rooted(n', rank, d) {
      assert Rooted(n, rank, d);
      assert Live(n', d) == Live(n, d);
      if Live(n', d) {
        assert FileName(n, n', d, ".") && FileName(n, n', d, "..");
        if d != ROOT_INODE {
          var p := Look(n, d, "..");
          var m :| Ordinary(m) && Look(n, p, m) == d;
          assert FileName(n, n', p, m);
        }
      }
    }
  }

  // ----- directories that come and go

  /** A new directory x in directory d. */
  ghost predicate Made(n: seq<Node>, n': seq<Node>, d: nat, name: string, x: nat) {
    && |n'| == |n| && 0 < x < |n| && n[x].kind == FREE && n'[x].kind == DIRECTORY && n'[x].nlinks > 0
    && (forall y :: 0 <= y < |n| && y != x ==> n'[y].kind == n[y].kind && (y != d ==> n'[y].nlinks == n[y].nlinks))
    && (forall y :: 0 <= y < |n| ==> Distinct(n'[y].slots))
    && forall e, m {:trigger Look(n', e, m)} :: Look(n', e, m) ==
         if e == x then (if m == "." then x else if m == ".." then d else 0) else if e == d && m == name then x else Look(n, e, m)
  }

  lemma NewDirectory(n: seq<Node>, n': seq<Node>, rank: seq<nat>, d: nat, name: string, x: nat)
    requires Sound(n, rank) && Law(n') && Live(n, d) && Ordinary(name) && Look(n, d, name) == 0 && Made(n, n', d, name, x)
    ensures Shape(n', rank[x := rank[d] + 1])
  {
    hide Lookup, Distinct, Debt, Look, Law;
    var rank' := rank[x := rank[d] + 1];
    forall q, k ensures Look(n, q, k) != x { if Look(n, q, k) == x { NamedLives(n, q, k); } }
    assert Look(n', d, ".") == d by { assert Rooted(n, rank, d); }
    NamedLives(n', d, ".");
    assert forall y :: 0 <= y < |n| && y != x ==> Live(n', y) == Live(n, y);
    forall e, m ensures Says(n', e, m) { assert Says(n, e, m); assert Look(n', e, m) == x || Look(n', e, m) == Look(n, e, m) || e == x; }
    forall p, m, q, k ensures OneParent(n', p, m, q, k) { assert OneParent(n, p, m, q, k); }
    assert Live(n', ROOT_INODE);
    forall c ensures Rooted(n', rank', c) {
      assert Rooted(n, rank, c);
      if c == x {
        assert Look(n', d, name) == x;
      } else if Live(n, c) && c != ROOT_INODE {
        var p := Look(n, c, "..");
        var m :| Ordinary(m) && Look(n, p, m) == c;
        assert Says(n, p, m);
        assert Look(n', p, m) == c;
      }
    }
  }

  /** Directory x, in which there were only dots, is not in directory d any more. */
  ghost predicate Removed(n: seq<Node>, n': seq<Node>, d: nat, name: string, x: nat) {
    && |n'| == |n| && x < |n| && (forall m :: Ordinary(m) ==> Look(n, x, m) == 0)
    && (forall y :: 0 <= y < |n| ==> n'[y].kind == n[y].kind && (y != x && y != d ==> n'[y].nlinks == n[y].nlinks))
    && (forall y :: 0 <= y < |n| ==> Distinct(n'[y].slots) && (n'[y].kind == FREE ==> n'[y].nlinks == 0))
    && forall e, m {:trigger Look(n', e, m)} :: Look(n', e, m) == if e == x || (e == d && m == name) then 0 else Look(n, e, m)
  }

  lemma OldDirectory(n: seq<Node>, n': seq<Node>, rank: seq<nat>, d: nat, name: string, x: nat)
    requires Sound(n, rank) && Law(n') && Ordinary(name) && Look(n, d, name) == x && IsDir(n, x) && x != 0
    requires Removed(n, n', d, name, x)
    ensures Shape(n', rank) && n'[x].nlinks == 0 && d != x
  {
    hide Lookup, Distinct, Debt;
    assert Says(n, d, name);
    forall e, m ensures Look(n', e, m) != x {
      assert Says(n, e, m) && OneParent(n, d, name, e, m);
      if Look(n, e, m) == x && m == ".." {
        NamedLives(n, d, name);
        assert Rooted(n, rank, e);
      }
    }
    UnnamedDies(n', x);
    assert Look(n', d, ".") == d by { assert Rooted(n, rank, d); }
    NamedLives(n', d, ".");
    assert forall y :: 0 <= y < |n| && y != x ==> Live(n', y) == Live(n, y);
    forall e, m ensures Says(n', e, m) { assert Says(n, e, m); }
    forall p, m, q, k ensures OneParent(n', p, m, q, k) { assert OneParent(n, p, m, q, k); }
    assert Live(n', ROOT_INODE);
    forall c ensures Rooted(n', rank, c) {
      assert Rooted(n, rank, c);
      if c != x && Live(n, c) && c != ROOT_INODE {
        var p := Look(n, c, "..");
        var m :| Ordinary(m) && Look(n, p, m) == c;
        assert Look(n', p, m) == c;
      }
    }
  }

  // ----- directories that move

  /** Directory x, which was called on in directory od, is now called nn in directory nd. */
  ghost predicate Moved(n: seq<Node>, n': seq<Node>, x: nat, od: nat, on: string, nd: nat, nn: string) {
    && |n'| == |n|
    && (forall y :: 0 <= y < |n| ==> n'[y].kind == n[y].kind && (y != od && y != nd ==> n'[y].nlinks == n[y].nlinks))
    && (forall y :: 0 <= y < |n| ==> Distinct(n'[y].slots))
    && forall e, m {:trigger Look(n', e, m)} :: Look(n', e, m) ==
         if e == nd && m == nn then x else if e == od && m == on then 0 else if e == x && m == ".." then nd else Look(n, e, m)
  }

  /** These ranks will do once x is in directory nd. */
  ghost predicate Ranks(n: seq<Node>, rank: seq<nat>, x: nat, nd: nat) {
    && |rank| == |n| && x < |n| && nd < |n| && rank[nd] < rank[x]
    && forall c: nat {:trigger Live(n, c)} :: Live(n, c) && c != x && c != ROOT_INODE && Look(n, c, "..") < |n| ==> rank[Look(n, c, "..")] < rank[c]
  }

  lemma MovedDirectory(n: seq<Node>, n': seq<Node>, rank: seq<nat>, rank': seq<nat>, x: nat, od: nat, on: string, nd: nat, nn: string)
    requires Sound(n, rank) && Law(n') && Ordinary(on) && Ordinary(nn) && Look(n, od, on) == x && IsDir(n, x) && x != 0
    requires Live(n, nd) && Look(n, nd, nn) == 0 && Moved(n, n', x, od, on, nd, nn) && Ranks(n, rank', x, nd)
    ensures Shape(n', rank')
  {
    hide Lookup, Distinct, Debt, OneParent, Rooted, HasChild;
    MovedLive(n, n', rank, x, od, on, nd, nn);
    assert Says(n, od, on);
    forall e, m ensures Says(n', e, m) { assert Says(n, e, m); assert Look(n', e, m) == Look(n, e, m) || e == nd || e == od || e == x; }
    assert Live(n', ROOT_INODE);
    forall p, m, q, k ensures OneParent(n', p, m, q, k) { MovedParent(n, n', rank, x, od, on, nd, nn, p, m, q, k); }
    forall c ensures Rooted(n', rank', c) { MovedRooted(n, n', rank, rank', x, od, on, nd, nn, c); }
  }

  lemma MovedLive(n: seq<Node>, n': seq<Node>, rank: seq<nat>, x: nat, od: nat, on: string, nd: nat, nn: string)
    requires Sound(n, rank) && Law(n') && Ordinary(on) && Ordinary(nn) && Look(n, od, on) == x && IsDir(n, x) && x != 0
    requires Live(n, nd) && Moved(n, n', x, od, on, nd, nn)
    ensures forall y: nat {:trigger Live(n', y)} :: Live(n', y) == Live(n, y)
    ensures Live(n, x) && Live(n, od)
  {
    hide Lookup, Distinct, Debt, OneParent;
    assert Says(n, od, on);
    NamedLives(n, od, on);
    forall d: nat | d == od || d == nd ensures n'[d].nlinks > 0 {
      assert Rooted(n, rank, d);
      assert Look(n', d, ".") == d;
      NamedLives(n', d, ".");
    }
  }

  lemma MovedParent(n: seq<Node>, n': seq<Node>, rank: seq<nat>, x: nat, od: nat, on: string, nd: nat, nn: string,
                    p: nat, m: string, q: nat, k: string)
    requires Shape(n, rank) && Ordinary(on) && Ordinary(nn) && Look(n, od, on) == x && IsDir(n, x) && x != 0
    requires Moved(n, n', x, od, on, nd, nn) && Look(n, nd, nn) == 0
    ensures OneParent(n', p, m, q, k)
  {
    hide Lookup, Distinct, Rooted, Says;
    assert OneParent(n, p, m, q, k) && OneParent(n, od, on, q, k) && OneParent(n, p, m, od, on);
    assert Look(n', p, m) == Look(n, p, m) || (p == nd && m == nn) || (p == od && m == on) || (p == x && m == "..");
    assert Look(n', q, k) == Look(n, q, k) || (q == nd && k == nn) || (q == od && k == on) || (q == x && k == "..");
  }

  lemma MovedRooted(n: seq<Node>, n': seq<Node>, rank: seq<nat>, rank': seq<nat>, x: nat, od: nat, on: string, nd: nat, nn: string, c: nat)
    requires Shape(n, rank) && Ordinary(on) && Ordinary(nn) && Look(n, od, on) == x && Live(n, x) && x != 0
    requires Live(n, nd) && Look(n, nd, nn) == 0 && Moved(n, n', x, od, on, nd, nn) && Ranks(n, rank', x, nd)
    requires forall y: nat {:trigger Live(n', y)} :: Live(n', y) == Live(n, y)
    ensures Rooted(n', rank', c)
  {
    hide Lookup, Distinct, OneParent;
    assert Rooted(n, rank, c) && Says(n, od, on) && Live(n, c) == Live(n', c);
    assert nd != 0 by { assert n[0].kind == FREE; }
    if c == x {
      assert Look(n', nd, nn) == x;
    } else if Live(n, c) && c != ROOT_INODE {
      var p := Look(n, c, "..");
      var m :| Ordinary(m) && Look(n, p, m) == c;
      assert Look(n', p, m) == c;
    }
  }

  /** Directory c is y, or above it. */
  ghost predicate Above(n: seq<Node>, rank: seq<nat>, c: nat, y: nat)
    decreases if y < |rank| then rank[y] else 0
  {
    c == y ||
    (var p := Look(n, y, "..");
     Live(n, y) && y != ROOT_INODE && y < |rank| && p < |rank| && rank[p] < rank[y] && Above(n, rank, c, p))
  }

  /** If x is not above nd it can be moved there: all that is below x goes with it. */
  lemma NewRanks(n: seq<Node>, rank: seq<nat>, x: nat, nd: nat) returns (rank': seq<nat>)
    requires Shape(n, rank) && x < |n| && Live(n, nd) && !Above(n, rank, x, nd)
    ensures Ranks(n, rank', x, nd)
  {
    rank' := Lifted(n, rank, x, rank[nd] + 1, |n|);
    forall c: nat | Live(n, c) && c != x && c != ROOT_INODE && Look(n, c, "..") < |n| ensures rank'[Look(n, c, "..")] < rank'[c] {
      assert Rooted(n, rank, c);
    }
  }

  lemma {:induction false} Lifted(n: seq<Node>, rank: seq<nat>, x: nat, k: nat, m: nat) returns (r: seq<nat>)
    requires m <= |rank|
    ensures |r| == m && forall y :: 0 <= y < m ==> r[y] == rank[y] + if Above(n, rank, x, y) then k else 0
  {
    if m == 0 { r := []; } else {
      r := Lifted(n, rank, x, k, m - 1);
      r := r + [rank[m - 1] + if Above(n, rank, x, m - 1) then k else 0];
    }
  }

  // ----- inodes that are freed

  lemma Freed(n: seq<Node>, rank: seq<nat>, x: nat)
    requires Sound(n, rank) && 0 < x < |n| && n[x].nlinks == 0
    ensures Sound(n[x := Node(FREE, 0, [])], rank)
  {
    var n' := n[x := Node(FREE, 0, [])];
    forall e, m ensures Look(n', e, m) == Look(n, e, m) && Look(n, e, m) != x {
      assert Says(n, e, m);
      if Look(n, e, m) == x { NamedLives(n, e, m); }
    }
    forall y | 0 < y < |n| ensures Debt(n', y) == 0 {
      assert Debt(n, y) == 0;
      EmptyHits(n, x, y);
      DebtUpdate(n, x, Node(FREE, 0, []), y);
    }
    FreedShape(n, rank, x);
  }

  lemma EmptyHits(n: seq<Node>, x: nat, y: nat)
    requires x < |n| && Distinct(n[x].slots) && y != 0 && forall m :: Look(n, x, m) == 0
    ensures Hits(n[x].slots, y) == 0
  {
    NoHits(n[x].slots, y);
    forall i | 0 <= i < |n[x].slots| ensures n[x].slots[i].ino != y {
      assert Look(n, x, n[x].slots[i].name) == 0;
      if n[x].slots[i].ino != 0 { Found(n[x].slots, i); }
    }
  }

  lemma FreedShape(n: seq<Node>, rank: seq<nat>, x: nat)
    requires Shape(n, rank) && 0 < x < |n| && n[x].nlinks == 0
    requires forall e, m :: Look(n[x := Node(FREE, 0, [])], e, m) == Look(n, e, m) && Look(n, e, m) != x
    ensures Shape(n[x := Node(FREE, 0, [])], rank)
  {
    hide Lookup, Debt;
    var n' := n[x := Node(FREE, 0, [])];
    forall y ensures Live(n', y) == Live(n, y) {}
    forall e, m ensures Says(n', e, m) { assert Says(n, e, m); }
    forall p, m, q, k ensures OneParent(n', p, m, q, k) { assert OneParent(n, p, m, q, k); }
    assert Live(n', ROOT_INODE);
    forall c ensures Rooted(n', rank, c) {
      assert Rooted(n, rank, c);
      if Live(n, c) && c != ROOT_INODE {
        var p := Look(n, c, "..");
        var m :| Ordinary(m) && Look(n, p, m) == c;
        assert Look(n', p, m) == c;
      }
    }
  }
}
