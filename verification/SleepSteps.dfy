/** What reading, writing, opening, sharing and closing pipes do to the tables (src/fs/read.c, src/fs/open.c,
    src/fs/pipe.c, src/fs/misc.c): each keeps them in order. */
module SleepSteps {
  import opened Basics
  import opened Sleepers

  // ----- moving data

  /** Only positions differ. */
  predicate Moved(t: seq<Filp>, u: seq<Filp>) {
    |t| == |u| && forall f :: 0 <= f < |t| ==> u[f] == t[f].(pos := u[f].pos)
  }

  /** What is in a pipe, and where its ends are, changes while nobody sleeps reading from it. */
  lemma DataMoves(s: seq<Proc>, t: seq<Filp>, n: seq<Inode>, u: seq<Filp>, ino: nat, d: seq<int>)
    requires Tables(s, t, n) && Moved(t, u) && ino < |n| && n[ino].pipe && Ends(u, n[ino := n[ino].(data := d)])
    requires forall j :: !Waits(s, t, j, READ, ino)
    ensures Tables(s, u, n[ino := n[ino].(data := d)])
  {
    var m := n[ino := n[ino].(data := d)];
    forall i, call, k ensures Waits(s, u, i, call, k) <==> Waits(s, t, i, call, k) {}
    forall k, mode | Open(t, k, mode) ensures Open(u, k, mode) {
      var f :| 0 <= f < |t| && t[f].count > 0 && t[f].ino == k && t[f].mode == mode;
      assert u[f].count > 0 && u[f].ino == k && u[f].mode == mode;
    }
    forall i | 0 <= i < |s| ensures Sound(s[i], s, u, m, i) { assert Sound(s[i], s, t, n, i); }
    forall f ensures Counted(s, u, f) { assert Counted(s, t, f); }
    forall k ensures Held(u, m, k) { assert Held(t, n, k); SameHolders(t, u, k); }
    forall i, k ensures ReaderOk(s, u, m, i, k) {
      assert ReaderOk(s, t, n, i, k);
      forall j ensures Waits(s, u, j, WRITE, k) <==> Waits(s, t, j, WRITE, k) {}
    }
    forall j, k ensures WriterOk(s, u, m, j, k) { assert WriterOk(s, t, n, j, k); }
  }

  /** A writer appends b. */
  lemma Appended(s: seq<Proc>, t: seq<Filp>, n: seq<Inode>, f: nat, b: seq<int>)
    requires Tables(s, t, n) && f < |t| && t[f].count > 0 && IsPipe(n, t[f].ino) && t[f].mode == W
    requires |n[t[f].ino].data| + |b| <= PIPE_SIZE && forall j :: !Waits(s, t, j, READ, t[f].ino)
    ensures t[f].pos == |n[t[f].ino].data|
    ensures Tables(s, t[f := t[f].(pos := t[f].pos + |b|)], n[t[f].ino := n[t[f].ino].(data := n[t[f].ino].data + b)])
  {
    assert InPlace(t[f], n);
    var u, ino, d := t[f := t[f].(pos := t[f].pos + |b|)], t[f].ino, n[t[f].ino].data + b;
    var m := n[ino := n[ino].(data := d)];
    forall g | 0 <= g < |u| ensures InPlace(u[g], m) {
      assert InPlace(t[g], n);
      if t[g].ino == ino && t[g].count > 0 && t[g].mode == W { assert SameEnd(t[g], t[f], n); }
    }
    forall g, h | 0 <= g < |u| && 0 <= h < |u| && SameEnd(u[g], u[h], m) ensures g == h { assert SameEnd(t[g], t[h], n); }
    DataMoves(s, t, n, u, ino, d);
  }

  /** A reader moves on, but not to the end. */
  lemma Advanced(s: seq<Proc>, t: seq<Filp>, n: seq<Inode>, f: nat, k: nat)
    requires Tables(s, t, n) && f < |t| && t[f].count > 0 && IsPipe(n, t[f].ino) && t[f].mode == R
    requires t[f].pos + k < |n[t[f].ino].data|
    ensures Tables(s, t[f := t[f].(pos := t[f].pos + k)], n)
  {
    var u, ino := t[f := t[f].(pos := t[f].pos + k)], t[f].ino;
    assert n[ino := n[ino].(data := n[ino].data)] == n;
    forall g | 0 <= g < |u| ensures InPlace(u[g], n) { assert InPlace(t[g], n); }
    forall g, h | 0 <= g < |u| && 0 <= h < |u| && SameEnd(u[g], u[h], n) ensures g == h { assert SameEnd(t[g], t[h], n); }
    forall j ensures !Waits(s, t, j, READ, ino) { assert ReaderOk(s, t, n, j, ino); }
    DataMoves(s, t, n, u, ino, n[ino].data);
  }

  /** Both ends are put back to the beginning of a pipe that has been read to the end. */
  predicate Rewound(t: seq<Filp>, u: seq<Filp>, ino: int) {
    Moved(t, u) && forall f :: 0 <= f < |t| ==> u[f].pos == if t[f].count > 0 && t[f].ino == ino then 0 else t[f].pos
  }

  lemma Emptied(s: seq<Proc>, t: seq<Filp>, n: seq<Inode>, u: seq<Filp>, ino: nat)
    requires Tables(s, t, n) && IsPipe(n, ino) && n[ino].data != [] && Rewound(t, u, ino)
    ensures Tables(s, u, n[ino := n[ino].(data := [])])
  {
    var m := n[ino := n[ino].(data := [])];
    forall g | 0 <= g < |u| ensures InPlace(u[g], m) { assert InPlace(t[g], n); }
    forall g, h | 0 <= g < |u| && 0 <= h < |u| && SameEnd(u[g], u[h], m) ensures g == h { assert SameEnd(t[g], t[h], n); }
    forall j ensures !Waits(s, t, j, READ, ino) { assert ReaderOk(s, t, n, j, ino); }
    DataMoves(s, t, n, u, ino, []);
  }

  // ----- descriptors

  /** Descriptor k of process i now refers to f. */
  function Point(s: seq<Proc>, i: nat, k: nat, f: int): seq<Proc>
    requires i < |s| && k < |s[i].filp|
  {
    s[i := s[i].(filp := s[i].filp[k := f])]
  }

  lemma PointUses(s: seq<Proc>, i: nat, k: nat, f: int, g: int)
    requires i < |s| && k < |s[i].filp|
    ensures Refs(Point(s, i, k, f), g) == Refs(s, g) - (if s[i].filp[k] == g then 1 else 0) + (if f == g then 1 else 0)
    ensures Reviving(Point(s, i, k, f)) == Reviving(s) && Sleeping(Point(s, i, k, f)) == Sleeping(s)
  {
    CountUpdate(s, i, s[i].(filp := s[i].filp[k := f]), g);
    CountOne(s, i, g);
    var d := s[i].filp;
    assert d == d[..k] + [d[k]] + d[k + 1..];
    assert d[k := f] == d[..k] + [f] + d[k + 1..];
  }

  /** Who sleeps does not depend on the descriptors of who does not. */
  lemma PointWaits(s: seq<Proc>, t: seq<Filp>, i: nat, k: nat, f: int, j: int, call: Call, ino: int)
    requires i < |s| && k < |s[i].filp| && !s[i].suspended
    ensures Waits(Point(s, i, k, f), t, j, call, ino) <==> Waits(s, t, j, call, ino)
  {
  }

  // ----- more open files

  /** What is open stays open. */
  ghost predicate Keeps(t: seq<Filp>, n: seq<Inode>, w: seq<Filp>, m: seq<Inode>) {
    && |t| == |w| && |n| == |m|
    && (forall f :: 0 <= f < |t| && t[f].count > 0 ==> w[f].count > 0 && w[f].(count := t[f].count) == t[f])
    && forall k :: IsPipe(n, k) ==> m[k].pipe && m[k].data == n[k].data
  }

  /** Those who sleep stay as they are. */
  predicate Undisturbed(s: seq<Proc>, u: seq<Proc>) {
    |s| == |u| && forall j :: 0 <= j < |s| ==> if s[j].suspended then u[j] == s[j] else !u[j].suspended && !u[j].reviving
  }

  lemma Grown(s: seq<Proc>, t: seq<Filp>, n: seq<Inode>, u: seq<Proc>, w: seq<Filp>, m: seq<Inode>)
    requires Tables(s, t, n) && Keeps(t, n, w, m) && Undisturbed(s, u)
    requires Slots(u, w) && Nodes(w, m) && Ends(w, m)
    ensures Tables(u, w, m)
  {
    forall j | 0 <= j < |u| && u[j].suspended && u[j].task == XPIPE
      ensures InoOf(u, w, j, u[j].fd) == InoOf(s, t, j, s[j].fd) && Sound(u[j], u, w, m, j)
    {
      assert Sound(s[j], s, t, n, j);
      InUse(s, t, j, s[j].fd);
    }
    forall j | 0 <= j < |u| && u[j].suspended && u[j].task == XLOCK ensures Sound(u[j], u, w, m, j) { assert Sound(s[j], s, t, n, j); }
    forall j, call, k | call != FCNTL && Waits(u, w, j, call, k) ensures Waits(s, t, j, call, k) { assert Sound(s[j], s, t, n, j); }
    forall k, mode | Open(t, k, mode) ensures Open(w, k, mode) {
      var f :| 0 <= f < |t| && t[f].count > 0 && t[f].ino == k && t[f].mode == mode;
      assert w[f].count > 0 && w[f].ino == k && w[f].mode == mode;
    }
    forall i, k ensures ReaderOk(u, w, m, i, k) {
      assert ReaderOk(s, t, n, i, k);
      assert Waits(u, w, i, READ, k) ==> Waits(s, t, i, READ, k);
      forall j ensures Waits(u, w, j, WRITE, k) ==> Waits(s, t, j, WRITE, k) {}
    }
    forall j, k ensures WriterOk(u, w, m, j, k) {
      assert WriterOk(s, t, n, j, k);
      assert Waits(u, w, j, WRITE, k) ==> Waits(s, t, j, WRITE, k);
    }
  }

  /** The slot that a descriptor refers to is in use. */
  lemma InUse(s: seq<Proc>, t: seq<Filp>, i: int, k: int)
    requires Slots(s, t) && FilpOf(s, i, k) != NIL
    ensures 0 <= FilpOf(s, i, k) < |t| && t[FilpOf(s, i, k)].count > 0
  {
    var f := FilpOf(s, i, k);
    assert Counted(s, t, f);
    assert s[i].filp[k] == f;
    CountOne(s, i, f);
  }

  /** One more descriptor for an open file. */
  lemma Shared(s: seq<Proc>, t: seq<Filp>, n: seq<Inode>, i: nat, k: nat, f: nat)
    requires Tables(s, t, n) && i < |s| && !s[i].suspended && k < |s[i].filp| && s[i].filp[k] == NIL && f < |t| && t[f].count > 0
    ensures Tables(Point(s, i, k, f), t[f := t[f].(count := t[f].count + 1)], n)
  {
    var u, w := Point(s, i, k, f), t[f := t[f].(count := t[f].count + 1)];
    assert Sound(s[i], s, t, n, i);
    forall g ensures Counted(u, w, g) { assert Counted(s, t, g); PointUses(s, i, k, f, g); }
    SameEnds(t, w, n);
    Grown(s, t, n, u, w, n);
  }

  /** The same files are open, perhaps by more descriptors. */
  lemma SameEnds(t: seq<Filp>, w: seq<Filp>, n: seq<Inode>)
    requires Nodes(t, n) && Ends(t, n) && |t| == |w|
    requires forall f :: 0 <= f < |t| ==> if t[f].count > 0 then w[f].count > 0 && w[f].(count := t[f].count) == t[f] else w[f].count <= 0
    ensures Nodes(w, n) && Ends(w, n)
  {
    forall k ensures Held(w, n, k) { assert Held(t, n, k); SameHolders(t, w, k); }
    forall f | 0 <= f < |w| ensures InPlace(w[f], n) { assert InPlace(t[f], n); }
    forall f, g | 0 <= f < |t| && 0 <= g < |t| && SameEnd(w[f], w[g], n) ensures f == g { assert SameEnd(t[f], t[g], n); }
  }

  /** Slots that are not in use may hold anything. */
  lemma UnusedSlots(s: seq<Proc>, t: seq<Filp>, n: seq<Inode>, w: seq<Filp>)
    requires Tables(s, t, n) && |t| == |w|
    requires forall f :: 0 <= f < |t| ==> w[f] == t[f] || (t[f].count == 0 && w[f].count == 0)
    ensures Tables(s, w, n)
  {
    SameEnds(t, w, n);
    forall j | 0 <= j < |s| ensures Sound(s[j], s, t, n, j) {}
    forall g ensures Counted(s, w, g) { assert Counted(s, t, g); }
    Grown(s, t, n, s, w, n);
  }

  /** One more file x is open, and its inode is now y: it is no pipe, or x is the only open file for this end of an empty one. */
  ghost predicate Opens(t: seq<Filp>, n: seq<Inode>, x: Filp, y: Inode) {
    && x.count == 1 && x.pos == 0 && 0 <= x.ino < |n| && y.count == n[x.ino].count + 1
    && (n[x.ino].pipe ==> y.pipe)
    && (y.pipe ==>
          && (n[x.ino].pipe || n[x.ino].count == 0) && y.data == [] && (n[x.ino].pipe ==> n[x.ino].data == [])
          && (x.mode == R || x.mode == W)
          && forall f :: 0 <= f < |t| && t[f].count > 0 && t[f].ino == x.ino ==> t[f].mode != x.mode)
  }

  lemma Opened(s: seq<Proc>, t: seq<Filp>, n: seq<Inode>, i: nat, k: nat, f: nat, x: Filp, y: Inode)
    requires Tables(s, t, n) && i < |s| && !s[i].suspended && k < |s[i].filp| && s[i].filp[k] == NIL
    requires f < |t| && t[f].count == 0 && Opens(t, n, x, y)
    ensures Tables(Point(s, i, k, f), t[f := x], n[x.ino := y])
  {
    var u, w, m := Point(s, i, k, f), t[f := x], n[x.ino := y];
    assert Sound(s[i], s, t, n, i);
    forall g ensures Counted(u, w, g) { assert Counted(s, t, g); PointUses(s, i, k, f, g); }
    OpenedNodes(t, n, f, x, y);
    Grown(s, t, n, u, w, m);
  }

  lemma OpenedNodes(t: seq<Filp>, n: seq<Inode>, f: nat, x: Filp, y: Inode)
    requires Nodes(t, n) && Ends(t, n) && f < |t| && t[f].count == 0 && Opens(t, n, x, y)
    ensures Nodes(t[f := x], n[x.ino := y]) && Ends(t[f := x], n[x.ino := y])
  {
    var w, m := t[f := x], n[x.ino := y];
    forall j ensures Held(w, m, j) { assert Held(t, n, j); HoldersUpdate(t, f, x, j); HoldersUpdate(t, f, x, x.ino); }
    NotHeld(t, n, x.ino);
    forall g | 0 <= g < |w| ensures InPlace(w[g], m) { assert InPlace(t[g], n); }
    forall g, h | 0 <= g < |t| && 0 <= h < |t| && SameEnd(w[g], w[h], m) ensures g == h {
      if g != f && h != f { assert SameEnd(t[g], t[h], n); }
    }
  }

  lemma NotHeld(t: seq<Filp>, n: seq<Inode>, ino: nat)
    requires Nodes(t, n) && ino < |n|
    ensures n[ino].count == 0 ==> forall f :: 0 <= f < |t| && t[f].count > 0 ==> t[f].ino != ino
  {
    assert Held(t, n, ino);
    forall f | 0 <= f < |t| && t[f].count > 0 && n[ino].count == 0 ensures t[f].ino != ino { HoldersOne(t, f, ino); }
  }

  /** A new pipe: two descriptors, for two ends of an inode that was not in use. */
  lemma Piped(s: seq<Proc>, t: seq<Filp>, n: seq<Inode>, i: nat, k: nat, l: nat, f: nat, g: nat, ino: nat)
    requires Tables(s, t, n) && i < |s| && !s[i].suspended && k < |s[i].filp| && l < |s[i].filp| && k != l
    requires s[i].filp[k] == NIL && s[i].filp[l] == NIL && f < |t| && g < |t| && f != g && t[f].count == 0 && t[g].count == 0
    requires ino < |n| && n[ino].count == 0
    ensures Tables(Point(Point(s, i, k, f), i, l, g), t[f := Filp(1, ino, R, 0, false)][g := Filp(1, ino, W, 0, false)],
                   n[ino := Inode(true, [], 2)])
  {
    var x, y := Filp(1, ino, R, 0, false), Filp(1, ino, W, 0, false);
    NotHeld(t, n, ino);
    assert Held(t, n, ino);
    Opened(s, t, n, i, k, f, x, Inode(true, [], 1));
    var u, w, m := Point(s, i, k, f), t[f := x], n[ino := Inode(true, [], 1)];
    Opened(u, w, m, i, l, g, y, Inode(true, [], 2));
    assert m[ino := Inode(true, [], 2)] == n[ino := Inode(true, [], 2)];
  }

  /** A child gets its parent's descriptors. */
  lemma Forked(s: seq<Proc>, t: seq<Filp>, n: seq<Inode>, parent: nat, child: nat, p: Proc, w: seq<Filp>)
    requires Tables(s, t, n) && parent < |s| && child < |s| && !s[parent].suspended && !s[child].suspended
    requires forall k :: 0 <= k < |s[child].filp| ==> s[child].filp[k] == NIL
    requires p.filp == s[parent].filp && !p.suspended && !p.reviving
    requires |w| == |t| && forall g :: 0 <= g < |t| ==> w[g] == t[g].(count := t[g].count + Uses(s[parent], g))
    ensures Tables(s[child := p], w, n)
  {
    var u := s[child := p];
    assert Sound(s[parent], s, t, n, parent) && Sound(s[child], s, t, n, child);
    forall g ensures Counted(u, w, g) {
      assert Counted(s, t, g);
      CountUpdate(s, child, p, g);
      if 0 <= g < |t| { assert g !in s[child].filp; }
    }
    forall g | 0 <= g < |t| && t[g].count <= 0 ensures w[g].count <= 0 { assert Counted(s, t, g); CountOne(s, parent, g); }
    SameEnds(t, w, n);
    Grown(s, t, n, u, w, n);
  }

  // ----- closing

  /** Process i gives up descriptor k. */
  lemma Closed(s: seq<Proc>, t: seq<Filp>, n: seq<Inode>, i: nat, k: nat, f: nat, other: Call)
    requires Tables(s, t, n) && i < |s| && !s[i].suspended && k < |s[i].filp| && s[i].filp[k] == f && f < |t|
    requires other == (if t[f].mode == R then WRITE else READ) && forall j :: !Waits(s, t, j, other, t[f].ino)
    ensures t[f].count > 0 && 0 <= t[f].ino < |n|
    ensures Tables(Point(s, i, k, NIL), t[f := t[f].(count := t[f].count - 1)], n[t[f].ino := LeftBy(t, n, f)])
  {
    InUse(s, t, i, k);
    var u, w, m := Point(s, i, k, NIL), t[f := t[f].(count := t[f].count - 1)], n[t[f].ino := LeftBy(t, n, f)];
    assert Sound(s[i], s, t, n, i);
    forall g ensures Counted(u, w, g) { assert Counted(s, t, g); PointUses(s, i, k, NIL, g); }
    ClosedNodes(t, n, f);
    ClosedSleepers(s, t, n, u, w, m, f, other);
  }

  /** put_inode: an inode that is used once less. */
  function LeftInode(y: Inode): Inode {
    if y.count > 1 then y.(count := y.count - 1) else Inode(false, if y.pipe then [] else y.data, y.count - 1)
  }

  /** The inode when a descriptor for slot f is closed. */
  function LeftBy(t: seq<Filp>, n: seq<Inode>, f: nat): Inode
    requires f < |t| && 0 <= t[f].ino < |n|
  {
    if t[f].count > 1 then n[t[f].ino] else LeftInode(n[t[f].ino])
  }

  lemma ClosedNodes(t: seq<Filp>, n: seq<Inode>, f: nat)
    requires Nodes(t, n) && Ends(t, n) && f < |t| && t[f].count > 0 && 0 <= t[f].ino < |n|
    ensures Nodes(t[f := t[f].(count := t[f].count - 1)], n[t[f].ino := LeftBy(t, n, f)])
    ensures Ends(t[f := t[f].(count := t[f].count - 1)], n[t[f].ino := LeftBy(t, n, f)])
  {
    var w, m := t[f := t[f].(count := t[f].count - 1)], n[t[f].ino := LeftBy(t, n, f)];
    forall j ensures Held(w, m, j) { assert Held(t, n, j); HoldersUpdate(t, f, w[f], j); }
    forall g | 0 <= g < |w| ensures InPlace(w[g], m) { assert InPlace(t[g], n); }
    forall g, h | 0 <= g < |t| && 0 <= h < |t| && SameEnd(w[g], w[h], m) ensures g == h { assert SameEnd(t[g], t[h], n); }
  }

  /** Whoever still sleeps does not miss what has been closed. */
  lemma ClosedSleepers(s: seq<Proc>, t: seq<Filp>, n: seq<Inode>, u: seq<Proc>, w: seq<Filp>, m: seq<Inode>, f: nat, other: Call)
    requires Tables(s, t, n) && Undisturbed(s, u) && Slots(u, w) && Nodes(w, m) && Ends(w, m)
    requires f < |t| && t[f].count > 0 && 0 <= t[f].ino < |n| && w == t[f := t[f].(count := t[f].count - 1)]
    requires m == n[t[f].ino := LeftBy(t, n, f)]
    requires other == (if t[f].mode == R then WRITE else READ) && forall j :: !Waits(s, t, j, other, t[f].ino)
    ensures Tables(u, w, m)
  {
    forall j | 0 <= j < |u| ensures Sound(u[j], u, w, m, j) { ClosedSound(s, t, n, u, w, m, f, j); }
    forall j, call, k | call != FCNTL && Waits(u, w, j, call, k) ensures Waits(s, t, j, call, k) { assert Sound(s[j], s, t, n, j); }
    ClosedNobody(s, t, n, u, w, m, f, other);
  }

  lemma ClosedSound(s: seq<Proc>, t: seq<Filp>, n: seq<Inode>, u: seq<Proc>, w: seq<Filp>, m: seq<Inode>, f: nat, j: nat)
    requires Base(s, t, n) && Undisturbed(s, u) && Slots(u, w) && Nodes(w, m) && j < |u|
    requires f < |t| && t[f].count > 0 && 0 <= t[f].ino < |n| && w == t[f := t[f].(count := t[f].count - 1)]
    requires m == n[t[f].ino := LeftBy(t, n, f)]
    ensures Sound(u[j], u, w, m, j)
  {
    hide Ends, Refs, Holders;
    assert Sound(s[j], s, t, n, j);
    if u[j].suspended && u[j].task == XPIPE {
      InUse(u, w, j, u[j].fd);
      assert Held(t, n, t[f].ino);
      NotHeld(w, m, t[f].ino);
    }
  }

  lemma ClosedNobody(s: seq<Proc>, t: seq<Filp>, n: seq<Inode>, u: seq<Proc>, w: seq<Filp>, m: seq<Inode>, f: nat, other: Call)
    requires NobodyInVain(s, t, n) && Procs(u, w, m)
    requires f < |t| && 0 <= t[f].ino < |n| && w == t[f := t[f].(count := t[f].count - 1)] && m == n[t[f].ino := LeftBy(t, n, f)]
    requires other == (if t[f].mode == R then WRITE else READ) && forall j :: !Waits(s, t, j, other, t[f].ino)
    requires forall j, call, k :: call != FCNTL && Waits(u, w, j, call, k) ==> Waits(s, t, j, call, k)
    ensures NobodyInVain(u, w, m)
  {
    forall k, mode | Open(t, k, mode) && !(k == t[f].ino && mode == t[f].mode) ensures Open(w, k, mode) {
      var g :| 0 <= g < |t| && t[g].count > 0 && t[g].ino == k && t[g].mode == mode;
      assert w[g].count > 0 && w[g].ino == k && w[g].mode == mode;
    }
    forall j, k ensures ReaderOk(u, w, m, j, k) {
      assert ReaderOk(s, t, n, j, k);
      if Waits(u, w, j, READ, k) {
        assert Waits(s, t, j, READ, k) && Sound(u[j], u, w, m, j);
        forall l ensures Waits(u, w, l, WRITE, k) ==> Waits(s, t, l, WRITE, k) {}
      }
    }
    forall j, k ensures WriterOk(u, w, m, j, k) {
      assert WriterOk(s, t, n, j, k);
      if Waits(u, w, j, WRITE, k) { assert Waits(s, t, j, WRITE, k) && Sound(u[j], u, w, m, j); }
    }
  }
}
