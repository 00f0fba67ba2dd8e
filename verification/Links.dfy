/** The inodes of a device as directories tie them together (src/fs/link.c, src/fs/open.c): every inode counts the entries that
    name it, and the directories form a tree. */
module Links {
  import opened Directories

  const ROOT_INODE := 1

  datatype Kind = FREE | FILE | DIRECTORY

  datatype Node = Node(kind: Kind, nlinks: int, slots: seq<Entry>)

  /** The name of something other than the directory itself or the one above. */
  predicate Ordinary(m: string) {
    m != "" && m != "." && m != ".."
  }

  /** What directory d says about a name. */
  function Look(n: seq<Node>, d: nat, m: string): nat {
    if d < |n| then Lookup(n[d].slots, m) else 0
  }

  // ----- counting

  /** How many entries name inode x. */
  function Named(n: seq<Node>, x: nat): nat {
    if n == [] then 0 else Named(n[..|n| - 1], x) + Hits(n[|n| - 1].slots, x)
  }

  lemma {:induction false} NamedUpdate(n: seq<Node>, d: nat, v: Node, x: nat)
    requires d < |n|
    ensures Named(n[d := v], x) == Named(n, x) - Hits(n[d].slots, x) + Hits(v.slots, x)
  {
    var k := |n| - 1;
    if d == k {
      assert n[d := v][..k] == n[..k];
    } else {
      assert n[d := v][..k] == n[..k][d := v];
      NamedUpdate(n[..k], d, v, x);
    }
  }

  lemma {:induction false} NamedOne(n: seq<Node>, d: nat, x: nat)
    requires d < |n|
    ensures Named(n, x) >= Hits(n[d].slots, x)
  {
    if d < |n| - 1 { NamedOne(n[..|n| - 1], d, x); }
  }

  lemma {:induction false} NamedNone(n: seq<Node>, x: nat)
    requires forall d :: 0 <= d < |n| ==> Hits(n[d].slots, x) == 0
    ensures Named(n, x) == 0
  {
    if n != [] { NamedNone(n[..|n| - 1], x); }
  }

  /** By how much the entries that name inode x outnumber its links. */
  function Debt(n: seq<Node>, x: nat): int {
    if x < |n| then Named(n, x) - n[x].nlinks else 0
  }

  /** Every inode has as many links as there are entries that name it. */
  ghost predicate Law(n: seq<Node>) {
    forall x {:trigger Debt(n, x)} :: 0 < x < |n| ==> Debt(n, x) == 0
  }

  lemma DebtUpdate(n: seq<Node>, d: nat, v: Node, x: nat)
    requires d < |n|
    ensures Debt(n[d := v], x) ==
      if x >= |n| then 0
      else Debt(n, x) - Hits(n[d].slots, x) + Hits(v.slots, x) - (if x == d then v.nlinks - n[d].nlinks else 0)
  {
    NamedUpdate(n, d, v, x);
  }

  // ----- single changes

  function Count(n: seq<Node>, x: nat, k: int): seq<Node>
    requires x < |n|
  {
    n[x := n[x].(nlinks := n[x].nlinks + k)]
  }

  function Enter(n: seq<Node>, d: nat, i: nat, name: string, x: nat): seq<Node>
    requires d < |n| && i <= |n[d].slots|
  {
    n[d := n[d].(slots := Entered(n[d].slots, i, name, x))]
  }

  function Erase(n: seq<Node>, d: nat, i: nat): seq<Node>
    requires d < |n| && i < |n[d].slots|
  {
    n[d := n[d].(slots := Erased(n[d].slots, i))]
  }

  lemma Counted(n: seq<Node>, x: nat, k: int, y: nat, d: nat, m: string)
    requires x < |n|
    ensures Debt(Count(n, x, k), y) == Debt(n, y) - if y == x then k else 0
    ensures Look(Count(n, x, k), d, m) == Look(n, d, m)
  {
    DebtUpdate(n, x, n[x].(nlinks := n[x].nlinks + k), y);
  }

  /** Slot i of directory d can take an entry of this name. */
  predicate Room(n: seq<Node>, d: nat, i: nat, name: string) {
    d < |n| && Distinct(n[d].slots) && i <= |n[d].slots| && (i < |n[d].slots| ==> n[d].slots[i].ino == 0) && Look(n, d, name) == 0
  }

  lemma Enters(n: seq<Node>, d: nat, i: nat, name: string, x: nat, y: nat, e: nat, m: string)
    requires Room(n, d, i, name) && x != 0 && y != 0
    ensures Debt(Enter(n, d, i, name, x), y) == Debt(n, y) + if y == x < |n| then 1 else 0
    ensures Distinct(Enter(n, d, i, name, x)[d].slots)
    ensures Look(Enter(n, d, i, name, x), e, m) == if e == d && m == name then x else Look(n, e, m)
  {
    var s := n[d].slots;
    EnteredLookup(s, i, name, x, m);
    HitsEntered(s, i, name, x, y);
    DebtUpdate(n, d, n[d].(slots := Entered(s, i, name, x)), y);
  }

  /** Entry i of directory d is in use. */
  predicate Used(n: seq<Node>, d: nat, i: nat) {
    d < |n| && Distinct(n[d].slots) && i < |n[d].slots| && n[d].slots[i].ino != 0
  }

  lemma Erases(n: seq<Node>, d: nat, i: nat, y: nat, e: nat, m: string)
    requires Used(n, d, i) && y != 0
    ensures Debt(Erase(n, d, i), y) == Debt(n, y) - if y == n[d].slots[i].ino < |n| then 1 else 0
    ensures Distinct(Erase(n, d, i)[d].slots)
    ensures Look(Erase(n, d, i), e, m) == if e == d && m == n[d].slots[i].name then 0 else Look(n, e, m)
  {
    var s := n[d].slots;
    ErasedLookup(s, i, m);
    HitsUpdate(s, i, s[i].(ino := 0), y);
    DebtUpdate(n, d, n[d].(slots := Erased(s, i)), y);
  }

  // ----- the tree

  predicate IsDir(n: seq<Node>, d: nat) {
    d < |n| && n[d].kind == DIRECTORY
  }

  /** A directory that can be reached. */
  predicate Live(n: seq<Node>, d: nat) {
    IsDir(n, d) && n[d].nlinks > 0
  }

  /** What an entry may say. */
  predicate Says(n: seq<Node>, d: nat, m: string) {
    Look(n, d, m) != 0 ==>
      m != "" && Live(n, d) && Look(n, d, m) < |n| && (m == "." ==> Look(n, d, m) == d) && (Ordinary(m) ==> Look(n, d, m) != ROOT_INODE)
  }

  /** A directory is named once, apart from dots. */
  predicate OneParent(n: seq<Node>, p: nat, m: string, q: nat, k: string) {
    Look(n, p, m) == Look(n, q, k) && IsDir(n, Look(n, p, m)) && Look(n, p, m) != 0 && Ordinary(m) && Ordinary(k) ==> p == q && m == k
  }

  ghost predicate HasChild(n: seq<Node>, p: nat, c: nat) {
    exists m :: Ordinary(m) && Look(n, p, m) == c
  }

  /** A directory has both dots; its parent names it, and is of lower rank. */
  ghost predicate Rooted(n: seq<Node>, rank: seq<nat>, d: nat) {
    |rank| == |n| && Live(n, d) ==>
      var p := Look(n, d, "..");
      && Look(n, d, ".") == d && p != 0
      && if d == ROOT_INODE then p == d else HasChild(n, p, d) && p < |n| && rank[p] < rank[d]
  }

  ghost predicate Shape(n: seq<Node>, rank: seq<nat>) {
    && |rank| == |n| > ROOT_INODE && n[0].kind == FREE && Live(n, ROOT_INODE)
    && (forall d :: 0 <= d < |n| ==> Distinct(n[d].slots) && (n[d].kind == FREE ==> n[d].nlinks == 0))
    && (forall d, m {:trigger Look(n, d, m)} :: Says(n, d, m))
    && (forall p, m, q, k {:trigger Look(n, p, m), Look(n, q, k)} :: OneParent(n, p, m, q, k))
    && forall d {:trigger Live(n, d)} :: Rooted(n, rank, d)
  }

  ghost predicate Sound(n: seq<Node>, rank: seq<nat>) {
    Shape(n, rank) && Law(n)
  }

  /** What an entry names has links. */
  lemma NamedLives(n: seq<Node>, d: nat, m: string)
    requires Law(n) && Look(n, d, m) != 0 && Look(n, d, m) < |n|
    ensures n[Look(n, d, m)].nlinks > 0
  {
    var x := Look(n, d, m);
    NoHits(n[d].slots, x);
    NamedOne(n, d, x);
    assert Debt(n, x) == 0;
  }

  /** An inode that no name leads to has no links. */
  lemma UnnamedDies(n: seq<Node>, x: nat)
    requires Law(n) && 0 < x < |n| && forall d :: 0 <= d < |n| ==> Distinct(n[d].slots)
    requires forall d, m :: Look(n, d, m) != x
    ensures n[x].nlinks == 0
  {
    forall d | 0 <= d < |n| ensures Hits(n[d].slots, x) == 0 {
      NoHits(n[d].slots, x);
      forall i | 0 <= i < |n[d].slots| ensures n[d].slots[i].ino != x {
        assert Look(n, d, n[d].slots[i].name) != x;
        if n[d].slots[i].ino != 0 { Found(n[d].slots, i); }
      }
    }
    NamedNone(n, x);
    assert Debt(n, x) == 0;
  }

  // ----- changes one after the other

  /** In directory d the name now stands for x; no other name has changed. */
  ghost predicate Binds(n: seq<Node>, n': seq<Node>, d: nat, name: string, x: nat) {
    |n'| == |n| && forall e, m {:trigger Look(n', e, m)} :: Look(n', e, m) == if e == d && m == name then x else Look(n, e, m)
  }

  ghost predicate SameNames(n: seq<Node>, n': seq<Node>) {
    |n'| == |n| && forall e, m {:trigger Look(n', e, m)} :: Look(n', e, m) == Look(n, e, m)
  }

  /** Inode x has so many names more than before for its links; all others are as they were. */
  ghost predicate Owes(n: seq<Node>, n': seq<Node>, x: nat, k: int) {
    |n'| == |n| && forall y: nat {:trigger Debt(n', y)} :: y != 0 ==> Debt(n', y) == Debt(n, y) + if y == x then k else 0
  }

  lemma Counts(n: seq<Node>, x: nat, k: int)
    requires x < |n|
    ensures SameNames(n, Count(n, x, k)) && Owes(n, Count(n, x, k), x, -k)
  {
    var n' := Count(n, x, k);
    forall y: nat ensures Debt(n', y) == Debt(n, y) - if y == x then k else 0 { Counted(n, x, k, y, 0, ""); }
    forall d: nat, m: string ensures Look(n', d, m) == Look(n, d, m) { Counted(n, x, k, 0, d, m); }
  }

  lemma EntersOne(n: seq<Node>, d: nat, i: nat, name: string, x: nat)
    requires Room(n, d, i, name) && 0 < x < |n|
    ensures Binds(n, Enter(n, d, i, name, x), d, name, x) && Owes(n, Enter(n, d, i, name, x), x, 1)
    ensures Distinct(Enter(n, d, i, name, x)[d].slots)
  {
    var n' := Enter(n, d, i, name, x);
    forall y: nat | y != 0 ensures Debt(n', y) == Debt(n, y) + if y == x then 1 else 0 { Enters(n, d, i, name, x, y, 0, ""); }
    forall e: nat, m: string ensures Look(n', e, m) == if e == d && m == name then x else Look(n, e, m) { Enters(n, d, i, name, x, 1, e, m); }
    Enters(n, d, i, name, x, 1, 0, "");
  }

  lemma ErasesOne(n: seq<Node>, d: nat, i: nat)
    requires Used(n, d, i) && n[d].slots[i].ino < |n|
    ensures Binds(n, Erase(n, d, i), d, n[d].slots[i].name, 0) && Owes(n, Erase(n, d, i), n[d].slots[i].ino, -1)
    ensures Distinct(Erase(n, d, i)[d].slots)
  {
    var n', x, name := Erase(n, d, i), n[d].slots[i].ino, n[d].slots[i].name;
    forall y: nat | y != 0 ensures Debt(n', y) == Debt(n, y) + if y == x then -1 else 0 { Erases(n, d, i, y, 0, ""); }
    forall e: nat, m: string ensures Look(n', e, m) == if e == d && m == name then 0 else Look(n, e, m) { Erases(n, d, i, 1, e, m); }
    Erases(n, d, i, 1, 0, "");
  }

  /** A node without entries takes the place of one without. */
  lemma Blank(n: seq<Node>, x: nat, kind: Kind, k: int)
    requires 0 < x < |n| && n[x].slots == []
    ensures SameNames(n, n[x := Node(kind, k, [])]) && Owes(n, n[x := Node(kind, k, [])], x, n[x].nlinks - k)
  {
    var n' := n[x := Node(kind, k, [])];
    forall y: nat | y != 0 ensures Debt(n', y) == Debt(n, y) + if y == x then n[x].nlinks - k else 0 { DebtUpdate(n, x, Node(kind, k, []), y); }
  }
}
