/** Directories (src/fs/path.c): slots with a name and an inode number, searched from the beginning, seen as a map from names
    to inode numbers. */
module Directories {
  const NR_DIR_ENTRIES := 64

  /** A slot whose inode number is zero is not in use. */
  datatype Entry = Entry(ino: nat, name: string)

  /** The first entry of that name, or the length of the directory. */
  function Find(s: seq<Entry>, name: string): (i: nat)
    ensures i <= |s| && (i < |s| ==> s[i].ino != 0 && s[i].name == name)
    ensures forall j :: 0 <= j < i ==> !(s[j].ino != 0 && s[j].name == name)
  {
    if s == [] || (s[0].ino != 0 && s[0].name == name) then 0 else 1 + Find(s[1..], name)
  }

  /** What a directory says about a name; zero is nothing. */
  function Lookup(s: seq<Entry>, name: string): nat {
    var i := Find(s, name);
    if i < |s| then s[i].ino else 0
  }

  /** No two entries have the same name. */
  predicate Distinct(s: seq<Entry>) {
    forall i, j :: 0 <= i < |s| && 0 <= j < |s| && s[i].ino != 0 && s[j].ino != 0 && s[i].name == s[j].name ==> i == j
  }

  /** Every entry of a directory without double names is found. */
  lemma Found(s: seq<Entry>, i: nat)
    requires Distinct(s) && i < |s| && s[i].ino != 0
    ensures Find(s, s[i].name) == i && Lookup(s, s[i].name) == s[i].ino
  {
  }

  lemma NotFound(s: seq<Entry>, name: string)
    ensures Lookup(s, name) == 0 <==> forall i :: 0 <= i < |s| ==> !(s[i].ino != 0 && s[i].name == name)
  {
  }

  /** An entry is put into slot i, which is not in use, or after the last. */
  function Entered(s: seq<Entry>, i: nat, name: string, x: nat): seq<Entry>
    requires i <= |s|
  {
    if i < |s| then s[i := Entry(x, name)] else s + [Entry(x, name)]
  }

  function Erased(s: seq<Entry>, i: nat): seq<Entry>
    requires i < |s|
  {
    s[i := s[i].(ino := 0)]
  }

  /** Entering a name that was not there adds it to the map, and changes nothing else. */
  lemma EnteredLookup(s: seq<Entry>, i: nat, name: string, x: nat, m: string)
    requires Distinct(s) && i <= |s| && (i < |s| ==> s[i].ino == 0) && Lookup(s, name) == 0 && x != 0
    ensures Distinct(Entered(s, i, name, x))
    ensures Lookup(Entered(s, i, name, x), m) == if m == name then x else Lookup(s, m)
  {
    var u := Entered(s, i, name, x);
    NotFound(s, name);
    assert u[i] == Entry(x, name);
    assert forall j :: 0 <= j < |u| && j != i ==> u[j] == s[j];
    if m == name {
      Found(u, i);
    } else if Lookup(s, m) != 0 {
      var j := Find(s, m);
      assert u[j] == s[j];
      Found(u, j);
    } else {
      NotFound(s, m);
      NotFound(u, m);
    }
  }

  /** Erasing an entry takes its name out of the map, and changes nothing else. */
  lemma ErasedLookup(s: seq<Entry>, i: nat, m: string)
    requires Distinct(s) && i < |s| && s[i].ino != 0
    ensures Distinct(Erased(s, i))
    ensures Lookup(Erased(s, i), m) == if m == s[i].name then 0 else Lookup(s, m)
  {
    var u := Erased(s, i);
    assert forall j :: 0 <= j < |u| && j != i ==> u[j] == s[j];
    if m == s[i].name {
      NotFound(u, m);
    } else if Lookup(s, m) != 0 {
      var j := Find(s, m);
      assert u[j] == s[j];
      Found(u, j);
    } else {
      NotFound(s, m);
      NotFound(u, m);
    }
  }

  // ----- how often an inode is named

  function Hit(e: Entry, x: nat): nat {
    if e.ino == x then 1 else 0
  }

  function Hits(s: seq<Entry>, x: nat): nat {
    if s == [] then 0 else Hits(s[..|s| - 1], x) + Hit(s[|s| - 1], x)
  }

  lemma {:induction false} HitsUpdate(s: seq<Entry>, i: nat, e: Entry, x: nat)
    requires i < |s|
    ensures Hits(s[i := e], x) == Hits(s, x) - Hit(s[i], x) + Hit(e, x)
  {
    var n := |s| - 1;
    if i == n {
      assert s[i := e][..n] == s[..n];
    } else {
      assert s[i := e][..n] == s[..n][i := e];
      HitsUpdate(s[..n], i, e, x);
    }
  }

  lemma HitsEntered(s: seq<Entry>, i: nat, name: string, x: nat, y: nat)
    requires i <= |s| && (i < |s| ==> s[i].ino == 0) && y != 0
    ensures Hits(Entered(s, i, name, x), y) == Hits(s, y) + if x == y then 1 else 0
  {
    if i < |s| { HitsUpdate(s, i, Entry(x, name), y); } else { assert (s + [Entry(x, name)])[..|s|] == s; }
  }

  /** An inode that no entry names is not named. */
  lemma {:induction false} NoHits(s: seq<Entry>, x: nat)
    ensures Hits(s, x) == 0 <==> forall i :: 0 <= i < |s| ==> s[i].ino != x
  {
    if s != [] {
      NoHits(s[..|s| - 1], x);
      assert forall i :: 0 <= i < |s| - 1 ==> s[..|s| - 1][i] == s[i];
    }
  }
}
