/** How many zones it takes to give a file a zone of data: the zone itself, and the indirect blocks on the way to it. */
module ZoneDemand {
  import opened Arith
  import opened ZoneEntries
  import opened ZoneMap
  import opened FileBlocks

  function Lacks(v: Volume, r: Role): nat {
    if At(v, r) == NO_ZONE then 1 else 0
  }

  /** The indirect blocks on the way to zone n of file i that are not there. */
  function Missing(v: Volume, i: int, n: nat): nat {
    var d := DataRole(v.g, i, n);
    if InInode(d) then 0
    else if Parent(d).Single? then Lacks(v, Parent(d))
    else if At(v, Parent(d)) != NO_ZONE then 0
    else 1 + Lacks(v, Double(i))
  }

  function Needs(v: Volume, i: int, n: nat): nat {
    if ZoneAt(v, i, n) != NO_ZONE then 0 else 1 + Missing(v, i, n)
  }

  /** The zones of the device that are in no file and not lost. */
  function Unused(v: Volume, lost: set<int>): set<int> {
    set z | v.g.first <= z < v.g.zones && z !in v.role && z !in lost
  }

  lemma MissingPath(v: Volume, i: int, n: nat)
    ensures var m := Indirects(v.g.version);
      && (n < NR_DZONES ==> Missing(v, i, n) == 0)
      && (NR_DZONES <= n < NR_DZONES + m ==> Missing(v, i, n) == Lacks(v, Single(i)))
      && (n >= NR_DZONES + m ==>
            Missing(v, i, n) ==
              if At(v, Indirect(i, (n - NR_DZONES - m) / m)) != NO_ZONE then 0 else 1 + Lacks(v, Double(i)))
  {
    hide At;
  }

  /** There are not as many zones left as the zone of a byte needs. */
  ghost predicate TooFew(v: Volume, i: int, position: nat, lost: set<int>) {
    v.g.perZone > 0 && |Unused(v, lost)| < Needs(v, i, position / BLOCK_SIZE / v.g.perZone)
  }

  /** Other sizes and other data do not change what a file needs. */
  lemma SameNeeds(v: Volume, w: Volume, i: int, n: nat)
    requires w.g == v.g && forall q {:trigger At(w, q)} :: At(w, q) == At(v, q)
    ensures Missing(w, i, n) == Missing(v, i, n) && Needs(w, i, n) == Needs(v, i, n)
  {
    hide At;
  }
}
