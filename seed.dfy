/** The routing table a router starts with, built from its neighbour costs. */
module Seeding {
  import opened Dicts
  import opened Literals

  /** `cost_D`: for each neighbour, the interfaces that lead to it and their link costs. */
  type Neighbours = Dict<string, Dict<int, int>>

  /** The cost of the last interface listed for a neighbour. */
  function LastCost(links: Dict<int, int>): int
    requires links.keys != []
  {
    links.vals[links.keys[|links.keys| - 1]]
  }

  /** Visiting the first `m` interfaces of neighbour `k`: each overwrites the entry for `k`. */
  function SeedRow(name: string, t: Table, k: string, links: Dict<int, int>, m: nat): (r: Table)
    requires m <= |links.keys|
    ensures forall d :: d in r.vals <==> d in t.vals || (0 < m && d == k)
    ensures forall d :: d != k && d in t.vals ==> r.vals[d] == t.vals[d]
    ensures 0 < m ==> r.vals[k] == Single(name, links.vals[links.keys[m - 1]])
  {
    if m == 0 then t
    else Store(SeedRow(name, t, k, links, m - 1), k, Single(name, links.vals[links.keys[m - 1]]))
  }

  /** Visiting the first `n` neighbours, starting from the empty table. */
  function SeedRows(name: string, nbrs: Neighbours, n: nat): (r: Table)
    requires n <= |nbrs.keys|
    ensures forall d :: d in r.vals ==> d in nbrs.keys[..n]
  {
    if n == 0 then Empty()
    else
      var k := nbrs.keys[n - 1];
      SeedRow(name, SeedRows(name, nbrs, n - 1), k, nbrs.vals[k], |nbrs.vals[k].keys|)
  }

  /** The table after construction: every neighbour's entry, then the router's own. */
  function InitialTable(name: string, nbrs: Neighbours): (r: Table)
    ensures name in r.vals && r.vals[name] == Single(name, 0)
    ensures forall d :: d in r.vals ==> d == name || d in nbrs.vals
  {
    Store(SeedRows(name, nbrs, |nbrs.keys|), name, Single(name, 0))
  }

  /** One more interface. */
  lemma SeedRowNext(name: string, t: Table, k: string, links: Dict<int, int>, m: nat)
    requires m < |links.keys|
    ensures SeedRow(name, t, k, links, m + 1) == Store(SeedRow(name, t, k, links, m), k, Single(name, links.vals[links.keys[m]]))
  {
  }

  lemma SeedRowsZero(name: string, nbrs: Neighbours)
    ensures SeedRows(name, nbrs, 0) == Empty()
  {
  }

  /** One more neighbour. */
  lemma SeedRowsNext(name: string, nbrs: Neighbours, n: nat)
    requires n < |nbrs.keys|
    ensures SeedRows(name, nbrs, n + 1) ==
      SeedRow(name, SeedRows(name, nbrs, n), nbrs.keys[n], nbrs.vals[nbrs.keys[n]], |nbrs.vals[nbrs.keys[n]].keys|)
  {
  }

  lemma SeedRowZero(name: string, t: Table, k: string, links: Dict<int, int>)
    ensures SeedRow(name, t, k, links, 0) == t
  {
  }

  /** Visiting the interfaces leaves the entry of the last one visited, and changes no other entry. */
  lemma {:induction false} SeedRowEffect(name: string, t: Table, k: string, links: Dict<int, int>, m: nat)
    requires 0 < m <= |links.keys|
    ensures SeedRow(name, t, k, links, m).vals == t.vals[k := Single(name, links.vals[links.keys[m - 1]])]
  {
    if m > 1 {
      SeedRowEffect(name, t, k, links, m - 1);
      var prev := SeedRow(name, t, k, links, m - 1);
      assert SeedRow(name, t, k, links, m) == Store(prev, k, Single(name, links.vals[links.keys[m - 1]]));
    }
  }

  /** What the first `n` neighbours leave in the entry for `d`. */
  lemma {:induction false} SeedRowsAt(name: string, nbrs: Neighbours, n: nat, d: string)
    requires n <= |nbrs.keys|
    ensures d in SeedRows(name, nbrs, n).vals <==> d in nbrs.keys[..n] && nbrs.vals[d].keys != []
    ensures d in SeedRows(name, nbrs, n).vals ==>
      SeedRows(name, nbrs, n).vals[d] == Single(name, LastCost(nbrs.vals[d]))
  {
    hide SeedRows, SeedRow, WellFormed;
    if n == 0 {
      SeedRowsZero(name, nbrs);
    } else {
      KeyIn(nbrs, n - 1);
      var k := nbrs.keys[n - 1];
      var links := nbrs.vals[k];
      var prev := SeedRows(name, nbrs, n - 1);
      SeedRowsAt(name, nbrs, n - 1, d);
      SeedRowsNext(name, nbrs, n - 1);
      SliceSnoc(nbrs.keys, n, d);
      FreshKey(nbrs, n - 1);
      var cur := SeedRows(name, nbrs, n);
      if links.keys == [] {
        SeedRowZero(name, prev, k, links);
        assert cur == prev;
      } else {
        SeedRowEffect(name, prev, k, links, |links.keys|);
        assert cur.vals == prev.vals[k := Single(name, LastCost(links))];
      }
    }
  }

  lemma SeedRowsEffect(name: string, nbrs: Neighbours, n: nat)
    requires n <= |nbrs.keys|
    ensures forall d :: d in SeedRows(name, nbrs, n).vals <==>
      d in nbrs.keys[..n] && nbrs.vals[d].keys != []
    ensures forall d :: d in SeedRows(name, nbrs, n).vals ==>
      SeedRows(name, nbrs, n).vals[d] == Single(name, LastCost(nbrs.vals[d]))
  {
    forall d {
      SeedRowsAt(name, nbrs, n, d);
    }
  }

  /**
   * After construction there is an entry for the router itself, `{name: 0}`,
   * and one for each neighbour listed with at least one interface, holding
   * only the router's own cost: the link cost of the neighbour's last
   * interface. Nothing else is in the table.
   */
  lemma InitialTableShape(name: string, nbrs: Neighbours)
    ensures InitialTable(name, nbrs).vals[name] == Single(name, 0)
    ensures forall d :: d in InitialTable(name, nbrs).vals <==>
      d == name || (d in nbrs.vals && nbrs.vals[d].keys != [])
    ensures forall d :: d in InitialTable(name, nbrs).vals && d != name ==>
      InitialTable(name, nbrs).vals[d] == Single(name, LastCost(nbrs.vals[d]))
  {
    hide SeedRows, SeedRow, WellFormed;
    SeedRowsEffect(name, nbrs, |nbrs.keys|);
    assert nbrs.keys[..|nbrs.keys|] == nbrs.keys;
    forall d | d in nbrs.vals
      ensures d in nbrs.keys
    {
      KeyListed(nbrs, d);
    }
  }
}
