/**
 * What a received routing table does to the router's own table: every
 * (destination, reporter, cost) triple of the received table, in its
 * iteration order, goes through four rules of which the first that matches
 * applies; afterwards the table is rebuilt in ascending key order.
 */
module Updates {
  import opened Common
  import opened Dicts
  import opened Order
  import opened Literals
  import opened Hops

  /** The pass's state: the table so far, whether a rule fired, and the fault that stopped it. */
  datatype Relaxed = Relaxed(table: Table, fired: bool, fault: Option<Fault>)

  /**
   * One triple, as the new entry for `dest`, whether a rule fired, and the
   * fault that stops the pass. The first matching rule applies:
   * (a) a known destination with a new reporter takes the reported cost;
   * (b) an unknown destination gets an entry holding only the router's own
   *     cost through the reporter. The entry is created empty before that
   *     cost is looked up, so a reporter equal to the new destination finds
   *     no own cost, and neither does a reporter without one: the pass stops,
   *     leaving the empty entry behind;
   * (c) a lower reported cost replaces the reporter's;
   * (d) a cheaper route through the reporter lowers the own cost; both the
   *     reporter's own cost and the destination's must be present.
   * When no rule fires the entry is the one already there.
   */
  function NewRow(name: string, t: Table, dest: string, rtr: string, c: int): (r: (Costs, bool, Option<Fault>))
    ensures r.2.Some? ==> r.2 == Some(MissingKey)
    ensures dest !in t.vals ==> r.1 && (r.2.Some? <==> rtr == dest || !Known(t, rtr, name))
    ensures dest !in t.vals && r.2.Some? ==> r.0 == Empty()
    ensures dest in t.vals && r.2.Some? ==> r.0 == t.vals[dest] && !r.1
    ensures dest in t.vals && !r.1 ==> r.0 == t.vals[dest]
  {
    if dest !in t.vals then
      if rtr != dest && Known(t, rtr, name) then (Single(name, c + t.vals[rtr].vals[name]), true, None)
      else (Empty(), true, Some(MissingKey))
    else
      var row := t.vals[dest];
      if rtr !in row.vals || c < row.vals[rtr] then (Store(row, rtr, c), true, None)
      else if !Known(t, rtr, name) || name !in row.vals then (row, false, Some(MissingKey))
      else if c + t.vals[rtr].vals[name] < row.vals[name] then (Store(row, name, c + t.vals[rtr].vals[name]), true, None)
      else (row, false, None)
  }

  /** The pass's state after one triple: `t[dest]` replaced by the new entry. */
  function Apply(name: string, s: Relaxed, dest: string, rtr: string, c: int): (r: Relaxed)
    ensures dest in r.table.vals
    ensures forall d :: d != dest ==> (d in r.table.vals <==> d in s.table.vals)
    ensures forall d :: d != dest && d in s.table.vals ==> r.table.vals[d] == s.table.vals[d]
    ensures s.fired ==> r.fired
    ensures r.fault.Some? ==> r.fault == Some(MissingKey)
  {
    var (row, fired, fault) := NewRow(name, s.table, dest, rtr, c);
    Relaxed(Store(s.table, dest, row), s.fired || fired, fault)
  }

  /**
   * The first branch of `NewRow` as `Apply` yields it, under the guard of
   * rule (a), so that `Routers.Router.RelaxEntry` can follow the source's
   * branch: the reported cost is stored for the reporter.
   */
  lemma RuleA(name: string, s: Relaxed, dest: string, rtr: string, c: int)
    requires s.fault.None? && dest in s.table.vals && rtr !in s.table.vals[dest].vals
    ensures Apply(name, s, dest, rtr, c) ==
      Relaxed(Store(s.table, dest, Store(s.table.vals[dest], rtr, c)), true, None)
  {
  }

  /**
   * Rule (b): an unknown destination first gets an empty entry; the own cost
   * through the reporter is then looked up in that table and, when present,
   * stored as the entry's only cost.
   */
  lemma RuleB(name: string, s: Relaxed, dest: string, rtr: string, c: int)
    requires s.fault.None? && dest !in s.table.vals
    ensures var t1 := Store(s.table, dest, Empty());
      && (Known(t1, rtr, name) ==>
            Apply(name, s, dest, rtr, c) ==
              Relaxed(Store(t1, dest, Store(t1.vals[dest], name, c + t1.vals[rtr].vals[name])), true, None))
      && (!Known(t1, rtr, name) ==> Apply(name, s, dest, rtr, c) == Relaxed(t1, true, Some(MissingKey)))
  {
    var t := s.table;
    var t1 := Store(t, dest, Empty());
    if Known(t1, rtr, name) {
      assert rtr != dest;
      assert t1.vals[rtr] == t.vals[rtr];
      var v := c + t.vals[rtr].vals[name];
      StoreTwice(t, dest, Empty(), Store(t1.vals[dest], name, v));
      assert Store(t1.vals[dest], name, v) == Single(name, v);
    } else {
      assert !(rtr != dest && Known(t, rtr, name));
    }
  }

  /**
   * The same branch of `NewRow` reached under the guard of rule (c), again
   * for `Routers.Router.RelaxEntry`: the lower reported cost is stored.
   */
  lemma RuleC(name: string, s: Relaxed, dest: string, rtr: string, c: int)
    requires s.fault.None? && dest in s.table.vals && rtr in s.table.vals[dest].vals
    requires c < s.table.vals[dest].vals[rtr]
    ensures Apply(name, s, dest, rtr, c) ==
      Relaxed(Store(s.table, dest, Store(s.table.vals[dest], rtr, c)), true, None)
  {
  }

  /**
   * Rule (d), reached when no earlier rule applies: both own costs must be
   * present, and a cheaper route through the reporter lowers the
   * destination's own cost; otherwise nothing changes.
   */
  lemma RuleD(name: string, s: Relaxed, dest: string, rtr: string, c: int)
    requires s.fault.None? && dest in s.table.vals && rtr in s.table.vals[dest].vals
    requires !(c < s.table.vals[dest].vals[rtr])
    ensures var t := s.table;
      && (!(Known(t, rtr, name) && name in t.vals[dest].vals) ==>
            Apply(name, s, dest, rtr, c) == Relaxed(t, s.fired, Some(MissingKey)))
      && (Known(t, rtr, name) && name in t.vals[dest].vals ==>
            var v := c + t.vals[rtr].vals[name];
            Apply(name, s, dest, rtr, c) ==
              if v < t.vals[dest].vals[name] then Relaxed(Store(t, dest, Store(t.vals[dest], name, v)), true, None)
              else s)
  {
    StoreSame(s.table, dest);
  }

  /** The first `m` reporters of destination `dest`, stopping at a fault. */
  function RelaxRow(name: string, s: Relaxed, dest: string, inner: Costs, m: nat): (r: Relaxed)
    requires m <= |inner.keys|
    ensures s.fault.Some? ==> r == s
    ensures s.fired ==> r.fired
    ensures r.fault.Some? ==> r.fault == s.fault || r.fault == Some(MissingKey)
  {
    if m == 0 then s
    else
      var p := RelaxRow(name, s, dest, inner, m - 1);
      if p.fault.Some? then p else Apply(name, p, dest, inner.keys[m - 1], inner.vals[inner.keys[m - 1]])
  }

  /** The first `n` destinations of the received table `nt`. */
  function RelaxRows(name: string, t: Table, nt: Table, n: nat): (r: Relaxed)
    requires n <= |nt.keys|
    ensures r.fault.Some? ==> r.fault == Some(MissingKey)
    ensures n == 0 ==> r == Relaxed(t, false, None)
  {
    if n == 0 then Relaxed(t, false, None)
    else
      var dest := nt.keys[n - 1];
      RelaxRow(name, RelaxRows(name, t, nt, n - 1), dest, nt.vals[dest], |nt.vals[dest].keys|)
  }

  function RelaxAll(name: string, t: Table, nt: Table): (r: Relaxed)
    ensures r.fault.Some? ==> r.fault == Some(MissingKey)
    ensures nt.keys == [] ==> r == Relaxed(t, false, None)
  {
    RelaxRows(name, t, nt, |nt.keys|)
  }

  /** The cost `t[d][r]`, if there is one. */
  function Cost(t: Table, d: string, r: string): Option<int> {
    if Known(t, d, r) then Some(t.vals[d].vals[r]) else None
  }

  /** `y` extends the entry `x`: reporters are only appended, and no cost goes up. */
  ghost predicate RowGrows(x: Costs, y: Costs) {
    && |x.keys| <= |y.keys| && y.keys[..|x.keys|] == x.keys
    && forall r :: r in x.vals ==> r in y.vals && y.vals[r] <= x.vals[r]
  }

  /** `b` extends `a`: destinations are only appended, and every entry grows. */
  ghost predicate Grows(a: Table, b: Table) {
    && |a.keys| <= |b.keys| && b.keys[..|a.keys|] == a.keys
    && forall d :: d in a.vals ==> d in b.vals && RowGrows(a.vals[d], b.vals[d])
  }

  lemma RowGrowsTrans(x: Costs, y: Costs, z: Costs)
    requires RowGrows(x, y) && RowGrows(y, z)
    ensures RowGrows(x, z)
  {
    assert z.keys[..|x.keys|] == z.keys[..|y.keys|][..|x.keys|];
  }

  lemma GrowsTrans(a: Table, b: Table, c: Table)
    requires Grows(a, b) && Grows(b, c)
    ensures Grows(a, c)
  {
    assert c.keys[..|a.keys|] == c.keys[..|b.keys|][..|a.keys|];
    forall d | d in a.vals
      ensures RowGrows(a.vals[d], c.vals[d])
    {
      RowGrowsTrans(a.vals[d], b.vals[d], c.vals[d]);
    }
  }

  lemma RowGrowsAntisym(x: Costs, y: Costs)
    requires RowGrows(x, y) && RowGrows(y, x)
    ensures x == y
  {
    assert x.keys == y.keys[..|x.keys|] == y.keys;
    assert x.vals.Keys == y.vals.Keys;
    assert x.vals == y.vals;
  }

  lemma GrowsAntisym(a: Table, b: Table)
    requires Grows(a, b) && Grows(b, a)
    ensures a == b
  {
    assert a.keys == b.keys[..|a.keys|] == b.keys;
    forall d | d in a.vals
      ensures a.vals[d] == b.vals[d]
    {
      RowGrowsAntisym(a.vals[d], b.vals[d]);
    }
    assert a.vals.Keys == b.vals.Keys;
    assert a.vals == b.vals;
  }

  lemma StoreGrows(t: Table, d: string, v: Costs)
    requires d in t.vals ==> RowGrows(t.vals[d], v)
    ensures Grows(t, Store(t, d, v))
  {
    var u := Store(t, d, v);
    assert u.keys[..|t.keys|] == t.keys;
  }

  /** Storing an entry changes only the costs of that destination. */
  lemma StoreCost(t: Table, dest: string, row: Costs, d: string, q: string)
    ensures Cost(Store(t, dest, row), d, q) ==
      if d == dest then (if q in row.vals then Some(row.vals[q]) else None) else Cost(t, d, q)
  {
  }

  /** A new entry grows the old one, and differs from it only at the reporter and the own cost. */
  lemma NewRowShape(name: string, t: Table, dest: string, rtr: string, c: int, q: string)
    ensures var row := NewRow(name, t, dest, rtr, c).0;
      && (dest in t.vals ==> RowGrows(t.vals[dest], row))
      && (q != rtr && q != name ==> (if q in row.vals then Some(row.vals[q]) else None) == Cost(t, dest, q))
  {
    if dest in t.vals {
      var row := t.vals[dest];
      var r := NewRow(name, t, dest, rtr, c).0;
      if rtr !in row.vals || c < row.vals[rtr] {
        assert r.keys[..|row.keys|] == row.keys;
      } else if !Known(t, rtr, name) || name !in row.vals {
      } else if c + t.vals[rtr].vals[name] < row.vals[name] {
        assert r.keys[..|row.keys|] == row.keys;
      }
    }
  }

  /** A rule fires exactly when the table changes. */
  lemma ApplyFires(name: string, s: Relaxed, dest: string, rtr: string, c: int)
    ensures var x := NewRow(name, s.table, dest, rtr, c);
      x.1 <==> Apply(name, s, dest, rtr, c).table != s.table
  {
    var t := s.table;
    var x := NewRow(name, t, dest, rtr, c);
    var u := Store(t, dest, x.0);
    if dest !in t.vals {
      assert dest in u.vals;
    } else {
      var row := t.vals[dest];
      if rtr !in row.vals || c < row.vals[rtr] {
        assert u.vals[dest].vals[rtr] == c;
        assert u.vals[dest] != row;
      } else if !Known(t, rtr, name) || name !in row.vals {
        assert u.vals == t.vals;
      } else if c + t.vals[rtr].vals[name] < row.vals[name] {
        assert u.vals[dest].vals[name] < row.vals[name];
        assert u.vals[dest] != row;
      } else {
        assert u.vals == t.vals;
      }
    }
  }

  /** What a pass keeps from its starting table `t`, whatever it has done so far. */
  ghost predicate Keeps(name: string, t: Table, nt: Table, s: Relaxed) {
    && Grows(t, s.table)
    && (forall d, q :: (d !in nt.vals || (q != name && q !in nt.vals[d].vals)) ==> Cost(s.table, d, q) == Cost(t, d, q))
    && (s.fault.None? ==> (s.fired <==> s.table != t))
  }

  lemma ApplyKeeps(name: string, t: Table, nt: Table, p: Relaxed, dest: string, rtr: string)
    requires dest in nt.vals && rtr in nt.vals[dest].vals
    requires Keeps(name, t, nt, p) && p.fault.None?
    ensures Keeps(name, t, nt, Apply(name, p, dest, rtr, nt.vals[dest].vals[rtr]))
  {
    var c := nt.vals[dest].vals[rtr];
    var r := Apply(name, p, dest, rtr, c);
    var row := NewRow(name, p.table, dest, rtr, c).0;
    NewRowShape(name, p.table, dest, rtr, c, name);
    StoreGrows(p.table, dest, row);
    GrowsTrans(t, p.table, r.table);
    forall d, q | d !in nt.vals || (q != name && q !in nt.vals[d].vals)
      ensures Cost(r.table, d, q) == Cost(t, d, q)
    {
      StoreCost(p.table, dest, row, d, q);
      if d == dest {
        NewRowShape(name, p.table, dest, rtr, c, q);
      }
    }
    ApplyFires(name, p, dest, rtr, c);
    if r.fault.None? && r.table == t {
      GrowsAntisym(p.table, r.table);
    }
  }

  lemma {:induction false} RelaxRowKeeps(name: string, t: Table, nt: Table, s: Relaxed, dest: string, m: nat)
    requires dest in nt.vals && m <= |nt.vals[dest].keys|
    requires Keeps(name, t, nt, s)
    ensures Keeps(name, t, nt, RelaxRow(name, s, dest, nt.vals[dest], m))
  {
    if m > 0 {
      RelaxRowKeeps(name, t, nt, s, dest, m - 1);
      var p := RelaxRow(name, s, dest, nt.vals[dest], m - 1);
      if p.fault.None? {
        ApplyKeeps(name, t, nt, p, dest, nt.vals[dest].keys[m - 1]);
      }
    }
  }

  lemma {:induction false} RelaxRowsKeeps(name: string, t: Table, nt: Table, n: nat)
    requires n <= |nt.keys|
    ensures Keeps(name, t, nt, RelaxRows(name, t, nt, n))
  {
    if n > 0 {
      RelaxRowsKeeps(name, t, nt, n - 1);
      var dest := nt.keys[n - 1];
      RelaxRowKeeps(name, t, nt, RelaxRows(name, t, nt, n - 1), dest, |nt.vals[dest].keys|);
    }
  }

  /**
   * A routing update never removes a destination or a reporter, keeps the
   * order in which they were added, and never raises a cost; this holds for
   * the partial table left by a fault too.
   */
  lemma RelaxGrows(name: string, t: Table, nt: Table)
    ensures Grows(t, RelaxAll(name, t, nt).table)
  {
    RelaxRowsKeeps(name, t, nt, |nt.keys|);
  }

  /**
   * The only costs a routing update can change are `t[dest][rtr]` and
   * `t[dest][name]` for the pairs `(dest, rtr)` of the received table.
   */
  lemma RelaxFrame(name: string, t: Table, nt: Table, d: string, q: string)
    requires d !in nt.vals || (q != name && q !in nt.vals[d].vals)
    ensures Cost(RelaxAll(name, t, nt).table, d, q) == Cost(t, d, q)
  {
    RelaxRowsKeeps(name, t, nt, |nt.keys|);
  }

  /** Without a fault, some rule fired exactly when the table changed. */
  lemma RelaxFires(name: string, t: Table, nt: Table)
    requires RelaxAll(name, t, nt).fault.None?
    ensures RelaxAll(name, t, nt).fired <==> RelaxAll(name, t, nt).table != t
  {
    RelaxRowsKeeps(name, t, nt, |nt.keys|);
  }

  /**
   * Rule (b): an unknown destination gets exactly one entry, the router's own
   * cost through the reporter, or the pass stops with the destination's entry
   * left empty when the reporter has no own cost, which is always so when the
   * reporter is the new destination itself.
   */
  lemma NewDestination(name: string, s: Relaxed, dest: string, rtr: string, c: int)
    requires dest !in s.table.vals
    ensures var r := Apply(name, s, dest, rtr, c);
      && (rtr != dest && Known(s.table, rtr, name) ==>
            r.fault.None? && r.fired && r.table.vals[dest] == Single(name, c + s.table.vals[rtr].vals[name]))
      && (rtr == dest || !Known(s.table, rtr, name) ==>
            r.fault == Some(MissingKey) && r.table.vals[dest] == Empty())
  {
  }

  /** One more reporter, when the pass has not stopped. */
  lemma RowNext(name: string, s: Relaxed, dest: string, inner: Costs, m: nat)
    requires m < |inner.keys| && RelaxRow(name, s, dest, inner, m).fault.None?
    ensures RelaxRow(name, s, dest, inner, m + 1) ==
      Apply(name, RelaxRow(name, s, dest, inner, m), dest, inner.keys[m], inner.vals[inner.keys[m]])
  {
  }

  /** One more destination. */
  lemma RowsNext(name: string, t: Table, nt: Table, n: nat)
    requires n < |nt.keys|
    ensures RelaxRows(name, t, nt, n + 1) ==
      RelaxRow(name, RelaxRows(name, t, nt, n), nt.keys[n], nt.vals[nt.keys[n]], |nt.vals[nt.keys[n]].keys|)
  {
  }

  /** A fault stops the pass: the rest of the row, and every later row, leave the state alone. */
  lemma {:induction false} RowSticky(name: string, s: Relaxed, dest: string, inner: Costs, m: nat, m': nat)
    requires m <= m' <= |inner.keys|
    requires RelaxRow(name, s, dest, inner, m).fault.Some?
    ensures RelaxRow(name, s, dest, inner, m') == RelaxRow(name, s, dest, inner, m)
  {
    hide Apply, NewRow, WellFormed;
    if m < m' {
      RowSticky(name, s, dest, inner, m, m' - 1);
      var p := RelaxRow(name, s, dest, inner, m' - 1);
      assert p.fault.Some?;
      assert RelaxRow(name, s, dest, inner, m') == p;
    }
  }

  lemma {:induction false} RowFaulted(name: string, s: Relaxed, dest: string, inner: Costs, m: nat)
    requires m <= |inner.keys| && s.fault.Some?
    ensures RelaxRow(name, s, dest, inner, m) == s
  {
    hide Apply, NewRow;
    if m > 0 {
      RowFaulted(name, s, dest, inner, m - 1);
    }
  }

  lemma {:induction false} RowsSticky(name: string, t: Table, nt: Table, n: nat, n': nat)
    requires n <= n' <= |nt.keys|
    requires RelaxRows(name, t, nt, n).fault.Some?
    ensures RelaxRows(name, t, nt, n') == RelaxRows(name, t, nt, n)
  {
    hide RelaxRow, Apply, NewRow;
    if n < n' {
      RowsSticky(name, t, nt, n, n' - 1);
      var dest := nt.keys[n' - 1];
      RowFaulted(name, RelaxRows(name, t, nt, n' - 1), dest, nt.vals[dest], |nt.vals[dest].keys|);
    }
  }

  /** A fault met at reporter `m` of destination `a` is the fault of the whole pass, with the same table. */
  lemma FaultStops(name: string, t: Table, nt: Table, a: nat, m: nat)
    requires a < |nt.keys| && m <= |nt.vals[nt.keys[a]].keys|
    requires RelaxRow(name, RelaxRows(name, t, nt, a), nt.keys[a], nt.vals[nt.keys[a]], m).fault.Some?
    ensures RelaxAll(name, t, nt) == RelaxRow(name, RelaxRows(name, t, nt, a), nt.keys[a], nt.vals[nt.keys[a]], m)
  {
    hide RelaxRow, RelaxRows, Apply, NewRow, WellFormed;
    var dest := nt.keys[a];
    KeyIn(nt, a);
    RowSticky(name, RelaxRows(name, t, nt, a), dest, nt.vals[dest], m, |nt.vals[dest].keys|);
    RowsNext(name, t, nt, a);
    RowsSticky(name, t, nt, a + 1, |nt.keys|);
  }

  lemma SortedKeys(t: Table)
    ensures Ascending(SortStrings(t.keys))
    ensures multiset(SortStrings(t.keys)) == multiset(t.keys)
    ensures WellFormed(RawDict(SortStrings(t.keys), t.vals))
  {
    var ks := SortStrings(t.keys);
    assert Distinct(t.keys);
    SortStringsSpec(t.keys);
    AscendingIsDistinct(ks);
    var d := RawDict(ks, t.vals);
    forall i | 0 <= i < |ks|
      ensures ks[i] in t.vals
    {
      assert ks[i] in multiset(t.keys);
    }
    forall k | k in t.vals
      ensures Listed(d, k)
    {
      KeyListed(t, k);
      assert k in multiset(ks);
    }
  }

  /** The rebuilt table: the same mapping, its keys in ascending order. */
  function SortByKey(t: Table): (r: Table)
    ensures r.vals == t.vals
    ensures Ascending(r.keys)
    ensures multiset(r.keys) == multiset(t.keys)
  {
    SortedKeys(t);
    RawDict(SortStrings(t.keys), t.vals)
  }
}
