/**
 * The choice of the outgoing interface for a data packet: a single pass over
 * the neighbour costs in iteration order, preferring an attached host that is
 * the destination and otherwise the router neighbour with the least total
 * cost, the first one seen on ties.
 */
module Hops {
  import opened Common
  import opened Dicts
  import opened Literals
  import opened Seeding

  /** One step of the pass: a neighbour name, one of its interfaces, and that link's cost. */
  type Link = (string, int, int)

  /** The pass's variables: chosen interface, whether the destination is an attached host, best cost so far. */
  datatype Hop = Hop(ch: int, found: bool, best: Option<int>)

  /** Before the first step: interface 1, nothing found, no candidate yet. */
  const Start := Hop(1, false, None)

  /** A neighbour whose name starts with 'H' is a host; any other non-empty name is a router. */
  predicate IsHost(r: string) {
    r != [] && r[0] == 'H'
  }

  predicate IsRouter(r: string) {
    r != [] && r[0] != 'H'
  }

  /** The table reports a cost from router `r` to `dst`. */
  predicate Known(t: Table, dst: string, r: string) {
    dst in t.vals && r in t.vals[dst].vals
  }

  /** The total cost to `dst` through the link `c`. */
  function Via(t: Table, dst: string, c: Link): int
    requires Known(t, dst, c.0)
  {
    c.2 + t.vals[dst].vals[c.0]
  }

  /**
   * One step. An empty neighbour name cannot be indexed, and a router whose
   * cost to `dst` is missing cannot be looked up; both abort the pass.
   */
  function HopStep(t: Table, dst: string, h: Hop, c: Link): (r: Result<Hop>)
    ensures r.Err? <==> c.0 == [] || (IsRouter(c.0) && !h.found && !Known(t, dst, c.0))
    ensures r.Err? ==> r.fault == if c.0 == [] then BadIndex else MissingKey
    ensures r.Ok? ==> (r.value.found <==> h.found || (IsHost(c.0) && c.0 == dst))
    ensures r.Ok? && h.best.Some? ==> r.value.best.Some? && r.value.best.value <= h.best.value
  {
    if c.0 == [] then Err(BadIndex)
    else if c.0[0] == 'H' then Ok(if c.0 == dst then Hop(c.1, true, h.best) else h)
    else if h.found then Ok(h)
    else if !Known(t, dst, c.0) then Err(MissingKey)
    else
      var v := Via(t, dst, c);
      Ok(if h.best.None? || v < h.best.value then Hop(c.1, false, Some(v)) else h)
  }

  /** The pass over the links `cs`, stopping at the first fault. */
  function HopFold(t: Table, dst: string, cs: seq<Link>): (r: Result<Hop>)
    ensures r.Err? ==> r.fault == BadIndex || r.fault == MissingKey
  {
    if cs == [] then Ok(Start)
    else
      match HopFold(t, dst, cs[..|cs| - 1])
      case Err(f) => Err(f)
      case Ok(h) => HopStep(t, dst, h, cs[|cs| - 1])
  }

  /** One more link: a step from where the pass stood, unless it had already stopped. */
  lemma HopSnoc(t: Table, dst: string, cs: seq<Link>, x: Link)
    ensures HopFold(t, dst, cs + [x]) ==
      if HopFold(t, dst, cs).Err? then HopFold(t, dst, cs) else HopStep(t, dst, HopFold(t, dst, cs).value, x)
  {
    assert (cs + [x])[..|cs|] == cs;
  }

  /** The pass over all neighbour links of a router. */
  function NextHop(nbrs: Neighbours, t: Table, dst: string): (r: Result<Hop>)
    ensures r.Err? ==> r.fault == BadIndex || r.fault == MissingKey
  {
    HopFold(t, dst, AllItems(nbrs))
  }

  /** Link `j` is a router link of least total cost, and every router link before it costs strictly more. */
  ghost predicate FirstMin(t: Table, dst: string, cs: seq<Link>, j: int) {
    && 0 <= j < |cs| && IsRouter(cs[j].0) && Known(t, dst, cs[j].0)
    && (forall k :: 0 <= k < |cs| && IsRouter(cs[k].0) && Known(t, dst, cs[k].0) ==>
          Via(t, dst, cs[j]) <= Via(t, dst, cs[k]))
    && (forall k :: 0 <= k < j && IsRouter(cs[k].0) && Known(t, dst, cs[k].0) ==>
          Via(t, dst, cs[j]) < Via(t, dst, cs[k]))
  }

  /** A fault in a prefix is the fault of the whole pass. */
  lemma {:induction false} HopSticky(t: Table, dst: string, cs: seq<Link>, more: seq<Link>)
    requires HopFold(t, dst, cs).Err?
    ensures HopFold(t, dst, cs + more) == HopFold(t, dst, cs)
  {
    if more != [] {
      var all := cs + more;
      assert all[..|all| - 1] == cs + more[..|more| - 1];
      HopSticky(t, dst, cs, more[..|more| - 1]);
    } else {
      assert cs + more == cs;
    }
  }

  /** A completed pass met no empty neighbour name. */
  lemma {:induction false} HopNames(t: Table, dst: string, cs: seq<Link>)
    requires HopFold(t, dst, cs).Ok?
    ensures forall j :: 0 <= j < |cs| ==> cs[j].0 != []
  {
    if cs != [] {
      HopNames(t, dst, cs[..|cs| - 1]);
    }
  }

  /** The destination is found exactly when it is a host listed among the neighbours. */
  lemma {:induction false} HopFound(t: Table, dst: string, cs: seq<Link>)
    requires HopFold(t, dst, cs).Ok?
    ensures HopFold(t, dst, cs).value.found <==> IsHost(dst) && exists j :: 0 <= j < |cs| && cs[j].0 == dst
  {
    if cs != [] {
      var pre := cs[..|cs| - 1];
      HopFound(t, dst, pre);
      if HopFold(t, dst, pre).value.found {
        var j :| 0 <= j < |pre| && pre[j].0 == dst;
        assert cs[j].0 == dst;
      }
      if IsHost(dst) && exists j :: 0 <= j < |cs| && cs[j].0 == dst {
        var j :| 0 <= j < |cs| && cs[j].0 == dst;
        if j < |pre| {
          assert pre[j].0 == dst;
        }
      }
    }
  }

  /** Over a router's neighbour costs: found exactly when the destination is a host neighbour with an interface. */
  lemma NextHopFound(nbrs: Neighbours, t: Table, dst: string)
    requires NextHop(nbrs, t, dst).Ok?
    ensures NextHop(nbrs, t, dst).value.found <==> IsHost(dst) && dst in nbrs.vals && nbrs.vals[dst].keys != []
  {
    var cs := AllItems(nbrs);
    HopFound(t, dst, cs);
    if NextHop(nbrs, t, dst).value.found {
      var j :| 0 <= j < |cs| && cs[j].0 == dst;
      AllItemsMembers(nbrs, cs[j]);
      KeyListed(nbrs.vals[dst], cs[j].1);
    }
    if IsHost(dst) && dst in nbrs.vals && nbrs.vals[dst].keys != [] {
      var links := nbrs.vals[dst];
      KeyIn(links, 0);
      var x := (dst, links.keys[0], links.vals[links.keys[0]]);
      AllItemsMembers(nbrs, x);
      var j :| 0 <= j < |cs| && cs[j] == x;
      assert cs[j].0 == dst;
    }
  }

  /** When the destination is not found, the pass looked up every router's cost, and all were there. */
  lemma {:induction false} HopKnown(t: Table, dst: string, cs: seq<Link>)
    requires HopFold(t, dst, cs).Ok? && !HopFold(t, dst, cs).value.found
    ensures forall j :: 0 <= j < |cs| && IsRouter(cs[j].0) ==> Known(t, dst, cs[j].0)
  {
    if cs != [] {
      var pre := cs[..|cs| - 1];
      HopKnown(t, dst, pre);
    }
  }

  /** Non-empty names and known router costs are enough for the pass to complete. */
  lemma {:induction false} HopCompletes(t: Table, dst: string, cs: seq<Link>)
    requires forall j :: 0 <= j < |cs| ==> cs[j].0 != [] && (IsRouter(cs[j].0) ==> Known(t, dst, cs[j].0))
    ensures HopFold(t, dst, cs).Ok?
  {
    if cs != [] {
      HopCompletes(t, dst, cs[..|cs| - 1]);
    }
  }

  /**
   * When the destination is not an attached host, the pass completes exactly
   * when no neighbour name is empty and the table holds every router
   * neighbour's cost to the destination.
   */
  lemma HopCompletesIff(t: Table, dst: string, cs: seq<Link>)
    requires !IsHost(dst) || forall j :: 0 <= j < |cs| ==> cs[j].0 != dst
    ensures HopFold(t, dst, cs).Ok? <==>
      forall j :: 0 <= j < |cs| ==> cs[j].0 != [] && (IsRouter(cs[j].0) ==> Known(t, dst, cs[j].0))
  {
    if HopFold(t, dst, cs).Ok? {
      HopNames(t, dst, cs);
      HopFound(t, dst, cs);
      HopKnown(t, dst, cs);
    } else if forall j :: 0 <= j < |cs| ==> cs[j].0 != [] && (IsRouter(cs[j].0) ==> Known(t, dst, cs[j].0)) {
      HopCompletes(t, dst, cs);
    }
  }

  /** An attached host that is the destination wins: its last listed link is chosen, wherever it comes. */
  lemma {:induction false} HopHostWins(t: Table, dst: string, cs: seq<Link>, j: nat)
    requires HopFold(t, dst, cs).Ok?
    requires IsHost(dst) && j < |cs| && cs[j].0 == dst
    requires forall l :: j < l < |cs| ==> cs[l].0 != dst
    ensures HopFold(t, dst, cs).value.ch == cs[j].1
  {
    var pre := cs[..|cs| - 1];
    if j < |pre| {
      HopHostWins(t, dst, pre, j);
      assert pre[j].0 == dst;
      HopFound(t, dst, pre);
    }
  }

  /** What the pass has established about the links `cs` when it has not found the destination. */
  ghost predicate ArgminSoFar(t: Table, dst: string, cs: seq<Link>, h: Hop) {
    && (h.best.None? <==> forall j :: 0 <= j < |cs| ==> !IsRouter(cs[j].0))
    && (h.best.None? ==> h.ch == 1)
    && (h.best.Some? ==> exists j :: FirstMin(t, dst, cs, j) && h.ch == cs[j].1 && h.best.value == Via(t, dst, cs[j]))
  }

  /** A router link cheaper than every earlier one becomes the choice. */
  lemma ArgminTake(t: Table, dst: string, pre: seq<Link>, h: Hop, x: Link)
    requires ArgminSoFar(t, dst, pre, h)
    requires forall j :: 0 <= j < |pre| && IsRouter(pre[j].0) ==> Known(t, dst, pre[j].0)
    requires IsRouter(x.0) && Known(t, dst, x.0) && (h.best.None? || Via(t, dst, x) < h.best.value)
    ensures ArgminSoFar(t, dst, pre + [x], Hop(x.1, false, Some(Via(t, dst, x))))
  {
    var cs := pre + [x];
    assert forall j :: 0 <= j < |pre| ==> cs[j] == pre[j];
    if h.best.Some? {
      var j :| FirstMin(t, dst, pre, j) && h.ch == pre[j].1 && h.best.value == Via(t, dst, pre[j]);
    }
    assert FirstMin(t, dst, cs, |pre|);
  }

  /** Any other link leaves the choice as it was. */
  lemma ArgminKeep(t: Table, dst: string, pre: seq<Link>, h: Hop, x: Link)
    requires ArgminSoFar(t, dst, pre, h)
    requires !IsRouter(x.0) || (h.best.Some? && Known(t, dst, x.0) && Via(t, dst, x) >= h.best.value)
    ensures ArgminSoFar(t, dst, pre + [x], h)
  {
    var cs := pre + [x];
    assert forall j :: 0 <= j < |pre| ==> cs[j] == pre[j];
    if h.best.Some? {
      var j :| FirstMin(t, dst, pre, j) && h.ch == pre[j].1 && h.best.value == Via(t, dst, pre[j]);
      assert FirstMin(t, dst, cs, j);
    }
  }

  lemma ArgminStep(t: Table, dst: string, pre: seq<Link>, h: Hop, x: Link)
    requires ArgminSoFar(t, dst, pre, h) && !h.found
    requires forall j :: 0 <= j < |pre| && IsRouter(pre[j].0) ==> Known(t, dst, pre[j].0)
    requires HopStep(t, dst, h, x).Ok? && !HopStep(t, dst, h, x).value.found
    ensures ArgminSoFar(t, dst, pre + [x], HopStep(t, dst, h, x).value)
  {
    if IsRouter(x.0) && (h.best.None? || Via(t, dst, x) < h.best.value) {
      ArgminTake(t, dst, pre, h, x);
    } else {
      ArgminKeep(t, dst, pre, h, x);
    }
  }

  /**
   * Without an attached host as destination, the chosen interface is that of
   * the first router link of least total cost, and stays 1 when there is no
   * router link at all.
   */
  lemma {:induction false} HopArgmin(t: Table, dst: string, cs: seq<Link>)
    requires HopFold(t, dst, cs).Ok? && !HopFold(t, dst, cs).value.found
    ensures ArgminSoFar(t, dst, cs, HopFold(t, dst, cs).value)
  {
    if cs != [] {
      var pre := cs[..|cs| - 1];
      HopArgmin(t, dst, pre);
      HopKnown(t, dst, pre);
      assert cs == pre + [cs[|cs| - 1]];
      ArgminStep(t, dst, pre, HopFold(t, dst, pre).value, cs[|cs| - 1]);
    }
  }

  /** A fault met by the end of neighbour `a`'s links is the fault of the whole pass. */
  lemma HopStopsAfter(nbrs: Neighbours, t: Table, dst: string, a: nat)
    requires a < |nbrs.keys|
    requires HopFold(t, dst, Items(nbrs, a + 1)).Err?
    ensures NextHop(nbrs, t, dst) == HopFold(t, dst, Items(nbrs, a + 1))
  {
    ItemsGrow(nbrs, a + 1, |nbrs.keys|);
    var all := AllItems(nbrs);
    var pre := Items(nbrs, a + 1);
    assert all == pre + all[|pre|..];
    HopSticky(t, dst, pre, all[|pre|..]);
  }

  /** The last interface listed for a neighbour. */
  function LastLink(links: Dict<int, int>): int
    requires links.keys != []
  {
    links.keys[|links.keys| - 1]
  }

  /**
   * A data packet for an attached host goes out on that host's last listed
   * interface, whatever the host's position among the neighbours.
   */
  lemma NextHopToHost(nbrs: Neighbours, t: Table, dst: string)
    requires IsHost(dst) && dst in nbrs.vals && nbrs.vals[dst].keys != []
    requires NextHop(nbrs, t, dst).Ok?
    ensures NextHop(nbrs, t, dst).value.ch == LastLink(nbrs.vals[dst])
  {
    hide WellFormed;
    KeyListed(nbrs, dst);
    var i :| 0 <= i < |nbrs.keys| && nbrs.keys[i] == dst;
    var links := nbrs.vals[dst];
    var cs := AllItems(nbrs);
    ItemsGrow(nbrs, i + 1, |nbrs.keys|);
    var upto := Items(nbrs, i + 1);
    assert upto == Items(nbrs, i) + Row(dst, links, |links.keys|);
    var j := |upto| - 1;
    KeyIn(links, |links.keys| - 1);
    KeyNotLater(nbrs, i);
    assert upto[j] == (dst, LastLink(links), links.vals[LastLink(links)]);
    assert cs[j] == upto[j];
    forall l | j < l < |cs|
      ensures cs[l].0 != dst
    {
      assert cs[l].0 in nbrs.keys[i + 1..];
    }
    HopHostWins(t, dst, cs, j);
  }
}
