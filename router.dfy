/**
 * The router as an object: its interfaces are shared `Interface` objects and
 * its routing table is a field that the update rewrites. Each operation is
 * proved to do to the router exactly what the corresponding function of
 * `Routing` does to its value, read off through `Abs()`.
 */
module Routers {
  import opened Common
  import opened Dicts
  import opened Packets
  import opened Literals
  import opened Interfaces
  import opened Seeding
  import opened Hops
  import opened Updates
  import opened Routing
  import opened Order

  class Router {
    const name: string
    /** `cost_D`: neighbour name to {interface number: link cost}. */
    const costD: Neighbours
    const maxQueueSize: int
    /** One interface per neighbour. */
    const intfs: seq<Interface>
    /** `rt_tbl_D`: destination to {router: cost}. */
    var rtTbl: Table

    ghost function Cfg(): Config {
      Config(name, costD, maxQueueSize)
    }

    /** Distinct interfaces, one per neighbour, each bounded by the router's queue size. */
    ghost predicate Valid()
      reads intfs
    {
      && |intfs| == |costD.keys|
      && (forall a, b :: 0 <= a < b < |intfs| ==> intfs[a] != intfs[b])
      && (forall k :: 0 <= k < |intfs| ==> intfs[k].maxSize == maxQueueSize && intfs[k].Valid())
    }

    ghost function Ins(): (r: seq<seq<string>>)
      reads intfs
      ensures |r| == |intfs|
    {
      seq(|intfs|, k reads intfs requires 0 <= k < |intfs| => intfs[k].inQueue)
    }

    ghost function Outs(): (r: seq<seq<string>>)
      reads intfs
      ensures |r| == |intfs|
    {
      seq(|intfs|, k reads intfs requires 0 <= k < |intfs| => intfs[k].outQueue)
    }

    /** The router as a value. */
    ghost function Abs(): Node
      reads this, intfs
    {
      Node(rtTbl, Ins(), Outs())
    }

    /** Every interface of neighbour `key` overwrites its entry with the own cost over that interface. */
    static method SeedNeighbour(name: string, t: Table, key: string, val: Dict<int, int>) returns (r: Table)
      ensures r == SeedRow(name, t, key, val, |val.keys|)
    {
      hide SeedRow, WellFormed;
      SeedRowZero(name, t, key, val);
      r := t;
      var b := 0;
      while b < |val.keys|
        invariant 0 <= b <= |val.keys|
        invariant r == SeedRow(name, t, key, val, b)
      {
        SeedRowNext(name, t, key, val, b);
        KeyIn(val, b);
        r := Store(r, key, Single(name, val.vals[val.keys[b]]));
        b := b + 1;
      }
    }

    /**
     * Seeds the table from the neighbour costs, neighbour by neighbour, and
     * adds the router's own entry last.
     */
    static method SeedRoutes(name: string, costD: Neighbours) returns (t: Table)
      ensures t == InitialTable(name, costD)
    {
      hide SeedRow;
      t := Empty();
      var a := 0;
      while a < |costD.keys|
        invariant 0 <= a <= |costD.keys|
        invariant t == SeedRows(name, costD, a)
      {
        var key := costD.keys[a];
        SeedRowsNext(name, costD, a);
        t := SeedNeighbour(name, t, key, costD.vals[key]);
        a := a + 1;
      }
      t := Store(t, name, Single(name, 0));
    }

    constructor (name: string, costD: Neighbours, maxQueueSize: int)
      ensures Valid()
      ensures this.name == name && this.costD == costD && this.maxQueueSize == maxQueueSize
      ensures forall k :: 0 <= k < |intfs| ==> fresh(intfs[k])
      ensures Abs() == Initial(Cfg())
    {
      hide InitialTable, WellFormed;
      var table := SeedRoutes(name, costD);
      var list: seq<Interface> := [];
      while |list| < |costD.keys|
        invariant |list| <= |costD.keys|
        invariant forall a, b :: 0 <= a < b < |list| ==> list[a] != list[b]
        invariant forall k :: 0 <= k < |list| ==> fresh(list[k])
        invariant forall k :: 0 <= k < |list| ==>
          list[k].maxSize == maxQueueSize && list[k].Valid() && list[k].inQueue == [] && list[k].outQueue == []
      {
        var intf := new Interface(maxQueueSize);
        list := list + [intf];
      }
      this.name := name;
      this.costD := costD;
      this.maxQueueSize := maxQueueSize;
      intfs := list;
      rtTbl := table;
      new;
      assert Ins() == EmptyQueues(|costD.keys|);
      assert Outs() == EmptyQueues(|costD.keys|);
    }

    /** Takes the oldest packet of interface `i`'s in-queue, if any. */
    method TakeIn(i: nat) returns (pkt: Option<string>)
      requires Valid() && i < |intfs|
      modifies intfs[i]
      ensures Valid()
      ensures var n := old(Abs());
        && (n.ins[i] == [] ==> pkt == None && Abs() == n)
        && (n.ins[i] != [] ==> pkt == Some(n.ins[i][0]) && Abs() == n.(ins := n.ins[i := n.ins[i][1..]]))
    {
      pkt := intfs[i].Get("in");
      assert Outs() == old(Outs());
      if old(intfs[i].inQueue) == [] {
        assert Ins() == old(Ins());
      } else {
        assert Ins() == old(Ins())[i := old(Ins())[i][1..]];
      }
    }

    /**
     * Offers the wire string `w` to interface `k`'s out-queue; when the queue
     * is full the packet is lost.
     */
    method OfferOut(k: nat, w: string)
      requires Valid() && k < |intfs|
      modifies intfs[k]
      ensures Valid()
      ensures var n := old(Abs());
        Abs() == n.(outs := n.outs[k := Offer(n.outs[k], maxQueueSize, w)])
    {
      var _ := intfs[k].Put(w, "out");
      assert Ins() == old(Ins());
      assert Outs() == old(Outs())[k := Offer(old(Outs())[k], maxQueueSize, w)];
    }

    /**
     * The interface choice of `forward_packet`, over the interfaces of one
     * neighbour `router`, continuing the pass from `h`.
     */
    static method ChooseAmong(t: Table, dst: string, router: string, val: Dict<int, int>, ghost pre: seq<Link>, h: Hop)
      returns (r: Result<Hop>)
      requires HopFold(t, dst, pre) == Ok(h)
      ensures r == HopFold(t, dst, pre + Row(router, val, |val.keys|))
    {
      hide HopFold;
      var ch, destFound, f := h.ch, h.found, h.best;
      assert pre + Row(router, val, 0) == pre;
      var b := 0;
      while b < |val.keys|
        invariant 0 <= b <= |val.keys|
        invariant HopFold(t, dst, pre + Row(router, val, b)) == Ok(Hop(ch, destFound, f))
      {
        var interface := val.keys[b];
        var cost := val.vals[interface];
        HopSnoc(t, dst, pre + Row(router, val, b), (router, interface, cost));
        assert pre + Row(router, val, b + 1) == pre + Row(router, val, b) + [(router, interface, cost)];
        if router == [] || (router[0] != 'H' && !destFound && !(dst in t.vals && router in t.vals[dst].vals)) {
          RowPrefix(router, val, b + 1, |val.keys|);
          var rest := Row(router, val, |val.keys|)[b + 1..];
          assert pre + Row(router, val, |val.keys|) == pre + Row(router, val, b + 1) + rest;
          HopSticky(t, dst, pre + Row(router, val, b + 1), rest);
          return if router == [] then Err(BadIndex) else Err(MissingKey);
        }
        if router[0] == 'H' {
          if router == dst {
            ch := interface;
            destFound := true;
          }
        } else if !destFound {
          if f.None? || cost + t.vals[dst].vals[router] < f.value {
            f := Some(cost + t.vals[dst].vals[router]);
            ch := interface;
          }
        }
        b := b + 1;
      }
      r := Ok(Hop(ch, destFound, f));
    }

    /**
     * The interface choice of `forward_packet`: one pass over every
     * interface of every neighbour, in the order they are listed.
     */
    method ChooseInterface(dst: string) returns (r: Result<Hop>)
      ensures r == NextHop(costD, rtTbl, dst)
    {
      r := Ok(Start);
      var a := 0;
      while a < |costD.keys|
        invariant 0 <= a <= |costD.keys|
        invariant r.Ok? && HopFold(rtTbl, dst, Items(costD, a)) == r
      {
        var router := costD.keys[a];
        r := ChooseAmong(rtTbl, dst, router, costD.vals[router], Items(costD, a), r.value);
        assert Items(costD, a + 1) == Items(costD, a) + Row(router, costD.vals[router], |costD.vals[router].keys|);
        if r.Err? {
          HopStopsAfter(costD, rtTbl, dst, a);
          return;
        }
        a := a + 1;
      }
    }

    /** `forward_packet`: offers the encoded packet to the chosen interface's out-queue. */
    method ForwardPacket(p: Packet) returns (fault: Option<Fault>)
      requires Valid()
      modifies intfs
      ensures Valid()
      ensures (Abs(), fault) == Forward(Cfg(), old(Abs()), p)
    {
      var hop := ChooseInterface(p.dst);
      if hop.Err? {
        return Some(hop.fault);
      }
      var k := PyIndex(hop.value.ch, |intfs|);
      if k.Err? {
        return Some(k.fault);
      }
      var wire := Encode(p);
      if wire.Err? {
        return Some(wire.fault);
      }
      OfferOut(k.value, wire.value);
      fault := None;
    }

    /** Offers the routing update, the table as text, to interface `i`'s out-queue. */
    method SendRoutes(i: nat)
      requires Valid() && i < |intfs|
      modifies intfs
      ensures Valid()
      ensures Abs() == Routing.SendRoutes(Cfg(), old(Abs()), i)
    {
      var p := Packet("0", CONTROL, TableStr(rtTbl));
      var wire := Encode(p);
      ControlDestinationEmpty(TableStr(rtTbl));
      OfferOut(i, wire.value);
    }

    /**
     * One reported cost `c` from router `rtr` to `dest`, checked against the
     * rules in the order the router checks them. A missing own cost stops
     * the update with the table as it stands.
     */
    static method RelaxEntry(name: string, s: Relaxed, dest: string, rtr: string, c: int) returns (r: Relaxed)
      requires s.fault.None?
      ensures r == Apply(name, s, dest, rtr, c)
    {
      hide Apply, NewRow, WellFormed;
      var t, update := s.table, s.fired;
      if dest in t.vals && rtr !in t.vals[dest].vals {
        RuleA(name, s, dest, rtr, c);
        update := true;
        t := Store(t, dest, Store(t.vals[dest], rtr, c));
      } else if dest !in t.vals {
        RuleB(name, s, dest, rtr, c);
        update := true;
        t := Store(t, dest, Empty());
        if !(rtr in t.vals && name in t.vals[rtr].vals) {
          return Relaxed(t, update, Some(MissingKey));
        }
        t := Store(t, dest, Store(t.vals[dest], name, c + t.vals[rtr].vals[name]));
      } else if c < t.vals[dest].vals[rtr] {
        RuleC(name, s, dest, rtr, c);
        update := true;
        t := Store(t, dest, Store(t.vals[dest], rtr, c));
      } else {
        RuleD(name, s, dest, rtr, c);
        if !(rtr in t.vals && name in t.vals[rtr].vals && name in t.vals[dest].vals) {
          return Relaxed(t, update, Some(MissingKey));
        }
        if c + t.vals[rtr].vals[name] < t.vals[dest].vals[name] {
          update := true;
          t := Store(t, dest, Store(t.vals[dest], name, c + t.vals[rtr].vals[name]));
        }
      }
      r := Relaxed(t, update, None);
    }

    /** Every reporter of destination `dest` in the received table, in order, stopping at a fault. */
    static method RelaxDestination(name: string, s: Relaxed, dest: string, row: Costs) returns (r: Relaxed)
      requires s.fault.None?
      ensures r == RelaxRow(name, s, dest, row, |row.keys|)
    {
      hide Apply, NewRow, WellFormed;
      r := s;
      var b := 0;
      while b < |row.keys|
        invariant 0 <= b <= |row.keys|
        invariant r == RelaxRow(name, s, dest, row, b) && r.fault.None?
      {
        var rtr := row.keys[b];
        KeyIn(row, b);
        RowNext(name, s, dest, row, b);
        r := RelaxEntry(name, r, dest, rtr, row.vals[rtr]);
        if r.fault.Some? {
          RowSticky(name, s, dest, row, b + 1, |row.keys|);
          return;
        }
        b := b + 1;
      }
    }

    /** The relaxation of `t` with every destination of the received table `nt`, stopping at a fault. */
    static method RelaxTable(name: string, t: Table, nt: Table) returns (r: Relaxed)
      ensures r == RelaxAll(name, t, nt)
    {
      hide RelaxRow, Apply, NewRow;
      r := Relaxed(t, false, None);
      var a := 0;
      while a < |nt.keys|
        invariant 0 <= a <= |nt.keys|
        invariant r == RelaxRows(name, t, nt, a) && r.fault.None?
      {
        var dest := nt.keys[a];
        RowsNext(name, t, nt, a);
        r := RelaxDestination(name, r, dest, nt.vals[dest]);
        if r.fault.Some? {
          RowsSticky(name, t, nt, a + 1, |nt.keys|);
          return;
        }
        a := a + 1;
      }
    }

    /** A copy of `t` with its entries inserted in ascending key order. */
    static method SortedCopy(t: Table) returns (r: Table)
      ensures r == SortByKey(t)
    {
      ghost var sorted := SortByKey(t);
      var keys := SortStrings(t.keys);
      r := Empty();
      assert r == Prefix(sorted, 0);
      var x := 0;
      while x < |keys|
        invariant 0 <= x <= |keys|
        invariant r == Prefix(sorted, x)
      {
        PrefixStep(sorted, x);
        r := Store(r, keys[x], t.vals[keys[x]]);
        x := x + 1;
      }
      PrefixAll(sorted);
    }

    /** Offers the routing update on every interface, in order. */
    method Flood()
      requires Valid()
      modifies intfs
      ensures Valid()
      ensures Abs() == Routing.Flood(Cfg(), old(Abs()), |intfs|)
    {
      hide Routing.Flood, Routing.SendRoutes, WellFormed, Ins, Outs, Valid;
      var i := 0;
      while i < |intfs|
        invariant 0 <= i <= |intfs|
        invariant Valid()
        invariant Abs() == Routing.Flood(Cfg(), old(Abs()), i)
      {
        FloodNext(Cfg(), old(Abs()), i);
        SendRoutes(i);
        i := i + 1;
      }
    }

    /**
     * `update_routes`: relaxes the table with the received one, rebuilds it
     * in key order, and floods it on every interface when a rule fired.
     */
    method UpdateRoutes(p: Packet) returns (fault: Option<Fault>)
      requires Valid()
      modifies this, intfs
      ensures Valid()
      ensures (Abs(), fault) == Update(Cfg(), old(Abs()), p)
    {
      hide ParseTable, RelaxAll, RelaxRows, RelaxRow, Apply, NewRow, SortByKey, WellFormed;
      var parsed := ParseTable(p.data);
      if parsed.None? {
        return Some(Malformed);
      }
      var x := RelaxTable(name, rtTbl, parsed.value);
      rtTbl := x.table;
      if x.fault.Some? {
        return x.fault;
      }
      rtTbl := SortedCopy(rtTbl);
      if x.fired {
        Flood();
      }
      fault := None;
    }

    /**
     * Interface `i`'s turn: take at most one packet from its in-queue and
     * forward it or apply it as a routing update.
     */
    method Turn(i: nat) returns (fault: Option<Fault>)
      requires Valid() && i < |intfs|
      modifies this, intfs
      ensures Valid()
      ensures (Abs(), fault) == Handle(Cfg(), old(Abs()), i)
    {
      hide Forward, Update;
      var pkt := TakeIn(i);
      if pkt.None? {
        return None;
      }
      var p := Decode(pkt.value);
      if p.Err? {
        return Some(p.fault);
      }
      if p.value.prot == DATA {
        fault := ForwardPacket(p.value);
      } else {
        fault := UpdateRoutes(p.value);
      }
    }

    /**
     * `process_queues`: one turn per interface, in order. The first fault
     * ends the call.
     */
    method ProcessQueues() returns (fault: Option<Fault>)
      requires Valid()
      modifies this, intfs
      ensures Valid()
      ensures (Abs(), fault) == Process(Cfg(), old(Abs()))
    {
      hide Sweep, Handle, Forward, Update;
      var i := 0;
      SweepZero(Cfg(), old(Abs()));
      while i < |intfs|
        invariant 0 <= i <= |intfs|
        invariant Valid()
        invariant Sweep(Cfg(), old(Abs()), i) == (Abs(), None)
      {
        SweepNext(Cfg(), old(Abs()), i);
        fault := Turn(i);
        if fault.Some? {
          SweepSticky(Cfg(), old(Abs()), i + 1, |intfs|);
          return;
        }
        i := i + 1;
      }
      fault := None;
    }
  }
}
