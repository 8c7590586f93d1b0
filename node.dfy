/**
 * A router as a value: what it is created with, what changes, and what each
 * of its operations does to the routing table and to the interface queues.
 * An operation that meets a fault stops there and reports it, leaving the
 * state the router had reached.
 */
module Routing {
  import opened Common
  import opened Dicts
  import opened Packets
  import opened Literals
  import opened Interfaces
  import opened Seeding
  import opened Hops
  import opened Updates
  import opened Order

  /** Fixed at construction: the router's name, its neighbour costs, the queue bound. */
  datatype Config = Config(name: string, nbrs: Neighbours, maxSize: int)

  /** What changes: the routing table, and the in- and out-queue of each interface. */
  datatype Node = Node(table: Table, ins: seq<seq<string>>, outs: seq<seq<string>>)

  function EmptyQueues(k: nat): (r: seq<seq<string>>)
    ensures |r| == k && forall j :: 0 <= j < k ==> r[j] == []
  {
    seq(k, _ => [])
  }

  /** A new router: the seeded table and one empty interface per neighbour. */
  function Initial(cfg: Config): (n: Node)
    ensures |n.ins| == |n.outs| == |cfg.nbrs.keys|
    ensures forall j :: 0 <= j < |n.ins| ==> n.ins[j] == [] && n.outs[j] == []
    ensures cfg.name in n.table.vals
  {
    Node(InitialTable(cfg.name, cfg.nbrs), EmptyQueues(|cfg.nbrs.keys|), EmptyQueues(|cfg.nbrs.keys|))
  }

  /** A list index as Python reads it: a negative index counts from the end. */
  function PyIndex(ch: int, len: nat): (r: Result<nat>)
    ensures r.Ok? <==> -(len as int) <= ch < len
    ensures r.Err? ==> r.fault == BadIndex
    ensures r.Ok? ==> r.value < len && (if ch >= 0 then r.value == ch else r.value == len + ch)
  {
    if 0 <= ch < len then Ok(ch)
    else if -(len as int) <= ch < 0 then Ok(len + ch)
    else Err(BadIndex)
  }

  /**
   * Forwarding a data packet: choose the interface, then offer the packet's
   * encoding to that interface's out-queue; a full queue drops it.
   */
  function Forward(cfg: Config, n: Node, p: Packet): (r: (Node, Option<Fault>))
    ensures r.0.table == n.table && r.0.ins == n.ins && |r.0.outs| == |n.outs|
    ensures r.1.Some? ==> r.0 == n
  {
    match NextHop(cfg.nbrs, n.table, p.dst)
    case Err(f) => (n, Some(f))
    case Ok(h) =>
      match PyIndex(h.ch, |n.outs|)
      case Err(f) => (n, Some(f))
      case Ok(k) =>
        match Encode(p)
        case Err(f) => (n, Some(f))
        case Ok(w) => (n.(outs := n.outs[k := Offer(n.outs[k], cfg.maxSize, w)]), None)
  }

  /** A forwarded packet changes one out-queue, and only by the packet's encoding at its end. */
  lemma ForwardOneQueue(cfg: Config, n: Node, p: Packet)
    requires Forward(cfg, n, p).1.None?
    ensures KnownProtocol(p.prot)
    ensures exists k :: 0 <= k < |n.outs| && Forward(cfg, n, p).0.outs == n.outs[k := Offer(n.outs[k], cfg.maxSize, Encode(p).value)]
  {
    var k := PyIndex(NextHop(cfg.nbrs, n.table, p.dst).value.ch, |n.outs|).value;
    assert Forward(cfg, n, p).0.outs == n.outs[k := Offer(n.outs[k], cfg.maxSize, Encode(p).value)];
  }

  /** A packet for an attached host is offered to the out-queue of that host's last listed interface. */
  lemma ForwardToHost(cfg: Config, n: Node, p: Packet)
    requires IsHost(p.dst) && p.dst in cfg.nbrs.vals && cfg.nbrs.vals[p.dst].keys != []
    requires Forward(cfg, n, p).1.None?
    ensures PyIndex(LastLink(cfg.nbrs.vals[p.dst]), |n.outs|).Ok?
    ensures var k := PyIndex(LastLink(cfg.nbrs.vals[p.dst]), |n.outs|).value;
      Forward(cfg, n, p).0.outs == n.outs[k := Offer(n.outs[k], cfg.maxSize, Encode(p).value)]
  {
    NextHopToHost(cfg.nbrs, n.table, p.dst);
  }

  /** The routing update packet: destination 0, control protocol, the table as text. */
  function RoutesPacket(t: Table): Packet {
    Packet("0", CONTROL, TableStr(t))
  }

  /** Its encoding: five zeros, the control tag, then the table's text. */
  function RoutesWire(t: Table): (w: string)
    ensures w == "00000" + [ControlTag] + TableStr(t)
  {
    ControlDestinationEmpty(TableStr(t));
    Encode(RoutesPacket(t)).value
  }

  /** `send_routes(i)`: offers the routing update to interface `i`'s out-queue. */
  function SendRoutes(cfg: Config, n: Node, i: nat): (r: Node)
    requires i < |n.outs|
    ensures r.table == n.table && r.ins == n.ins && |r.outs| == |n.outs|
    ensures r.outs[i] == Offer(n.outs[i], cfg.maxSize, RoutesWire(n.table))
    ensures forall j :: 0 <= j < |n.outs| && j != i ==> r.outs[j] == n.outs[j]
  {
    n.(outs := n.outs[i := Offer(n.outs[i], cfg.maxSize, RoutesWire(n.table))])
  }

  /** Sending routing updates on interfaces 0 to k - 1, in that order. */
  function Flood(cfg: Config, n: Node, k: nat): (r: Node)
    requires k <= |n.outs|
    ensures r.table == n.table && r.ins == n.ins && |r.outs| == |n.outs|
    ensures k == 0 ==> r == n
  {
    if k == 0 then n else SendRoutes(cfg, Flood(cfg, n, k - 1), k - 1)
  }

  /** One more interface. */
  lemma FloodNext(cfg: Config, n: Node, k: nat)
    requires k < |n.outs|
    ensures Flood(cfg, n, k + 1) == SendRoutes(cfg, Flood(cfg, n, k), k)
  {
  }

  /** Flooding offers the same update once to each of the first k out-queues and touches nothing else. */
  lemma {:induction false} FloodEffect(cfg: Config, n: Node, k: nat)
    requires k <= |n.outs|
    ensures forall j :: 0 <= j < |n.outs| ==>
      Flood(cfg, n, k).outs[j] == if j < k then Offer(n.outs[j], cfg.maxSize, RoutesWire(n.table)) else n.outs[j]
  {
    hide Flood, SendRoutes;
    if k > 0 {
      FloodEffect(cfg, n, k - 1);
      FloodNext(cfg, n, k - 1);
    }
  }

  /**
   * `update_routes`: read the received table, relax the own table with it,
   * rebuild it in key order and, when a rule fired, flood the new table on
   * every interface. A fault stops the update with the partially relaxed
   * table, not rebuilt and not flooded.
   */
  function Update(cfg: Config, n: Node, p: Packet): (r: (Node, Option<Fault>))
    ensures r.0.ins == n.ins && |r.0.outs| == |n.outs|
    ensures r.1.Some? ==> r.0.outs == n.outs
    ensures ParseTable(p.data).None? ==> r == (n, Some(Malformed))
  {
    match ParseTable(p.data)
    case None => (n, Some(Malformed))
    case Some(nt) =>
      var x := RelaxAll(cfg.name, n.table, nt);
      if x.fault.Some? then (n.(table := x.table), x.fault)
      else
        var n1 := n.(table := SortByKey(x.table));
        (if x.fired then Flood(cfg, n1, |n1.outs|) else n1, None)
  }

  /**
   * Whatever the outcome, even a fault at a missing key, an update keeps
   * every destination and every reporter of the old table and raises none
   * of their costs. Only the key order may change, by the rebuild.
   */
  lemma UpdateGrows(cfg: Config, n: Node, p: Packet)
    ensures forall d :: d in n.table.vals ==>
      && d in Update(cfg, n, p).0.table.vals
      && forall q :: q in n.table.vals[d].vals ==>
           q in Update(cfg, n, p).0.table.vals[d].vals
           && Update(cfg, n, p).0.table.vals[d].vals[q] <= n.table.vals[d].vals[q]
  {
    if ParseTable(p.data).Some? {
      RelaxGrows(cfg.name, n.table, ParseTable(p.data).value);
    }
  }

  /**
   * A completed update leaves the relaxed table in ascending key order, and
   * offers its text to every out-queue exactly when the relaxation changed
   * the table; otherwise no queue changes.
   */
  lemma UpdateFloods(cfg: Config, n: Node, p: Packet)
    requires Update(cfg, n, p).1.None?
    ensures ParseTable(p.data).Some?
    ensures var x := RelaxAll(cfg.name, n.table, ParseTable(p.data).value);
      var r := Update(cfg, n, p).0;
      && r.table.vals == x.table.vals && Ascending(r.table.keys)
      && forall j :: 0 <= j < |n.outs| ==>
           r.outs[j] == if x.table != n.table then Offer(n.outs[j], cfg.maxSize, RoutesWire(r.table)) else n.outs[j]
  {
    var nt := ParseTable(p.data).value;
    var x := RelaxAll(cfg.name, n.table, nt);
    RelaxFires(cfg.name, n.table, nt);
    var n1 := n.(table := SortByKey(x.table));
    FloodEffect(cfg, n1, |n1.outs|);
  }

  /**
   * One interface's turn: take at most one packet from its in-queue, decode
   * it, and hand a data packet to forwarding and a control packet to the
   * routing update. Decoding yields no other protocol.
   */
  function Handle(cfg: Config, n: Node, i: nat): (r: (Node, Option<Fault>))
    requires i < |n.ins|
    ensures |r.0.ins| == |n.ins| && |r.0.outs| == |n.outs|
    ensures forall j :: 0 <= j < |n.ins| && j != i ==> r.0.ins[j] == n.ins[j]
    ensures r.0.ins[i] == if n.ins[i] == [] then [] else n.ins[i][1..]
  {
    if n.ins[i] == [] then (n, None)
    else
      var n1 := n.(ins := n.ins[i := n.ins[i][1..]]);
      match Decode(n.ins[i][0])
      case Err(f) => (n1, Some(f))
      case Ok(p) => if p.prot == DATA then Forward(cfg, n1, p) else Update(cfg, n1, p)
  }

  /** The turns of interfaces 0 to k - 1, in order, stopping at the first fault. */
  function Sweep(cfg: Config, n: Node, k: nat): (r: (Node, Option<Fault>))
    requires k <= |n.ins|
    ensures |r.0.ins| == |n.ins| && |r.0.outs| == |n.outs|
  {
    if k == 0 then (n, None)
    else
      var (m, f) := Sweep(cfg, n, k - 1);
      if f.Some? then (m, f) else Handle(cfg, m, k - 1)
  }

  lemma SweepZero(cfg: Config, n: Node)
    ensures Sweep(cfg, n, 0) == (n, None)
  {
  }

  /** One more turn, unless an earlier one faulted. */
  lemma SweepNext(cfg: Config, n: Node, k: nat)
    requires k < |n.ins|
    ensures Sweep(cfg, n, k + 1) ==
      if Sweep(cfg, n, k).1.Some? then Sweep(cfg, n, k) else Handle(cfg, Sweep(cfg, n, k).0, k)
  {
  }

  /** `process_queues`: one turn for every interface. */
  function Process(cfg: Config, n: Node): (r: (Node, Option<Fault>))
    ensures |r.0.ins| == |n.ins| && |r.0.outs| == |n.outs|
    ensures n.ins == [] ==> r == (n, None)
  {
    Sweep(cfg, n, |n.ins|)
  }

  /** The in-queues after the first k turns: each either untouched or short of exactly its oldest packet. */
  lemma {:induction false} SweepDequeues(cfg: Config, n: Node, k: nat)
    requires k <= |n.ins|
    ensures var r := Sweep(cfg, n, k);
      forall j :: 0 <= j < |n.ins| ==>
        && (r.0.ins[j] == n.ins[j] || (n.ins[j] != [] && r.0.ins[j] == n.ins[j][1..]))
        && (j >= k ==> r.0.ins[j] == n.ins[j])
        && (r.1.None? && j < k ==> r.0.ins[j] == if n.ins[j] == [] then [] else n.ins[j][1..])
  {
    hide Sweep, Handle, Forward, Update;
    if k == 0 {
      SweepZero(cfg, n);
    } else {
      SweepDequeues(cfg, n, k - 1);
      SweepNext(cfg, n, k - 1);
    }
  }

  /**
   * A sweep takes at most one packet from each in-queue and nothing from
   * anywhere else; a sweep without a fault takes the oldest packet of every
   * non-empty in-queue.
   */
  lemma ProcessDequeues(cfg: Config, n: Node)
    ensures var r := Process(cfg, n);
      forall j :: 0 <= j < |n.ins| ==>
        && (r.0.ins[j] == n.ins[j] || (n.ins[j] != [] && r.0.ins[j] == n.ins[j][1..]))
        && (r.1.None? ==> r.0.ins[j] == if n.ins[j] == [] then [] else n.ins[j][1..])
  {
    SweepDequeues(cfg, n, |n.ins|);
  }

  /** Once a turn faults, the later turns do not happen. */
  lemma {:induction false} SweepSticky(cfg: Config, n: Node, k: nat, k': nat)
    requires k <= k' <= |n.ins|
    requires Sweep(cfg, n, k).1.Some?
    ensures Sweep(cfg, n, k') == Sweep(cfg, n, k)
  {
    hide Handle;
    if k < k' {
      SweepSticky(cfg, n, k, k' - 1);
    }
  }
}
