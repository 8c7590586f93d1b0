# Distance-vector router model

A Dafny model of the router in `network_3.py`, a small network-layer simulator.
A router owns one interface per neighbour; each interface is a pair of FIFO
queues of wire strings. The router keeps a routing table
`{destination: {router: cost}}` seeded from its neighbour costs
`{neighbour: {interface: cost}}`. On each pass over its interfaces it takes at
most one packet from each in-queue. A data packet is forwarded on the interface
that leads to the destination host, or else on the one with the least total
cost. A control packet carries another router's table as text. The router
merges that table into its own with four rules, rebuilds its table in key
order, and floods it to every neighbour when something changed.

The model is in two layers:

- A value layer gives the meaning of each operation:
  - `Packets`: the packet codec.
  - `Literals`: the `str()` / `literal_eval` text of a table.
  - `Seeding`: the initial table.
  - `Hops`: the interface choice.
  - `Updates`: the merge rules.
  - `Routing`: a whole router as a `Node` of table and queues.
  Python's insertion-ordered dicts are the `Dicts.Dict` type, keys in order over a map. Python's string ordering and `sorted` are in `Order`. `zfill` and `strip('0')` are in `Text`.
- An imperative layer has the classes `Interfaces.Interface` and `Routers.Router`. Their methods update fields and loop as the source does. Each `Router` method is proved to leave the router's abstract state `Abs()` equal to what the value layer prescribes for the old state.

An exception the source lets escape becomes a `Fault` result. Examples are a `KeyError` in a table lookup, an `IndexError` on the interface list or on an empty neighbour name, an unknown protocol, and an unparsable update. The operation stops there, and the state it has reached is kept.

## Model

| member | source | states |
|---|---|---|
| Interfaces.Interface.constructor | network_3.py:9-11 | both queues start empty, bounded by the given size |
| Interfaces.Interface.Get | network_3.py:15-28 | for "in" the oldest in-queue packet is removed and returned, otherwise the oldest out-queue packet; an empty queue yields None and is unchanged; the other queue is untouched; the bound holds |
| Interfaces.Interface.Put | network_3.py:34-40 | for "out" the packet is appended to the out-queue, otherwise to the in-queue; a full bounded queue refuses it and stays as it was; the other queue is untouched; the bound holds |
| Packets.Encode | network_3.py:62-71 | succeeds exactly for the protocols data and control, and then is the destination zero-filled to five characters, tag '1' or '2', and the payload unchanged; any other protocol is an unknown-protocol fault |
| Packets.Decode | network_3.py:76-86 | succeeds exactly when the sixth character is '1' or '2'; the destination is the first five characters with zeros stripped from both ends, the payload is everything after the tag; otherwise the fault carries the (possibly short) tag field |
| Packets.DecodeEncode | network_3.py:62-86 | for a destination of at most five characters (a longer one is not cut back to five by `zfill`, so its tail would be read as the tag), decoding an encoded packet restores protocol and payload, and gives the destination as `strip('0')` of its zero-filled field |
| Packets.PaddingSurvives | network_3.py:63-77 | a destination of at most five characters comes back unchanged from zero-filling and stripping exactly when it has no '0' at either end and a sign only alone or in a full field |
| Packets.RoundTrip | network_3.py:62-86 | decode(encode(p)) == p holds exactly for the destinations that survive the padding |
| Packets.TrailingZeroLost | network_3.py:77 | a packet for "H10" arrives addressed to "H1" |
| Packets.ControlDestinationEmpty | network_3.py:257 | a routing update is addressed to 0, goes out as "00000" then '2' then the table text, and arrives with an empty destination |
| Dicts.Store | network_3.py:282 | `d[k] = v` maps k to v and keeps every other key's value; an existing key keeps its place, a new key goes last |
| Text.ZFill | network_3.py:63 | a string of at least the width is unchanged; a shorter one is padded to the width with zeros placed after a leading sign, if there is one, and before everything else |
| Text.Strip0 | network_3.py:77 | the input is the result with some zeros before it and some after it; the result has no '0' at either end, and equals the input when the input has none |
| Literals.DictRoundTrip | network_3.py:257-271 | reading back the text of a dict with plain-name keys gives the same dict, keys in the same order, and leaves the text after it |
| Literals.TableRoundTrip | network_3.py:257-271 | the payload of a routing update reads back as the table that was sent |
| Order.SortStrings | network_3.py:299 | the result holds the same strings as the input, each as often |
| Order.SortStringsSpec | network_3.py:299 | sorting distinct names gives them in ascending order, each exactly once |
| Seeding.SeedRow | network_3.py:149-150 | visiting interfaces of neighbour k adds an entry for k when there was at least one, holding only the own cost over the last visited interface; no other entry changes |
| Seeding.SeedRows | network_3.py:148-150 | after the first n neighbours, only those neighbours have entries |
| Seeding.InitialTable | network_3.py:145-153 | the router's own entry is `{name: 0}`, and every other entry is for a neighbour |
| Seeding.SeedRowsEffect | network_3.py:148-150 | after visiting the first n neighbours the table has an entry for exactly those listed with an interface, each holding only the router's own cost over the neighbour's last interface |
| Seeding.InitialTableShape | network_3.py:145-153 | the initial table holds `{name: 0}` for the router itself and one entry per neighbour with at least one interface, holding the router's cost over that neighbour's last interface; nothing else |
| Routers.Router.SeedNeighbour | network_3.py:149-150 | the loop over one neighbour's interfaces leaves the table the seeding specification prescribes |
| Routers.Router.SeedRoutes | network_3.py:145-153 | the nested seeding loop produces the initial table |
| Routing.Initial | network_3.py:137-153 | a new router has one in-queue and one out-queue per neighbour, all empty, and its own name in the table |
| Routers.Router.constructor | network_3.py:137-153 | a router with one distinct empty interface per neighbour, all bounded by the queue size, and the initial table |
| Hops.HopStep | network_3.py:237-244 | one link faults exactly when its neighbour name is empty (an index fault) or it is a router whose cost to the destination is missing while no host was found (a key fault); it sets the found flag exactly for the destination host, and never raises the best cost |
| Hops.HopFold | network_3.py:236-244 | the pass over a sequence of links fails only with an index or key fault |
| Hops.NextHop | network_3.py:233-244 | the pass over all neighbour links fails only with an index or key fault |
| Hops.HopFound | network_3.py:238-241 | the destination counts as found exactly when it is a host listed among the neighbours |
| Hops.NextHopFound | network_3.py:236-241 | over the whole neighbour dict, the destination is found exactly when it is a host neighbour listed with at least one interface |
| Hops.HopHostWins | network_3.py:238-241 | when the destination is an attached host, the interface of its last link is chosen, whatever comes after it |
| Hops.NextHopToHost | network_3.py:236-241 | a packet for an attached host goes to that host's last listed interface |
| Hops.HopArgmin | network_3.py:236-244 | otherwise the chosen interface is that of the first router link of least total cost, and stays 1 when there is no router link |
| Hops.HopCompletesIff | network_3.py:236-242 | when the destination is not a listed host, the pass completes exactly when no neighbour name is empty and the table has every router neighbour's cost to the destination |
| Hops.HopSticky | network_3.py:229-251 | a fault met by part of the pass is the result of the whole pass |
| Routers.Router.ChooseAmong | network_3.py:237-244 | the inner loop over one neighbour's interfaces continues the pass exactly as the specification of the choice does, stopping at the first fault |
| Routers.Router.ChooseInterface | network_3.py:233-244 | the nested loop computes the interface choice of the specification, faults included |
| Routing.PyIndex | network_3.py:246 | an interface number indexes the list exactly when it lies in [-len, len), a negative one counting from the end; otherwise an index fault |
| Routing.Forward | network_3.py:228-251 | forwarding never changes the table or the in-queues, and a fault changes nothing |
| Routing.ForwardOneQueue | network_3.py:246 | a forwarded packet has a known protocol and changes exactly one out-queue, by offering it the packet's encoding |
| Routing.ForwardToHost | network_3.py:238-246 | a packet for an attached host is offered to the out-queue of that host's last listed interface |
| Routers.Router.ForwardPacket | network_3.py:228-251 | the method leaves the router in the state, and with the fault, of the forwarding specification |
| Routers.Router.TakeIn | network_3.py:213 | the oldest packet of in-queue i is taken, or None when it is empty; nothing else changes |
| Routers.Router.OfferOut | network_3.py:246 | out-queue k receives the wire string when it has room and stays as it was when full; nothing else changes |
| Routing.RoutesWire | network_3.py:257-260 | the routing update's wire string is five zeros, the control tag, then the table's text |
| Routing.SendRoutes | network_3.py:256-263 | out-queue i is offered the routing update (appended when it has room, unchanged when full); every other out-queue, the table and the in-queues are unchanged |
| Routers.Router.SendRoutes | network_3.py:256-263 | the method leaves the router in the state the specification of `send_routes` prescribes |
| Routing.Flood | network_3.py:309-312 | flooding keeps the table, the in-queues and the number of out-queues |
| Routing.FloodEffect | network_3.py:309-312 | flooding offers the same update once to each of the first k out-queues and touches nothing else |
| Routers.Router.Flood | network_3.py:309-312 | the loop over all interfaces sends the routes on each in order |
| Updates.NewRow | network_3.py:280-295 | the only fault is a missing key; an unknown destination always counts as a change and faults exactly when the reporter is the destination or has no own cost, leaving an empty entry; for a known destination a fault or no change leaves the entry as it was |
| Updates.Apply | network_3.py:278-295 | afterwards the destination has an entry; no other destination is added, removed or changed; a change once recorded stays recorded; the only fault is a missing key |
| Updates.RelaxRow | network_3.py:278-295 | a pass that already faulted is left alone; a recorded change stays recorded; a new fault is a missing key |
| Updates.RelaxRows | network_3.py:276-295 | the pass over the first n destinations starts unchanged with no change recorded, and fails only with a missing key |
| Updates.RelaxAll | network_3.py:276-295 | an empty received table changes nothing; the only fault is a missing key |
| Updates.RuleA | network_3.py:280-282 | a known destination with a new reporter stores the reported cost for that reporter |
| Updates.RuleB | network_3.py:284-288 | an unknown destination gets an entry, and then the router's own cost through the reporter, or the update stops with the empty entry when that cost is missing |
| Updates.RuleC | network_3.py:290-292 | a lower reported cost replaces the reporter's cost |
| Updates.RuleD | network_3.py:293-295 | otherwise a cheaper route through the reporter lowers the router's own cost; a missing own cost for the reporter or the destination stops the update |
| Updates.NewDestination | network_3.py:284-288 | an unknown destination ends with exactly the own cost through the reporter, or empty with a fault when the reporter has no own cost or is the destination itself |
| Updates.ApplyFires | network_3.py:278-295 | a rule fires exactly when the table changes |
| Updates.RelaxGrows | network_3.py:276-295 | an update never removes a destination or a reporter, keeps their order, and never raises a cost, even when it stops at a fault |
| Updates.RelaxFrame | network_3.py:276-295 | the only costs an update can change are those of the received (destination, reporter) pairs and the router's own costs to received destinations |
| Updates.RelaxFires | network_3.py:273-295 | without a fault, the update flag is set exactly when the table changed |
| Updates.FaultStops | network_3.py:276-295 | a fault met at any reporter of any destination is the result of the whole update |
| Updates.SortByKey | network_3.py:297-307 | the rebuilt table has the same mapping, with its keys in ascending order and each exactly once |
| Literals.TableStr | network_3.py:257 | the text of a table is braces around its entries |
| Literals.ParseTable | network_3.py:271 | only a text that opens with a brace reads as a table; that it reads back every table's text is `Literals.TableRoundTrip` |
| Routers.Router.RelaxEntry | network_3.py:278-295 | the rule chain for one reported cost yields what the rule specification yields |
| Routers.Router.RelaxDestination | network_3.py:278-295 | the loop over one destination's reporters yields what the specification of the pass yields, stopping at the first fault |
| Routers.Router.RelaxTable | network_3.py:276-295 | the nested loop over the received table yields the specification's pass |
| Routers.Router.SortedCopy | network_3.py:298-300 | copying the entries in sorted key order yields the rebuilt table |
| Routing.Update | network_3.py:268-312 | an unparsable payload is a fault that changes nothing; an update never changes the in-queues, and one that faults changes no out-queue |
| Routing.UpdateGrows | network_3.py:268-307 | whatever the outcome, faults included, the table after `update_routes` still holds every old destination and reporter, and no cost has risen |
| Routing.UpdateFloods | network_3.py:297-312 | a completed update leaves the merged table's mapping in ascending key order, and offers its text to every out-queue exactly when the merge changed the table |
| Routers.Router.UpdateRoutes | network_3.py:268-312 | the method leaves the router in the state, and with the fault, of the update specification |
| Routing.Handle | network_3.py:211-222 | one interface's turn removes at most the oldest packet of that in-queue and no other |
| Routing.Sweep | network_3.py:210-222 | the turns keep the number of in-queues and out-queues |
| Routing.Process | network_3.py:209-222 | a pass keeps the number of queues, and a router without interfaces is left as it was |
| Routing.SweepDequeues | network_3.py:209-222 | after k turns each in-queue is untouched or short of its oldest packet, later ones untouched; without a fault each of the first k lost exactly its oldest packet |
| Routing.ProcessDequeues | network_3.py:209-222 | a pass takes at most one packet from each in-queue, and without a fault the oldest packet of every non-empty in-queue |
| Routing.SweepSticky | network_3.py:209-222 | once a turn faults, no later turn happens |
| Routers.Router.Turn | network_3.py:211-222 | one iteration of the loop does what one turn of the specification does |
| Routers.Router.ProcessQueues | network_3.py:209-222 | the loop over all interfaces leaves the router in the state, and with the fault, of the specification's pass |

## Left out

- The `run` loops of hosts and routers and the threads that drive them (network_3.py:119-127, 316-322), and the `stop` flag. The model describes one call at a time.
- The `Host` class (network_3.py:92-127), which only puts and gets packets on its single interface.
- `print_routes` (network_3.py:159-199) and every `print`. They have no effect on state.
- The incoming-interface number `i` of `forward_packet` and `update_routes`. It only feeds the printed messages.
- Routers.Router.OfferOut: the source's `put(..., block=True)` waits, while another thread drains the queue, until there is room. A sequential model cannot wait, so a full out-queue drops the packet, as the source's `queue.Full` handler intends.
- Literals.ParseTable: `literal_eval` is modelled for the text `str()` gives for a table whose names are printable ASCII without a quote or backslash. Two forms `str()` never produces are also read as Python reads them: a repeated key, which keeps its first place and takes its last value, and the integer `-0`. Everything else is refused as a fault, including literals Python reads fine:
  - names with other characters, such as `'Hé'`;
  - double quotes, other spacing, and float costs.
- Routing.Update: a literal of the wrong shape, such as `{'X': {'R': 1}, 'A': 5}`, is refused before any change. The source instead relaxes the table with the entries for 'X' and only then raises at `list(5)` (network_3.py:278).
- Exception classes are collapsed into `Common.Fault`; both raises below become the unknown-protocol fault.
  - In `from_byte_S`, raising a plain string is a `TypeError` in Python 3 (network_3.py:84).
  - In `to_byte_S`, the message is built with `%s` of the packet itself, which calls `__str__` and so `to_byte_S` again (network_3.py:58-59, 69), so it ends in a `RecursionError`.
- The `Exception` raised in `process_queues` for an unknown protocol (network_3.py:222) cannot happen, because decoding yields only data or control.
- Interfaces.Interface.Put: only `block=False`, the default, is modelled (network_3.py:34-40); blocking calls from the router are `Routers.Router.OfferOut`. The queue size is a constructor argument; the default `maxsize=0` means an unbounded queue (network_3.py:9), which `Interfaces.HasRoom` models as any size of zero or less.
- The `float("inf")` starting bound of the interface choice is an `Option` with no value, so no cost compares against infinity.
- The destination of a routing update is the integer 0 in the source and the string "0" in the model. `str(0).zfill(5)` gives the same five zeros in both.
