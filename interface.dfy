/**
 * An interface of a node: a pair of FIFO packet queues, the in-queue filled
 * by the incoming link and the out-queue drained by the outgoing link.
 * Packets travel as their wire strings.
 */
module Interfaces {
  import opened Common

  /**
   * Whether a queue created with `maxSize` accepts one more packet; a
   * maximum size of zero or less makes the queue unbounded.
   */
  predicate HasRoom(q: seq<string>, maxSize: int) {
    maxSize <= 0 || |q| < maxSize
  }

  /** The queue after offering it `pkt`: appended when there is room, unchanged when it is full. */
  function Offer(q: seq<string>, maxSize: int, pkt: string): (r: seq<string>)
    ensures HasRoom(q, maxSize) ==> r == q + [pkt]
    ensures !HasRoom(q, maxSize) ==> r == q
  {
    if HasRoom(q, maxSize) then q + [pkt] else q
  }

  /** The queue's contents never exceed its bound. */
  ghost predicate Bounded(q: seq<string>, maxSize: int) {
    maxSize > 0 ==> |q| <= maxSize
  }

  class Interface {
    const maxSize: int
    var inQueue: seq<string>
    var outQueue: seq<string>

    ghost predicate Valid()
      reads this
    {
      Bounded(inQueue, maxSize) && Bounded(outQueue, maxSize)
    }

    constructor (maxSize: int)
      ensures Valid()
      ensures this.maxSize == maxSize && inQueue == [] && outQueue == []
    {
      this.maxSize := maxSize;
      inQueue := [];
      outQueue := [];
    }

    /**
     * A non-blocking take of the oldest packet: from the in-queue when `dir`
     * is "in", from the out-queue for any other direction. An empty queue
     * yields None and nothing changes.
     */
    method Get(dir: string) returns (pkt: Option<string>)
      requires Valid()
      modifies this
      ensures Valid()
      ensures dir == "in" ==> outQueue == old(outQueue)
      ensures dir == "in" && old(inQueue) == [] ==> pkt == None && inQueue == []
      ensures dir == "in" && old(inQueue) != [] ==> pkt == Some(old(inQueue)[0]) && inQueue == old(inQueue)[1..]
      ensures dir != "in" ==> inQueue == old(inQueue)
      ensures dir != "in" && old(outQueue) == [] ==> pkt == None && outQueue == []
      ensures dir != "in" && old(outQueue) != [] ==> pkt == Some(old(outQueue)[0]) && outQueue == old(outQueue)[1..]
    {
      if dir == "in" {
        if inQueue == [] {
          pkt := None;
        } else {
          pkt := Some(inQueue[0]);
          inQueue := inQueue[1..];
        }
      } else {
        if outQueue == [] {
          pkt := None;
        } else {
          pkt := Some(outQueue[0]);
          outQueue := outQueue[1..];
        }
      }
    }

    /**
     * Appends `pkt` to the out-queue when `dir` is "out" and to the in-queue
     * for any other direction. A full bounded queue refuses the packet and
     * stays as it was; `accepted` tells which happened.
     */
    method Put(pkt: string, dir: string) returns (accepted: bool)
      requires Valid()
      modifies this
      ensures Valid()
      ensures dir == "out" ==> inQueue == old(inQueue) && accepted == HasRoom(old(outQueue), maxSize)
      ensures dir == "out" ==> outQueue == Offer(old(outQueue), maxSize, pkt)
      ensures dir != "out" ==> outQueue == old(outQueue) && accepted == HasRoom(old(inQueue), maxSize)
      ensures dir != "out" ==> inQueue == Offer(old(inQueue), maxSize, pkt)
    {
      if dir == "out" {
        accepted := HasRoom(outQueue, maxSize);
        if accepted {
          outQueue := outQueue + [pkt];
        }
      } else {
        accepted := HasRoom(inQueue, maxSize);
        if accepted {
          inQueue := inQueue + [pkt];
        }
      }
    }
  }
}
