/** The router's queues of waiting packets: packet buffers linked through their userdata field. */
module PendingQueue {
  import opened Collections

  class Mbuf {
    const data: int
    var userdata: Mbuf?

    constructor (data: int)
      ensures this.data == data
    {
      this.data := data;
    }
  }

  class PendingQueue {
    var head: Mbuf?
    var tail: Mbuf?
    var count: int
    ghost var nodes: seq<Mbuf>

    /** The queue is exactly the null-terminated list of these nodes; none is queued twice. */
    ghost predicate Lists(nodes: seq<Mbuf>)
      reads this, nodes
    {
      && count == |nodes|
      && (forall i, j :: 0 <= i < j < |nodes| ==> nodes[i] != nodes[j])
      && (forall i :: 0 <= i < |nodes| - 1 ==> nodes[i].userdata == nodes[i + 1])
      && if nodes == [] then head == null && tail == null
         else head == nodes[0] && tail == nodes[|nodes| - 1] && nodes[|nodes| - 1].userdata == null
    }

    ghost predicate Valid()
      reads this, nodes
    {
      count == |nodes| && (tail != null ==> tail in nodes) && forall x {:trigger About(x)} :: x == nodes ==> Lists(x)
    }

    constructor ()
      ensures Valid() && nodes == []
    {
      head, tail, count, nodes := null, null, 0, [];
      new;
      assert Lists(nodes);
    }

    /** Appending a packet, as fc_fw_in does for either queue. */
    method Push(pkt: Mbuf)
      requires Valid() && pkt !in nodes
      modifies this, pkt, if tail == null then {} else {tail}
      ensures Valid() && nodes == old(nodes) + [pkt]
    {
      assert About(nodes);
      count := count + 1;
      if tail != null {
        tail.userdata := pkt;
      }
      tail := pkt;
      pkt.userdata := null;
      if count == 1 {
        head := pkt;
      }
      nodes := nodes + [pkt];
      assert Lists(nodes);
    }

    /** Unlinking the oldest packet, as send_from_pending_routed and send_from_pending_direct do. */
    method Pop() returns (pkt: Mbuf)
      requires Valid() && nodes != []
      modifies this
      ensures Valid() && old(nodes) == [pkt] + nodes
    {
      assert About(nodes);
      pkt := head;
      head := pkt.userdata;
      count := count - 1;
      if count == 0 {
        tail := null;
      }
      nodes := nodes[1..];
      assert Lists(nodes);
    }
  }
}
