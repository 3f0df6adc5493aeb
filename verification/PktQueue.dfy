/** The packet queue as the source keeps it: a singly linked list spliced in place. */
module PktQueue {
  import opened Common

  class Pkt {
    const data: seq<byte>
    var next: Pkt?

    constructor (data: seq<byte>)
      ensures this.data == data && next == null
    {
      this.data := data;
      next := null;
    }
  }

  class Queue {
    var head: Pkt?
    ghost var nodes: seq<Pkt>

    ghost predicate Valid()
      reads this, nodes
    {
      && head == (if nodes == [] then null else nodes[0])
      && (forall i {:trigger nodes[i].next} :: 0 <= i < |nodes| ==> nodes[i].next == if i + 1 < |nodes| then nodes[i + 1] else null)
      && (forall i, j :: 0 <= i < j < |nodes| ==> nodes[i] != nodes[j])
    }

    constructor ()
      ensures Valid() && nodes == []
    {
      head, nodes := null, [];
    }

    /** Walk to the end and link the packet there. */
    method QueuePacket(new_: Pkt)
      requires Valid() && new_ !in nodes
      modifies this, nodes, new_
      ensures Valid() && nodes == old(nodes) + [new_]
    {
      if head == null {
        new_.next := null;
        head := new_;
      } else {
        var q, i := head, 0;
        while q.next != null
          invariant 0 <= i < |nodes| && q == nodes[i]
          decreases |nodes| - i
        {
          q, i := q.next, i + 1;
        }
        assert i == |nodes| - 1;
        new_.next := null;
        q.next := new_;
      }
      nodes := nodes + [new_];
    }

    /** Copy octets into a new packet at the end. */
    method QueueNewPacket(buf: seq<byte>)
      requires Valid()
      modifies this, nodes
      ensures Valid() && |nodes| == |old(nodes)| + 1 && nodes[..|old(nodes)|] == old(nodes)
      ensures nodes[|old(nodes)|].data == buf && fresh(nodes[|old(nodes)|])
    {
      var p := new Pkt(buf);
      QueuePacket(p);
    }

    /** Take the first packet; its link still leads to the rest. */
    method Take() returns (p: Pkt)
      requires Valid() && nodes != []
      modifies this
      ensures Valid() && p == old(nodes)[0] && nodes == old(nodes)[1..]
      ensures p.next == head && p !in nodes
    {
      p := head;
      head := p.next;
      assert nodes[0].next == head;
      nodes := nodes[1..];
    }

    /** Put a packet back whose link still leads to the rest. */
    method PutBack(p: Pkt)
      requires Valid() && p.next == head && p !in nodes
      modifies this
      ensures Valid() && nodes == [p] + old(nodes)
    {
      head := p;
      nodes := [p] + nodes;
    }
  }

  /** A failed send leaves the queue as it was. */
  method TakeAndPutBack(q: Queue)
    requires q.Valid() && q.nodes != []
    modifies q
    ensures q.Valid() && q.nodes == old(q.nodes)
  {
    var p := q.Take();
    q.PutBack(p);
  }
}
