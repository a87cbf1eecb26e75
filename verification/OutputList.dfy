/**
 * The device output queue (backend_private.hh): a singly linked list behind a before-begin
 * node, with a cursor to the first message not yet written and a cursor to the last node.
 */
module OutputLists {

  /** A `struct timeval`. */
  datatype Timeval = Timeval(sec: int, usec: int) {
    function Micros(): int { sec * 1_000_000 + usec }
  }

  /** A message for the device and the pause it asks for after it; zero asks for the device's default. */
  datatype Output = Output(data: string, throttle: Timeval)

  class Node {
    const out: Output
    var next: Node?

    constructor (out: Output, next: Node?)
      ensures this.out == out && this.next == next
    {
      this.out := out;
      this.next := next;
    }
  }

  ghost predicate Linked(nodes: seq<Node>)
    reads nodes
  {
    && (forall i, j | 0 <= i < j < |nodes| :: nodes[i] != nodes[j])
    && (forall i {:trigger nodes[i].next} | 0 <= i < |nodes| - 1 :: nodes[i].next == nodes[i + 1])
    && (nodes != [] ==> nodes[|nodes| - 1].next == null)
  }

  class OutputList {
    const beforeBegin: Node
    var sendIter: Node?
    var insertIter: Node

    /** The messages written and not yet popped, oldest first. */
    ghost var sent: seq<Output>
    /** The messages still to be written, oldest first. */
    ghost var unsent: seq<Output>
    /** The nodes in list order, the before-begin node first. */
    ghost var nodes: seq<Node>

    ghost predicate Valid()
      reads this, nodes
    {
      && Linked(nodes)
      && |nodes| == 1 + |sent| + |unsent|
      && (forall i | 0 <= i < |sent| :: nodes[1 + i].out == sent[i])
      && (forall i | 0 <= i < |unsent| :: nodes[1 + |sent| + i].out == unsent[i])
      && nodes[0] == beforeBegin
      && insertIter == nodes[|nodes| - 1]
      && sendIter == (if unsent != [] then nodes[1 + |sent|] else null)
    }

    /** The oldest outstanding message's node, if there is an outstanding message. */
    ghost function Front(): Node?
      reads this, beforeBegin
    {
      if sent == [] then null else beforeBegin.next
    }

    constructor ()
      ensures Valid() && fresh(nodes)
      ensures sent == [] && unsent == []
    {
      var b := new Node(Output("", Timeval(0, 0)), null);
      beforeBegin := b;
      sendIter := null;
      insertIter := b;
      nodes, sent, unsent := [b], [], [];
    }

    /** The last node is the before-begin node, and that node has no successor, exactly when the list is empty. */
    lemma Ends()
      requires Valid()
      ensures insertIter == beforeBegin <==> sent + unsent == []
      ensures beforeBegin.next == null <==> sent + unsent == []
      ensures sent + unsent != [] ==> beforeBegin.next == nodes[1]
    {
      assert |nodes| > 1 ==> nodes[0].next == nodes[1];
    }

    /** The first message to write, which becomes outstanding; null when none waits. */
    method ToSend() returns (out: Node?)
      requires Valid()
      modifies this
      ensures Valid() && nodes == old(nodes)
      ensures if old(unsent) == [] then out == null && sent == old(sent) && unsent == []
              else out != null && out.out == old(unsent)[0] &&
                   sent == old(sent) + [out.out] && unsent == old(unsent)[1..]
    {
      out := sendIter;
      if sendIter == null {
        return;
      }
      assert |unsent| > 1 ==> nodes[1 + |sent|].next == nodes[2 + |sent|];
      sendIter := sendIter.next;
      sent, unsent := sent + [unsent[0]], unsent[1..];
    }

    method InPtr() returns (front: Node?)
      requires Valid()
      ensures front == Front()
      ensures front != null ==> front.out == sent[0]
    {
      Ends();
      if beforeBegin.next == null || sendIter == beforeBegin.next {
        return null;
      }
      front := beforeBegin.next;
    }

    method Push(o: Output)
      requires Valid()
      modifies this, insertIter
      ensures Valid() && forall n | n in nodes :: n in old(nodes) || fresh(n)
      ensures sent == old(sent) && unsent == old(unsent) + [o]
    {
      var n := new Node(o, insertIter.next);
      insertIter.next := n;
      insertIter := n;
      nodes, unsent := nodes + [n], unsent + [o];
      if sendIter == null {
        sendIter := insertIter;
      }
    }

    method Pop()
      requires Valid() && sent != []
      modifies this, beforeBegin
      ensures Valid() && forall n | n in nodes :: n in old(nodes)
      ensures sent == old(sent)[1..] && unsent == old(unsent)
    {
      Ends();
      assert |nodes| > 2 ==> nodes[1].next == nodes[2];
      if insertIter == beforeBegin.next {
        insertIter := beforeBegin;
      }
      beforeBegin.next := beforeBegin.next.next;
      ghost var was := nodes;
      nodes, sent := [beforeBegin] + was[2..], sent[1..];
      assert forall i | 1 <= i < |nodes| :: nodes[i] == was[i + 1];
    }

    method Clear()
      requires Valid()
      modifies this, beforeBegin
      ensures Valid() && forall n | n in nodes :: n in old(nodes)
      ensures sent == [] && unsent == []
    {
      beforeBegin.next := null;
      sendIter := null;
      insertIter := beforeBegin;
      nodes, sent, unsent := [beforeBegin], [], [];
    }
  }
}
