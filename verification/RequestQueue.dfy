/** The request queue: a doubly linked list whose pop leaves `tail`, and the `prev` of the new head, pointing to the
    node it frees, and whose `tail` is not even set when it is made. */
module RequestQueue {
  import opened Sequences

  class RefObject {
    var referenceCount: nat
    var freed: bool

    constructor ()
      ensures referenceCount == 0 && !freed
    {
      referenceCount, freed := 0, false;
    }
  }

  method IncRef(target: RefObject)
    modifies target
    ensures target.referenceCount == old(target.referenceCount) + 1 && target.freed == old(target.freed)
  {
    target.referenceCount := target.referenceCount + 1;
  }

  /** Frees the object when no reference is left, or none was held. */
  method DecRef(target: RefObject)
    modifies target
    ensures target.referenceCount == if old(target.referenceCount) == 0 then 0 else old(target.referenceCount) - 1
    ensures target.freed == (old(target.freed) || target.referenceCount == 0)
  {
    if target.referenceCount != 0 {
      target.referenceCount := target.referenceCount - 1;
    }
    if target.referenceCount == 0 {
      target.freed := true;
    }
  }

  class Node {
    const data: RefObject
    var next: Node?
    var prev: Node?

    constructor (data: RefObject)
      ensures this.data == data && next == null && prev == null
    {
      this.data, next, prev := data, null, null;
    }
  }

  ghost function After(nodes: seq<Node>, i: nat): Node? { if i < |nodes| then nodes[i] else null }

  /** Walking from `head` visits exactly `nodes`. */
  ghost predicate Linked(head: Node?, nodes: seq<Node>)
    reads nodes
  {
    && head == After(nodes, 0)
    && forall i {:trigger nodes[i].next} :: 0 <= i < |nodes| ==> nodes[i].next == After(nodes, i + 1)
  }

  /** Every node but the first points back to the one before it. */
  ghost predicate LinkedBack(nodes: seq<Node>)
    reads nodes
  {
    forall i {:trigger nodes[i].prev} :: 0 < i < |nodes| ==> nodes[i].prev == nodes[i - 1]
  }

  ghost function DataOf(nodes: seq<Node>): (r: seq<RefObject>)
    ensures |r| == |nodes|
    ensures forall i :: 0 <= i < |r| ==> r[i] == nodes[i].data
  {
    seq(|nodes|, i requires 0 <= i < |nodes| => nodes[i].data)
  }

  /** Every object is alive, with at least one reference for each node that holds it. */
  ghost predicate Referenced(contents: seq<RefObject>)
    reads contents
  {
    forall o :: o in contents ==> !o.freed && multiset(contents)[o] <= o.referenceCount
  }

  /** Links a node behind the last one of a list that is not empty. */
  method LinkLast(head: Node, tail: Node, ghost nodes: seq<Node>, node: Node)
    requires Linked(head, nodes) && LinkedBack(nodes) && NoRepeats(nodes)
    requires nodes != [] && tail == nodes[|nodes| - 1]
    requires node !in nodes && node.next == null
    modifies tail, node
    ensures Linked(head, nodes + [node]) && LinkedBack(nodes + [node]) && NoRepeats(nodes + [node])
  {
    tail.next := node;
    node.prev := tail;
    assert forall i :: 0 <= i < |nodes| - 1 ==> nodes[i] != tail;
  }

  method LinkFirst(head: Node, ghost nodes: seq<Node>, node: Node)
    requires Linked(head, nodes) && LinkedBack(nodes) && NoRepeats(nodes) && nodes != [] && node !in nodes
    modifies head, node
    ensures Linked(node, [node] + nodes) && LinkedBack([node] + nodes) && NoRepeats([node] + nodes)
  {
    head.prev := node;
    node.next := head;
    assert forall i :: 0 < i < |nodes| + 1 ==> ([node] + nodes)[i] == nodes[i - 1];
  }

  /** The program's queue and the list under it. */
  class LinkedVector {
    var head: Node?
    var tail: Node?
    /** The nodes of the list, and those that pop has freed. */
    ghost var nodes: seq<Node>
    ghost var freedNodes: set<Node>

    /** What `tail` points to counts only while the list is not empty. */
    ghost predicate Valid()
      reads this, nodes
    {
      && Linked(head, nodes) && LinkedBack(nodes) && NoRepeats(nodes)
      && (nodes != [] ==> tail == nodes[|nodes| - 1])
      && (forall n :: n in nodes ==> n !in freedNodes)
    }

    ghost function Contents(): seq<RefObject>
      reads this
    {
      DataOf(nodes)
    }

    /** The first value of `tail` is whatever the memory held. */
    constructor (garbage: Node?)
      ensures Valid() && Contents() == [] && tail == garbage && freedNodes == {}
    {
      head, tail := null, garbage;
      nodes, freedNodes := [], {};
    }

    /** linked_vector_append, and queue_add. */
    method Append(data: RefObject)
      requires Valid() && Referenced(Contents()) && !data.freed
      modifies this, data, nodes
      ensures Valid() && Referenced(Contents()) && Contents() == old(Contents()) + [data]
      ensures data.referenceCount == old(data.referenceCount) + 1
      ensures freedNodes == old(freedNodes)
    {
      hide Linked, LinkedBack, NoRepeats, Referenced, DataOf;
      CountWith(Contents(), data);
      TakeReference(Contents(), data, Contents() + [data]);
      var newNode := new Node(data);
      AppendNode(newNode);
    }

    method AppendNode(newNode: Node)
      requires Valid() && newNode !in nodes && newNode !in freedNodes && newNode.next == null
      modifies this, newNode, nodes
      ensures Valid() && Contents() == old(Contents()) + [newNode.data] && freedNodes == old(freedNodes)
    {
      hide Linked, LinkedBack, NoRepeats, DataOf;
      FirstLink(head, nodes);
      if head == null || tail == null {
        head := newNode;
        tail := newNode;
        OneNode(newNode);
        assert nodes + [newNode] == [newNode];
      } else {
        LinkLast(head, tail, nodes, newNode);
        tail := newNode;
      }
      DataWith(nodes, newNode);
      nodes := nodes + [newNode];
    }

    /** linked_vector_prepend. */
    method Prepend(data: RefObject)
      requires Valid() && Referenced(Contents()) && !data.freed
      modifies this, data, nodes
      ensures Valid() && Referenced(Contents()) && Contents() == [data] + old(Contents())
      ensures data.referenceCount == old(data.referenceCount) + 1
      ensures freedNodes == old(freedNodes)
    {
      hide Linked, LinkedBack, NoRepeats, Referenced, DataOf;
      CountWith(Contents(), data);
      TakeReference(Contents(), data, [data] + Contents());
      var newNode := new Node(data);
      PrependNode(newNode);
    }

    method PrependNode(newNode: Node)
      requires Valid() && newNode !in nodes && newNode !in freedNodes && newNode.next == null
      modifies this, newNode, nodes
      ensures Valid() && Contents() == [newNode.data] + old(Contents()) && freedNodes == old(freedNodes)
    {
      hide Linked, LinkedBack, NoRepeats, DataOf;
      FirstLink(head, nodes);
      if head == null || tail == null {
        head := newNode;
        tail := newNode;
        OneNode(newNode);
        assert [newNode] + nodes == [newNode];
      } else {
        LinkFirst(head, nodes, newNode);
        head := newNode;
      }
      DataWith(nodes, newNode);
      nodes := [newNode] + nodes;
    }

    /** queue_pop: the caller gets the object with the reference that the freed node held. */
    method Pop() returns (data: RefObject?)
      requires Valid() && Referenced(Contents())
      modifies this, DataOf(nodes)
      ensures Valid() && Referenced(Contents())
      ensures old(Contents()) == [] ==> data == null && Contents() == [] && freedNodes == old(freedNodes)
      ensures old(Contents()) != [] ==>
        && data == old(Contents())[0] && Contents() == old(Contents())[1..]
        && !data.freed && data.referenceCount == old(data.referenceCount)
        && multiset(Contents())[data] < data.referenceCount
        && freedNodes == old(freedNodes) + {old(nodes)[0]}
    {
      hide Linked, LinkedBack, NoRepeats, Referenced, DataOf;
      ghost var contents := Contents();
      FirstLink(head, nodes);
      FirstOfNodes(nodes);
      if head == null {
        return null;
      }
      var node := head;
      RestOfNodes(head, nodes);
      head := node.next;
      data := node.data;
      freedNodes := freedNodes + {node};
      nodes := nodes[1..];
      GiveReference(contents, data);
    }

    /** queue_peek: the first object, or null. */
    method Peek() returns (data: RefObject?)
      requires Valid()
      ensures data == if Contents() == [] then null else Contents()[0]
    {
      if head == null {
        return null;
      }
      return head.data;
    }
  }

  lemma FirstLink(head: Node?, nodes: seq<Node>)
    requires Linked(head, nodes)
    ensures head == After(nodes, 0)
  {
  }

  lemma DataWith(nodes: seq<Node>, node: Node)
    ensures DataOf(nodes + [node]) == DataOf(nodes) + [node.data]
    ensures DataOf([node] + nodes) == [node.data] + DataOf(nodes)
  {
  }

  lemma CountWith(contents: seq<RefObject>, data: RefObject)
    ensures multiset(contents + [data]) == multiset(contents) + multiset{data}
    ensures multiset([data] + contents) == multiset(contents) + multiset{data}
  {
  }

  lemma OneNode(node: Node)
    requires node.next == null
    ensures Linked(node, [node]) && LinkedBack([node]) && NoRepeats([node])
  {
  }

  lemma FirstOfNodes(nodes: seq<Node>)
    ensures |DataOf(nodes)| == |nodes| && (nodes != [] ==> DataOf(nodes)[0] == nodes[0].data)
  {
  }

  lemma RestOfNodes(head: Node, nodes: seq<Node>)
    requires Linked(head, nodes) && LinkedBack(nodes) && NoRepeats(nodes) && nodes != []
    ensures Linked(head.next, nodes[1..]) && LinkedBack(nodes[1..])
    ensures NoRepeats(nodes[1..]) && nodes[0] !in nodes[1..]
    ensures DataOf(nodes[1..]) == DataOf(nodes)[1..]
  {
  }

  /** The new node takes a reference on its object. */
  method TakeReference(ghost contents: seq<RefObject>, data: RefObject, ghost contents': seq<RefObject>)
    requires Referenced(contents) && !data.freed && multiset(contents') == multiset(contents) + multiset{data}
    modifies data
    ensures Referenced(contents') && data.referenceCount == old(data.referenceCount) + 1
  {
    IncRef(data);
    forall o | o in contents' ensures !o.freed && multiset(contents')[o] <= o.referenceCount {
      assert o in multiset(contents');
      if o != data { assert o in multiset(contents); }
    }
  }

  /** Pop takes a reference for its caller, and freeing the node gives one back. */
  method GiveReference(ghost contents: seq<RefObject>, data: RefObject)
    requires Referenced(contents) && contents != [] && data == contents[0]
    modifies data
    ensures Referenced(contents[1..]) && !data.freed && data.referenceCount == old(data.referenceCount)
    ensures multiset(contents[1..])[data] < data.referenceCount
  {
    assert contents == [data] + contents[1..];
    assert multiset(contents) == multiset{data} + multiset(contents[1..]);
    assert 0 < multiset(contents)[data] <= data.referenceCount;
    IncRef(data);
    DecRef(data);
    forall o | o in contents[1..] ensures !o.freed && multiset(contents[1..])[o] <= o.referenceCount {
      assert o in contents;
    }
  }
}
