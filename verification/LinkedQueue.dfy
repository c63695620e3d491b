/** The linked FIFO queue of graphs/BFS_and_DFS.c, which keeps only a head pointer. */
module LinkedQueue {
  import opened Options

  class Node {
    const value: int
    var next: Node?

    constructor (value: int)
      ensures this.value == value && next == null
    {
      this.value := value;
      next := null;
    }
  }

  class Queue {
    var head: Node?
    ghost var nodes: seq<Node>
    ghost var Repr: set<Node>

    ghost predicate Valid()
      reads this, Repr
    {
      && (forall i :: 0 <= i < |nodes| ==> nodes[i] in Repr)
      && (forall i, j :: 0 <= i < j < |nodes| ==> nodes[i] != nodes[j])
      && (forall i {:trigger nodes[i].next} :: 0 <= i < |nodes| ==>
            nodes[i].next == if i == |nodes| - 1 then null else nodes[i + 1])
      && head == if nodes == [] then null else nodes[0]
    }

    ghost function Values(): (v: seq<int>)
      reads this
      ensures |v| == |nodes|
    {
      seq(|nodes|, i requires 0 <= i < |nodes| reads this => nodes[i].value)
    }

    constructor ()
      ensures Valid() && fresh(Repr) && Values() == []
    {
      head, nodes, Repr := null, [], {};
    }

    /** Walks to the last node and links a new one behind it. */
    method Enqueue(value: int)
      requires Valid()
      modifies this, Repr
      ensures Valid() && fresh(Repr - old(Repr))
      ensures Values() == old(Values()) + [value]
    {
      var newNode := new Node(value);
      Repr := Repr + {newNode};
      if head == null {
        head := newNode;
        nodes := [newNode];
        return;
      }
      var current: Node := head;
      ghost var k := 0;
      while current.next != null
        invariant 0 <= k < |nodes| && current == nodes[k]
        decreases |nodes| - k
      {
        current := current.next;
        k := k + 1;
      }
      current.next := newNode;
      nodes := nodes + [newNode];
    }

    /** Takes the first value out; `None` stands for the null result on an empty queue. */
    method Dequeue() returns (r: Option<int>)
      requires Valid()
      modifies this, Repr
      ensures Valid() && Repr == old(Repr)
      ensures r.None? <==> old(Values()) == []
      ensures r.None? ==> Values() == []
      ensures r.Some? ==> old(Values()) == [r.value] + Values()
    {
      if head == null {
        return None;
      }
      var first := head;
      head := first.next;
      nodes := nodes[1..];
      first.next := null;
      return Some(first.value);
    }
  }
}
