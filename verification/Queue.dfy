/** The linked queue of util.c: a head, a tail and a count over heap entries, proved to be a sequence. */
module Queue {
  import opened Base

  class Node<T> {
    var next: Node?<T>
    const data: T

    constructor (data: T)
      ensures this.data == data && next == null
    {
      this.data := data;
      next := null;
    }
  }

  class Fifo<T> {
    var head: Node?<T>
    var tail: Node?<T>
    var num: nat

    ghost var Nodes: seq<Node<T>>  // the entries, from head to tail
    ghost var Repr: set<object>

    ghost predicate Valid()
      reads this, Repr
      ensures Valid() ==> this in Repr
    {
      && this in Repr && (forall i :: 0 <= i < |Nodes| ==> Nodes[i] in Repr)
      && num == |Nodes|
      && (forall i, j :: 0 <= i < j < |Nodes| ==> Nodes[i] != Nodes[j])
      && (forall i :: 0 <= i < |Nodes| - 1 ==> Nodes[i].next == Nodes[i + 1])
      && (Nodes == [] ==> head == null && tail == null)
      && (Nodes != [] ==> head == Nodes[0] && tail == Nodes[|Nodes| - 1] && tail.next == null)
    }

    ghost function Contents(): (s: seq<T>)
      reads this
      ensures |s| == |Nodes| && forall i :: 0 <= i < |s| ==> s[i] == Nodes[i].data
    {
      seq(|Nodes|, i requires 0 <= i < |Nodes| reads this => Nodes[i].data)
    }

    /** queue_init. */
    constructor ()
      ensures Valid() && fresh(Repr) && Contents() == []
    {
      head, tail, num, Nodes, Repr := null, null, 0, [], {this};
    }

    /** queue_push. */
    method Push(data: T)
      requires Valid()
      modifies Repr
      ensures Valid() && fresh(Repr - old(Repr))
      ensures Contents() == old(Contents()) + [data]
    {
      var entry := new Node(data);
      if tail != null {
        tail.next := entry;
      }
      tail := entry;
      if head == null {
        head := entry;
      }
      num := num + 1;
      Nodes, Repr := Nodes + [entry], Repr + {entry};
    }

    /** queue_pop: nothing exactly when the queue is empty. */
    method Pop() returns (r: Option<T>)
      requires Valid()
      modifies this
      ensures Valid() && Repr == old(Repr)
      ensures r == if old(Contents()) == [] then None else Some(old(Contents())[0])
      ensures Contents() == if old(Contents()) == [] then [] else old(Contents())[1..]
    {
      if head == null {
        return None;
      }
      var entry := head;
      assert entry == Nodes[0];
      head := entry.next;
      if head == null {
        tail := null;
      }
      num := num - 1;
      r := Some(entry.data);
      Nodes := Nodes[1..];
    }

    /** queue_peek. */
    method Peek() returns (r: Option<T>)
      requires Valid()
      ensures r == if Contents() == [] then None else Some(Contents()[0])
    {
      if head == null {
        return None;
      }
      return Some(head.data);
    }

    /** queue_foreach: the data of the entries in the order `func` sees them. */
    method Foreach() returns (visited: seq<T>)
      requires Valid()
      ensures visited == Contents()
    {
      visited := [];
      var entry := head;
      ghost var i := 0;
      while entry != null
        invariant 0 <= i <= |Nodes| && visited == Contents()[..i]
        invariant if i < |Nodes| then entry == Nodes[i] else entry == null
        decreases |Nodes| - i
      {
        assert entry == Nodes[i];
        visited := visited + [entry.data];
        entry := entry.next;
        i := i + 1;
      }
    }
  }
}
