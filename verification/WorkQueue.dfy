/** The job queue on the heap: a doubly linked list, pushed at the head and popped at the tail,
    with a node count beside it. A push or a pop is one critical section of the queue's mutex;
    waiting for an element and waking up are the subject of QueueSync. */
module WorkQueue {

  class Node<T> {
    var next: Node?<T>    // towards older elements
    var prev: Node?<T>    // towards newer elements
    const obj: T

    constructor CreateNode(obj: T)
      ensures this.obj == obj && next == null && prev == null
    {
      this.obj := obj;
      next, prev := null, null;
    }
  }

  ghost function At<T>(ns: seq<Node<T>>, i: int): Node?<T> {
    if 0 <= i < |ns| then ns[i] else null
  }

  /** Element `i`, counted from the oldest, is linked to its two neighbours. */
  ghost predicate Linked<T>(ns: seq<Node<T>>, i: nat)
    requires i < |ns|
    reads ns
  {
    ns[i].prev == At(ns, i + 1) && ns[i].next == At(ns, i - 1)
  }

  ghost predicate Apart<T>(ns: seq<Node<T>>, i: nat, j: nat)
    requires i < |ns| && j < |ns|
  {
    ns[i] != ns[j]
  }

  ghost predicate Distinct<T>(ns: seq<Node<T>>) {
    forall i, j :: 0 <= i < |ns| && 0 <= j < |ns| && i != j ==> Apart(ns, i, j)
  }

  /** The list read in either direction is the one sequence `ns`. */
  ghost predicate Listed<T>(ns: seq<Node<T>>, repr: set<Node<T>>)
    reads repr
  {
    && (forall i :: 0 <= i < |ns| ==> ns[i] in repr)
    && (forall i :: 0 <= i < |ns| ==> Linked(ns, i))
    && Distinct(ns)
  }

  ghost function Objects<T>(ns: seq<Node<T>>): (s: seq<T>)
    ensures |s| == |ns|
  {
    seq(|ns|, i requires 0 <= i < |ns| => ns[i].obj)
  }

  class List<T> {
    var number_of_nodes: nat
    var tail: Node?<T>
    var list_head: Node?<T>

    ghost var spine: seq<Node<T>>       // from the oldest element to the newest
    ghost var repr: set<Node<T>>
    ghost var pushed: seq<T>            // everything ever pushed, in order
    ghost var popped: seq<T>            // everything ever popped, in order

    ghost predicate Valid()
      reads this, repr
    {
      && number_of_nodes == |spine|
      && tail == At(spine, 0) && list_head == At(spine, |spine| - 1)
      && Listed(spine, repr)
      && pushed == popped + Objects(spine)
    }

    constructor InitList()
      ensures Valid() && spine == [] && repr == {} && pushed == [] && popped == []
    {
      number_of_nodes := 0;
      tail, list_head := null, null;
      spine, repr, pushed, popped := [], {}, [], [];
    }

    /** Appends to the newest end; a null element is refused. */
    method PushNodeToList(element: Node?<T>) returns (err: int)
      requires Valid() && (element != null ==> element !in repr)
      modifies this, repr, element
      ensures Valid()
      ensures element == null ==>
                err == -1 && spine == old(spine) && repr == old(repr)
                && pushed == old(pushed) && popped == old(popped)
      ensures element != null ==>
                err == 0 && spine == old(spine) + [element] && repr == old(repr) + {element}
                && pushed == old(pushed) + [element.obj] && popped == old(popped)
    {
      if element == null {
        return -1;
      }
      Appended(spine, element, popped, repr);
      ghost var ns, all := spine, repr + {element};
      if list_head == null || number_of_nodes == 0 {
        element.prev := null;
        element.next := null;
        list_head := element;
        tail := element;
        number_of_nodes := number_of_nodes + 1;
        spine, repr, pushed := ns + [element], all, pushed + [element.obj];
        return 0;
      }
      ghost var n := |ns| - 1;
      assert Linked(ns, n);
      var completeList := list_head;
      element.prev := null;
      element.next := completeList;
      completeList.prev := element;
      list_head := element;
      number_of_nodes := number_of_nodes + 1;
      spine, repr, pushed := ns + [element], all, pushed + [element.obj];
      forall i | 0 <= i < |spine| ensures Linked(spine, i) {
        if i < |ns| { assert old(Linked(ns, i)) && (i == n || Apart(ns, i, n)); }
      }
      return 0;
    }

    /** Takes the oldest element. The caller has waited until the count is not zero, and then the
        exit for a list without ends is never taken. */
    method PopElementFromTail() returns (toReturn: Node<T>)
      requires Valid() && number_of_nodes != 0
      modifies this, repr
      ensures Valid() && toReturn == old(spine)[0] && spine == old(spine)[1..] && repr == old(repr) - {toReturn}
      ensures toReturn.next == null && toReturn.prev == null
      ensures popped == old(popped) + [toReturn.obj] && pushed == old(pushed) && popped <= pushed
    {
      assert Linked(spine, 0);
      if tail == null && list_head == null {
        assert false;
      }
      Removed(spine, popped);
      DistinctTail(spine);
      ghost var ns := spine;
      toReturn := tail;
      if number_of_nodes == 1 {
        tail.prev := null;
        tail.next := null;
        list_head := null;
        tail := null;
        number_of_nodes := number_of_nodes - 1;
        spine, repr, popped := ns[1..], repr - {toReturn}, popped + [toReturn.obj];
        return;
      }
      assert Linked(ns, 1);
      tail := toReturn.prev;
      tail.next := null;
      number_of_nodes := number_of_nodes - 1;
      toReturn.prev := null;
      toReturn.next := null;
      spine, repr, popped := ns[1..], repr - {toReturn}, popped + [toReturn.obj];
      forall i | 0 <= i < |spine| ensures spine[i] in repr && Linked(spine, i) {
        assert old(Linked(ns, i + 1)) && Apart(ns, i + 1, 0) && (i == 0 || Apart(ns, i + 1, 1));
      }
    }
  }

  lemma Appended<T>(ns: seq<Node<T>>, n: Node<T>, popped: seq<T>, repr: set<Node<T>>)
    requires Distinct(ns) && n !in repr && forall i :: 0 <= i < |ns| ==> ns[i] in repr
    ensures popped + Objects(ns) + [n.obj] == popped + Objects(ns + [n])
    ensures Distinct(ns + [n])
  {
    assert Objects(ns + [n]) == Objects(ns) + [n.obj];
    var p := ns + [n];
    forall i, j | 0 <= i < |p| && 0 <= j < |p| && i != j ensures Apart(p, i, j) {
      if i < |ns| && j < |ns| { assert Apart(ns, i, j); }
    }
  }

  lemma DistinctTail<T>(ns: seq<Node<T>>)
    requires Distinct(ns) && ns != []
    ensures Distinct(ns[1..])
  {
    var p := ns[1..];
    forall i, j | 0 <= i < |p| && 0 <= j < |p| && i != j ensures Apart(p, i, j) {
      assert Apart(ns, i + 1, j + 1);
    }
  }

  lemma Removed<T>(ns: seq<Node<T>>, popped: seq<T>)
    requires ns != []
    ensures popped + Objects(ns) == popped + [ns[0].obj] + Objects(ns[1..])
  {
    assert Objects(ns) == [ns[0].obj] + Objects(ns[1..]);
  }
}
