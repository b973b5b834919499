/** The singly-linked tail queue: a head with a pointer to the first element and
    a pointer to the slot that holds the final null.  Each macro is a method that
    does the same operation on the mathematical sequence of the elements. */
module Stailq {

  class Node<T> {
    var next: Node?<T>
    var val: T

    constructor (val: T)
      ensures this.val == val
    {
      this.val := val;
      next := null;
    }
  }

  /** An assignable place for a node pointer: the head's first pointer or some
      node's next pointer. */
  datatype Slot<T> = HeadSlot | NextOf(n: Node<T>)

  function Inserted<X>(s: seq<X>, k: nat, x: X): (r: seq<X>)
    requires k <= |s|
    ensures |r| == |s| + 1
    ensures forall i :: 0 <= i < |r| ==> r[i] == (if i < k then s[i] else if i == k then x else s[i - 1])
  {
    s[..k] + [x] + s[k..]
  }

  function Removed<X>(s: seq<X>, k: nat): (r: seq<X>)
    requires k < |s|
    ensures |r| == |s| - 1
    ensures forall i :: 0 <= i < |r| ==> r[i] == (if i < k then s[i] else s[i + 1])
  {
    s[..k] + s[k + 1..]
  }

  class Queue<T> {
    var first: Node?<T>
    var last: Slot<T>
    ghost var nodes: seq<Node<T>>

    /** Following the next pointers from `first` gives exactly `nodes`, once each,
        and `last` is the slot after the last of them. */
    ghost predicate Valid()
      reads this, nodes`next
    {
      && (forall i, j :: 0 <= i < j < |nodes| ==> nodes[i] != nodes[j])
      && first == NextIn(nodes, -1)
      && (forall i {:trigger nodes[i].next} :: 0 <= i < |nodes| ==> nodes[i].next == NextIn(nodes, i))
      && last == (if nodes == [] then HeadSlot else NextOf(nodes[|nodes| - 1]))
    }

    static function NextIn(ns: seq<Node<T>>, i: int): Node?<T>
      requires -1 <= i < |ns|
    {
      if i + 1 < |ns| then ns[i + 1] else null
    }

    constructor ()
      ensures Valid() && nodes == []
    {
      first := null;
      last := HeadSlot;
      nodes := [];
    }

    method Init()
      modifies this
      ensures Valid() && nodes == []
    {
      first := null;
      last := HeadSlot;
      nodes := [];
    }

    method InsertHead(elm: Node<T>)
      requires Valid() && elm !in nodes
      modifies this, elm`next
      ensures Valid() && nodes == [elm] + old(nodes)
    {
      elm.next := first;
      if elm.next == null {
        last := NextOf(elm);
      }
      first := elm;
      nodes := [elm] + nodes;
    }

    method InsertAfter(tqelm: Node<T>, elm: Node<T>, ghost k: nat)
      requires Valid() && k < |nodes| && nodes[k] == tqelm && elm !in nodes
      modifies this, elm`next, tqelm`next
      ensures Valid() && nodes == Inserted(old(nodes), k + 1, elm)
    {
      elm.next := tqelm.next;
      if elm.next == null {
        last := NextOf(elm);
      }
      tqelm.next := elm;
      nodes := Inserted(nodes, k + 1, elm);
    }

    method InsertTail(elm: Node<T>)
      requires Valid() && elm !in nodes
      modifies this, elm`next, nodes`next
      ensures Valid() && nodes == old(nodes) + [elm]
    {
      elm.next := null;
      match last {
        case HeadSlot => first := elm;
        case NextOf(n) => n.next := elm;
      }
      last := NextOf(elm);
      nodes := nodes + [elm];
    }

    method RemoveHead()
      requires Valid() && nodes != []
      modifies this
      ensures Valid() && nodes == old(nodes)[1..]
    {
      first := first.next;
      if first == null {
        last := HeadSlot;
      }
      nodes := nodes[1..];
    }

    /** The walk that STAILQ_REMOVE makes to the element in front of elm. */
    method Before(elm: Node<T>, ghost k: nat) returns (curelm: Node<T>)
      requires Valid() && 0 < k < |nodes| && nodes[k] == elm
      ensures curelm == nodes[k - 1]
    {
      curelm := first;
      ghost var i := 0;
      while curelm.next != elm
        invariant 0 <= i < k && curelm == nodes[i]
        decreases k - i
      {
        curelm := curelm.next;
        i := i + 1;
      }
    }

    /** Takes the element after curelm, number k, out of the list. */
    method Unlink(curelm: Node<T>, ghost k: nat)
      requires Valid() && 0 < k < |nodes| && nodes[k - 1] == curelm
      modifies this, curelm`next
      ensures Valid() && nodes == Removed(old(nodes), k)
    {
      ghost var ns := nodes;
      curelm.next := curelm.next.next;
      if curelm.next == null {
        last := NextOf(curelm);
      }
      nodes := Removed(ns, k);
      assert forall i {:trigger ns[i].next} :: 0 <= i < |ns| && i != k - 1 ==> ns[i].next == NextIn(ns, i);
      forall i | 0 <= i < |nodes|
        ensures nodes[i].next == NextIn(nodes, i)
      {
        var j := if i < k then i else i + 1;
        assert nodes[i] == ns[j];
        assert ns[j].next == if j == k - 1 then NextIn(ns, k) else NextIn(ns, j);
      }
    }

    method Remove(elm: Node<T>, ghost k: nat)
      requires Valid() && k < |nodes| && nodes[k] == elm
      modifies this, nodes`next
      ensures Valid() && nodes == Removed(old(nodes), k)
    {
      if first == elm {
        RemoveHead();
      } else {
        var curelm := Before(elm, k);
        Unlink(curelm, k);
      }
    }

    method Concat(head2: Queue<T>)
      requires Valid() && head2.Valid() && head2 != this
      requires forall i, j :: 0 <= i < |nodes| && 0 <= j < |head2.nodes| ==> nodes[i] != head2.nodes[j]
      modifies this, head2, nodes`next
      ensures Valid() && head2.Valid()
      ensures nodes == old(nodes) + old(head2.nodes) && head2.nodes == []
    {
      if head2.first != null {
        match last {
          case HeadSlot => first := head2.first;
          case NextOf(n) => n.next := head2.first;
        }
        last := head2.last;
        ghost var ns := head2.nodes;
        nodes := nodes + ns;
        head2.Init();
      } else {
        assert head2.nodes == [];
      }
    }

    /** The foreach loop ends and visits the elements once each, in order. */
    method Values() returns (vs: seq<T>)
      requires Valid()
      ensures |vs| == |nodes| && forall i :: 0 <= i < |vs| ==> vs[i] == nodes[i].val
    {
      vs := [];
      var v := first;
      while v != null
        invariant |vs| <= |nodes| && forall i :: 0 <= i < |vs| ==> vs[i] == nodes[i].val
        invariant v == NextIn(nodes, |vs| - 1)
        decreases |nodes| - |vs|
      {
        vs := vs + [v.val];
        v := v.next;
      }
    }
  }
}
