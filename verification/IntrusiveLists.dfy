/** The LIST and TAILQ macros of queue.h on the heap. A link field of C type
    `struct type *` is a `Slot`, so that its address can be stored: the back
    pointer of an element addresses the slot that points to the element, which
    is the head's for the first one and its predecessor's next for the others. */
module IntrusiveLists {

  class Slot<T> {
    var ptr: Node?<T>

    constructor ()
      ensures ptr == null
    {
      ptr := null;
    }
  }

  /** An allocated element: its links and, in place of the C struct around
      them, one mutable payload. */
  class Node<T> {
    const next: Slot<T>
    var prev: Slot<T>
    var value: T
    ghost var freed: bool

    /** malloc: `prev` starts out as some slot of no importance. */
    constructor (value: T)
      ensures this.value == value && !freed && fresh(next) && next.ptr == null
    {
      var s := new Slot<T>();
      this.next, this.prev, this.value, this.freed := s, s, value, false;
    }

    /** free: nothing is known of the element's fields from here on. */
    method Free()
      requires !freed
      modifies this, next
      ensures freed
    {
      freed := true;
    }
  }

  // ----- The shape both kinds of list share

  ghost function NodeAt<T>(nodes: seq<Node<T>>, i: nat): Node?<T> {
    if i < |nodes| then nodes[i] else null
  }

  /** The slot that has to point to element `i`. */
  ghost function SlotBefore<T>(first: Slot<T>, nodes: seq<Node<T>>, i: nat): Slot<T>
    requires i <= |nodes|
  {
    if i == 0 then first else nodes[i - 1].next
  }

  ghost function Slots<T>(nodes: seq<Node<T>>): set<Slot<T>> {
    set n | n in nodes :: n.next
  }

  /** Everything a list consists of. */
  ghost function Footprint<T>(first: Slot<T>, nodes: seq<Node<T>>): set<object> {
    (set n | n in nodes :: n as object) + (set n | n in nodes :: n.next as object) + {first as object}
  }

  /** Two different elements, with different links. */
  ghost predicate Apart<T>(a: Node<T>, b: Node<T>) {
    a != b && a.next != b.next
  }

  /** No element and no slot occurs twice. */
  ghost predicate Separate<T>(first: Slot<T>, nodes: seq<Node<T>>) {
    && (forall i, j {:trigger Apart(nodes[i], nodes[j])} :: 0 <= i < j < |nodes| ==> Apart(nodes[i], nodes[j]))
    && first !in Slots(nodes)
  }

  /** Element `i` is allocated, the slot before it points to it, and it points
      back to that slot. Behind the last element stands null. */
  ghost predicate LinkedAt<T>(first: Slot<T>, nodes: seq<Node<T>>, i: nat)
    requires i <= |nodes|
    reads first, nodes, Slots(nodes)
  {
    && SlotBefore(first, nodes, i).ptr == NodeAt(nodes, i)
    && (i < |nodes| ==> nodes[i].prev == SlotBefore(first, nodes, i) && !nodes[i].freed)
  }

  ghost predicate Linked<T>(first: Slot<T>, nodes: seq<Node<T>>)
    reads first, nodes, Slots(nodes)
  {
    forall i :: 0 <= i <= |nodes| ==> LinkedAt(first, nodes, i)
  }

  /** The payloads, front to back. */
  ghost function Values<T>(nodes: seq<Node<T>>): (vs: seq<T>)
    reads nodes
    ensures |vs| == |nodes|
  {
    seq(|nodes|, i requires 0 <= i < |nodes| reads nodes => nodes[i].value)
  }

  /** Two elements with the same slot before them are the same element. */
  lemma SlotBeforeInjective<T>(first: Slot<T>, nodes: seq<Node<T>>, i: nat, j: nat)
    requires Separate(first, nodes) && i <= |nodes| && j <= |nodes| && i != j
    ensures SlotBefore(first, nodes, i) != SlotBefore(first, nodes, j)
    ensures i < |nodes| && j < |nodes| ==> Apart(nodes[i], nodes[j])
  {
    if 0 < i && 0 < j {
      assert if i < j then Apart(nodes[i - 1], nodes[j - 1]) else Apart(nodes[j - 1], nodes[i - 1]);
    }
    if i < |nodes| && j < |nodes| {
      assert if i < j then Apart(nodes[i], nodes[j]) else Apart(nodes[j], nodes[i]);
    }
  }

  function Without<T>(s: seq<T>, k: nat): seq<T>
    requires k < |s|
  {
    s[..k] + s[k + 1..]
  }

  // ----- LIST

  class List<T> {
    const first: Slot<T>
    ghost var nodes: seq<Node<T>>

    ghost predicate Valid()
      reads this, first, nodes, Slots(nodes)
    {
      Separate(first, nodes) && Linked(first, nodes)
    }

    ghost function Contents(): seq<T>
      reads this, nodes
    {
      Values(nodes)
    }

    /** LIST_INIT */
    constructor ()
      ensures Valid() && nodes == [] && fresh(first)
    {
      first := new Slot<T>();
      nodes := [];
    }

    /** LIST_INSERT_HEAD */
    method InsertHead(elm: Node<T>)
      requires Valid() && !elm.freed
      requires elm !in nodes && elm.next !in Slots(nodes) && elm.next != first
      modifies this`nodes, first`ptr, nodes`prev, elm`prev, elm.next`ptr
      ensures Valid() && nodes == [elm] + old(nodes)
    {
      assert LinkedAt(first, nodes, 0);
      elm.next.ptr := first.ptr;
      if elm.next.ptr != null {
        first.ptr.prev := elm.next;
      }
      first.ptr := elm;
      elm.prev := first;
      ghost var was := nodes;
      nodes := [elm] + was;
      forall i | 0 <= i <= |nodes|
        ensures LinkedAt(first, nodes, i)
      {
        assert i > 0 ==> old(LinkedAt(first, was, i - 1));
        assert i > 1 ==> nodes[i - 1] == was[i - 2];
      }
    }

    /** Writing elsewhere, payloads included, leaves the list well formed. */
    twostate lemma StaysValid()
      requires old(Valid())
      requires unchanged(this) && unchanged(first)
      requires forall n :: n in nodes ==> unchanged(n`prev) && unchanged(n`freed) && unchanged(n.next)
      ensures Valid()
      ensures (forall n :: n in nodes ==> n.value == old(n.value)) ==> Contents() == old(Contents())
    {
      forall i | 0 <= i <= |nodes|
        ensures LinkedAt(first, nodes, i)
      {
        assert old(LinkedAt(first, nodes, i));
        assert i < |nodes| ==> nodes[i] in nodes;
        assert 0 < i ==> nodes[i - 1] in nodes;
      }
    }
  }

  /** The element behind `elm`, if there is one. */
  ghost function Successor<T>(elm: Node<T>): set<Node<T>>
    reads elm.next
  {
    if elm.next.ptr == null then {} else {elm.next.ptr}
  }

  /** Where things stand after a removal. */
  lemma ShiftedDown<T>(first: Slot<T>, was: seq<Node<T>>, k: nat, i: nat)
    requires k < |was| && i < |was|
    ensures NodeAt(Without(was, k), i) == NodeAt(was, if i < k then i else i + 1)
    ensures SlotBefore(first, Without(was, k), i) == SlotBefore(first, was, if i <= k then i else i + 1)
  {
  }

  /** LIST_REMOVE: the macro is given the element alone, not the head of the
      list it is in, and writes to its two neighbours only. */
  method ListRemove<T>(elm: Node<T>, ghost list: List<T>, ghost k: nat)
    requires list.Valid()
    requires k < |list.nodes| && list.nodes[k] == elm
    modifies list`nodes, elm.prev`ptr, Successor(elm)`prev
    ensures list.Valid() && list.nodes == Without(old(list.nodes), k)
    ensures elm.prev == old(elm.prev) && elm.next.ptr == old(elm.next.ptr)
    ensures forall n :: n in list.nodes ==> Apart(n, elm)
  {
    ghost var first, was := list.first, list.nodes;
    assert LinkedAt(first, was, k) && LinkedAt(first, was, k + 1);
    if elm.next.ptr != null {
      elm.next.ptr.prev := elm.prev;
    }
    elm.prev.ptr := elm.next.ptr;
    list.nodes := Without(was, k);
    forall i | 0 <= i <= |list.nodes|
      ensures LinkedAt(first, list.nodes, i)
    {
      var j := if i < k then i else i + 1;
      assert old(LinkedAt(first, was, j)) && old(LinkedAt(first, was, k)) && old(LinkedAt(first, was, k + 1));
      ShiftedDown(first, was, k, i);
      if j != k + 1 {
        SlotBeforeInjective(first, was, j, k);
        if k + 1 <= |was| {
          SlotBeforeInjective(first, was, j, k + 1);
        }
      }
    }
    SeparateWithout(first, was, k);
    forall n | n in list.nodes
      ensures Apart(n, elm)
    {
      var j :| 0 <= j < |was| && j != k && was[j] == n;
      SlotBeforeInjective(first, was, j, k);
    }
  }

  /** What removing element `k` touches belongs to the list, and the list shrinks. */
  lemma RemovalIsLocal<T>(list: List<T>, k: nat)
    requires list.Valid() && k < |list.nodes|
    ensures var elm, footprint := list.nodes[k], Footprint(list.first, list.nodes);
            elm in footprint && elm.next in footprint && elm.prev in footprint && Successor(elm) <= footprint
    ensures Footprint(list.first, Without(list.nodes, k)) <= Footprint(list.first, list.nodes)
  {
    assert LinkedAt(list.first, list.nodes, k) && LinkedAt(list.first, list.nodes, k + 1);
    assert k > 0 ==> list.nodes[k - 1] in list.nodes;
    assert k + 1 < |list.nodes| ==> list.nodes[k + 1] in list.nodes;
    forall n | n in Without(list.nodes, k)
      ensures n in list.nodes
    {
    }
  }

  lemma SeparateWithout<T>(first: Slot<T>, nodes: seq<Node<T>>, k: nat)
    requires Separate(first, nodes) && k < |nodes|
    ensures Separate(first, Without(nodes, k))
  {
  }

  // ----- TAILQ

  class TailQueue<T> {
    const first: Slot<T>
    var last: Slot<T>
    ghost var nodes: seq<Node<T>>

    ghost predicate Valid()
      reads this, first, nodes, Slots(nodes)
    {
      Separate(first, nodes) && Linked(first, nodes) && last == SlotBefore(first, nodes, |nodes|)
    }

    ghost function Contents(): seq<T>
      reads this, nodes
    {
      Values(nodes)
    }

    /** Writing elsewhere, payloads included, leaves the queue well formed. */
    twostate lemma StaysValid()
      requires old(Valid())
      requires unchanged(this) && unchanged(first)
      requires forall n :: n in nodes ==> unchanged(n`prev) && unchanged(n`freed) && unchanged(n.next)
      ensures Valid()
      ensures (forall n :: n in nodes ==> n.value == old(n.value)) ==> Contents() == old(Contents())
    {
      forall i | 0 <= i <= |nodes|
        ensures LinkedAt(first, nodes, i)
      {
        assert old(LinkedAt(first, nodes, i));
        assert i < |nodes| ==> nodes[i] in nodes;
        assert 0 < i ==> nodes[i - 1] in nodes;
      }
    }

    constructor ()
      ensures Valid() && nodes == [] && fresh(first)
    {
      first := new Slot<T>();
      last := first;
      new;
      Init();
    }

    /** TAILQ_INIT: whatever the list held before is forgotten. */
    method Init()
      modifies this`last, this`nodes, first`ptr
      ensures Valid() && nodes == []
    {
      first.ptr := null;
      last := first;
      nodes := [];
    }

    /** TAILQ_INSERT_TAIL */
    method InsertTail(elm: Node<T>)
      requires Valid() && !elm.freed
      requires elm !in nodes && elm.next !in Slots(nodes) && elm.next != first
      modifies this`last, this`nodes, last`ptr, elm`prev, elm.next`ptr
      ensures Valid() && nodes == old(nodes) + [elm] && last == elm.next
    {
      ghost var was := nodes;
      forall j | 0 <= j < |was|
        ensures SlotBefore(first, was, j) != last
      {
        SlotBeforeInjective(first, was, j, |was|);
      }
      elm.next.ptr := null;
      elm.prev := last;
      last.ptr := elm;
      last := elm.next;
      nodes := was + [elm];
      forall i | 0 <= i <= |nodes|
        ensures LinkedAt(first, nodes, i)
      {
        assert i <= |was| ==> old(LinkedAt(first, was, i)) && SlotBefore(first, nodes, i) == SlotBefore(first, was, i);
      }
    }
  }
}
