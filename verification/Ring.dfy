/**
 The doubly linked ring behind every queue of the repository: `insque` and
 `remque` of compat/general.c, and the `QBFREE` loop of h/manifest.h.

 A ring is described by the sequence of its elements, head first.  Inserting
 behind the element before the head is appending, removing the element behind
 the head is taking the first: that is how compat/dgram.c uses them, and why its
 queues are plain sequences in `Datagrams`.
 */
module Ring {

  class Elem {
    var forw: Elem?
    var back: Elem?

    /** A head linked to itself, as the slot table initialises it. */
    constructor Head()
      ensures IsRing([this])
    {
      forw, back := this, this;
    }
  }

  ghost predicate IsRing(nodes: seq<Elem>)
    reads nodes
  {
    && |nodes| > 0
    && (forall i, j :: 0 <= i < j < |nodes| ==> nodes[i] != nodes[j])
    && (forall i {:trigger nodes[i].forw} :: 0 <= i < |nodes| - 1 ==> nodes[i].forw == nodes[i + 1])
    && nodes[|nodes| - 1].forw == nodes[0]
    && (forall i {:trigger nodes[i].back} :: 0 < i < |nodes| ==> nodes[i].back == nodes[i - 1])
    && nodes[0].back == nodes[|nodes| - 1]
  }

  ghost function Inserted(nodes: seq<Elem>, k: nat, elem: Elem): seq<Elem>
    requires k < |nodes|
  {
    nodes[..k + 1] + [elem] + nodes[k + 1..]
  }

  ghost function Removed(nodes: seq<Elem>, k: nat): seq<Elem>
    requires k < |nodes|
  {
    nodes[..k] + nodes[k + 1..]
  }

  lemma RemovedMembers(nodes: seq<Elem>, k: nat)
    requires k < |nodes| && forall i, j :: 0 <= i < j < |nodes| ==> nodes[i] != nodes[j]
    ensures forall e :: e in Removed(nodes, k) <==> e in nodes && e != nodes[k]
  {
    forall e | e in nodes && e != nodes[k] ensures e in Removed(nodes, k) {
      var i :| 0 <= i < |nodes| && nodes[i] == e;
      assert Removed(nodes, k)[if i < k then i else i - 1] == e;
    }
  }

  /** The emptiness test of compat/dgram.c: a head linked to itself is alone in its ring. */
  lemma HeadAlone(nodes: seq<Elem>)
    requires IsRing(nodes)
    ensures nodes[0].forw == nodes[0] <==> |nodes| == 1
  {
    if |nodes| > 1 {
      assert nodes[0].forw == nodes[0 + 1];
    }
  }

  /** Links `elem` in behind `pred`; in a ring this inserts it at that place and disturbs no other element. */
  method Insque(elem: Elem, pred: Elem, ghost nodes: seq<Elem>, ghost k: nat)
    requires elem !in nodes && k < |nodes| && nodes[k] == pred
    modifies elem, pred, pred.forw
    ensures pred.forw == elem && elem.back == pred && elem.forw == old(pred.forw)
    ensures old(IsRing(nodes)) ==> IsRing(Inserted(nodes, k, elem))
  {
    if pred.forw != null {
      pred.forw.back := elem;
    }
    elem.forw := pred.forw;
    elem.back := pred;
    pred.forw := elem;
  }

  /** Links the neighbours of `elem` to each other and leaves its own links as they were; in a ring it leaves its place. */
  method Remque(elem: Elem, ghost nodes: seq<Elem>, ghost k: nat)
    requires elem.back != null
    modifies elem.forw, elem.back
    ensures elem.forw == old(elem.forw) && elem.back == old(elem.back)
    ensures elem.back.forw == elem.forw && (elem.forw != null ==> elem.forw.back == elem.back)
    ensures old(IsRing(nodes)) && 0 < k < |nodes| && nodes[k] == elem ==> IsRing(Removed(nodes, k))
  {
    if elem.forw != null {
      elem.forw.back := elem.back;
    }
    elem.back.forw := elem.forw;
  }

  lemma Move(freed: seq<Elem>, e: Elem, left: seq<Elem>)
    ensures freed + ([e] + left) == freed + [e] + left
  {
  }

  /** A queue headed by a ring: `Contents` is what waits in it, oldest first. */
  class Queue {
    const head: Elem
    ghost var nodes: seq<Elem>
    ghost var Repr: set<Elem>  // the elements linked in, the head among them

    ghost predicate Valid()
      reads this, Repr
    {
      (forall e :: e in nodes ==> e in Repr) && (forall e :: e in Repr ==> e in nodes) && IsRing(nodes) && nodes[0] == head
    }

    ghost function Contents(): seq<Elem>
      reads this, Repr
      requires Valid()
    {
      nodes[1..]
    }

    lemma EmptyWhenAlone()
      requires Valid()
      ensures head.forw == head <==> Contents() == []
    {
      HeadAlone(nodes);
    }

    lemma ContentsLinked()
      requires Valid()
      ensures forall i :: 0 <= i < |Contents()| ==> Contents()[i] in Repr
    {
    }

    constructor ()
      ensures Valid() && Contents() == [] && fresh(Repr)
    {
      var h := new Elem.Head();
      head := h;
      nodes := [h];
      Repr := {h};
    }

    /** `insque (qb, head.qb_back)`: the new element goes last. */
    method Append(elem: Elem)
      requires Valid() && elem !in Repr
      modifies this`nodes, this`Repr, Repr, elem
      ensures Valid() && Repr == old(Repr) + {elem}
      ensures Contents() == old(Contents()) + [elem]
    {
      Insque(elem, head.back, nodes, |nodes| - 1);
      nodes := nodes + [elem];
      Repr := Repr + {elem};
    }

    /** `head.qb_forw`, or nothing when the ring holds only its head; then `remque`: the oldest element leaves. */
    method Take() returns (elem: Elem?)
      requires Valid()
      modifies this`nodes, this`Repr, Repr
      ensures Valid() && Repr == old(Repr) - (if elem == null then {} else {elem})
      ensures old(Contents()) == [] ==> elem == null && Contents() == []
      ensures old(Contents()) != [] ==> elem == old(Contents())[0] && Contents() == old(Contents())[1..]
    {
      if head.forw == head {
        elem := null;
        HeadAlone(nodes);
      } else {
        elem := head.forw;
        Remque(elem, nodes, 1);
        ghost var before := nodes;
        nodes := Removed(nodes, 1);
        Repr := Repr - {elem};
        RemovedMembers(before, 1);
      }
    }

    /** The `QBFREE` loop: every element leaves, oldest first, and the head is linked to itself again. */
    method FreeAll() returns (freed: seq<Elem>)
      requires Valid()
      modifies this`nodes, this`Repr, Repr
      ensures Valid() && Contents() == [] && Repr <= old(Repr)
      ensures freed == old(Contents())
    {
      hide Valid, Contents;
      freed := [];
      EmptyWhenAlone();
      while head.forw != head
        invariant Valid() && Repr <= old(Repr) && freed + Contents() == old(Contents())
        invariant head.forw == head <==> Contents() == []
        decreases |Contents()|
      {
        ghost var left := Contents();
        var e := Take();
        assert left == [e] + Contents();
        Move(freed, e, Contents());
        freed := freed + [e];
        EmptyWhenAlone();
      }
    }
  }
}
