/**
 The queues of all slots as the rings they are: one head for each slot, and
 buffers that are linked in, unlinked, moved from ring to ring and freed.  Each
 method does to the ring of one slot what is done to its sequence in `Datagrams`,
 and leaves the others as they are.
 */
module RingTable {
  import opened Wrappers
  import opened Datagrams
  import opened DatagramTheorems
  import opened Ring

  /** What the buffers hold. */
  type Memory = map<Elem, Dgram>

  ghost predicate Known(data: Memory, es: seq<Elem>) {
    forall i :: 0 <= i < |es| ==> es[i] in data
  }

  ghost function Held(data: Memory, es: seq<Elem>): (ds: seq<Dgram>)
    requires Known(data, es)
    ensures |ds| == |es| && forall i :: 0 <= i < |es| ==> ds[i] == data[es[i]]
  {
    seq(|es|, i requires 0 <= i < |es| => data[es[i]])
  }

  method NewHeads(n: nat) returns (made: seq<Queue>, ghost all: set<object>)
    ensures |made| == n && fresh(all)
    ensures forall i :: 0 <= i < n ==> made[i] in all && made[i].Repr <= all && made[i].Valid() && made[i].Contents() == []
    ensures forall i, j :: 0 <= i < j < n ==> made[i] != made[j] && made[i].Repr !! made[j].Repr
  {
    hide Queue.Valid, Queue.Contents;
    made, all := [], {};
    while |made| < n
      invariant |made| <= n && fresh(all)
      invariant forall i :: 0 <= i < |made| ==> made[i] in all && made[i].Repr <= all && made[i].Valid() && made[i].Contents() == []
      invariant forall i, j :: 0 <= i < j < |made| ==> made[i] != made[j] && made[i].Repr !! made[j].Repr
    {
      var q := new Queue();
      all := all + {q} + q.Repr;
      made := made + [q];
    }
  }

  class Rings {
    const heads: array<Queue>
    var data: Memory
    ghost var Repr: set<object>

    /** A head linked to itself for every slot. */
    constructor (n: nat)
      ensures Valid() && Holds(QueuesOf(Blank(n))) && fresh(Repr)
    {
      hide Queue.Valid, Queue.Contents;
      var made, all := NewHeads(n);
      data := map[];
      heads := new Queue[n](i requires 0 <= i < |made| => made[i]);
      Repr := all;
      new;
      Repr := Repr + {this, heads};
    }

    ghost predicate Valid()
      reads this, Repr
    {
      && this in Repr && heads in Repr
      && (forall i :: 0 <= i < heads.Length ==> Owned(i))
      && (forall i, j :: 0 <= i < j < heads.Length ==> Apart(i, j))
    }

    /** Ring `i` is a ring of known buffers. */
    ghost predicate Owned(i: int)
      reads this, Repr
      requires this in Repr && heads in Repr && 0 <= i < heads.Length
    {
      && heads[i] in Repr && heads[i].Repr <= Repr
      && heads[i].Valid() && Known(data, heads[i].Contents())
    }

    ghost predicate Apart(i: int, j: int)
      reads this, Repr
      requires this in Repr && heads in Repr && 0 <= i < j < heads.Length && Owned(i) && Owned(j)
    {
      heads[i] != heads[j] && heads[i].Repr !! heads[j].Repr
    }

    /** Every ring holds what is in its place in `q`. */
    ghost predicate Holds(q: Queues)
      reads this, Repr
      requires Valid()
    {
      |q| == heads.Length && forall i :: 0 <= i < |q| ==> HoldsAt(i, q[i])
    }

    ghost predicate HoldsAt(i: int, ds: seq<Dgram>)
      reads this, Repr
      requires this in Repr && heads in Repr && 0 <= i < heads.Length && Owned(i)
    {
      Held(data, heads[i].Contents()) == ds
    }

    /** No ring but `fd` is touched when `fd`'s is. */
    ghost predicate Distinct(i: int, j: int)
      reads this, Repr
      requires this in Repr && heads in Repr && 0 <= i < heads.Length && 0 <= j < heads.Length && Owned(i) && Owned(j)
    {
      i == j || (heads[i] != heads[j] && heads[i].Repr !! heads[j].Repr)
    }

    lemma AllDistinct(i: int, j: int)
      requires Valid() && 0 <= i < heads.Length && 0 <= j < heads.Length
      ensures Owned(i) && Owned(j) && Distinct(i, j)
    {
      if i < j {
        assert Apart(i, j);
      } else if j < i {
        assert Apart(j, i);
      }
    }

    lemma NotYetLinked(elem: Elem)
      requires Valid() && elem !in Repr
      ensures forall i :: 0 <= i < heads.Length ==> Owned(i) && elem !in heads[i].Contents() && elem !in heads[i].Repr
    {
      forall i | 0 <= i < heads.Length ensures Owned(i) && elem !in heads[i].Contents() && elem !in heads[i].Repr {
        assert Owned(i);
        heads[i].ContentsLinked();
      }
    }

    /** `insque` behind the last buffer of ring `fd`. */
    method Put(fd: int, elem: Elem, d: Dgram, ghost q: Queues)
      requires Valid() && Holds(q) && 0 <= fd < heads.Length && elem !in Repr
      modifies Repr, elem
      ensures Valid() && Repr == old(Repr) + {elem}
      ensures Holds(Effect(q, Queued(fd, d)))
    {
      hide Queue.Valid, Queue.Contents;
      assert Owned(fd);
      NotYetLinked(elem);
      forall i | 0 <= i < heads.Length ensures Owned(i) && Distinct(i, fd) && HoldsAt(i, q[i]) {
        AllDistinct(i, fd);
      }
      data := data[elem := d];
      heads[fd].Append(elem);
      Repr := Repr + {elem};
      forall i | 0 <= i < heads.Length
        ensures Owned(i) && HoldsAt(i, Effect(q, Queued(fd, d))[i])
      {
        assert old(Owned(i)) && old(Distinct(i, fd)) && old(HoldsAt(i, q[i]));
      }
      forall i, j | 0 <= i < j < heads.Length ensures Apart(i, j) {
        assert old(Apart(i, j)) && old(Distinct(i, fd)) && old(Distinct(j, fd));
      }
    }

    /** `remque` of the first buffer of ring `fd`. */
    method Take(fd: int, ghost q: Queues) returns (elem: Elem)
      requires Valid() && Holds(q) && 0 <= fd < heads.Length && q[fd] != []
      modifies Repr
      ensures Valid() && elem in old(Repr) && Repr == old(Repr) - {elem}
      ensures elem in data && data[elem] == q[fd][0]
      ensures Holds(q[fd := q[fd][1..]])
    {
      hide Queue.Valid, Queue.Contents;
      assert Owned(fd);
      forall i | 0 <= i < heads.Length ensures Owned(i) && Distinct(i, fd) && HoldsAt(i, q[i]) {
        AllDistinct(i, fd);
      }
      heads[fd].ContentsLinked();
      elem := heads[fd].Take();
      Repr := Repr - {elem};
      forall i | 0 <= i < heads.Length
        ensures Owned(i) && HoldsAt(i, q[fd := q[fd][1..]][i])
      {
        assert old(Owned(i)) && old(Distinct(i, fd)) && old(HoldsAt(i, q[i]));
      }
      forall i, j | 0 <= i < j < heads.Length ensures Apart(i, j) {
        assert old(Apart(i, j)) && old(Distinct(i, fd)) && old(Distinct(j, fd));
      }
    }

    /** `QBFREE` of ring `fd`. */
    method Free(fd: int, ghost q: Queues)
      requires Valid() && Holds(q) && 0 <= fd < heads.Length
      modifies Repr
      ensures Valid() && Repr == old(Repr)
      ensures Holds(q[fd := []])
    {
      hide Queue.Valid, Queue.Contents;
      assert Owned(fd);
      forall i | 0 <= i < heads.Length ensures Owned(i) && Distinct(i, fd) && HoldsAt(i, q[i]) {
        AllDistinct(i, fd);
      }
      var freed := heads[fd].FreeAll();
      forall i | 0 <= i < heads.Length
        ensures Owned(i) && HoldsAt(i, q[fd := []][i])
      {
        assert old(Owned(i)) && old(Distinct(i, fd)) && old(HoldsAt(i, q[i]));
      }
      forall i, j | 0 <= i < j < heads.Length ensures Apart(i, j) {
        assert old(Apart(i, j)) && old(Distinct(i, fd)) && old(Distinct(j, fd));
      }
    }

    /** A head linked to itself: nothing is queued. */
    method Empty(fd: int, ghost q: Queues) returns (empty: bool)
      requires Valid() && Holds(q) && 0 <= fd < heads.Length
      ensures empty == (q[fd] == [])
    {
      hide Queue.Valid, Queue.Contents;
      assert Owned(fd) && HoldsAt(fd, q[fd]);
      heads[fd].EmptyWhenAlone();
      empty := heads[fd].head.forw == heads[fd].head;
    }

    /** A new buffer is linked in. */
    method Receive(fd: int, d: Dgram, ghost q: Queues)
      requires Valid() && Holds(q) && 0 <= fd < heads.Length
      modifies Repr
      ensures Valid() && fresh(Repr - old(Repr))
      ensures Holds(Effect(q, Queued(fd, d)))
    {
      hide Valid, Holds;
      var elem := new Elem.Head();
      Put(fd, elem, d, q);
    }

    lemma SameLength(q: Queues)
      requires Valid() && Holds(q)
      ensures |q| == heads.Length
    {
    }
  }
}
