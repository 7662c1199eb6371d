/**
 What the datagram demultiplexer promises over whole runs: the slots stay a
 depth-one forest whose children hold only their peer's datagrams, every
 datagram taken from the kernel is accounted for, queues are first-in first-out,
 and `select` reports exactly the non-empty queues.
 */
module DatagramTheorems {
  import opened Wrappers
  import opened Datagrams

  // ----- Routing -----

  /** `v` shares `fd`'s parent: it is `fd` itself, a sibling, or their root. */
  predicate InGroup(t: Table, fd: int, v: int)
    requires Live(t, fd)
  {
    0 <= v < |t| && t[v].parent == t[fd].parent
  }

  ghost predicate Claimed(sys: System, t: Table, fd: int, src: Sockaddr)
    requires Live(t, fd)
  {
    exists v :: InGroup(t, fd, v) && Matches(sys, src, t[v])
  }

  /** A datagram is dropped exactly when nobody in the receiver's group has its source as peer and the root is connected. */
  lemma RouteIsExact(sys: System, t: Table, fd: int, src: Sockaddr)
    requires Inv(sys, t) && Live(t, fd)
    ensures Route(sys, t, fd, src).None? <==> !Claimed(sys, t, fd, src) && t[t[fd].parent].peer.family != 0
    ensures Route(sys, t, fd, src).Some? ==>
              var v := Route(sys, t, fd, src).value;
              InGroup(t, fd, v) && if Claimed(sys, t, fd, src) then Matches(sys, src, t[v]) else v == t[fd].parent
    ensures Matches(sys, src, t[fd]) ==> Route(sys, t, fd, src) == Some(fd)
  {
    var s := FirstSibling(sys, t, fd, 0, src);
    if Matches(sys, src, t[fd]) {
      assert InGroup(t, fd, fd);
    } else if s.Some? {
      assert InGroup(t, fd, s.value);
    } else {
      forall v | InGroup(t, fd, v)
        ensures !Matches(sys, src, t[v])
      {
        assert v != fd ==> !Sibling(sys, t, fd, v, src);
      }
    }
  }

  /** Once a parent closes, each child is alone: it keeps its peer's datagrams and drops every other source's. */
  lemma OrphansAreIsolated(sys: System, t: Table, fd: int, c: int, src: Sockaddr)
    requires Inv(sys, t) && Root(t, fd) && Live(t, c) && c != fd && t[c].parent == fd
    ensures var t' := Close(t, fd).t;
            Root(t', c) && t'[c] == t[c].(parent := c)
            && (Route(sys, t', c, src) == if Matches(sys, src, t[c]) then Some(c)
                                     else if t[c].peer.family == 0 then Some(c) else None)
  {
    var t' := Close(t, fd).t;
    CloseKeepsInv(sys, t, fd);
    RouteIsExact(sys, t', c, src);
    assert !Root(t, c);
    forall v | InGroup(t', c, v)
      ensures v == c
    {
      assert Live(t, v) ==> Root(t, t[v].parent);
    }
    assert InGroup(t', c, c);
  }

  // ----- The invariant -----

  lemma EnqueueKeepsInv(sys: System, t: Table, fd: int, d: Dgram)
    requires Inv(sys, t) && Live(t, fd) && Route(sys, t, fd, d.source).Some?
    ensures var v := Route(sys, t, fd, d.source).value;
            0 <= v < |t| && Inv(sys, Enqueue(t, v, d))
  {
    RouteIsExact(sys, t, fd, d.source);
    var v := Route(sys, t, fd, d.source).value;
    var t' := Enqueue(t, v, d);
    forall i | 0 <= i < |t'| && t'[i].parent != NOTOK
      ensures Root(t', t'[i].parent) && (t'[i].parent != i ==> QueuedFromPeer(sys, t'[i]))
    {
      assert Root(t, t[i].parent);
    }
  }

  lemma {:induction false} ScanKeepsInv(sys: System, t: Table, fd: nat, top: int, ready: set<int>, result: int, k: Kernel, n: nat, m: nat)
    requires top <= |t| && Inv(sys, t)
    ensures Inv(sys, Scan(sys, t, fd, top, ready, result, k, n, m).t)
    ensures SameSlots(t, Scan(sys, t, fd, top, ready, result, k, n, m).t)
    decreases top - fd
  {
    hide Inv, Route;
    if fd >= top {
    } else if fd !in ready || t[fd].parent == NOTOK {
      ScanKeepsInv(sys, t, fd + 1, top, ready - {fd}, result, k, n, m);
    } else if k.recv(n).Arrived? {
      var d := k.recv(n).d;
      var target := Route(sys, t, fd, d.source);
      RouteIsExact(sys, t, fd, d.source);
      if target.None? {
        ScanKeepsInv(sys, t, fd + 1, top, ready - {fd}, result, k, n + 1, m);
      } else {
        EnqueueKeepsInv(sys, t, fd, d);
        EnqueueSameSlots(t, target.value, d);
        var p := k.poll(m, OK);
        if result - 1 > 0 && p.result > 0 {
          ScanKeepsInv(sys, Enqueue(t, target.value, d), fd + 1, top, p.r, p.result, k, n + 1, m + 1);
        }
      }
    }
  }

  lemma EnqueueSameSlots(t: Table, v: int, d: Dgram)
    requires 0 <= v < |t|
    ensures SameSlots(t, Enqueue(t, v, d))
  {
  }

  /** Everything but the queues is the same. */
  ghost predicate SameSlots(t: Table, t': Table) {
    |t| == |t'| && forall i :: 0 <= i < |t| ==> t'[i].(queue := t[i].queue) == t[i]
  }

  lemma SelectKeepsInv(sys: System, t: Table, nfds: int, r: Option<set<int>>, w: Option<set<int>>, e: Option<set<int>>, secs: int, k: Kernel)
    requires Inv(sys, t)
    ensures Inv(sys, Select(sys, t, nfds, r, w, e, secs, k).t) && SameSlots(t, Select(sys, t, nfds, r, w, e, secs, k).t)
  {
    var p := k.poll(0, if r.Some? && Waiting(t, r.value) then OK else secs);
    ScanKeepsInv(sys, t, 0, Min(nfds, |t|), p.r, p.result, k, 0, 1);
  }

  lemma SelectFdKeepsInv(sys: System, t: Table, fd: int, secs: int, k: Kernel)
    requires Inv(sys, t)
    ensures Inv(sys, SelectFd(sys, t, fd, secs, k).t) && SameSlots(t, SelectFd(sys, t, fd, secs, k).t)
  {
    SelectKeepsInv(sys, t, fd + 1, Some({fd}), None, None, secs, k);
  }

  lemma CloseKeepsInv(sys: System, t: Table, fd: int)
    requires Inv(sys, t)
    ensures Inv(sys, Close(t, fd).t)
  {
    if Live(t, fd) {
      var t' := Close(t, fd).t;
      forall i | 0 <= i < |t'| && t'[i].parent != NOTOK
        ensures Root(t', t'[i].parent) && (t'[i].parent != i ==> QueuedFromPeer(sys, t'[i]))
      {
        assert Root(t, t[i].parent);
      }
    }
  }

  lemma OpenChildKeepsInv(sys: System, t: Table, fd: int, sd: int)
    requires Inv(sys, t) && Root(t, fd) && t[fd].queue != [] && 0 <= sd < |t| && !Live(t, sd)
    ensures Inv(sys, OpenChild(sys, t, fd, sd))
  {
    var t' := OpenChild(sys, t, fd, sd);
    forall i | 0 <= i < |t'| && t'[i].parent != NOTOK
      ensures Root(t', t'[i].parent) && (t'[i].parent != i ==> QueuedFromPeer(sys, t'[i]))
    {
      assert i != sd ==> Root(t, t[i].parent);
    }
  }

  lemma JoinNewKeepsInv(sys: System, t: Table, fd: int, sd: int, k: Kernel)
    requires Inv(sys, t) && !Live(t, sd)
    ensures Inv(sys, JoinNew(sys, t, fd, sd, k).t)
  {
    if Root(t, fd) {
      var s := SelectFd(sys, t, fd, OK, k);
      SelectFdKeepsInv(sys, t, fd, OK, k);
      if s.ret.Fine? && s.t[fd].queue != [] && 0 <= sd < |t| {
        OpenChildKeepsInv(sys, s.t, fd, sd);
      }
    }
  }

  lemma {:induction false} AwaitKeepsInv(sys: System, t: Table, fd: int, tries: seq<Kernel>, i: nat)
    requires Inv(sys, t) && 0 <= fd < |t|
    ensures Inv(sys, Await(sys, t, fd, tries, i).t) && SameSlots(t, Await(sys, t, fd, tries, i).t)
    decreases |tries| - i
  {
    if t[fd].queue == [] && i < |tries| {
      var s := SelectFd(sys, t, fd, NOTOK, tries[i]);
      SelectKeepsInv(sys, t, fd + 1, Some({fd}), None, None, NOTOK, tries[i]);
      if s.ret.Fine? {
        AwaitKeepsInv(sys, s.t, fd, tries, i + 1);
      }
    }
  }

  lemma DequeueKeepsInv(sys: System, t: Table, fd: int)
    requires Inv(sys, t) && Live(t, fd) && t[fd].queue != []
    ensures Inv(sys, Dequeue(t, fd))
  {
    var t' := Dequeue(t, fd);
    forall i | 0 <= i < |t'| && t'[i].parent != NOTOK
      ensures Root(t', t'[i].parent) && (t'[i].parent != i ==> QueuedFromPeer(sys, t'[i]))
    {
      assert Root(t, t[i].parent);
    }
  }

  lemma ReadKeepsInv(sys: System, t: Table, fd: int, tries: seq<Kernel>)
    requires Inv(sys, t)
    ensures Inv(sys, Read(sys, t, fd, tries).t) && |Read(sys, t, fd, tries).t| == |t|
  {
    if Live(t, fd) {
      AwaitKeepsInv(sys, t, fd, tries, 0);
      var a := Await(sys, t, fd, tries, 0);
      if a.t[fd].queue != [] {
        DequeueKeepsInv(sys, a.t, fd);
      }
    }
  }

  /** A child delivers its peer's datagrams and no others. */
  lemma ChildReadsOnlyItsPeer(sys: System, t: Table, fd: int, tries: seq<Kernel>)
    requires Inv(sys, t) && Live(t, fd) && !Root(t, fd) && Read(sys, t, fd, tries).got.Some?
    ensures SameAddress(sys, Read(sys, t, fd, tries).got.value.source, t[fd].peer)
  {
    AwaitKeepsInv(sys, t, fd, tries, 0);
    var a := Await(sys, t, fd, tries, 0);
    assert QueuedFromPeer(sys, a.t[fd]);
  }

  lemma SlotChangeKeepsInv(sys: System, t: Table, fd: int, s: Slot)
    requires Inv(sys, t) && 0 <= fd < |t| && s.parent == fd
    requires t[fd].parent == NOTOK || t[fd].parent == fd
    ensures Inv(sys, t[fd := s])
  {
    var t' := t[fd := s];
    forall i | 0 <= i < |t'| && t'[i].parent != NOTOK
      ensures Root(t', t'[i].parent) && (t'[i].parent != i ==> QueuedFromPeer(sys, t'[i]))
    {
      assert i != fd ==> Root(t, t[i].parent);
    }
  }

  /** Every operation keeps the forest, whatever the kernel answers. */
  lemma StepKeepsInv(sys: System, t: Table, op: Op)
    requires Inv(sys, t) && Legal(t, op)
    ensures Inv(sys, Step(sys, t, op).t) && |Step(sys, t, op).t| == |t|
  {
    match op
    case DoStart(sd) =>
      if 0 <= sd < |t| { SlotChangeKeepsInv(sys, t, sd, t[sd].(parent := sd)); }
    case DoHack(fd, sock) =>
      if Root(t, fd) { SlotChangeKeepsInv(sys, t, fd, Hacked(sys, t[fd], sock)); }
    case DoJoinSame(fd, peer) =>
      if Root(t, fd) { SlotChangeKeepsInv(sys, t, fd, Joined(sys, t[fd].(parent := fd), peer)); }
    case DoJoinNew(fd, sd, k) => JoinNewKeepsInv(sys, t, fd, sd, k);
    case DoRead(fd, tries) => ReadKeepsInv(sys, t, fd, tries);
    case DoClose(fd) => CloseKeepsInv(sys, t, fd);
    case DoSelect(nfds, r, w, e, secs, k) => SelectKeepsInv(sys, t, nfds, r, w, e, secs, k);
  }

  lemma {:induction false} PrefixIsLegal(sys: System, t: Table, ops: seq<Op>, i: nat)
    requires LegalRun(sys, t, ops) && i <= |ops|
    ensures LegalRun(sys, t, ops[..i])
    decreases |ops|
  {
    if i == |ops| {
      assert ops[..i] == ops;
    } else {
      PrefixIsLegal(sys, t, ops[..|ops| - 1], i);
      assert ops[..|ops| - 1][..i] == ops[..i];
    }
  }

  /** The forest holds in every state a run can reach from the blank table. */
  lemma {:induction false} ReachableStatesAreForests(sys: System, n: nat, ops: seq<Op>)
    requires LegalRun(sys, Blank(n), ops)
    ensures Inv(sys, Run(sys, Blank(n), ops).0) && |Run(sys, Blank(n), ops).0| == n
    decreases |ops|
  {
    if ops != [] {
      ReachableStatesAreForests(sys, n, ops[..|ops| - 1]);
      StepKeepsInv(sys, Run(sys, Blank(n), ops[..|ops| - 1]).0, ops[|ops| - 1]);
    }
  }

  // ----- Every change to a queue is an event -----

  type Queues = seq<seq<Dgram>>

  function QueuesOf(t: Table): (q: Queues)
    ensures |q| == |t| && forall i :: 0 <= i < |t| ==> q[i] == t[i].queue
  {
    seq(|t|, i requires 0 <= i < |t| => t[i].queue)
  }

  predicate Enabled(q: Queues, e: Event) {
    match e
    case Queued(slot, _) => 0 <= slot < |q|
    case Discarded(_, _) => true
    case Delivered(slot, d) => 0 <= slot < |q| && q[slot] != [] && q[slot][0] == d
    case Moved(from, slot, d) =>
      0 <= from < |q| && 0 <= slot < |q| && from != slot && q[from] != [] && q[from][0] == d && q[slot] == []
    case Freed(slot, ds) => 0 <= slot < |q| && q[slot] == ds
  }

  function Effect(q: Queues, e: Event): Queues
    requires Enabled(q, e)
  {
    match e
    case Queued(slot, d) => q[slot := q[slot] + [d]]
    case Discarded(_, _) => q
    case Delivered(slot, d) => q[slot := q[slot][1..]]
    case Moved(from, slot, d) => q[from := q[from][1..]][slot := [d]]
    case Freed(slot, ds) => q[slot := []]
  }

  /** Replaying the events on `q` is possible and ends in `q'`. */
  predicate Explains(q: Queues, log: seq<Event>, q': Queues)
    decreases |log|
  {
    if log == [] then q == q'
    else Enabled(q, log[0]) && Explains(Effect(q, log[0]), log[1..], q')
  }

  lemma {:induction false} ExplainsConcat(q: Queues, l1: seq<Event>, q1: Queues, l2: seq<Event>, q2: Queues)
    requires Explains(q, l1, q1) && Explains(q1, l2, q2)
    ensures Explains(q, l1 + l2, q2)
    decreases |l1|
  {
    if l1 == [] {
      assert l1 + l2 == l2;
    } else {
      ExplainsConcat(Effect(q, l1[0]), l1[1..], q1, l2, q2);
      assert (l1 + l2)[1..] == l1[1..] + l2;
    }
  }

  lemma ExplainsNext(q: Queues, e: Event, rest: seq<Event>, q': Queues)
    requires Enabled(q, e) && Explains(Effect(q, e), rest, q')
    ensures Explains(q, [e] + rest, q')
  {
    assert ([e] + rest)[1..] == rest;
  }

  lemma EnqueueExplained(t: Table, v: int, d: Dgram)
    requires 0 <= v < |t|
    ensures Enabled(QueuesOf(t), Queued(v, d)) && Effect(QueuesOf(t), Queued(v, d)) == QueuesOf(Enqueue(t, v, d))
  {
  }

  lemma NothingExplained(q: Queues)
    ensures Explains(q, [], q)
  {
  }

  lemma {:induction false} ScanExplained(sys: System, t: Table, fd: nat, top: int, ready: set<int>, result: int, k: Kernel, n: nat, m: nat)
    requires top <= |t| && Inv(sys, t)
    ensures var s := Scan(sys, t, fd, top, ready, result, k, n, m);
            Explains(QueuesOf(t), s.log, QueuesOf(s.t))
    decreases top - fd
  {
    hide Inv, Route, Explains, Effect, QueuesOf;
    NothingExplained(QueuesOf(t));
    if fd >= top {
    } else if fd !in ready || t[fd].parent == NOTOK {
      ScanExplained(sys, t, fd + 1, top, ready - {fd}, result, k, n, m);
    } else if k.recv(n).Arrived? {
      var d := k.recv(n).d;
      var target := Route(sys, t, fd, d.source);
      RouteIsExact(sys, t, fd, d.source);
      if target.None? {
        ScanExplained(sys, t, fd + 1, top, ready - {fd}, result, k, n + 1, m);
        DiscardExplained(QueuesOf(t), fd, d);
        var rest := Scan(sys, t, fd + 1, top, ready - {fd}, result, k, n + 1, m);
        ExplainsNext(QueuesOf(t), Discarded(fd, d), rest.log, QueuesOf(rest.t));
      } else {
        EnqueueKeepsInv(sys, t, fd, d);
        var t' := Enqueue(t, target.value, d);
        EnqueueExplained(t, target.value, d);
        NothingExplained(QueuesOf(t'));
        var p := k.poll(m, OK);
        if result - 1 > 0 && p.result > 0 {
          ScanExplained(sys, t', fd + 1, top, p.r, p.result, k, n + 1, m + 1);
          var rest := Scan(sys, t', fd + 1, top, p.r, p.result, k, n + 1, m + 1);
          ExplainsNext(QueuesOf(t), Queued(target.value, d), rest.log, QueuesOf(rest.t));
        } else {
          ExplainsNext(QueuesOf(t), Queued(target.value, d), [], QueuesOf(t'));
          assert [Queued(target.value, d)] + [] == [Queued(target.value, d)];
        }
      }
    }
  }

  lemma DiscardExplained(q: Queues, fd: int, d: Dgram)
    ensures Enabled(q, Discarded(fd, d)) && Effect(q, Discarded(fd, d)) == q
  {
  }

  lemma SelectExplained(sys: System, t: Table, nfds: int, r: Option<set<int>>, w: Option<set<int>>, e: Option<set<int>>, secs: int, k: Kernel)
    requires Inv(sys, t)
    ensures var s := Select(sys, t, nfds, r, w, e, secs, k);
            Explains(QueuesOf(t), s.log, QueuesOf(s.t))
  {
    var p := k.poll(0, if r.Some? && Waiting(t, r.value) then OK else secs);
    ScanExplained(sys, t, 0, Min(nfds, |t|), p.r, p.result, k, 0, 1);
  }

  lemma DequeueExplained(t: Table, fd: int)
    requires 0 <= fd < |t| && t[fd].queue != []
    ensures Explains(QueuesOf(t), [Delivered(fd, t[fd].queue[0])], QueuesOf(Dequeue(t, fd)))
  {
    assert QueuesOf(Dequeue(t, fd)) == Effect(QueuesOf(t), Delivered(fd, t[fd].queue[0]));
  }

  lemma {:induction false} AwaitExplained(sys: System, t: Table, fd: int, tries: seq<Kernel>, i: nat)
    requires Inv(sys, t) && 0 <= fd < |t|
    ensures var o := Await(sys, t, fd, tries, i);
            Explains(QueuesOf(t), o.log, QueuesOf(o.t))
    decreases |tries| - i
  {
    if t[fd].queue == [] && i < |tries| {
      var s := SelectFd(sys, t, fd, NOTOK, tries[i]);
      SelectKeepsInv(sys, t, fd + 1, Some({fd}), None, None, NOTOK, tries[i]);
      SelectExplained(sys, t, fd + 1, Some({fd}), None, None, NOTOK, tries[i]);
      if s.ret.Fine? {
        AwaitExplained(sys, s.t, fd, tries, i + 1);
        var rest := Await(sys, s.t, fd, tries, i + 1);
        ExplainsConcat(QueuesOf(t), s.log, QueuesOf(s.t), rest.log, QueuesOf(rest.t));
      }
    }
  }

  lemma ReadExplained(sys: System, t: Table, fd: int, tries: seq<Kernel>)
    requires Inv(sys, t) && Live(t, fd)
    ensures var o := Read(sys, t, fd, tries);
            Explains(QueuesOf(t), o.log, QueuesOf(o.t))
  {
    AwaitExplained(sys, t, fd, tries, 0);
    var a := Await(sys, t, fd, tries, 0);
    if a.ret.Fine? && a.t[fd].queue != [] {
      DequeueExplained(a.t, fd);
      ExplainsConcat(QueuesOf(t), a.log, QueuesOf(a.t),
                     [Delivered(fd, a.t[fd].queue[0])], QueuesOf(Dequeue(a.t, fd)));
    }
  }

  lemma OpenChildExplained(sys: System, t: Table, fd: int, sd: int)
    requires Inv(sys, t) && Root(t, fd) && t[fd].queue != [] && 0 <= sd < |t| && !Live(t, sd)
    ensures Explains(QueuesOf(t), [Moved(fd, sd, t[fd].queue[0])], QueuesOf(OpenChild(sys, t, fd, sd)))
  {
    var d := t[fd].queue[0];
    assert t[sd].queue + [d] == [d];
    assert QueuesOf(OpenChild(sys, t, fd, sd)) == Effect(QueuesOf(t), Moved(fd, sd, d));
  }

  lemma JoinNewExplained(sys: System, t: Table, fd: int, sd: int, k: Kernel)
    requires Inv(sys, t) && !Live(t, sd)
    ensures var o := JoinNew(sys, t, fd, sd, k);
            Explains(QueuesOf(t), o.log, QueuesOf(o.t))
  {
    hide Explains, Select, Route;
    NothingExplained(QueuesOf(t));
    if Root(t, fd) {
      var s := SelectFd(sys, t, fd, OK, k);
      SelectKeepsInv(sys, t, fd + 1, Some({fd}), None, None, OK, k);
      SelectExplained(sys, t, fd + 1, Some({fd}), None, None, OK, k);
      if s.ret.Fine? && s.t[fd].queue != [] && 0 <= sd < |t| {
        var moved := Moved(fd, sd, s.t[fd].queue[0]);
        OpenChildExplained(sys, s.t, fd, sd);
        ExplainsConcat(QueuesOf(t), s.log, QueuesOf(s.t), [moved], QueuesOf(OpenChild(sys, s.t, fd, sd)));
      }
    }
  }

  /** The events an operation reports account for every change it makes to any queue. */
  lemma StepExplained(sys: System, t: Table, op: Op)
    requires Inv(sys, t) && Legal(t, op)
    ensures Explains(QueuesOf(t), Step(sys, t, op).log, QueuesOf(Step(sys, t, op).t))
  {
    match op
    case DoStart(sd) => assert QueuesOf(Step(sys, t, op).t) == QueuesOf(t);
    case DoHack(fd, sock) => assert QueuesOf(Step(sys, t, op).t) == QueuesOf(t);
    case DoJoinSame(fd, peer) => assert QueuesOf(Step(sys, t, op).t) == QueuesOf(t);
    case DoJoinNew(fd, sd, k) => JoinNewExplained(sys, t, fd, sd, k);
    case DoRead(fd, tries) => if Live(t, fd) { ReadExplained(sys, t, fd, tries); }
    case DoClose(fd) =>
      if Live(t, fd) {
        assert QueuesOf(Step(sys, t, op).t) == Effect(QueuesOf(t), Freed(fd, t[fd].queue));
      }
    case DoSelect(nfds, r, w, e, secs, k) => SelectExplained(sys, t, nfds, r, w, e, secs, k);
  }

  lemma {:induction false} RunExplained(sys: System, n: nat, ops: seq<Op>)
    requires LegalRun(sys, Blank(n), ops)
    ensures var o := Run(sys, Blank(n), ops);
            Explains(QueuesOf(Blank(n)), o.1, QueuesOf(o.0))
    decreases |ops|
  {
    if ops != [] {
      var before := Run(sys, Blank(n), ops[..|ops| - 1]);
      var op := ops[|ops| - 1];
      RunExplained(sys, n, ops[..|ops| - 1]);
      ReachableStatesAreForests(sys, n, ops[..|ops| - 1]);
      StepExplained(sys, before.0, op);
      var o := Step(sys, before.0, op);
      ExplainsConcat(QueuesOf(Blank(n)), before.1, QueuesOf(before.0), o.log, QueuesOf(o.t));
    }
  }

  // ----- First in, first out -----

  /** The datagrams that entered the queue of `slot`, in order. */
  function Entered(log: seq<Event>, slot: int): seq<Dgram>
    decreases |log|
  {
    if log == [] then []
    else
      var rest := Entered(log[1..], slot);
      match log[0]
      case Queued(s, d) => if s == slot then [d] + rest else rest
      case Moved(_, s, d) => if s == slot then [d] + rest else rest
      case _ => rest
  }

  /** The datagrams that left it, in order. */
  function Left(log: seq<Event>, slot: int): seq<Dgram>
    decreases |log|
  {
    if log == [] then []
    else
      var rest := Left(log[1..], slot);
      match log[0]
      case Delivered(s, d) => if s == slot then [d] + rest else rest
      case Moved(s, _, d) => if s == slot then [d] + rest else rest
      case Freed(s, ds) => if s == slot then ds + rest else rest
      case _ => rest
  }

  lemma TakeFirst(q: seq<Dgram>, entered: seq<Dgram>, left: seq<Dgram>, q': seq<Dgram>)
    requires q != [] && q[1..] + entered == left + q'
    ensures q + entered == ([q[0]] + left) + q'
  {
    assert q + entered == [q[0]] + (q[1..] + entered);
    assert ([q[0]] + left) + q' == [q[0]] + (left + q');
  }

  lemma {:induction false} ReplayIsFifo(q: Queues, log: seq<Event>, q': Queues, slot: int)
    requires Explains(q, log, q') && 0 <= slot < |q|
    ensures |q'| == |q| && q[slot] + Entered(log, slot) == Left(log, slot) + q'[slot]
    decreases |log|
  {
    if log != [] {
      var q1 := Effect(q, log[0]);
      ReplayIsFifo(q1, log[1..], q', slot);
      var entered, left := Entered(log[1..], slot), Left(log[1..], slot);
      match log[0]
      case Queued(s, d) =>
        if s == slot { assert q[slot] + ([d] + entered) == q1[slot] + entered; }
      case Discarded(_, _) =>
      case Delivered(s, d) =>
        if s == slot { TakeFirst(q[slot], entered, left, q'[slot]); }
      case Moved(from, s, d) =>
        if from == slot {
          TakeFirst(q[slot], entered, left, q'[slot]);
        } else if s == slot {
          assert q[slot] + ([d] + entered) == q1[slot] + entered;
        }
      case Freed(s, ds) =>
        if s == slot { assert q1[slot] + entered == entered; }
    }
  }

  /** Over any run, what left a queue is a prefix of what entered it, and the rest is still there, in order. */
  lemma QueuesAreFifo(sys: System, n: nat, ops: seq<Op>, slot: int)
    requires LegalRun(sys, Blank(n), ops) && 0 <= slot < n
    ensures |Run(sys, Blank(n), ops).0| == n
    ensures var (t, log) := Run(sys, Blank(n), ops); Entered(log, slot) == Left(log, slot) + t[slot].queue
  {
    var o := Run(sys, Blank(n), ops);
    ReachableStatesAreForests(sys, n, ops);
    RunExplained(sys, n, ops);
    ReplayIsFifo(QueuesOf(Blank(n)), o.1, QueuesOf(o.0), slot);
    assert QueuesOf(Blank(n))[slot] + Entered(o.1, slot) == Entered(o.1, slot);
  }

  // ----- Conservation -----

  /** How often `d` was taken from the kernel, and what became of it. */
  datatype Tally = Tally(received: nat, read: nat, discarded: nat, freed: nat)

  function Count(log: seq<Event>, d: Dgram): Tally
    decreases |log|
  {
    if log == [] then Tally(0, 0, 0, 0)
    else
      var c := Count(log[1..], d);
      match log[0]
      case Queued(_, x) => if x == d then c.(received := c.received + 1) else c
      case Discarded(_, x) => if x == d then c.(received := c.received + 1, discarded := c.discarded + 1) else c
      case Delivered(_, x) => if x == d then c.(read := c.read + 1) else c
      case Moved(_, _, x) => c
      case Freed(_, ds) => c.(freed := c.freed + multiset(ds)[d])
  }

  /** How many copies of `d` wait in the queues from `i` on. */
  function StillQueued(q: Queues, i: nat, d: Dgram): nat
    requires i <= |q|
    decreases |q| - i
  {
    if i == |q| then 0 else multiset(q[i])[d] + StillQueued(q, i + 1, d)
  }

  lemma {:induction false} StillQueuedUpdate(q: Queues, i: nat, slot: nat, ds: seq<Dgram>, d: Dgram)
    requires i <= |q| && slot < |q|
    ensures StillQueued(q[slot := ds], i, d)
            == if i <= slot then StillQueued(q, i, d) - multiset(q[slot])[d] + multiset(ds)[d] else StillQueued(q, i, d)
    decreases |q| - i
  {
    if i < |q| {
      StillQueuedUpdate(q, i + 1, slot, ds, d);
    }
  }

  lemma TakeOne(s: seq<Dgram>, d: Dgram)
    requires s != []
    ensures multiset(s)[d] == multiset(s[1..])[d] + (if s[0] == d then 1 else 0)
  {
    assert s == [s[0]] + s[1..];
  }

  lemma {:induction false} ReplayConserves(q: Queues, log: seq<Event>, q': Queues, d: Dgram)
    requires Explains(q, log, q')
    ensures var c := Count(log, d);
            StillQueued(q, 0, d) + c.received == c.read + c.discarded + c.freed + StillQueued(q', 0, d)
    decreases |log|
  {
    if log != [] {
      var q1 := Effect(q, log[0]);
      ReplayConserves(q1, log[1..], q', d);
      match log[0]
      case Queued(s, x) => StillQueuedUpdate(q, 0, s, q[s] + [x], d);
      case Discarded(_, _) =>
      case Delivered(s, x) =>
        StillQueuedUpdate(q, 0, s, q[s][1..], d);
        TakeOne(q[s], d);
      case Moved(from, s, x) =>
        StillQueuedUpdate(q, 0, from, q[from][1..], d);
        StillQueuedUpdate(q[from := q[from][1..]], 0, s, [x], d);
        TakeOne(q[from], d);
      case Freed(s, ds) => StillQueuedUpdate(q, 0, s, [], d);
    }
  }

  lemma {:induction false} BlankIsEmpty(n: nat, i: nat, d: Dgram)
    requires i <= n
    ensures StillQueued(QueuesOf(Blank(n)), i, d) == 0
    decreases n - i
  {
    if i < n {
      BlankIsEmpty(n, i + 1, d);
    }
  }

  /** Over any run: received = read + discarded + freed by close + still queued, datagram by datagram. */
  lemma DatagramsAreConserved(sys: System, n: nat, ops: seq<Op>, d: Dgram)
    requires LegalRun(sys, Blank(n), ops)
    ensures var (t, log) := Run(sys, Blank(n), ops);
            var c := Count(log, d);
            c.received == c.read + c.discarded + c.freed + StillQueued(QueuesOf(t), 0, d)
  {
    var o := Run(sys, Blank(n), ops);
    RunExplained(sys, n, ops);
    ReplayConserves(QueuesOf(Blank(n)), o.1, QueuesOf(o.0), d);
    BlankIsEmpty(n, 0, d);
  }

  // ----- Nothing taken from the kernel is lost or duplicated -----

  function Received(log: seq<Event>): seq<Dgram>
    decreases |log|
  {
    if log == [] then []
    else
      match log[0]
      case Queued(_, d) => [d] + Received(log[1..])
      case Discarded(_, d) => [d] + Received(log[1..])
      case _ => Received(log[1..])
  }

  /** The log has one event for each of the answers of `recvfrom` from the `n`-th on, in order, and a failure comes after them. */
  predicate LogsArrivals(s: Scanned, k: Kernel, n: nat) {
    && |Received(s.log)| == |s.log|
    && (forall i :: 0 <= i < |s.log| ==> k.recv(n + i) == Arrived(Received(s.log)[i]))
    && (s.failed ==> k.recv(n + |s.log|) == NoArrival)
  }

  lemma OneMoreArrival(s: Scanned, k: Kernel, n: nat, e: Event, d: Dgram)
    requires k.recv(n) == Arrived(d) && LogsArrivals(s, k, n + 1)
    requires (e.Queued? || e.Discarded?) && e.d == d
    ensures LogsArrivals(s.(log := [e] + s.log), k, n)
  {
    var log := [e] + s.log;
    assert log[1..] == s.log;
    assert Received(log) == [d] + Received(s.log);
    forall i | 0 <= i < |log| ensures k.recv(n + i) == Arrived(Received(log)[i]) {
      if i > 0 {
        assert n + 1 + (i - 1) == n + i;
      }
    }
    assert n + 1 + |s.log| == n + |log|;
  }

  /** The receive loop logs exactly the datagrams `recvfrom` yielded, each once and in that order. */
  lemma {:induction false} ScanLogsEveryArrival(sys: System, t: Table, fd: nat, top: int, ready: set<int>, result: int, k: Kernel, n: nat, m: nat)
    requires top <= |t|
    ensures LogsArrivals(Scan(sys, t, fd, top, ready, result, k, n, m), k, n)
    decreases top - fd
  {
    hide Route, LogsArrivals;
    NoArrivals(t, k, n);
    if fd >= top {
    } else if fd !in ready || t[fd].parent == NOTOK {
      ScanLogsEveryArrival(sys, t, fd + 1, top, ready - {fd}, result, k, n, m);
    } else if k.recv(n).Arrived? {
      var d := k.recv(n).d;
      var target := Route(sys, t, fd, d.source);
      if target.None? || !(0 <= target.value < |t|) {
        ScanLogsEveryArrival(sys, t, fd + 1, top, ready - {fd}, result, k, n + 1, m);
        OneMoreArrival(Scan(sys, t, fd + 1, top, ready - {fd}, result, k, n + 1, m), k, n, Discarded(fd, d), d);
      } else {
        var p := k.poll(m, OK);
        var t' := Enqueue(t, target.value, d);
        if result - 1 > 0 && p.result > 0 {
          ScanLogsEveryArrival(sys, t', fd + 1, top, p.r, p.result, k, n + 1, m + 1);
          OneMoreArrival(Scan(sys, t', fd + 1, top, p.r, p.result, k, n + 1, m + 1), k, n, Queued(target.value, d), d);
        } else {
          NoArrivals(t', k, n + 1);
          OneMoreArrival(Scanned(t', false, []), k, n, Queued(target.value, d), d);
          assert [Queued(target.value, d)] + [] == [Queued(target.value, d)];
        }
      }
    }
  }

  lemma NoArrivals(t: Table, k: Kernel, n: nat)
    ensures LogsArrivals(Scanned(t, false, []), k, n)
    ensures k.recv(n).NoArrival? ==> LogsArrivals(Scanned(t, true, []), k, n)
  {
  }

  lemma {:induction false} ScanOnlyAppends(sys: System, t: Table, fd: nat, top: int, ready: set<int>, result: int, k: Kernel, n: nat, m: nat)
    requires top <= |t|
    ensures var s := Scan(sys, t, fd, top, ready, result, k, n, m);
            forall i :: 0 <= i < |t| ==> t[i].queue <= s.t[i].queue
    decreases top - fd
  {
    if fd >= top {
    } else if fd !in ready || t[fd].parent == NOTOK {
      ScanOnlyAppends(sys, t, fd + 1, top, ready - {fd}, result, k, n, m);
    } else if k.recv(n).Arrived? {
      var d := k.recv(n).d;
      var target := Route(sys, t, fd, d.source);
      if target.None? || !(0 <= target.value < |t|) {
        ScanOnlyAppends(sys, t, fd + 1, top, ready - {fd}, result, k, n + 1, m);
      } else {
        var p := k.poll(m, OK);
        if result - 1 > 0 && p.result > 0 {
          ScanOnlyAppends(sys, Enqueue(t, target.value, d), fd + 1, top, p.r, p.result, k, n + 1, m + 1);
        }
      }
    }
  }

  /** A successful join connects the new child to the sender waiting longest at the root, whose datagram it now holds. */
  lemma JoinAcceptsTheOldest(sys: System, t: Table, fd: int, sd: int, k: Kernel)
    requires Inv(sys, t) && Root(t, fd) && !Live(t, sd) && JoinNew(sys, t, fd, sd, k).ret.Fine?
    ensures var before, o := SelectFd(sys, t, fd, OK, k).t[fd].queue, JoinNew(sys, t, fd, sd, k);
            && before != [] && o.ret == Fine(sd) && 0 <= sd < |o.t| && Inv(sys, o.t)
            && o.t[sd].parent == fd && o.t[sd].queue == [before[0]] && o.t[fd].queue == before[1..]
            && o.t[sd].peer.family == before[0].source.family && o.t[sd].peer.data == before[0].source.data
            && (t[fd].queue != [] ==> before[0] == t[fd].queue[0])
  {
    var p := k.poll(0, OK);
    ScanOnlyAppends(sys, t, 0, Min(fd + 1, |t|), p.r, p.result, k, 0, 1);
    SelectKeepsInv(sys, t, fd + 1, Some({fd}), None, None, OK, k);
    JoinNewKeepsInv(sys, t, fd, sd, k);
    assert SelectFd(sys, t, fd, OK, k).t[sd].queue == [];
  }

  // ----- What select reports -----

  /** A requested live slot is reported readable iff its queue is not empty; the count is that of the reported union. */
  lemma SelectReportsQueues(sys: System, t: Table, nfds: int, fds: set<int>, w: Option<set<int>>, e: Option<set<int>>, secs: int, k: Kernel)
    requires Inv(sys, t)
    requires Select(sys, t, nfds, Some(fds), w, e, secs, k).ret.Fine?
    ensures var s := Select(sys, t, nfds, Some(fds), w, e, secs, k);
            && (forall fd :: fd in fds && Live(t, fd) ==> (fd in s.r <==> s.t[fd].queue != []))
            && s.ret.value == |set fd | 0 <= fd < nfds && Reported(s, w, e, fd)|
  {
    SelectKeepsInv(sys, t, nfds, Some(fds), w, e, secs, k);
    var s := Select(sys, t, nfds, Some(fds), w, e, secs, k);
    assert Below(nfds, s.r + (if w.Some? then s.w else {}) + (if e.Some? then s.e else {}))
           == set fd | 0 <= fd < nfds && Reported(s, w, e, fd);
  }

  /** `fd` is in one of the sets handed back to the caller. */
  predicate Reported(s: SelectOutcome, w: Option<set<int>>, e: Option<set<int>>, fd: int) {
    fd in s.r || (w.Some? && fd in s.w) || (e.Some? && fd in s.e)
  }

  /** Two kernels that answer every poll without a timeout, and every receive, alike. */
  ghost predicate SameWithoutWaiting(k: Kernel, k': Kernel) {
    (forall m :: k.poll(m, OK) == k'.poll(m, OK)) && (forall n :: k.recv(n) == k'.recv(n))
  }

  lemma {:induction false} ScanNeverWaits(sys: System, t: Table, fd: nat, top: int, ready: set<int>, result: int, k: Kernel, k': Kernel, n: nat, m: nat)
    requires top <= |t| && SameWithoutWaiting(k, k')
    ensures Scan(sys, t, fd, top, ready, result, k, n, m) == Scan(sys, t, fd, top, ready, result, k', n, m)
    decreases top - fd
  {
    hide Route;
    if fd >= top {
    } else if fd !in ready || t[fd].parent == NOTOK {
      ScanNeverWaits(sys, t, fd + 1, top, ready - {fd}, result, k, k', n, m);
    } else if k.recv(n).Arrived? {
      var d := k.recv(n).d;
      var target := Route(sys, t, fd, d.source);
      assert k'.recv(n) == k.recv(n);
      if target.None? || !(0 <= target.value < |t|) {
        ScanNeverWaits(sys, t, fd + 1, top, ready - {fd}, result, k, k', n + 1, m);
      } else {
        var p := k.poll(m, OK);
        assert k'.poll(m, OK) == p;
        if result - 1 > 0 && p.result > 0 {
          ScanNeverWaits(sys, Enqueue(t, target.value, d), fd + 1, top, p.r, p.result, k, k', n + 1, m + 1);
        }
      }
    } else {
      assert k'.recv(n) == k.recv(n);
    }
  }

  /**
   With something queued on a requested slot the whole call never waits: neither
   its timeout nor what the kernel would answer to a poll that may wait matters.
   */
  lemma SelectNeverBlocksOnQueuedData(sys: System, t: Table, nfds: int, fds: set<int>, w: Option<set<int>>, e: Option<set<int>>,
                                      secs: int, secs': int, k: Kernel, k': Kernel, fd: int)
    requires fd in fds && Live(t, fd) && t[fd].queue != [] && SameWithoutWaiting(k, k')
    ensures Select(sys, t, nfds, Some(fds), w, e, secs, k) == Select(sys, t, nfds, Some(fds), w, e, secs', k')
  {
    hide Scan;
    assert Waiting(t, fds);
    var p := k.poll(0, OK);
    assert k'.poll(0, OK) == p;
    ScanNeverWaits(sys, t, 0, Min(nfds, |t|), p.r, p.result, k, k', 0, 1);
  }
}
