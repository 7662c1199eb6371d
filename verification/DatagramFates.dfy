/**
 Why each received datagram went where it went, over whole runs; and what the
 length that 4.4BSD compares besides makes of it: an internet address counts six
 octets when it is received, eight when it is joined and none when it is hacked,
 so on that system no connected endpoint ever hears from an internet peer.
 */
module DatagramFates {
  import opened Wrappers
  import opened Datagrams
  import opened DatagramTheorems

  // ----- Every event has its reason -----

  /** Nobody in `r`'s group has the source as peer, and the root is connected. */
  ghost predicate SentNowhere(sys: System, t: Table, r: int, src: Sockaddr)
    requires Live(t, r)
  {
    !Claimed(sys, t, r, src) && Live(t, t[r].parent) && t[t[r].parent].peer.family != 0
  }

  /** `v` is in `r`'s group and has the source as peer; or nobody has, and it is the root and not connected. */
  ghost predicate SentTo(sys: System, t: Table, r: int, v: int, src: Sockaddr)
    requires Live(t, r)
  {
    InGroup(t, r, v)
    && if Claimed(sys, t, r, src) then Matches(sys, src, t[v]) else v == t[r].parent && t[v].peer.family == 0
  }

  /** What the slots looked like when the event happened justifies it. */
  ghost predicate Justified(sys: System, t: Table, e: Event) {
    match e
    case Queued(v, d) => exists r :: Live(t, r) && SentTo(sys, t, r, v, d.source)
    case Discarded(r, d) => Live(t, r) && SentNowhere(sys, t, r, d.source)
    case _ => true
  }

  ghost predicate AllJustified(sys: System, t: Table, log: seq<Event>) {
    forall i :: 0 <= i < |log| ==> Justified(sys, t, log[i])
  }

  lemma RouteIsJustified(sys: System, t: Table, fd: int, d: Dgram)
    requires Inv(sys, t) && Live(t, fd)
    ensures var v := Route(sys, t, fd, d.source);
            if v.None? then Justified(sys, t, Discarded(fd, d)) else Justified(sys, t, Queued(v.value, d))
  {
    RouteIsExact(sys, t, fd, d.source);
    var v := Route(sys, t, fd, d.source);
    if v.Some? {
      if !Claimed(sys, t, fd, d.source) {
        assert v.value == t[fd].parent && Root(t, t[fd].parent);
      }
      assert SentTo(sys, t, fd, v.value, d.source);
    }
  }

  /** The reasons lie in the slots, not in the queues. */
  lemma SameSlotsJustify(sys: System, t: Table, t': Table, e: Event)
    requires SameSlots(t, t') && Justified(sys, t', e)
    ensures Justified(sys, t, e)
  {
    match e
    case Queued(v, d) =>
      var r :| Live(t', r) && SentTo(sys, t', r, v, d.source);
      SameClaims(sys, t, t', r, d.source);
      assert SentTo(sys, t, r, v, d.source);
    case Discarded(r, d) => SameClaims(sys, t, t', r, d.source);
    case _ =>
  }

  lemma SameClaims(sys: System, t: Table, t': Table, r: int, src: Sockaddr)
    requires SameSlots(t, t') && Live(t', r)
    ensures Live(t, r) && (Claimed(sys, t, r, src) <==> Claimed(sys, t', r, src))
    ensures forall v :: InGroup(t, r, v) <==> InGroup(t', r, v)
    ensures forall v :: 0 <= v < |t| ==> (Matches(sys, src, t[v]) <==> Matches(sys, src, t'[v]))
  {
    assert forall v :: 0 <= v < |t| ==> t'[v].(queue := t[v].queue) == t[v];
    if v :| InGroup(t, r, v) && Matches(sys, src, t[v]) {
      assert InGroup(t', r, v) && Matches(sys, src, t'[v]);
    }
    if v :| InGroup(t', r, v) && Matches(sys, src, t'[v]) {
      assert InGroup(t, r, v) && Matches(sys, src, t[v]);
    }
  }

  lemma AllJustifiedBefore(sys: System, t: Table, t': Table, log: seq<Event>)
    requires SameSlots(t, t') && AllJustified(sys, t', log)
    ensures AllJustified(sys, t, log)
  {
    forall i | 0 <= i < |log| ensures Justified(sys, t, log[i]) {
      SameSlotsJustify(sys, t, t', log[i]);
    }
  }

  lemma JustifiedNext(sys: System, t: Table, e: Event, rest: seq<Event>)
    requires Justified(sys, t, e) && AllJustified(sys, t, rest)
    ensures AllJustified(sys, t, [e] + rest)
  {
  }

  lemma JustifiedBoth(sys: System, t: Table, a: seq<Event>, b: seq<Event>)
    requires AllJustified(sys, t, a) && AllJustified(sys, t, b)
    ensures AllJustified(sys, t, a + b)
  {
  }

  lemma NothingToJustify(sys: System, t: Table)
    ensures AllJustified(sys, t, [])
  {
  }

  lemma {:induction false} ScanIsJustified(sys: System, t: Table, fd: nat, top: int, ready: set<int>, result: int, k: Kernel, n: nat, m: nat)
    requires top <= |t| && Inv(sys, t)
    ensures AllJustified(sys, t, Scan(sys, t, fd, top, ready, result, k, n, m).log)
    decreases top - fd
  {
    hide Inv, Route, Justified, AllJustified, SameSlots;
    NothingToJustify(sys, t);
    if fd >= top {
    } else if fd !in ready || t[fd].parent == NOTOK {
      ScanIsJustified(sys, t, fd + 1, top, ready - {fd}, result, k, n, m);
    } else if k.recv(n).Arrived? {
      var d := k.recv(n).d;
      var target := Route(sys, t, fd, d.source);
      RouteIsJustified(sys, t, fd, d);
      if target.None? {
        ScanIsJustified(sys, t, fd + 1, top, ready - {fd}, result, k, n + 1, m);
        JustifiedNext(sys, t, Discarded(fd, d), Scan(sys, t, fd + 1, top, ready - {fd}, result, k, n + 1, m).log);
      } else {
        EnqueueKeepsInv(sys, t, fd, d);
        var t' := Enqueue(t, target.value, d);
        EnqueueSameSlots(t, target.value, d);
        var p := k.poll(m, OK);
        if result - 1 > 0 && p.result > 0 {
          ScanIsJustified(sys, t', fd + 1, top, p.r, p.result, k, n + 1, m + 1);
          var rest := Scan(sys, t', fd + 1, top, p.r, p.result, k, n + 1, m + 1).log;
          AllJustifiedBefore(sys, t, t', rest);
          JustifiedNext(sys, t, Queued(target.value, d), rest);
        } else {
          JustifiedNext(sys, t, Queued(target.value, d), []);
          assert [Queued(target.value, d)] + [] == [Queued(target.value, d)];
        }
      }
    }
  }

  lemma SelectIsJustified(sys: System, t: Table, nfds: int, r: Option<set<int>>, w: Option<set<int>>, e: Option<set<int>>, secs: int, k: Kernel)
    requires Inv(sys, t)
    ensures AllJustified(sys, t, Select(sys, t, nfds, r, w, e, secs, k).log)
  {
    hide Inv, Justified, Scan;
    var p := k.poll(0, if r.Some? && Waiting(t, r.value) then OK else secs);
    ScanIsJustified(sys, t, 0, Min(nfds, |t|), p.r, p.result, k, 0, 1);
  }

  lemma {:induction false} AwaitIsJustified(sys: System, t: Table, fd: int, tries: seq<Kernel>, i: nat)
    requires Inv(sys, t) && 0 <= fd < |t|
    ensures AllJustified(sys, t, Await(sys, t, fd, tries, i).log)
    decreases |tries| - i
  {
    hide Inv, AllJustified, Select;
    NothingToJustify(sys, t);
    if t[fd].queue == [] && i < |tries| {
      var s := SelectFd(sys, t, fd, NOTOK, tries[i]);
      SelectFdKeepsInv(sys, t, fd, NOTOK, tries[i]);
      SelectIsJustified(sys, t, fd + 1, Some({fd}), None, None, NOTOK, tries[i]);
      if s.ret.Fine? {
        AwaitIsJustified(sys, s.t, fd, tries, i + 1);
        var rest := Await(sys, s.t, fd, tries, i + 1).log;
        AllJustifiedBefore(sys, t, s.t, rest);
        JustifiedBoth(sys, t, s.log, rest);
      }
    }
  }

  /** Whatever an operation queues or discards, the slots it finds are the reason. */
  lemma StepIsJustified(sys: System, t: Table, op: Op)
    requires Inv(sys, t)
    ensures AllJustified(sys, t, Step(sys, t, op).log)
  {
    hide Inv, Select, Await;
    match op
    case DoStart(_) =>
    case DoHack(_, _) =>
    case DoJoinSame(_, _) =>
    case DoJoinNew(fd, sd, k) =>
      if Root(t, fd) {
        SelectIsJustified(sys, t, fd + 1, Some({fd}), None, None, OK, k);
      }
    case DoRead(fd, tries) =>
      if Live(t, fd) {
        AwaitIsJustified(sys, t, fd, tries, 0);
      }
    case DoClose(_) =>
    case DoSelect(nfds, r, w, e, secs, k) => SelectIsJustified(sys, t, nfds, r, w, e, secs, k);
  }

  /**
   Over any run: a datagram was discarded only when its receiver's group had no
   member with that peer and a connected root, and queued only where the routing
   rule sends it, the slots being those the operation found.
   */
  lemma RunIsJustified(sys: System, n: nat, ops: seq<Op>, i: nat)
    requires LegalRun(sys, Blank(n), ops) && i < |ops|
    ensures var t := Run(sys, Blank(n), ops[..i]).0; AllJustified(sys, t, Step(sys, t, ops[i]).log)
  {
    PrefixIsLegal(sys, Blank(n), ops, i);
    ReachableStatesAreForests(sys, n, ops[..i]);
    StepIsJustified(sys, Run(sys, Blank(n), ops[..i]).0, ops[i]);
  }

  // ----- 4.4BSD -----

  /** On 4.4BSD a hacked root that is connected hears only from sources without a length, which no internet address is. */
  lemma HackedRootHearsExactly(t: Table, fd: int, sock: Sockaddr, r: int, src: Sockaddr)
    requires Inv(BSD44, t) && Root(t, fd) && sock.family != 0
    requires var t' := Hack(BSD44, t, fd, Some(sock)).t; Live(t', r) && t'[r].parent == fd
    ensures var t' := Hack(BSD44, t, fd, Some(sock)).t;
            && (Route(BSD44, t', fd, src) == Some(fd) <==> AddressLength(BSD44, src) == 0)
            && (Route(BSD44, t', r, src) == Some(fd) ==> AddressLength(BSD44, src) == 0 && src.family != AF_INET)
  {
    var t' := Hack(BSD44, t, fd, Some(sock)).t;
    StepKeepsInv(BSD44, t, DoHack(fd, Some(sock)));
    RouteIsExact(BSD44, t', fd, src);
    RouteIsExact(BSD44, t', r, src);
    assert t'[fd].addrlen == 0;
  }

  /**
   A slot hears from the address it was joined to exactly on the systems that compare
   no lengths, and on 4.4BSD exactly if that is no internet address and has a length.
   */
  lemma OwnPeerMatchesExactly(sys: System, t: Table, fd: int, sock: Sockaddr)
    requires Root(t, fd)
    ensures Matches(sys, sock, JoinSame(sys, t, fd, sock).t[fd]) <==>
              sys.Plain? || (sock.family != AF_INET && sock.len != 0)
  {
    assert Sized(sys, sock).data == sock.data;
  }

  /** Slots as internet addresses leave them. */
  predicate InternetSlot(s: Slot) {
    (s.addrlen == 0 || s.addrlen == 8) && forall i :: 0 <= i < |s.queue| ==> s.queue[i].source.family == AF_INET
  }

  predicate InternetTable(t: Table) {
    forall fd :: 0 <= fd < |t| ==> InternetSlot(t[fd])
  }

  ghost predicate InternetKernel(k: Kernel) {
    forall n :: k.recv(n).Arrived? ==> k.recv(n).d.source.family == AF_INET
  }

  /** The operation joins internet addresses only, and the kernel gives datagrams of no others. */
  ghost predicate InternetOp(op: Op) {
    match op
    case DoJoinSame(_, peer) => peer.family == AF_INET
    case DoJoinNew(_, _, k) => InternetKernel(k)
    case DoRead(_, tries) => forall i :: 0 <= i < |tries| ==> InternetKernel(tries[i])
    case DoSelect(_, _, _, _, _, k) => InternetKernel(k)
    case _ => true
  }

  predicate InternetLog(log: seq<Event>) {
    forall i :: 0 <= i < |log| && log[i].Queued? ==> log[i].d.source.family == AF_INET
  }

  lemma {:induction false} ScanStaysInternet(t: Table, fd: nat, top: int, ready: set<int>, result: int, k: Kernel, n: nat, m: nat)
    requires top <= |t| && InternetTable(t) && InternetKernel(k)
    ensures InternetTable(Scan(BSD44, t, fd, top, ready, result, k, n, m).t)
    ensures InternetLog(Scan(BSD44, t, fd, top, ready, result, k, n, m).log)
    decreases top - fd
  {
    hide Route;
    if fd >= top {
    } else if fd !in ready || t[fd].parent == NOTOK {
      ScanStaysInternet(t, fd + 1, top, ready - {fd}, result, k, n, m);
    } else if k.recv(n).Arrived? {
      var d := k.recv(n).d;
      var target := Route(BSD44, t, fd, d.source);
      if target.None? || !(0 <= target.value < |t|) {
        ScanStaysInternet(t, fd + 1, top, ready - {fd}, result, k, n + 1, m);
      } else {
        var p := k.poll(m, OK);
        if result - 1 > 0 && p.result > 0 {
          ScanStaysInternet(Enqueue(t, target.value, d), fd + 1, top, p.r, p.result, k, n + 1, m + 1);
        }
      }
    }
  }

  lemma SelectStaysInternet(t: Table, nfds: int, r: Option<set<int>>, w: Option<set<int>>, e: Option<set<int>>, secs: int, k: Kernel)
    requires InternetTable(t) && InternetKernel(k)
    ensures InternetTable(Select(BSD44, t, nfds, r, w, e, secs, k).t)
    ensures InternetLog(Select(BSD44, t, nfds, r, w, e, secs, k).log)
  {
    hide Scan;
    var p := k.poll(0, if r.Some? && Waiting(t, r.value) then OK else secs);
    ScanStaysInternet(t, 0, Min(nfds, |t|), p.r, p.result, k, 0, 1);
  }

  lemma {:induction false} AwaitStaysInternet(t: Table, fd: int, tries: seq<Kernel>, i: nat)
    requires InternetTable(t) && 0 <= fd < |t| && forall j :: 0 <= j < |tries| ==> InternetKernel(tries[j])
    ensures InternetTable(Await(BSD44, t, fd, tries, i).t) && InternetLog(Await(BSD44, t, fd, tries, i).log)
    decreases |tries| - i
  {
    hide InternetTable, Select;
    if t[fd].queue == [] && i < |tries| {
      var s := SelectFd(BSD44, t, fd, NOTOK, tries[i]);
      SelectStaysInternet(t, fd + 1, Some({fd}), None, None, NOTOK, tries[i]);
      if s.ret.Fine? {
        AwaitStaysInternet(s.t, fd, tries, i + 1);
      }
    }
  }

  lemma StepStaysInternet(t: Table, op: Op)
    requires InternetTable(t) && InternetOp(op)
    ensures InternetTable(Step(BSD44, t, op).t) && InternetLog(Step(BSD44, t, op).log)
  {
    hide Select, Await;
    match op
    case DoStart(_) =>
    case DoHack(_, _) =>
    case DoJoinSame(_, _) =>
    case DoJoinNew(fd, sd, k) =>
      if Root(t, fd) {
        SelectStaysInternet(t, fd + 1, Some({fd}), None, None, OK, k);
      }
    case DoRead(fd, tries) =>
      if Live(t, fd) {
        AwaitStaysInternet(t, fd, tries, 0);
      }
    case DoClose(_) =>
    case DoSelect(nfds, r, w, e, secs, k) => SelectStaysInternet(t, nfds, r, w, e, secs, k);
  }

  ghost predicate InternetRun(ops: seq<Op>) {
    forall i :: 0 <= i < |ops| ==> InternetOp(ops[i])
  }

  lemma {:induction false} RunStaysInternet(n: nat, ops: seq<Op>)
    requires InternetRun(ops)
    ensures InternetTable(Run(BSD44, Blank(n), ops).0)
    decreases |ops|
  {
    if ops != [] {
      RunStaysInternet(n, ops[..|ops| - 1]);
      StepStaysInternet(Run(BSD44, Blank(n), ops[..|ops| - 1]).0, ops[|ops| - 1]);
    }
  }

  lemma NobodyClaims(t: Table, r: int, src: Sockaddr)
    requires InternetTable(t) && Live(t, r) && src.family == AF_INET
    ensures !Claimed(BSD44, t, r, src)
  {
    forall v | InGroup(t, r, v) ensures !Matches(BSD44, src, t[v]) {
      assert InternetSlot(t[v]);
    }
  }

  /**
   Over any run on 4.4BSD with internet addresses alone, a received datagram is
   queued only on a root that is not connected and discarded only when the root is:
   no connected slot ever gets one, its own peer's least of all.
   */
  lemma ConnectedEndpointsAreDeaf(n: nat, ops: seq<Op>, i: nat, e: Event)
    requires LegalRun(BSD44, Blank(n), ops) && InternetRun(ops) && i < |ops|
    requires e in Step(BSD44, Run(BSD44, Blank(n), ops[..i]).0, ops[i]).log
    ensures var t := Run(BSD44, Blank(n), ops[..i]).0;
            match e
            case Queued(v, d) => Root(t, v) && t[v].peer.family == 0
            case Discarded(r, d) => Live(t, r) && Live(t, t[r].parent) && t[t[r].parent].peer.family != 0
            case _ => true
  {
    var t := Run(BSD44, Blank(n), ops[..i]).0;
    RunIsJustified(BSD44, n, ops, i);
    RunStaysInternet(n, ops[..i]);
    PrefixIsLegal(BSD44, Blank(n), ops, i);
    ReachableStatesAreForests(BSD44, n, ops[..i]);
    StepStaysInternet(t, ops[i]);
    assert Justified(BSD44, t, e);
    if e.Queued? {
      var r :| Live(t, r) && SentTo(BSD44, t, r, e.slot, e.d.source);
      NobodyClaims(t, r, e.d.source);
      assert Root(t, t[r].parent);
    }
  }
}
