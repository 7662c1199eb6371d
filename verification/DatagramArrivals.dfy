/**
 What a select receives, told without its loop: a sequence of turns, in each of
 which the least ready descriptor that has not had its turn is received from, until
 the count of ready descriptors is used up, a poll finds none, or none is left.
 */
module DatagramArrivals {
  import opened Wrappers
  import opened Datagrams
  import opened DatagramTheorems

  /** A datagram received on `fd` and where it went, if anywhere. */
  datatype Turn = Turn(fd: int, d: Dgram, to: Option<int>)

  /** How many of the datagrams were queued; after each of them the descriptors are polled again. */
  function Queuings(ts: seq<Turn>): (n: nat)
    ensures n <= |ts|
  {
    if ts == [] then 0 else Queuings(ts[..|ts| - 1]) + if ts[|ts| - 1].to.Some? then 1 else 0
  }

  /** The answer to the latest poll. */
  function Polled(first: Poll, k: Kernel, ts: seq<Turn>): Poll {
    if Queuings(ts) == 0 then first else k.poll(Queuings(ts), OK)
  }

  function LastFd(ts: seq<Turn>): int {
    if ts == [] then -1 else ts[|ts| - 1].fd
  }

  /** A live descriptor below `nfds` that the poll found ready. */
  predicate Ready(t: Table, nfds: int, p: Poll, fd: int) {
    fd < nfds && Live(t, fd) && fd in p.r
  }

  /** The least of them beyond `after`. */
  ghost predicate Next(t: Table, nfds: int, p: Poll, after: int, fd: int) {
    after < fd && Ready(t, nfds, p, fd) && forall v :: after < v < fd ==> !Ready(t, nfds, p, v)
  }

  ghost predicate NoneLeft(t: Table, nfds: int, p: Poll, after: int) {
    forall v :: after < v ==> !Ready(t, nfds, p, v)
  }

  /** The last turn queued a datagram, and either it was the last that was ready or no more were when polled again. */
  predicate Stopped(first: Poll, k: Kernel, ts: seq<Turn>) {
    ts != [] && ts[|ts| - 1].to.Some? &&
    (Polled(first, k, ts[..|ts| - 1]).result <= 1 || Polled(first, k, ts).result <= 0)
  }

  /** Turn `i` is taken by the right descriptor, with what the kernel gives and by the routing rule. */
  ghost predicate Due(sys: System, t: Table, nfds: int, first: Poll, k: Kernel, ts: seq<Turn>, i: nat)
    requires i < |ts|
  {
    var before := ts[..i];
    && !Stopped(first, k, before)
    && Next(t, nfds, Polled(first, k, before), LastFd(before), ts[i].fd)
    && k.recv(i) == Arrived(ts[i].d)
    && ts[i].to == Route(sys, t, ts[i].fd, ts[i].d.source)
  }

  ghost predicate AllDue(sys: System, t: Table, nfds: int, first: Poll, k: Kernel, ts: seq<Turn>) {
    forall i :: 0 <= i < |ts| ==> Due(sys, t, nfds, first, k, ts, i)
  }

  /** These are all the turns, and the select fails exactly when the next descriptor has nothing after all. */
  ghost predicate Finished(t: Table, nfds: int, first: Poll, k: Kernel, ts: seq<Turn>, failed: bool) {
    var p := Polled(first, k, ts);
    if failed then !Stopped(first, k, ts) && k.recv(|ts|).NoArrival? && !NoneLeft(t, nfds, p, LastFd(ts))
    else Stopped(first, k, ts) || NoneLeft(t, nfds, p, LastFd(ts))
  }

  function Logged(ts: seq<Turn>): (log: seq<Event>)
    ensures |log| == |ts|
    ensures forall i :: 0 <= i < |ts| ==>
              log[i] == if ts[i].to.Some? then Queued(ts[i].to.value, ts[i].d) else Discarded(ts[i].fd, ts[i].d)
  {
    seq(|ts|, i requires 0 <= i < |ts| =>
      if ts[i].to.Some? then Queued(ts[i].to.value, ts[i].d) else Discarded(ts[i].fd, ts[i].d))
  }

  // ----- One more turn -----

  lemma MoreTurns(first: Poll, k: Kernel, ts: seq<Turn>, turn: Turn)
    ensures var more := ts + [turn];
            && more[..|more| - 1] == ts && LastFd(more) == turn.fd
            && Queuings(more) == Queuings(ts) + (if turn.to.Some? then 1 else 0)
            && (turn.to.None? ==> Polled(first, k, more) == Polled(first, k, ts) && !Stopped(first, k, more))
            && (turn.to.Some? ==> Polled(first, k, more) == k.poll(Queuings(ts) + 1, OK))
            && (turn.to.Some? ==> (Stopped(first, k, more) <==>
                                   Polled(first, k, ts).result <= 1 || k.poll(Queuings(ts) + 1, OK).result <= 0))
  {
    var more := ts + [turn];
    assert more[..|more| - 1] == ts;
  }

  lemma StillDue(sys: System, t: Table, nfds: int, first: Poll, k: Kernel, ts: seq<Turn>, turn: Turn)
    requires AllDue(sys, t, nfds, first, k, ts) && Due(sys, t, nfds, first, k, ts + [turn], |ts|)
    ensures AllDue(sys, t, nfds, first, k, ts + [turn])
  {
    var more := ts + [turn];
    forall i | 0 <= i < |more| ensures Due(sys, t, nfds, first, k, more, i) {
      if i < |ts| {
        assert more[..i] == ts[..i] && more[i] == ts[i];
        assert Due(sys, t, nfds, first, k, ts, i);
      }
    }
  }

  lemma RouteOfSlots(sys: System, t: Table, t': Table, fd: int, src: Sockaddr)
    requires SameSlots(t, t') && Live(t, fd)
    ensures Live(t', fd) && Route(sys, t', fd, src) == Route(sys, t, fd, src)
  {
    SiblingOfSlots(sys, t, t', fd, 0, src);
  }

  lemma {:induction false} SiblingOfSlots(sys: System, t: Table, t': Table, fd: int, v: nat, src: Sockaddr)
    requires SameSlots(t, t') && Live(t, fd) && v <= |t|
    ensures FirstSibling(sys, t', fd, v, src) == FirstSibling(sys, t, fd, v, src)
    decreases |t| - v
  {
    if v < |t| {
      assert Sibling(sys, t', fd, v, src) == Sibling(sys, t, fd, v, src);
      SiblingOfSlots(sys, t, t', fd, v + 1, src);
    }
  }

  lemma LiveOfSlots(t: Table, t': Table, fd: int)
    requires SameSlots(t, t')
    ensures Live(t', fd) <==> Live(t, fd)
  {
  }

  /** What the turns so far leave to the loop at descriptor `fd`. */
  ghost predicate Reached(sys: System, t: Table, fd: nat, nfds: int, first: Poll, k: Kernel, ts: seq<Turn>,
                          ready: set<int>, result: int)
  {
    var p := Polled(first, k, ts);
    && AllDue(sys, t, nfds, first, k, ts) && !Stopped(first, k, ts) && LastFd(ts) < fd && result == p.result
    && (forall v :: LastFd(ts) < v < fd ==> !Ready(t, nfds, p, v))
    && (forall v :: v >= fd ==> (v in ready <==> v in p.r))
  }

  lemma ReachedNext(sys: System, t: Table, fd: nat, nfds: int, first: Poll, k: Kernel, ts: seq<Turn>,
                    ready: set<int>, result: int)
    requires Reached(sys, t, fd, nfds, first, k, ts, ready, result) && !Ready(t, nfds, Polled(first, k, ts), fd)
    ensures Reached(sys, t, fd + 1, nfds, first, k, ts, ready - {fd}, result)
  {
    hide AllDue, Polled, Stopped, LastFd;
  }

  lemma ReachedEnd(sys: System, t: Table, fd: nat, nfds: int, first: Poll, k: Kernel, ts: seq<Turn>,
                   ready: set<int>, result: int)
    requires Reached(sys, t, fd, nfds, first, k, ts, ready, result) && (fd >= nfds || fd >= |t|)
    ensures Finished(t, nfds, first, k, ts, false)
  {
    hide AllDue, Polled, Stopped, LastFd;
  }

  lemma ReachedNothing(sys: System, t: Table, fd: nat, nfds: int, first: Poll, k: Kernel, ts: seq<Turn>,
                       ready: set<int>, result: int)
    requires Reached(sys, t, fd, nfds, first, k, ts, ready, result) && Ready(t, nfds, Polled(first, k, ts), fd)
    requires k.recv(|ts|).NoArrival?
    ensures Finished(t, nfds, first, k, ts, true)
  {
    hide AllDue, Polled, Stopped, LastFd;
  }

  lemma TurnIsDue(sys: System, t: Table, fd: nat, nfds: int, first: Poll, k: Kernel, ts: seq<Turn>,
                  ready: set<int>, result: int, turn: Turn)
    requires Reached(sys, t, fd, nfds, first, k, ts, ready, result) && Ready(t, nfds, Polled(first, k, ts), fd)
    requires k.recv(|ts|) == Arrived(turn.d) && turn.fd == fd && turn.to == Route(sys, t, fd, turn.d.source)
    ensures AllDue(sys, t, nfds, first, k, ts + [turn])
  {
    hide Polled, Stopped, LastFd, Route;
    assert (ts + [turn])[..|ts|] == ts;
    StillDue(sys, t, nfds, first, k, ts, turn);
  }

  lemma ReachedBeyond(sys: System, t: Table, fd: nat, nfds: int, first: Poll, k: Kernel, ts: seq<Turn>, turn: Turn,
                      ready: set<int>)
    requires AllDue(sys, t, nfds, first, k, ts + [turn]) && !Stopped(first, k, ts + [turn]) && turn.fd == fd
    requires forall v :: v > fd ==> (v in ready <==> v in Polled(first, k, ts + [turn]).r)
    ensures Reached(sys, t, fd + 1, nfds, first, k, ts + [turn], ready, Polled(first, k, ts + [turn]).result)
  {
    hide AllDue, Polled, Stopped;
    assert LastFd(ts + [turn]) == fd;
  }

  lemma LoggedNext(ts: seq<Turn>, turn: Turn)
    ensures Logged(ts + [turn]) ==
            Logged(ts) + [if turn.to.Some? then Queued(turn.to.value, turn.d) else Discarded(turn.fd, turn.d)]
  {
  }

  lemma ReadyHere(sys: System, t: Table, fd: nat, nfds: int, first: Poll, k: Kernel, ts: seq<Turn>,
                  ready: set<int>, result: int)
    requires Reached(sys, t, fd, nfds, first, k, ts, ready, result)
    ensures AllDue(sys, t, nfds, first, k, ts) && result == Polled(first, k, ts).result
    ensures Ready(t, nfds, Polled(first, k, ts), fd) <==> fd < nfds && fd in ready && Live(t, fd)
    ensures forall v :: v > fd ==> (v in ready - {fd} <==> v in Polled(first, k, ts).r)
  {
    hide AllDue, Polled, Stopped, LastFd;
  }

  lemma StoppedIsFinished(t: Table, nfds: int, first: Poll, k: Kernel, ts: seq<Turn>)
    requires Stopped(first, k, ts)
    ensures Finished(t, nfds, first, k, ts, false)
  {
  }

  lemma SameLength(t: Table, t': Table)
    requires SameSlots(t, t')
    ensures |t| == |t'|
  {
  }

  lemma SameSlotsOn(t0: Table, t: Table, v: int, d: Dgram)
    requires SameSlots(t0, t) && 0 <= v < |t|
    ensures SameSlots(t0, Enqueue(t, v, d))
  {
  }

  lemma EnqueueKeepsSize(t: Table, v: int, d: Dgram)
    requires 0 <= v < |t|
    ensures |Enqueue(t, v, d)| == |t|
  {
  }

  lemma {:induction false} ScanTurns(sys: System, t0: Table, t: Table, fd: nat, nfds: int, first: Poll, k: Kernel,
                                     ts: seq<Turn>, ready: set<int>, result: int)
    returns (all: seq<Turn>)
    requires Inv(sys, t) && SameSlots(t0, t) && Reached(sys, t0, fd, nfds, first, k, ts, ready, result)
    ensures var s := Scan(sys, t, fd, Min(nfds, |t|), ready, result, k, |ts|, Queuings(ts) + 1);
            && AllDue(sys, t0, nfds, first, k, all) && Finished(t0, nfds, first, k, all, s.failed)
            && Logged(all) == Logged(ts) + s.log
    decreases Min(nfds, |t|) - fd, 1
  {
    hide AllDue, Finished, Inv, Route, SameSlots, Stopped, Polled, LastFd, Logged, Reached, Queuings;
    all := ts;
    SameLength(t0, t);
    ReadyHere(sys, t0, fd, nfds, first, k, ts, ready, result);
    assert Logged(ts) + [] == Logged(ts);
    if fd >= Min(nfds, |t|) {
      ReachedEnd(sys, t0, fd, nfds, first, k, ts, ready, result);
    } else {
      LiveOfSlots(t0, t, fd);
      if fd !in ready || t[fd].parent == NOTOK {
        ReachedNext(sys, t0, fd, nfds, first, k, ts, ready, result);
        all := ScanTurns(sys, t0, t, fd + 1, nfds, first, k, ts, ready - {fd}, result);
      } else if k.recv(|ts|).NoArrival? {
        ReachedNothing(sys, t0, fd, nfds, first, k, ts, ready, result);
      } else {
        all := ScanTurn(sys, t0, t, fd, nfds, first, k, ts, ready, result);
      }
    }
  }

  /** A turn and all that follow. */
  lemma {:induction false} ScanTurn(sys: System, t0: Table, t: Table, fd: nat, nfds: int, first: Poll, k: Kernel,
                                    ts: seq<Turn>, ready: set<int>, result: int)
    returns (all: seq<Turn>)
    requires Inv(sys, t) && SameSlots(t0, t) && Reached(sys, t0, fd, nfds, first, k, ts, ready, result)
    requires fd < Min(nfds, |t|) && fd in ready && Live(t, fd) && k.recv(|ts|).Arrived?
    ensures var s := Scan(sys, t, fd, Min(nfds, |t|), ready, result, k, |ts|, Queuings(ts) + 1);
            && AllDue(sys, t0, nfds, first, k, all) && Finished(t0, nfds, first, k, all, s.failed)
            && Logged(all) == Logged(ts) + s.log
    decreases Min(nfds, |t|) - fd, 0
  {
    hide AllDue, Finished, Inv, Route, SameSlots, Stopped, Polled, LastFd, Logged, Reached, Queuings, Enqueue;
    SameLength(t0, t);
    LiveOfSlots(t0, t, fd);
    ReadyHere(sys, t0, fd, nfds, first, k, ts, ready, result);
    var d := k.recv(|ts|).d;
    var target := Route(sys, t, fd, d.source);
    RouteOfSlots(sys, t0, t, fd, d.source);
    var turn := Turn(fd, d, target);
    var more := ts + [turn];
    TurnIsDue(sys, t0, fd, nfds, first, k, ts, ready, result, turn);
    MoreTurns(first, k, ts, turn);
    LoggedNext(ts, turn);
    if target.None? {
      ReachedBeyond(sys, t0, fd, nfds, first, k, ts, turn, ready - {fd});
      all := ScanTurns(sys, t0, t, fd + 1, nfds, first, k, more, ready - {fd}, result);
    } else {
      EnqueueKeepsInv(sys, t, fd, d);
      SameSlotsOn(t0, t, target.value, d);
      var t' := Enqueue(t, target.value, d);
      EnqueueKeepsSize(t, target.value, d);
      var p := k.poll(Queuings(ts) + 1, OK);
      if result - 1 <= 0 || p.result <= 0 {
        all := more;
        StoppedIsFinished(t0, nfds, first, k, more);
      } else {
        ReachedBeyond(sys, t0, fd, nfds, first, k, ts, turn, p.r);
        all := ScanTurns(sys, t0, t', fd + 1, nfds, first, k, more, p.r, p.result);
      }
    }
  }

  // ----- select -----

  /** The time a select may wait for: none when something is queued on a slot it asks for. */
  ghost function Patience(t: Table, fds: set<int>, secs: int): int {
    if exists fd :: Live(t, fd) && fd in fds && t[fd].queue != [] then OK else secs
  }

  lemma PatienceIsRight(t: Table, fds: set<int>, secs: int)
    ensures Patience(t, fds, secs) == if Waiting(t, fds) then OK else secs
  {
    if fd :| Live(t, fd) && fd in fds && t[fd].queue != [] {
      assert Waiting(t, fds);
    }
    if Waiting(t, fds) {
      var fd :| 0 <= fd < |t| && t[fd].parent != NOTOK && fd in fds && t[fd].queue != [];
      assert Live(t, fd);
    }
  }

  /**
   A select for reading whose first poll succeeds takes its turns, all of them and in
   order, over the descriptors below `nfds` and within the table; it does nothing else
   to datagrams, and fails exactly when a descriptor that was ready has nothing.
   */
  lemma {:induction false} SelectReceivesInOrder(sys: System, t: Table, nfds: int, fds: set<int>, w: Option<set<int>>,
                                                 e: Option<set<int>>, secs: int, k: Kernel)
    requires Inv(sys, t) && k.poll(0, Patience(t, fds, secs)).result != NOTOK
    ensures var first, s := k.poll(0, Patience(t, fds, secs)), Select(sys, t, nfds, Some(fds), w, e, secs, k);
            exists ts :: AllDue(sys, t, nfds, first, k, ts) && Finished(t, nfds, first, k, ts, s.ret.Failed?)
                         && s.log == Logged(ts)
  {
    hide AllDue, Finished, Logged, Reached, Scan, Inv, Waiting;
    PatienceIsRight(t, fds, secs);
    var first := k.poll(0, Patience(t, fds, secs));
    ReachedStart(sys, t, nfds, first, k);
    SlotsAreThemselves(t);
    var all := ScanTurns(sys, t, t, 0, nfds, first, k, [], first.r, first.result);
    NothingLogged();
  }

  lemma ReachedStart(sys: System, t: Table, nfds: int, first: Poll, k: Kernel)
    ensures Reached(sys, t, 0, nfds, first, k, [], first.r, first.result) && Queuings([]) == 0
  {
  }

  lemma NothingLogged()
    ensures Logged([]) == [] && forall log: seq<Event> :: [] + log == log
  {
  }

  lemma SlotsAreThemselves(t: Table)
    ensures SameSlots(t, t)
  {
  }

  /** When the first poll fails nothing is received, and the select fails. */
  lemma SelectFailsWithPoll(sys: System, t: Table, nfds: int, fds: set<int>, w: Option<set<int>>, e: Option<set<int>>,
                            secs: int, k: Kernel)
    requires k.poll(0, Patience(t, fds, secs)).result == NOTOK
    ensures var s := Select(sys, t, nfds, Some(fds), w, e, secs, k);
            s.ret == Failed(FromKernel) && s.t == t && s.log == []
  {
    hide Waiting, Scan;
    PatienceIsRight(t, fds, secs);
  }

  lemma FirstTurn(sys: System, t: Table, nfds: int, first: Poll, k: Kernel, ts: seq<Turn>, failed: bool, fd: int)
    requires AllDue(sys, t, nfds, first, k, ts) && Finished(t, nfds, first, k, ts, failed) && Next(t, nfds, first, -1, fd)
    ensures match k.recv(0)
            case NoArrival => ts == [] && failed
            case Arrived(d) => ts != [] && ts[0] == Turn(fd, d, Route(sys, t, fd, d.source))
  {
    assert Polled(first, k, []) == first && LastFd([]) == -1;
    if ts != [] {
      assert Due(sys, t, nfds, first, k, ts, 0) && ts[..0] == [];
    }
  }

  /** The least ready descriptor is received from: the select fails if it has nothing, and else that datagram is the first it deals with. */
  lemma {:induction false} LeastReadyIsReceived(sys: System, t: Table, nfds: int, fds: set<int>, w: Option<set<int>>,
                                                e: Option<set<int>>, secs: int, k: Kernel, fd: int)
    requires Inv(sys, t) && k.poll(0, Patience(t, fds, secs)).result != NOTOK
    requires Next(t, nfds, k.poll(0, Patience(t, fds, secs)), -1, fd)
    ensures var s := Select(sys, t, nfds, Some(fds), w, e, secs, k);
            match k.recv(0)
            case NoArrival => s.ret.Failed? && s.log == []
            case Arrived(d) =>
              var v := Route(sys, t, fd, d.source);
              s.log != [] && s.log[0] == if v.Some? then Queued(v.value, d) else Discarded(fd, d)
  {
    hide AllDue, Finished, Select, Inv;
    SelectReceivesInOrder(sys, t, nfds, fds, w, e, secs, k);
    var first, s := k.poll(0, Patience(t, fds, secs)), Select(sys, t, nfds, Some(fds), w, e, secs, k);
    var ts :| AllDue(sys, t, nfds, first, k, ts) && Finished(t, nfds, first, k, ts, s.ret.Failed?) && s.log == Logged(ts);
    FirstTurn(sys, t, nfds, first, k, ts, s.ret.Failed?, fd);
  }

  // ----- One datagram for an unconnected root -----

  /** A root that waits for anybody, with nothing queued; the kernel has one datagram for it that no child claims. */
  ghost predicate Awaited(sys: System, t: Table, fd: int, secs: int, k: Kernel, d: Dgram) {
    var p := k.poll(0, secs);
    && Inv(sys, t) && Root(t, fd) && t[fd].queue == [] && t[fd].peer.family == 0 && !Claimed(sys, t, fd, d.source)
    && p.result != NOTOK && p.r == {fd} && k.recv(0) == Arrived(d)
  }

  lemma TurnsAscend(sys: System, t: Table, nfds: int, first: Poll, k: Kernel, ts: seq<Turn>)
    requires AllDue(sys, t, nfds, first, k, ts)
    ensures |ts| > 1 ==> ts[0].fd < ts[1].fd < nfds
  {
    hide Stopped, Route, Polled;
    if |ts| > 1 {
      assert Due(sys, t, nfds, first, k, ts, 1) && ts[..1] == [ts[0]];
    }
  }

  lemma OnlyTurn(sys: System, t: Table, fd: int, secs: int, k: Kernel, d: Dgram, ts: seq<Turn>, failed: bool)
    requires Awaited(sys, t, fd, secs, k, d)
    requires AllDue(sys, t, fd + 1, k.poll(0, secs), k, ts) && Finished(t, fd + 1, k.poll(0, secs), k, ts, failed)
    ensures ts == [Turn(fd, d, Some(fd))] && !failed
  {
    hide Route;
    var first := k.poll(0, secs);
    RouteIsExact(sys, t, fd, d.source);
    assert t[fd].parent == fd;
    FirstTurn(sys, t, fd + 1, first, k, ts, failed, fd);
    TurnsAscend(sys, t, fd + 1, first, k, ts);
    assert LastFd(ts) == fd;
  }

  lemma QueuedOne(t: Table, t': Table, fd: int, d: Dgram)
    requires SameSlots(t, t') && 0 <= fd < |t| && Explains(QueuesOf(t), [Queued(fd, d)], QueuesOf(t'))
    ensures t' == Enqueue(t, fd, d)
  {
    var q := Effect(QueuesOf(t), Queued(fd, d));
    assert [Queued(fd, d)][1..] == [];
    assert Explains(q, [], QueuesOf(t'));
    forall i | 0 <= i < |t| ensures t'[i] == Enqueue(t, fd, d)[i] {
      assert QueuesOf(t')[i] == q[i];
    }
  }

  /** It is queued, and the root is reported readable. */
  lemma {:induction false} AwaitedIsQueued(sys: System, t: Table, fd: int, secs: int, k: Kernel, d: Dgram)
    requires Awaited(sys, t, fd, secs, k, d)
    ensures var s := SelectFd(sys, t, fd, secs, k);
            s.ret.Fine? && s.t == Enqueue(t, fd, d) && s.log == [Queued(fd, d)] && s.r == {fd}
  {
    hide AllDue, Finished, Scan, Inv, Explains, Claimed, Waiting;
    NoHurry(t, fd, secs);
    PatienceIsRight(t, {fd}, secs);
    SelectReceivesInOrder(sys, t, fd + 1, {fd}, None, None, secs, k);
    var first, s := k.poll(0, secs), SelectFd(sys, t, fd, secs, k);
    var ts :| AllDue(sys, t, fd + 1, first, k, ts) && Finished(t, fd + 1, first, k, ts, s.ret.Failed?) && s.log == Logged(ts);
    OnlyTurn(sys, t, fd, secs, k, d, ts, s.ret.Failed?);
    assert s.log == [Queued(fd, d)];
    SelectKeepsInv(sys, t, fd + 1, Some({fd}), None, None, secs, k);
    SelectExplained(sys, t, fd + 1, Some({fd}), None, None, secs, k);
    QueuedOne(t, s.t, fd, d);
  }

  lemma NoHurry(t: Table, fd: int, secs: int)
    requires 0 <= fd < |t| && t[fd].queue == []
    ensures Patience(t, {fd}, secs) == secs
  {
  }

  /** A read then gets the datagram. */
  lemma {:induction false} AwaitedIsRead(sys: System, t: Table, fd: int, k: Kernel, d: Dgram)
    requires Awaited(sys, t, fd, NOTOK, k, d)
    ensures var r := Read(sys, t, fd, [k]);
            r.ret == Fine(|d.payload|) && r.got == Some(d) && r.t == t && r.log == [Queued(fd, d), Delivered(fd, d)]
  {
    AwaitedIsQueued(sys, t, fd, NOTOK, k, d);
    var s := SelectFd(sys, t, fd, NOTOK, k);
    assert s.t[fd].queue == [d] && [d][1..] == [];
    assert Await(sys, s.t, fd, [k], 1) == Outcome(s.t, Fine(OK), []);
    assert Await(sys, t, fd, [k], 0) == Outcome(s.t, Fine(OK), [Queued(fd, d)] + []);
    assert Dequeue(s.t, fd) == t;
  }

  /** And a join gives a child that holds it and is connected to its sender. */
  lemma {:induction false} AwaitedIsJoined(sys: System, t: Table, fd: int, sd: int, k: Kernel, d: Dgram)
    requires Awaited(sys, t, fd, OK, k, d) && 0 <= sd < |t| && !Live(t, sd)
    ensures var o := JoinNew(sys, t, fd, sd, k);
            && o.ret == Fine(sd) && o.t[fd] == t[fd]
            && o.t[sd].parent == fd && o.t[sd].queue == [d]
            && o.t[sd].peer.family == d.source.family && o.t[sd].peer.data == d.source.data
            && forall i :: 0 <= i < |t| && i != sd ==> o.t[i] == t[i]
  {
    hide SelectFd;
    AwaitedIsQueued(sys, t, fd, OK, k, d);
    assert t[sd].parent == NOTOK && t[sd].queue == [] && sd != fd;
  }
}
