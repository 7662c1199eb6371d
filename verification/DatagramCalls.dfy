/**
 What each call of the demultiplexer does, told by its effects: the errors, the
 slot it changes, everything it leaves alone, and which addresses count as the same.
 */
module DatagramCalls {
  import opened Wrappers
  import opened Datagrams
  import opened DatagramTheorems

  // ----- Addresses -----

  predicate SameOctets(a: Sockaddr, b: Sockaddr, n: nat) {
    forall i :: 0 <= i < n && i < 14 ==> a.data[i] == b.data[i]
  }

  /** Six octets of an internet address count; of others as many as 4.4BSD says there are, elsewhere all that there are. */
  lemma HearsExactly(sys: System, src: Sockaddr, s: Slot)
    ensures Matches(sys, src, s) <==>
              match sys
              case Plain => SameOctets(src, s.peer, if src.family == 2 then 6 else 14)
              case BSD44 =>
                var len := if src.family == 2 then 6 else src.len;
                s.addrlen == len && SameOctets(src, s.peer, len)
  {
    var n := Compared(sys, src);
    if SameAddress(sys, src, s.peer) {
      forall i | 0 <= i < n ensures src.data[i] == s.peer.data[i] {
        assert src.data[..n][i] == s.peer.data[..n][i];
      }
    }
  }

  /** Whom a datagram goes to that is not from the receiver's own peer: the first other slot of its group whose peer sent it. */
  lemma FirstOfTheGroup(sys: System, t: Table, fd: int, src: Sockaddr, v: int)
    requires Live(t, fd) && !Matches(sys, src, t[fd])
    requires 0 <= v < |t| && v != fd && t[v].parent == t[fd].parent && Matches(sys, src, t[v])
    requires forall u :: 0 <= u < v && u != fd && t[u].parent == t[fd].parent ==> !Matches(sys, src, t[u])
    ensures Route(sys, t, fd, src) == Some(v)
  {
    hide Matches;
    var s := FirstSibling(sys, t, fd, 0, src);
    assert Sibling(sys, t, fd, v, src);
    assert forall u :: 0 <= u < v ==> !Sibling(sys, t, fd, u, src);
  }

  // ----- The calls -----

  /** Nothing but slot `fd` is different. */
  ghost predicate OnlyChanges(t: Table, t': Table, fd: int) {
    |t'| == |t| && forall i :: 0 <= i < |t| && i != fd ==> t'[i] == t[i]
  }

  lemma StartMakesARoot(t: Table, sd: int)
    ensures var o := Start(t, sd);
            if 0 <= sd < |t| then
              && o.ret == Fine(sd) && o.log == [] && OnlyChanges(t, o.t, sd)
              && o.t[sd].parent == sd && o.t[sd].peer == t[sd].peer && o.t[sd].queue == t[sd].queue
              && o.t[sd].addrlen == t[sd].addrlen
            else o.ret.Failed? && o.t == t && o.log == []
  {
  }

  /** The peer as it is stored: on 4.4BSD an address without a length is taken for a whole one. */
  predicate Stores(sys: System, sock: Sockaddr, peer: Sockaddr) {
    peer.family == sock.family && peer.data == sock.data &&
    peer.len == if sys.BSD44? && sock.len == 0 then 16 else sock.len
  }

  predicate Zeroed(peer: Sockaddr) {
    peer.family == 0 && peer.len == 0 && forall i :: 0 <= i < 14 ==> peer.data[i] == 0
  }

  /** A hacked root has the given peer or none, and on 4.4BSD a length of zero with a peer. */
  lemma HackGivesAPeer(sys: System, t: Table, fd: int, sock: Option<Sockaddr>)
    ensures var o := Hack(sys, t, fd, sock);
            if Root(t, fd) then
              && o.ret == Fine(0) && o.log == [] && OnlyChanges(t, o.t, fd)
              && o.t[fd].parent == fd && o.t[fd].queue == t[fd].queue
              && (if sock.Some? then Stores(sys, sock.value, o.t[fd].peer)
                  else Zeroed(o.t[fd].peer))
              && o.t[fd].addrlen == if sys.BSD44? && sock.Some? then 0 else t[fd].addrlen
            else o.ret == Failed(EINVAL) && o.t == t && o.log == []
  {
    assert ZERO_ADDRESS == seq(14, _ => 0);
  }

  /** A joined root has the given peer, and on 4.4BSD the length of its address, eight for an internet one. */
  lemma JoinGivesAPeer(sys: System, t: Table, fd: int, sock: Sockaddr)
    ensures var o := JoinSame(sys, t, fd, sock);
            if Root(t, fd) then
              && o.ret == Fine(0) && o.log == [] && OnlyChanges(t, o.t, fd)
              && o.t[fd].parent == fd && o.t[fd].queue == t[fd].queue && Stores(sys, sock, o.t[fd].peer)
              && o.t[fd].addrlen == if sys.Plain? then t[fd].addrlen else if sock.family == 2 then 8 else o.t[fd].peer.len
            else o.ret == Failed(EINVAL) && o.t == t && o.log == []
  {
  }

  /** The ways a join of a new slot fails, in order, and its effect on the two slots otherwise. */
  lemma JoinFailsOrOpens(sys: System, t: Table, fd: int, sd: int, k: Kernel)
    requires Root(t, fd) && 0 <= sd < |t| ==> sd != fd
    ensures var o, s := JoinNew(sys, t, fd, sd, k), SelectFd(sys, t, fd, OK, k);
            if !Root(t, fd) then o.ret == Failed(EINVAL) && o.t == t && o.log == []
            else if s.ret.Failed? then o.ret == s.ret && o.t == s.t && o.log == s.log
            else if s.t[fd].queue == [] then o.ret == Failed(EWOULDBLOCK) && o.t == s.t && o.log == s.log
            else if !(0 <= sd < |t|) then o.ret.Failed? && o.t == s.t && o.log == s.log
            else
              var d := s.t[fd].queue[0];
              && o.ret == Fine(sd) && o.log == s.log + [Moved(fd, sd, d)] && |o.t| == |t|
              && (forall i :: 0 <= i < |t| && i != fd && i != sd ==> o.t[i] == s.t[i])
              && o.t[fd] == s.t[fd].(queue := s.t[fd].queue[1..])
              && o.t[sd].parent == fd && o.t[sd].queue == s.t[sd].queue + [d] && Stores(sys, d.source, o.t[sd].peer)
              && o.t[sd].addrlen ==
                 if sys.Plain? then s.t[sd].addrlen else if d.source.family == 2 then 8 else o.t[sd].peer.len
  {
    hide SelectFd;
  }

  /** A closed slot is blank, its children are roots, and its datagrams are freed. */
  lemma CloseFrees(t: Table, fd: int)
    ensures var o := Close(t, fd);
            if Live(t, fd) then
              && o.ret == Fine(0) && o.log == [Freed(fd, t[fd].queue)] && |o.t| == |t|
              && o.t[fd].parent == -1 && Zeroed(o.t[fd].peer) && o.t[fd].queue == [] && o.t[fd].addrlen == t[fd].addrlen
              && forall i :: 0 <= i < |t| && i != fd ==>
                   o.t[i].parent == (if t[i].parent == fd then i else t[i].parent)
                   && o.t[i].peer == t[i].peer && o.t[i].queue == t[i].queue && o.t[i].addrlen == t[i].addrlen
            else o.ret == Failed(EINVAL) && o.t == t && o.log == []
  {
  }

  // ----- Reading -----

  /** With something queued a read takes it, the oldest first, and asks the kernel nothing. */
  lemma ReadTakesTheOldest(sys: System, t: Table, fd: int, tries: seq<Kernel>)
    requires Live(t, fd) && t[fd].queue != []
    ensures var r, d := Read(sys, t, fd, tries), t[fd].queue[0];
            && r.ret == Fine(|d.payload|) && r.got == Some(d) && r.log == [Delivered(fd, d)]
            && OnlyChanges(t, r.t, fd) && r.t[fd] == t[fd].(queue := t[fd].queue[1..])
  {
  }

  /** With nothing queued it selects, for as long as it takes, gives up when that fails, and then goes on as before. */
  lemma {:induction false} ReadSelectsFirst(sys: System, t: Table, fd: int, k: Kernel, rest: seq<Kernel>)
    requires Live(t, fd) && t[fd].queue == []
    ensures var r, s := Read(sys, t, fd, [k] + rest), SelectFd(sys, t, fd, NOTOK, k);
            if s.ret.Failed? then r.ret == s.ret && r.got.None? && r.t == s.t && r.log == s.log
            else
              var later := Read(sys, s.t, fd, rest);
              SameSlots(t, s.t) ==> r.ret == later.ret && r.got == later.got && r.t == later.t && r.log == s.log + later.log
  {
    hide SelectFd;
    var s := SelectFd(sys, t, fd, NOTOK, k);
    assert ([k] + rest)[0] == k;
    if s.ret.Fine? && SameSlots(t, s.t) {
      AwaitFromNext(sys, s.t, fd, k, rest, 0);
      var a := Await(sys, s.t, fd, rest, 0);
      if a.ret.Fine? && a.t[fd].queue != [] {
        Later(s.log, a.log, [Delivered(fd, a.t[fd].queue[0])]);
      }
    }
  }

  lemma Later(a: seq<Event>, b: seq<Event>, c: seq<Event>)
    ensures a + b + c == a + (b + c)
  {
  }

  lemma {:induction false} AwaitFromNext(sys: System, t: Table, fd: int, k: Kernel, rest: seq<Kernel>, i: nat)
    requires 0 <= fd < |t| && i <= |rest|
    ensures Await(sys, t, fd, [k] + rest, i + 1) == Await(sys, t, fd, rest, i)
    decreases |rest| - i
  {
    hide SelectFd;
    if i < |rest| {
      assert ([k] + rest)[i + 1] == rest[i];
      if t[fd].queue == [] && SelectFd(sys, t, fd, NOTOK, rest[i]).ret.Fine? {
        AwaitFromNext(sys, SelectFd(sys, t, fd, NOTOK, rest[i]).t, fd, k, rest, i + 1);
      }
    }
  }

  /** A slot that is not there cannot be read from; without any answer of the kernel the call still waits. */
  lemma ReadFails(sys: System, t: Table, fd: int, tries: seq<Kernel>)
    ensures !Live(t, fd) ==> Read(sys, t, fd, tries) == ReadOutcome(t, Failed(EINVAL), None, [])
    ensures Live(t, fd) && t[fd].queue == [] ==> Read(sys, t, fd, []) == ReadOutcome(t, Fine(0), None, [])
  {
  }

  // ----- The other answers of a select -----

  /** Nothing is looked at when nothing is to be read: the kernel's answer is given as it is. */
  lemma SelectForOthers(sys: System, t: Table, nfds: int, w: Option<set<int>>, e: Option<set<int>>, secs: int, k: Kernel)
    ensures var s, p := Select(sys, t, nfds, None, w, e, secs, k), k.poll(0, secs);
            && s.t == t && s.log == [] && s.w == p.w && s.e == p.e
            && if p.result == -1 then s.ret.Failed? else s.ret == Fine(p.result) && s.r == {}
  {
  }

  /** The sets for writing and of exceptions are the kernel's, and so is the rest of the set for reading. */
  lemma SelectPassesOn(sys: System, t: Table, nfds: int, fds: set<int>, w: Option<set<int>>, e: Option<set<int>>,
                       secs: int, k: Kernel, fd: int)
    requires Inv(sys, t)
    ensures var s, p := Select(sys, t, nfds, Some(fds), w, e, secs, k), k.poll(0, if Waiting(t, fds) then OK else secs);
            && s.w == p.w && s.e == p.e
            && (s.ret.Fine? && !(fd in fds && Live(t, fd)) ==> (fd in s.r <==> fd in p.r))
  {
    hide Scan, Waiting;
    SelectKeepsInv(sys, t, nfds, Some(fds), w, e, secs, k);
  }
}
