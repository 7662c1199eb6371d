/**
 The slot table of compat/dgram.c with its operations in their own form: loops
 over an array that is updated in place, and queues that are rings of buffers.
 `Peers` is the table as a value; each method is proved to do to it exactly what
 the function of the same name in `Datagrams` does, so the theorems of
 `DatagramTheorems` and `DatagramFates` are theorems about these methods.
 */
module DatagramTable {
  import opened Wrappers
  import opened Datagrams
  import opened DatagramTheorems
  import opened RingTable

  lemma BelowNext(n: nat, fds: set<int>)
    ensures Below(n + 1, fds) == Below(n, fds) + (if n in fds then {n} else {})
    ensures |Below(n + 1, fds)| == |Below(n, fds)| + (if n in fds then 1 else 0)
  {
    assert Below(n + 1, fds) == Below(n, fds) + (if n in fds then {n} else {});
  }

  /** The final loop of `select_dgram_socket`: counts the set descriptors below `nfds`. */
  method CountBelow(nfds: int, fds: set<int>) returns (count: int)
    ensures count == |Below(nfds, fds)|
  {
    count := 0;
    var fd := 0;
    assert Below(0, fds) == {};
    while fd < nfds
      invariant 0 <= fd && (if nfds <= 0 then fd == 0 else fd <= nfds) && count == |Below(fd, fds)|
    {
      BelowNext(fd, fds);
      if fd in fds {
        count := count + 1;
      }
      fd := fd + 1;
    }
    if nfds <= 0 {
      assert Below(nfds, fds) == {};
    }
  }

  lemma Assoc(a: seq<Event>, b: seq<Event>, c: seq<Event>)
    ensures (a + b) + c == a + (b + c)
  {
  }

  /** The scan `whole` has logged `done` and goes on as `rest`. */
  ghost predicate Continues(whole: Scanned, done: seq<Event>, rest: Scanned) {
    whole.t == rest.t && whole.failed == rest.failed && whole.log == done + rest.log
  }

  lemma ContinuesItself(s: Scanned)
    ensures Continues(s, [], s)
  {
  }

  lemma ContinuesTo(whole: Scanned, done: seq<Event>, rest: Scanned)
    requires Continues(whole, done, rest)
    ensures whole.t == rest.t && whole.failed == rest.failed && whole.log == done + rest.log
  {
  }

  lemma ContinuesMore(whole: Scanned, done: seq<Event>, here: Scanned, e: Event, rest: Scanned)
    requires Continues(whole, done, here) && Continues(here, [e], rest)
    ensures Continues(whole, done + [e], rest)
  {
    Assoc(done, [e], rest.log);
  }

  /** One turn of the scan. */
  lemma ScanUnfolds(sys: System, t: Table, fd: nat, top: int, ready: set<int>, result: int, k: Kernel, n: nat, m: nat)
    requires top <= |t|
    ensures var s := Scan(sys, t, fd, top, ready, result, k, n, m);
            if fd >= top then s == Scanned(t, false, [])
            else if fd !in ready || t[fd].parent == NOTOK then s == Scan(sys, t, fd + 1, top, ready - {fd}, result, k, n, m)
            else if k.recv(n).NoArrival? then s == Scanned(t, true, [])
            else
              var d := k.recv(n).d;
              var v := Route(sys, t, fd, d.source);
              if v.None? || !(0 <= v.value < |t|) then
                Continues(s, [Discarded(fd, d)], Scan(sys, t, fd + 1, top, ready - {fd}, result, k, n + 1, m))
              else
                var p := k.poll(m, OK);
                var t' := Enqueue(t, v.value, d);
                if result - 1 <= 0 || p.result <= 0 then s == Scanned(t', false, [Queued(v.value, d)])
                else Continues(s, [Queued(v.value, d)], Scan(sys, t', fd + 1, top, p.r, p.result, k, n + 1, m + 1))
  {
    hide Route;
  }

  // ----- The table -----

  /** A `dgramblk` without its queue. */
  datatype Head = Head(parent: int, peer: Sockaddr, addrlen: nat)

  const BLANK_HEAD := Head(NOTOK, NO_PEER, 0)

  function Whole(h: Head, queue: seq<Dgram>): Slot {
    Slot(h.parent, h.peer, h.addrlen, queue)
  }

  function Assembled(hs: seq<Head>, qs: Queues): (t: Table)
    requires |hs| == |qs|
    ensures |t| == |hs| && forall i :: 0 <= i < |t| ==> t[i] == Whole(hs[i], qs[i])
  {
    seq(|hs|, i requires 0 <= i < |hs| => Whole(hs[i], qs[i]))
  }

  class Demux {
    const sys: System
    var heads: array<Head>     // `peers`
    var rings: Rings           // the queues of the slots
    ghost var queues: Queues   // what they hold
    ghost var log: seq<Event>  // everything that has happened to a datagram

    ghost predicate Valid()
      reads this, rings, rings.Repr
    {
      && rings.Valid() && rings.Holds(queues) && |queues| == heads.Length
      && heads !in rings.Repr && this !in rings.Repr
    }

    ghost function Footprint(): set<object>
      reads this, rings
    {
      rings.Repr + {this, heads, rings}
    }

    ghost function Peers(): Table
      reads this, heads
      requires |queues| == heads.Length
    {
      Assembled(heads[..], queues)
    }

    constructor (sys: System)
      ensures Valid() && Peers() == [] && log == [] && this.sys == sys
      ensures fresh(Footprint() - {this})
    {
      this.sys := sys;
      heads := new Head[0];
      rings := new Rings(0);
      queues := [];
      log := [];
    }

    /** Allocates the table on first use, then makes the bound socket `sd` a root. */
    method StartServer(tableSize: nat, sd: int) returns (ret: Ret)
      requires Valid()
      modifies Footprint()
      ensures Valid() && fresh(Footprint() - old(Footprint()))
      ensures var o := Datagrams.Start(if old(heads.Length) == 0 then Blank(tableSize) else old(Peers()), sd);
              Peers() == o.t && ret == o.ret && log == old(log) + o.log
    {
      hide Rings.Valid, Rings.Holds;
      if heads.Length == 0 {
        heads := new Head[tableSize](_ => BLANK_HEAD);
        rings := new Rings(tableSize);
        queues := QueuesOf(Blank(tableSize));
        assert Peers() == Blank(tableSize);
      }
      if !(0 <= sd < heads.Length) {
        return Failed(FromKernel);
      }
      heads[sd] := heads[sd].(parent := sd);
      return Fine(sd);
    }

    method Hack(fd: int, sock: Option<Sockaddr>) returns (ret: Ret)
      requires Valid()
      modifies heads
      ensures Valid()
      ensures var o := Datagrams.Hack(sys, old(Peers()), fd, sock);
              Peers() == o.t && ret == o.ret && o.log == []
    {
      hide Rings.Valid, Rings.Holds;
      if fd < 0 || fd >= heads.Length || heads[fd].parent != fd {
        return Failed(EINVAL);
      }
      if sock.None? {
        heads[fd] := heads[fd].(peer := NO_PEER);
        return Fine(OK);
      }
      if sys.BSD44? {
        var whole := sock.value;
        if whole.len == 0 {
          whole := whole.(len := SOCKADDR_SIZE);
        }
        heads[fd] := heads[fd].(peer := whole);
        heads[fd] := heads[fd].(addrlen := 0);
      } else {
        heads[fd] := heads[fd].(peer := sock.value);
      }
      return Fine(OK);
    }

    /** The end of `join_dgram_aux`. */
    method SetPeer(fd: int, sock: Sockaddr)
      requires Valid() && 0 <= fd < heads.Length
      modifies heads
      ensures Valid()
      ensures Peers() == old(Peers())[fd := Joined(sys, old(Peers()[fd]), sock)]
    {
      hide Rings.Valid, Rings.Holds;
      if sys.BSD44? {
        var whole := sock;
        if whole.len == 0 {
          whole := whole.(len := SOCKADDR_SIZE);
        }
        heads[fd] := heads[fd].(peer := whole);
        heads[fd] := heads[fd].(addrlen := if whole.family != AF_INET then whole.len else 8);
      } else {
        heads[fd] := heads[fd].(peer := sock);
      }
    }

    method JoinSame(fd: int, sock: Sockaddr) returns (ret: Ret)
      requires Valid()
      modifies heads
      ensures Valid()
      ensures var o := Datagrams.JoinSame(sys, old(Peers()), fd, sock);
              Peers() == o.t && ret == o.ret && o.log == []
    {
      hide Rings.Valid, Rings.Holds;
      if fd < 0 || fd >= heads.Length || heads[fd].parent != fd {
        return Failed(EINVAL);
      }
      heads[fd] := heads[fd].(parent := fd);
      SetPeer(fd, sock);
      return Fine(OK);
    }

    /** `remque` of the first buffer of a slot's queue. */
    method TakeOldest(fd: int) returns (d: Dgram)
      requires Valid() && 0 <= fd < heads.Length && queues[fd] != []
      modifies this`queues, this`log, rings.Repr
      ensures Valid() && rings.Repr <= old(rings.Repr)
      ensures d == old(queues[fd][0]) && Peers() == Dequeue(old(Peers()), fd)
      ensures log == old(log) + [Delivered(fd, d)]
    {
      hide Rings.Valid, Rings.Holds;
      rings.SameLength(queues);
      var elem := rings.Take(fd, queues);
      d := rings.data[elem];
      queues := queues[fd := queues[fd][1..]];
      log := log + [Delivered(fd, d)];
    }

    /** `insque` of a new buffer behind the last of a slot's queue. */
    method Put(fd: int, d: Dgram)
      requires Valid() && 0 <= fd < heads.Length
      modifies this`queues, this`log, rings.Repr
      ensures Valid() && fresh(rings.Repr - old(rings.Repr))
      ensures Peers() == Enqueue(old(Peers()), fd, d) && log == old(log) + [Queued(fd, d)]
    {
      hide Rings.Valid, Rings.Holds;
      rings.SameLength(queues);
      rings.Receive(fd, d, queues);
      queues := Effect(queues, Queued(fd, d));
      log := log + [Queued(fd, d)];
    }

    /** `remque` of the first buffer of one queue and `insque` behind the last of another. */
    method MoveOldest(from: int, to: int) returns (d: Dgram)
      requires Valid() && 0 <= from < heads.Length && 0 <= to < heads.Length && from != to && queues[from] != []
      modifies this`queues, this`log, rings.Repr
      ensures Valid() && rings.Repr <= old(rings.Repr)
      ensures d == old(queues[from][0]) && log == old(log) + [Moved(from, to, d)]
      ensures var t := Dequeue(old(Peers()), from); Peers() == Enqueue(t, to, d)
    {
      hide Rings.Valid, Rings.Holds;
      rings.SameLength(queues);
      var elem := rings.Take(from, queues);
      d := rings.data[elem];
      queues := queues[from := queues[from][1..]];
      rings.SameLength(queues);
      rings.Put(to, elem, d, queues);
      queues := Effect(queues, Queued(to, d));
      log := log + [Moved(from, to, d)];
    }

    method JoinNew(fd: int, sd: int, k: Kernel) returns (ret: Ret)
      requires Valid() && (Root(Peers(), fd) && 0 <= sd < heads.Length ==> sd != fd)
      modifies Footprint()
      ensures Valid() && fresh(Footprint() - old(Footprint()))
      ensures var o := Datagrams.JoinNew(sys, old(Peers()), fd, sd, k);
              Peers() == o.t && ret == o.ret && log == old(log) + o.log
    {
      hide Rings.Valid, Rings.Holds, Datagrams.Select, Joined;
      if fd < 0 || fd >= heads.Length || heads[fd].parent != fd {
        return Failed(EINVAL);
      }
      ret := SelectOne(fd, OK, k);
      if ret.Failed? {
        return;
      }
      rings.SameLength(queues);
      var empty := rings.Empty(fd, queues);
      if empty {
        return Failed(EWOULDBLOCK);
      }
      if !(0 <= sd < heads.Length) {
        return Failed(FromKernel);
      }
      var d := MoveOldest(fd, sd);
      heads[sd] := heads[sd].(parent := fd);
      SetPeer(sd, d.source);
      return Fine(sd);
    }

    /** Selects until something is queued on `fd`, then takes the oldest datagram. */
    method Read(fd: int, tries: seq<Kernel>) returns (ret: Ret, got: Option<Dgram>)
      requires Valid()
      modifies Footprint()
      ensures Valid() && fresh(Footprint() - old(Footprint()))
      ensures var o := Datagrams.Read(sys, old(Peers()), fd, tries);
              Peers() == o.t && ret == o.ret && got == o.got && log == old(log) + o.log
    {
      hide Rings.Valid, Rings.Holds;
      if fd < 0 || fd >= heads.Length || heads[fd].parent == NOTOK {
        return Failed(EINVAL), None;
      }
      ret := Await(fd, tries);
      if ret.Failed? {
        return ret, None;
      }
      rings.SameLength(queues);
      var empty := rings.Empty(fd, queues);
      if empty {
        return ret, None;
      }
      var d := TakeOldest(fd);
      return Fine(|d.payload|), Some(d);
    }

    /** Selects for reading on `fd` alone, as `check_dgram_socket` does. */
    method SelectOne(fd: int, secs: int, k: Kernel) returns (ret: Ret)
      requires Valid()
      modifies this`queues, this`log, rings.Repr
      ensures Valid() && fresh(rings.Repr - old(rings.Repr))
      ensures var s := SelectFd(sys, old(Peers()), fd, secs, k);
              Peers() == s.t && ret == s.ret && log == old(log) + s.log
    {
      hide Rings.Valid, Rings.Holds;
      var r, w, e;
      ret, r, w, e := Select(fd + 1, Some({fd}), None, None, secs, k);
    }

    /** The loop of `read_dgram_socket`. */
    method Await(fd: int, tries: seq<Kernel>) returns (ret: Ret)
      requires Valid() && 0 <= fd < heads.Length
      modifies this`queues, this`log, rings.Repr
      ensures Valid() && fresh(rings.Repr - old(rings.Repr))
      ensures var o := Datagrams.Await(sys, old(Peers()), fd, tries, 0);
              Peers() == o.t && ret == o.ret && log == old(log) + o.log
    {
      hide Datagrams.Select, Rings.Valid, Rings.Holds;
      ghost var whole := Datagrams.Await(sys, Peers(), fd, tries, 0);
      ghost var before := log;
      ghost var done: seq<Event> := [];
      var i := 0;
      rings.SameLength(queues);
      var empty := rings.Empty(fd, queues);
      while i < |tries| && empty
        invariant Valid() && fresh(rings.Repr - old(rings.Repr))
        invariant 0 <= i <= |tries| && log == before + done && empty == (queues[fd] == [])
        invariant var rest := Datagrams.Await(sys, Peers(), fd, tries, i);
                  whole.t == rest.t && whole.ret == rest.ret && whole.log == done + rest.log
      {
        ghost var s := SelectFd(sys, Peers(), fd, NOTOK, tries[i]);
        ghost var rest := Datagrams.Await(sys, s.t, fd, tries, i + 1);
        ret := SelectOne(fd, NOTOK, tries[i]);
        Assoc(before, done, s.log);
        Assoc(done, s.log, rest.log);
        done := done + s.log;
        if ret.Failed? {
          return;
        }
        i := i + 1;
        rings.SameLength(queues);
        empty := rings.Empty(fd, queues);
      }
      return Fine(OK);
    }

    /** `QBFREE` of a slot's queue: it is emptied. */
    method FreeQueue(fd: int)
      requires Valid() && 0 <= fd < heads.Length
      modifies this`queues, this`log, rings.Repr
      ensures Valid() && rings.Repr == old(rings.Repr)
      ensures queues == old(queues)[fd := []] && log == old(log) + [Freed(fd, old(queues[fd]))]
    {
      hide Rings.Valid, Rings.Holds;
      rings.SameLength(queues);
      rings.Free(fd, queues);
      log := log + [Freed(fd, queues[fd])];
      queues := queues[fd := []];
    }

    /** The loop at the end of a close: the children of `fd` become roots. */
    method Disown(fd: int)
      requires Valid()
      modifies heads
      ensures Valid() && Peers() == Orphan(old(Peers()), fd)
    {
      hide Rings.Valid, Rings.Holds;
      ghost var before := Peers();
      var up := 0;
      while up < heads.Length
        invariant 0 <= up <= heads.Length && Valid()
        invariant forall i :: 0 <= i < up ==> Peers()[i] == Orphan(before, fd)[i]
        invariant forall i :: up <= i < heads.Length ==> Peers()[i] == before[i]
      {
        if heads[up].parent == fd {
          heads[up] := heads[up].(parent := up);
        }
        up := up + 1;
      }
      assert Peers() == Orphan(before, fd);
    }

    method Close(fd: int) returns (ret: Ret)
      requires Valid()
      modifies Footprint()
      ensures Valid() && fresh(Footprint() - old(Footprint()))
      ensures var o := Datagrams.Close(old(Peers()), fd);
              Peers() == o.t && ret == o.ret && log == old(log) + o.log
    {
      hide Rings.Valid, Rings.Holds, Orphan;
      if fd < 0 || fd >= heads.Length || heads[fd].parent == NOTOK {
        return Failed(EINVAL);
      }
      heads[fd] := heads[fd].(parent := NOTOK);
      heads[fd] := heads[fd].(peer := NO_PEER);
      FreeQueue(fd);
      assert Peers() == old(Peers())[fd := Slot(NOTOK, NO_PEER, old(heads[fd].addrlen), [])];
      Disown(fd);
      return Fine(OK);
    }

    /** The first loop of `select_dgram_socket`. */
    method AnyWaiting(fds: set<int>) returns (found: bool)
      requires Valid()
      ensures found == Waiting(Peers(), fds)
    {
      hide Rings.Valid, Rings.Holds;
      var fd := 0;
      while fd < heads.Length
        invariant 0 <= fd <= heads.Length
        invariant forall i :: 0 <= i < fd ==> heads[i].parent == NOTOK || i !in fds || queues[i] == []
      {
        if heads[fd].parent != NOTOK && fd in fds {
          rings.SameLength(queues);
          var empty := rings.Empty(fd, queues);
          if !empty {
            assert Peers()[fd].queue != [];
            return true;
          }
        }
        fd := fd + 1;
      }
      return false;
    }

    /** The slot a datagram received on `fd` is queued on, if any. */
    method FindTarget(fd: int, src: Sockaddr) returns (target: Option<int>)
      requires Valid() && Live(Peers(), fd)
      ensures target == Route(sys, Peers(), fd, src)
    {
      hide Rings.Valid, Rings.Holds;
      var len := if src.family == AF_INET then 6 else if sys.BSD44? then src.len else SOCKADDR_SIZE;
      var n := if len > 14 then 14 else len;
      if !((sys.BSD44? && len != heads[fd].addrlen) || src.data[..n] != heads[fd].peer.data[..n]) {
        return Some(fd);
      }
      var v := 0;
      while v < heads.Length
        invariant 0 <= v <= heads.Length
        invariant FirstSibling(sys, Peers(), fd, v, src) == FirstSibling(sys, Peers(), fd, 0, src)
      {
        if v != fd && heads[v].parent == heads[fd].parent
           && (sys.BSD44? ==> len == heads[v].addrlen) && src.data[..n] == heads[v].peer.data[..n] {
          return Some(v);
        }
        v := v + 1;
      }
      var root := heads[fd].parent;
      if 0 <= root < heads.Length && heads[root].parent != NOTOK && heads[root].peer.family != 0 {
        return None;
      }
      return Some(root);
    }

    method Select(nfds: int, rfds: Option<set<int>>, wfds: Option<set<int>>, efds: Option<set<int>>, secs: int, k: Kernel)
      returns (ret: Ret, r: set<int>, w: set<int>, e: set<int>)
      requires Valid()
      modifies this`queues, this`log, rings.Repr
      ensures Valid() && fresh(rings.Repr - old(rings.Repr))
      ensures var s := Datagrams.Select(sys, old(Peers()), nfds, rfds, wfds, efds, secs, k);
              && Peers() == s.t && ret == s.ret && log == old(log) + s.log
              && r == s.r && w == s.w && e == s.e
    {
      hide Scan, Waiting, Mark, Below, Valid, Assembled, Rings.Valid, Rings.Holds;
      var timeout := secs;
      if rfds.Some? {
        var found := AnyWaiting(rfds.value);
        if found {
          timeout := OK;
        }
      }
      var p := k.poll(0, timeout);
      r, w, e := p.r, p.w, p.e;
      if p.result == NOTOK {
        return Failed(FromKernel), r, w, e;
      }
      if rfds.None? {
        return Fine(p.result), {}, w, e;
      }
      var mfds := if nfds > heads.Length then heads.Length else nfds;
      var failed := Receive(mfds, p.r, p.result, k);
      if failed {
        return Failed(FromKernel), r, w, e;
      }
      r := MarkReadable(rfds.value, p.r);
      var all := r;
      if wfds.Some? {
        all := all + w;
      }
      if efds.Some? {
        all := all + e;
      }
      var count := CountBelow(nfds, all);
      assert all == r + (if wfds.Some? then p.w else {}) + (if efds.Some? then p.e else {});
      return Fine(count), r, w, e;
    }

    /** The receive loop of `select_dgram_socket`. */
    method Receive(mfds: int, ready: set<int>, first: int, k: Kernel) returns (failed: bool)
      requires Valid() && mfds <= heads.Length
      modifies this`queues, this`log, rings.Repr
      ensures Valid() && fresh(rings.Repr - old(rings.Repr))
      ensures var s := Scan(sys, old(Peers()), 0, mfds, ready, first, k, 0, 1);
              Peers() == s.t && failed == s.failed && log == old(log) + s.log
    {
      hide Scan, Route, Enqueue, Continues, Rings.Valid, Rings.Holds;
      ContinuesItself(Scan(sys, Peers(), 0, mfds, ready, first, k, 0, 1));
      ghost var whole := Scan(sys, Peers(), 0, mfds, ready, first, k, 0, 1);
      ghost var done: seq<Event> := [];
      var ifds, result := ready, first;
      var fd, n, m := 0, 0, 1;
      while fd < mfds
        invariant 0 <= fd && log == old(log) + done
        invariant Valid() && fresh(rings.Repr - old(rings.Repr))
        invariant Continues(whole, done, Scan(sys, Peers(), fd, mfds, ifds, result, k, n, m))
        decreases mfds - fd
      {
        ScanUnfolds(sys, Peers(), fd, mfds, ifds, result, k, n, m);
        ghost var here := Scan(sys, Peers(), fd, mfds, ifds, result, k, n, m);
        ContinuesTo(whole, done, here);
        if fd in ifds && heads[fd].parent != NOTOK {
          ifds := ifds - {fd};
          var arrival := k.recv(n);
          if arrival.NoArrival? {
            return true;
          }
          n := n + 1;
          var target := FindTarget(fd, arrival.d.source);
          if target.None? || !(0 <= target.value < heads.Length) {
            ContinuesMore(whole, done, here, Discarded(fd, arrival.d), Scan(sys, Peers(), fd + 1, mfds, ifds, result, k, n, m));
            done := done + [Discarded(fd, arrival.d)];
            log := log + [Discarded(fd, arrival.d)];
          } else {
            Put(target.value, arrival.d);
            ghost var before := done;
            done := done + [Queued(target.value, arrival.d)];
            result := result - 1;
            if result <= 0 {
              return false;
            }
            var p := k.poll(m, OK);
            m, result, ifds := m + 1, p.result, p.r;
            if result <= 0 {
              return false;
            }
            ContinuesMore(whole, before, here, Queued(target.value, arrival.d), Scan(sys, Peers(), fd + 1, mfds, ifds, result, k, n, m));
          }
        } else {
          ifds := ifds - {fd};
        }
        fd := fd + 1;
      }
      ScanUnfolds(sys, Peers(), fd, mfds, ifds, result, k, n, m);
      ContinuesTo(whole, done, Scan(sys, Peers(), fd, mfds, ifds, result, k, n, m));
      return false;
    }

    /** The last pass: sets or clears every requested live descriptor. */
    method MarkReadable(requested: set<int>, ready: set<int>) returns (r: set<int>)
      requires Valid()
      ensures r == Mark(Peers(), requested, ready)
    {
      hide Rings.Valid, Rings.Holds;
      r := ready;
      var fd := 0;
      while fd < heads.Length
        invariant 0 <= fd <= heads.Length
        invariant forall i :: i in r <==>
                    if i < fd && Live(Peers(), i) && i in requested then queues[i] != [] else i in ready
      {
        if heads[fd].parent != NOTOK && fd in requested {
          rings.SameLength(queues);
          var empty := rings.Empty(fd, queues);
          if !empty {
            r := r + {fd};
          } else {
            r := r - {fd};
          }
        }
        fd := fd + 1;
      }
      assert forall i :: i in r <==> i in Mark(Peers(), requested, ready);
    }

    // ----- Runs -----

    /** One operation of a run. */
    method Perform(op: Op) returns (ret: Ret)
      requires Valid() && Legal(Peers(), op)
      modifies Footprint()
      ensures Valid() && fresh(Footprint() - old(Footprint()))
      ensures var o := Step(sys, old(Peers()), op); Peers() == o.t && ret == o.ret && log == old(log) + o.log
    {
      hide Rings.Valid, Rings.Holds, Datagrams.Select, Datagrams.JoinNew, Datagrams.Read, Datagrams.Close;
      match op {
        case DoStart(sd) =>
          assert Blank(0) == [];
          ret := StartServer(heads.Length, sd);
        case DoHack(fd, sock) => ret := Hack(fd, sock);
        case DoJoinSame(fd, peer) => ret := JoinSame(fd, peer);
        case DoJoinNew(fd, sd, k) => ret := JoinNew(fd, sd, k);
        case DoRead(fd, tries) =>
          var got;
          ret, got := Read(fd, tries);
        case DoClose(fd) => ret := Close(fd);
        case DoSelect(nfds, r, w, e, secs, k) =>
          var r', w', e';
          ret, r', w', e' := Select(nfds, r, w, e, secs, k);
      }
    }

    /** A whole run: table, queues in their rings, and log are those of the run on values. */
    method PerformAll(ops: seq<Op>)
      requires Valid() && LegalRun(sys, Peers(), ops)
      modifies Footprint()
      ensures Valid() && fresh(Footprint() - old(Footprint()))
      ensures Peers() == Run(sys, old(Peers()), ops).0 && log == old(log) + Run(sys, old(Peers()), ops).1
    {
      hide Rings.Valid, Rings.Holds, Step, Legal;
      ghost var t := Peers();
      var i := 0;
      while i < |ops|
        invariant 0 <= i <= |ops| && Valid() && fresh(Footprint() - old(Footprint()))
        invariant Peers() == Run(sys, t, ops[..i]).0 && log == old(log) + Run(sys, t, ops[..i]).1
      {
        assert ops[..i + 1][..i] == ops[..i];
        PrefixIsLegal(sys, t, ops, i + 1);
        var ret := Perform(ops[i]);
        i := i + 1;
      }
      assert ops[..|ops|] == ops;
    }
  }
}
