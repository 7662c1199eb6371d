/**
 The datagram demultiplexer of compat/dgram.c as a state machine on values: what
 each operation does to the slot table, and what it does to every datagram.

 The kernel is a parameter.  `Kernel.poll` answers the successive `selsocket`
 calls of one operation, given the timeout they are made with, and
 `Kernel.recv` answers the successive `recvfrom` calls; descriptors returned by
 `socket` and `dup` are parameters of the operation, and `Legal` says that they
 name no live slot.  Each operation also yields the list of things that happened
 to datagrams, which the conservation and ordering theorems talk about.
 */
module Datagrams {
  import opened Wrappers

  const NOTOK := -1
  const OK := 0
  const AF_INET := 2
  const SOCKADDR_SIZE := 16

  /** Compiled with or without `BSD44`. */
  datatype System = BSD44 | Plain

  type Address = a: seq<bv8> | |a| == 14 witness seq(14, _ => 0)
  /** `len` is the `sa_len` of 4.4BSD; other systems have none and never look at it. */
  datatype Sockaddr = Sockaddr(family: nat, len: nat, data: Address)
  const ZERO_ADDRESS: Address := [0, 0, 0, 0, 0, 0, 0, 0, 0, 0, 0, 0, 0, 0]
  const NO_PEER := Sockaddr(0, 0, ZERO_ADDRESS)

  datatype Dgram = Dgram(source: Sockaddr, payload: seq<bv8>)
  /** `addrlen` is `dgram_addrlen`, which only 4.4BSD has. */
  datatype Slot = Slot(parent: int, peer: Sockaddr, addrlen: nat, queue: seq<Dgram>)
  const BLANK_SLOT := Slot(NOTOK, NO_PEER, 0, [])
  type Table = seq<Slot>

  datatype Errno = EINVAL | EWOULDBLOCK | FromKernel
  datatype Ret = Fine(value: int) | Failed(errno: Errno)

  datatype Poll = Poll(result: int, r: set<int>, w: set<int>, e: set<int>)
  datatype Arrival = NoArrival | Arrived(d: Dgram)
  datatype Kernel = Kernel(poll: (nat, int) -> Poll, recv: nat -> Arrival)

  /** What happened to a datagram, or to the `freed` ones of a closed slot. */
  datatype Event =
    | Queued(slot: int, d: Dgram)
    | Discarded(receiver: int, d: Dgram)
    | Delivered(slot: int, d: Dgram)
    | Moved(from: int, slot: int, d: Dgram)
    | Freed(slot: int, ds: seq<Dgram>)

  // ----- Addresses and slots -----

  /** The `len` of a received datagram's source. */
  function AddressLength(sys: System, src: Sockaddr): nat {
    if src.family == AF_INET then 6
    else if sys.BSD44? then src.len
    else SOCKADDR_SIZE
  }

  function Compared(sys: System, src: Sockaddr): (n: nat)
    ensures n <= 14
  {
    if AddressLength(sys, src) > 14 then 14 else AddressLength(sys, src)
  }

  /** The `bcmp` of a datagram's source with a peer; the source decides how much is compared. */
  predicate SameAddress(sys: System, src: Sockaddr, peer: Sockaddr) {
    src.data[..Compared(sys, src)] == peer.data[..Compared(sys, src)]
  }

  /** The test of the routing loop: on 4.4BSD the lengths must agree as well. */
  predicate Matches(sys: System, src: Sockaddr, s: Slot) {
    (sys.BSD44? ==> AddressLength(sys, src) == s.addrlen) && SameAddress(sys, src, s.peer)
  }

  /** 4.4BSD takes a length of zero for that of a whole `sockaddr`. */
  function Sized(sys: System, sock: Sockaddr): Sockaddr {
    if sys.BSD44? && sock.len == 0 then sock.(len := SOCKADDR_SIZE) else sock
  }

  /** What joining makes of a slot's peer; 4.4BSD counts eight octets of an internet address. */
  function Joined(sys: System, s: Slot, sock: Sockaddr): Slot {
    s.(peer := Sized(sys, sock),
       addrlen := if sys.Plain? then s.addrlen else if sock.family == AF_INET then 8 else Sized(sys, sock).len)
  }

  /** What hacking makes of it: on 4.4BSD a length of zero. */
  function Hacked(sys: System, s: Slot, sock: Option<Sockaddr>): Slot {
    if sock.None? then s.(peer := NO_PEER)
    else s.(peer := Sized(sys, sock.value), addrlen := if sys.BSD44? then 0 else s.addrlen)
  }

  predicate Live(t: Table, fd: int) {
    0 <= fd < |t| && t[fd].parent != NOTOK
  }

  predicate Root(t: Table, fd: int) {
    0 <= fd < |t| && t[fd].parent == fd
  }

  /** Dead slots are blank; live slots form a forest of depth one; what waits on a child came from its peer. */
  ghost predicate Inv(sys: System, t: Table) {
    forall fd :: 0 <= fd < |t| ==>
      if t[fd].parent == NOTOK then t[fd].peer == NO_PEER && t[fd].queue == []
      else Root(t, t[fd].parent) && (t[fd].parent != fd ==> QueuedFromPeer(sys, t[fd]))
  }

  ghost predicate QueuedFromPeer(sys: System, s: Slot) {
    forall i :: 0 <= i < |s.queue| ==> SameAddress(sys, s.queue[i].source, s.peer)
  }

  // ----- Where a received datagram goes -----

  predicate Sibling(sys: System, t: Table, fd: int, v: int, src: Sockaddr)
    requires Live(t, fd)
  {
    && 0 <= v < |t| && v != fd
    && t[v].parent == t[fd].parent
    && Matches(sys, src, t[v])
  }

  /** The first slot from `v` on that shares `fd`'s parent and has the source as its peer. */
  function FirstSibling(sys: System, t: Table, fd: int, v: nat, src: Sockaddr): (r: Option<int>)
    requires Live(t, fd) && v <= |t|
    ensures r.Some? ==> v <= r.value && Sibling(sys, t, fd, r.value, src)
    ensures forall u :: v <= u < (if r.Some? then r.value else |t|) ==> !Sibling(sys, t, fd, u, src)
    decreases |t| - v
  {
    if v == |t| then None
    else if Sibling(sys, t, fd, v, src) then Some(v)
    else FirstSibling(sys, t, fd, v + 1, src)
  }

  /** The receiver itself, else a sibling with that peer, else an unconnected parent, else nowhere. */
  function Route(sys: System, t: Table, fd: int, src: Sockaddr): Option<int>
    requires Live(t, fd)
  {
    if Matches(sys, src, t[fd]) then Some(fd)
    else
      var s := FirstSibling(sys, t, fd, 0, src);
      if s.Some? then s
      else if Live(t, t[fd].parent) && t[t[fd].parent].peer.family != 0 then None
      else Some(t[fd].parent)
  }

  function Enqueue(t: Table, fd: int, d: Dgram): Table
    requires 0 <= fd < |t|
  {
    t[fd := t[fd].(queue := t[fd].queue + [d])]
  }

  function Dequeue(t: Table, fd: int): Table
    requires 0 <= fd < |t| && t[fd].queue != []
  {
    t[fd := t[fd].(queue := t[fd].queue[1..])]
  }

  // ----- The operations -----

  datatype Outcome = Outcome(t: Table, ret: Ret, log: seq<Event>)

  function Start(t: Table, sd: int): Outcome {
    if !(0 <= sd < |t|) then Outcome(t, Failed(FromKernel), [])
    else Outcome(t[sd := t[sd].(parent := sd)], Fine(sd), [])
  }

  function Hack(sys: System, t: Table, fd: int, sock: Option<Sockaddr>): Outcome {
    if !Root(t, fd) then Outcome(t, Failed(EINVAL), [])
    else Outcome(t[fd := Hacked(sys, t[fd], sock)], Fine(OK), [])
  }

  /** `join_dgram_aux` with `newfd` zero: connects a root slot to `sock`. */
  function JoinSame(sys: System, t: Table, fd: int, sock: Sockaddr): Outcome {
    if !Root(t, fd) then Outcome(t, Failed(EINVAL), [])
    else Outcome(t[fd := Joined(sys, t[fd].(parent := fd), sock)], Fine(OK), [])
  }

  /** `join_dgram_aux` with `newfd`: the oldest datagram of the root opens a child connected to its source. */
  function JoinNew(sys: System, t: Table, fd: int, sd: int, k: Kernel): Outcome {
    if !Root(t, fd) then Outcome(t, Failed(EINVAL), [])
    else
      var s := SelectFd(sys, t, fd, OK, k);
      if s.ret.Failed? then Outcome(s.t, s.ret, s.log)
      else if s.t[fd].queue == [] then Outcome(s.t, Failed(EWOULDBLOCK), s.log)
      else if !(0 <= sd < |t|) then Outcome(s.t, Failed(FromKernel), s.log)
      else
        Outcome(OpenChild(sys, s.t, fd, sd), Fine(sd), s.log + [Moved(fd, sd, s.t[fd].queue[0])])
  }

  /** Slot `sd` becomes a child of `fd`, connected to the source of `fd`'s oldest datagram, which moves there. */
  function OpenChild(sys: System, t: Table, fd: int, sd: int): Table
    requires 0 <= fd < |t| && 0 <= sd < |t| && t[fd].queue != []
  {
    var d := t[fd].queue[0];
    var t1 := Dequeue(t, fd);
    t1[sd := Joined(sys, t1[sd].(parent := fd, queue := t1[sd].queue + [d]), d.source)]
  }

  datatype ReadOutcome = ReadOutcome(t: Table, ret: Ret, got: Option<Dgram>, log: seq<Event>)

  /** `read_dgram_socket`; with `tries` used up and nothing queued the call is still waiting, and nothing is got. */
  function Read(sys: System, t: Table, fd: int, tries: seq<Kernel>): ReadOutcome {
    if !Live(t, fd) then ReadOutcome(t, Failed(EINVAL), None, [])
    else
      var a := Await(sys, t, fd, tries, 0);
      if a.ret.Failed? || a.t[fd].queue == [] then ReadOutcome(a.t, a.ret, None, a.log)
      else
        var d := a.t[fd].queue[0];
        ReadOutcome(Dequeue(a.t, fd), Fine(|d.payload|), Some(d), a.log + [Delivered(fd, d)])
  }

  /** The `select` calls made while nothing is queued on `fd`, from answer `i` on. */
  function Await(sys: System, t: Table, fd: int, tries: seq<Kernel>, i: nat): (o: Outcome)
    requires 0 <= fd < |t|
    ensures |o.t| == |t|
    decreases |tries| - i
  {
    if t[fd].queue != [] || i >= |tries| then Outcome(t, Fine(OK), [])
    else
      var s := SelectFd(sys, t, fd, NOTOK, tries[i]);
      if s.ret.Failed? then Outcome(s.t, s.ret, s.log)
      else
        var rest := Await(sys, s.t, fd, tries, i + 1);
        Outcome(rest.t, rest.ret, s.log + rest.log)
  }

  function Orphan(t: Table, fd: int): (t': Table)
    ensures |t'| == |t|
  {
    seq(|t|, i requires 0 <= i < |t| => if t[i].parent == fd then t[i].(parent := i) else t[i])
  }

  /** The slot loses its peer, its queue is freed, and its children become roots; `dgram_addrlen` stays as it was. */
  function Close(t: Table, fd: int): Outcome {
    if !Live(t, fd) then Outcome(t, Failed(EINVAL), [])
    else Outcome(Orphan(t[fd := Slot(NOTOK, NO_PEER, t[fd].addrlen, [])], fd), Fine(OK), [Freed(fd, t[fd].queue)])
  }

  // ----- Select -----

  datatype SelectOutcome = SelectOutcome(t: Table, ret: Ret, r: set<int>, w: set<int>, e: set<int>, log: seq<Event>)

  /** Some requested live slot below `|t|` has something queued. */
  predicate Waiting(t: Table, fds: set<int>) {
    exists fd :: 0 <= fd < |t| && t[fd].parent != NOTOK && fd in fds && t[fd].queue != []
  }

  function Select(sys: System, t: Table, nfds: int, rfds: Option<set<int>>, wfds: Option<set<int>>, efds: Option<set<int>>,
                  secs: int, k: Kernel): (s: SelectOutcome)
    ensures |s.t| == |t|
  {
    var timeout := if rfds.Some? && Waiting(t, rfds.value) then OK else secs;
    var p := k.poll(0, timeout);
    if p.result == NOTOK then SelectOutcome(t, Failed(FromKernel), p.r, p.w, p.e, [])
    else if rfds.None? then SelectOutcome(t, Fine(p.result), {}, p.w, p.e, [])
    else
      var s := Scan(sys, t, 0, Min(nfds, |t|), p.r, p.result, k, 0, 1);
      if s.failed then SelectOutcome(s.t, Failed(FromKernel), p.r, p.w, p.e, s.log)
      else
        var r := Mark(s.t, rfds.value, p.r);
        var all := r + (if wfds.Some? then p.w else {}) + (if efds.Some? then p.e else {});
        SelectOutcome(s.t, Fine(|Below(nfds, all)|), r, p.w, p.e, s.log)
  }

  function SelectFd(sys: System, t: Table, fd: int, secs: int, k: Kernel): (s: SelectOutcome)
    ensures |s.t| == |t|
  {
    Select(sys, t, fd + 1, Some({fd}), None, None, secs, k)
  }

  function Min(a: int, b: int): int {
    if a < b then a else b
  }

  function Below(n: int, fds: set<int>): set<int> {
    set fd | fd in fds && 0 <= fd < n
  }

  datatype Scanned = Scanned(t: Table, failed: bool, log: seq<Event>)

  /** The receive loop from descriptor `fd` on: `n` datagrams received and `m` polls made so far. */
  function Scan(sys: System, t: Table, fd: nat, top: int, ready: set<int>, result: int, k: Kernel, n: nat, m: nat): (s: Scanned)
    requires top <= |t|
    ensures |s.t| == |t|
    decreases top - fd
  {
    if fd >= top then Scanned(t, false, [])
    else if fd !in ready || t[fd].parent == NOTOK then Scan(sys, t, fd + 1, top, ready - {fd}, result, k, n, m)
    else
      match k.recv(n)
      case NoArrival => Scanned(t, true, [])
      case Arrived(d) =>
        var target := Route(sys, t, fd, d.source);
        if target.None? || !(0 <= target.value < |t|) then
          var rest := Scan(sys, t, fd + 1, top, ready - {fd}, result, k, n + 1, m);
          rest.(log := [Discarded(fd, d)] + rest.log)
        else
          var t' := Enqueue(t, target.value, d);
          var p := k.poll(m, OK);
          if result - 1 <= 0 || p.result <= 0 then Scanned(t', false, [Queued(target.value, d)])
          else
            var rest := Scan(sys, t', fd + 1, top, p.r, p.result, k, n + 1, m + 1);
            rest.(log := [Queued(target.value, d)] + rest.log)
  }

  /** The last pass over the table: a requested live slot is readable exactly when its queue is not empty. */
  function Mark(t: Table, requested: set<int>, r: set<int>): set<int> {
    (set fd | fd in r && !(Live(t, fd) && fd in requested))
    + (set fd | fd in requested && Live(t, fd) && t[fd].queue != [])
  }

  // ----- Runs -----

  datatype Op =
    | DoStart(sd: int)
    | DoHack(fd: int, sock: Option<Sockaddr>)
    | DoJoinSame(fd: int, peer: Sockaddr)
    | DoJoinNew(fd: int, sd: int, k: Kernel)
    | DoRead(fd: int, tries: seq<Kernel>)
    | DoClose(fd: int)
    | DoSelect(nfds: int, r: Option<set<int>>, w: Option<set<int>>, e: Option<set<int>>, secs: int, k: Kernel)

  /** What the kernel promises: a descriptor it hands out is not in use. */
  predicate Legal(t: Table, op: Op) {
    match op
    case DoStart(sd) => !Live(t, sd)
    case DoJoinNew(_, sd, _) => !Live(t, sd)
    case _ => true
  }

  function Step(sys: System, t: Table, op: Op): Outcome {
    match op
    case DoStart(sd) => Start(t, sd)
    case DoHack(fd, sock) => Hack(sys, t, fd, sock)
    case DoJoinSame(fd, peer) => JoinSame(sys, t, fd, peer)
    case DoJoinNew(fd, sd, k) => JoinNew(sys, t, fd, sd, k)
    case DoRead(fd, tries) => var r := Read(sys, t, fd, tries); Outcome(r.t, r.ret, r.log)
    case DoClose(fd) => Close(t, fd)
    case DoSelect(nfds, r, w, e, secs, k) =>
      var s := Select(sys, t, nfds, r, w, e, secs, k);
      Outcome(s.t, s.ret, s.log)
  }

  /** A finite run: the operations performed one after the other, with everything they did to datagrams. */
  function Run(sys: System, t: Table, ops: seq<Op>): (Table, seq<Event>)
    decreases |ops|
  {
    if ops == [] then (t, [])
    else
      var before := Run(sys, t, ops[..|ops| - 1]);
      var o := Step(sys, before.0, ops[|ops| - 1]);
      (o.t, before.1 + o.log)
  }

  ghost predicate LegalRun(sys: System, t: Table, ops: seq<Op>)
    decreases |ops|
  {
    ops == [] || (LegalRun(sys, t, ops[..|ops| - 1]) && Legal(Run(sys, t, ops[..|ops| - 1]).0, ops[|ops| - 1]))
  }

  function Blank(n: nat): Table {
    seq(n, _ => BLANK_SLOT)
  }
}
