/**
 Two sides and the PDUs on their way between them, over every run: no side ever
 meets a PDU it does not expect, and what one sends the other gets, as long as
 the two do not cancel the same transfer at once.
 */
module FtamRuns {
  import opened Wrappers
  import opened FtamTypes
  import opened FtamGroups
  import opened FtamGroupTheorems
  import opened FtamReading
  import opened FtamReplies
  import opened FtamRegime

  // ----- Sides in step -----

  predicate InTransfer(st: State) {
    st in {DataRead, DataWrite, DataFin1, DataFin2}
  }

  /** What of an accepted group the answer depends on. */
  predicate GroupInOrder(v: View, t: GroupType, f: set<Kind>) {
    Grouped(f) && RightFlags(t, f) && RightClass(v, t) && forall k :: k in f ==> Permitted(v, k)
  }

  /** A group that was asked for and not yet answered. */
  predicate GroupPending(x: Side, y: Side) {
    forall t :: Asked(t) == x.state ==>
      x.group == y.group && GroupInOrder(x.view, t, x.group)
  }

  /** The two sides agree on the transfer, and only one of them sends. */
  predicate SameTransfer(x: Side, y: Side) {
    x.reading == y.reading && x.got == y.out && x.out == y.got &&
    (x.state == DataRead ==> x.reading) && (x.state == DataWrite ==> !x.reading) &&
    (x.view.initiator == x.reading ==> x.out == []) && (x.view.initiator != x.reading ==> x.got == [])
  }

  /** Nothing is on its way: the two sides see the same association. */
  predicate Mirror(x: Side, y: Side) {
    x.view == Peer(y.view) && x.state == y.state && x.done == y.done &&
    (x.state == DataCancel ==> x.cancel != y.cancel) &&
    (x.state != DataCancel ==> !x.cancel && !y.cancel) &&
    (x.state in {Locating, Erasing} ==> UnitAccess in x.view.units) &&
    GroupPending(x, y) && (InTransfer(x.state) ==> SameTransfer(x, y))
  }

  /** It is this side's turn: the peer waits for its answer. */
  predicate MustAnswer(s: Side) {
    (!s.view.initiator && s.state in {Management, BulkBegin, BulkEnd, Locating, Erasing, DataFin2}) ||
    (s.state == DataCancel && !s.cancel)
  }

  /** The side once it has got all that is on its way; None if it would break, or be made to wait for its own answer. */
  function Caught(s: Side, q: seq<Psdu>): Option<Side>
    decreases |q|
  {
    if q == [] then Some(s)
    else if MustAnswer(s) then None
    else
      match Receive(s, q[0])
      case Abort => None
      case Quiet(s', reply) => if reply.Some? then None else Caught(s', q[1..])
      case Told(s') => Caught(s', q[1..])
  }

  /** What a side that waits for its cancel to be answered passes over. */
  predicate PassedOver(initiator: bool, m: Psdu) {
    (m.Fadus? && m.data != []) || m == One(true, DataEnd) || (!initiator && m == One(true, TransEnd))
  }

  predicate Settled(s: Side, q: seq<Psdu>) {
    q == [] || (s.state == DataCancel && s.cancel && forall m :: m in q ==> PassedOver(s.view.initiator, m))
  }

  /** The calls put nothing else on the way. */
  predicate Spoken(m: Psdu) {
    if m.Fadus? then m.data != []
    else (forall p :: p in m.pdus ==> p.kind in Order()) ||
         (|m.pdus| == 1 && m == One(m.pdus[0].request, m.pdus[0].kind) && m.pdus[0].kind !in Order())
  }

  /** `a` has yet to catch up with `b`. */
  predicate Behind(a: Side, qa: seq<Psdu>, b: Side, qb: seq<Psdu>) {
    (a.cancel ==> a.state == DataCancel) && (forall m :: m in qa ==> Spoken(m)) && Settled(b, qb) &&
    Caught(a, qa).Some? && Mirror(Caught(a, qa).value, b)
  }

  // ----- What is accepted is expected -----

  predicate Proper(s: Side, c: Call)
    requires WellFormed(c)
  {
    match c
    case GroupRequest(t, g) => Readable(g)
    case GroupResponse(t, r) => Complete(t, s.group, ReplyFlags(r)) && DecodableReply(r) && Consistent(t, r)
    case _ => true
  }

  lemma MirrorBack(x: Side, y: Side)
    requires Mirror(x, y)
    ensures Mirror(y, x)
  {
  }

  lemma {:induction false} StepsIsScan(s: Side, g: Scan, ps: seq<Pdu>)
    requires forall p :: p in ps ==> p.kind in Order()
    ensures Steps(s, g, None, ps) == match ScanPdus(s.view, g, ps) case None => Broken case Some(g') => Going(g', None)
    decreases |ps|
  {
    if ps != [] {
      assert ps[0] in ps && forall p :: p in ps[1..] ==> p in ps;
      match GroupStep(s.view, g, ps[0])
      case None =>
      case Some(g') => StepsIsScan(s, g', ps[1..]);
    }
  }

  lemma {:induction false} EmitGrouped(g: Group, i: nat)
    requires i <= 10
    ensures forall p :: p in EmitFrom(g, i) ==> p.kind in Order()
    decreases 10 - i
  {
    if i < 10 {
      EmitGrouped(g, i + 1);
      assert Order()[i] in Order();
    }
  }

  lemma {:induction false} ReplyGrouped(r: Reply, i: nat)
    requires i <= 10
    ensures forall p :: p in EmitReplyFrom(r, i) ==> p.kind in Order()
    decreases 10 - i
  {
    if i < 10 {
      ReplyGrouped(r, i + 1);
      assert Order()[i] in Order();
    }
  }

  lemma OneRead(s: Side, request: bool, k: Kind)
    requires k !in Order()
    ensures Receive(s, One(request, k)) ==
            match SingleStep(s, START, Pdu(request, k, Plain))
            case Broken => Abort
            case Dropped => Quiet(s, None)
            case Going(g, single) =>
              if g.next != {} then Abort
              else if single.Some? then Single(s, single.value)
              else GroupArrived(s, g, 1)
  {
    var ps := [Pdu(request, k, Plain)];
    assert ps[1..] == [];
    match SingleStep(s, START, ps[0])
    case Broken =>
    case Dropped =>
    case Going(g, single) =>
      assert Steps(s, g, single, ps[1..]) == Going(g, single);
      assert Steps(s, START, None, ps) == Going(g, single);
      assert |ps| == 1;
  }

  /** What a mirrored peer may do is what this side expects. */
  predicate Expects(x: Side, y': Side, m: Psdu) {
    match Receive(x, m)
    case Told(x') => Mirror(x', y')
    case _ => false
  }

  lemma AcceptedInOrder(v: View, st: State, t: GroupType, g: Group)
    requires WellTyped(g) && Acceptable(v, st, t, g)
    ensures GroupInOrder(v, t, g.parts.Keys) && v.initiator
  {
  }

  lemma GroupsMirror(x: Side, y: Side, t: GroupType, f: set<Kind>)
    requires Mirror(x, y) && GroupInOrder(y.view, t, f) && x.state in {Initialized, DataIdle}
    ensures Mirror(x.(state := Asked(t), group := f), y.(state := Asked(t), group := f))
  {
    assert forall k :: Permitted(y.view, k) == Permitted(x.view, k);
  }

  lemma RequestRead(x: Side, v: View, st: State, t: GroupType, g: Group)
    requires x.view == Peer(v) && x.state == st && WellTyped(g) && Acceptable(v, st, t, g) && Encodable(g)
    ensures Receive(x, Pdus(Emit(g))) ==
            if Readable(g) then Told(x.(state := Asked(t), group := g.parts.Keys)) else Abort
  {
    hide Readable, SameParts, Lossless;
    EmitGrouped(g, 0);
    StepsIsScan(x, START, Emit(g));
    ResponderReadsTheGroup(v, st, t, g, x.group);
  }

  lemma RequestIsExpected(x: Side, y: Side, t: GroupType, g: Group)
    requires Mirror(x, y) && WellTyped(g) && Acceptable(y.view, y.state, t, g) && Encodable(g)
    ensures Expects(x, y.(state := Asked(t), group := g.parts.Keys), Pdus(Emit(g))) <==> Readable(g)
  {
    hide Readable;
    RequestRead(x, y.view, y.state, t, g);
    AcceptedInOrder(y.view, y.state, t, g);
    GroupsMirror(x, y, t, g.parts.Keys);
  }

  lemma ReplyRead(x: Side, t: GroupType, r: Reply)
    requires x.view.initiator && x.state == Asked(t)
    ensures Receive(x, Pdus(EmitReply(r))) ==
            match Confirmed(x.view, t, x.group, r)
            case None => Abort
            case Some(st) => Told(x.(state := st))
  {
    ReplyGrouped(r, 0);
    StepsIsScan(x, START, EmitReply(r));
  }

  lemma ReplyIsExpected(x: Side, y: Side, t: GroupType, r: Reply)
    requires Mirror(x, y) && WellTypedReply(r) && ReplyAcceptable(y.view, y.state, y.group, t, r) && EncodableReply(r)
    ensures Expects(x, y.(state := AfterReply(t, r)), Pdus(EmitReply(r))) <==>
            Complete(t, y.group, ReplyFlags(r)) && DecodableReply(r) && Consistent(t, r)
  {
    hide Complete, DecodableReply, Consistent, Confirmed, EncodableReply;
    assert Asked(t) == x.state;
    ReplyRead(x, t, r);
    RepliesAgreeExactly(x.view, t, x.group, r);
  }

  lemma StartIsExpected(x: Side, y: Side, reading: bool)
    requires Mirror(x, y) && Do(y, ReadWriteRequest(reading)).Some?
    ensures Expects(x, Started(y, reading), One(true, if reading then Read else Write))
  {
    OneRead(x, true, if reading then Read else Write);
  }

  lemma DataIsExpected(x: Side, y: Side, data: seq<Fadu>)
    requires Mirror(x, y) && Do(y, DataRequest(data)).Some?
    ensures Expects(x, y.(out := y.out + data), Fadus(data))
  {
  }

  lemma EndIsExpected(x: Side, y: Side)
    requires Mirror(x, y) && Do(y, DataEndRequest).Some?
    ensures Expects(x, y.(state := DataFin1), One(true, DataEnd))
  {
    OneRead(x, true, DataEnd);
  }

  lemma TransEndIsExpected(x: Side, y: Side)
    requires Mirror(x, y)
    ensures Do(y, TransEndRequest).Some? ==> Expects(x, y.(state := DataFin2), One(true, TransEnd))
    ensures Do(y, TransEndResponse).Some? ==> Expects(x, Finished(y), One(false, TransEnd))
  {
    hide Steps;
    OneRead(x, true, TransEnd);
    OneRead(x, false, TransEnd);
    assert x.out == [] ==> x.out + x.got == x.got == x.got + x.out;
    assert x.got == [] ==> x.out + x.got == x.out == x.got + x.out;
  }

  lemma CancelIsExpected(x: Side, y: Side)
    requires Mirror(x, y) && !y.cancel
    ensures Do(y, CancelRequest).Some? ==> Expects(x, y.(state := DataCancel, cancel := true), One(true, Cancel))
    ensures Do(y, CancelResponse).Some? ==> Expects(x, y.(state := DataIdle), One(false, Cancel))
  {
    hide Steps;
    OneRead(x, true, Cancel);
    OneRead(x, false, Cancel);
  }

  lemma AccessIsExpected(x: Side, y: Side, locate: bool)
    requires Mirror(x, y) && Do(y, AccessRequest(locate)).Some?
    ensures Expects(x, y.(state := if locate then Locating else Erasing), One(true, if locate then Locate else Erase))
  {
    OneRead(x, true, if locate then Locate else Erase);
  }

  lemma AnswerIsExpected(x: Side, y: Side, identity: bool)
    requires Mirror(x, y) && Do(y, AccessResponse(identity)).Some?
    ensures Expects(x, y.(state := DataIdle), One(false, if y.state == Locating then Locate else Erase))
  {
    OneRead(x, false, if y.state == Locating then Locate else Erase);
  }

  /** In step, what one side may do and does is what the other expects exactly when it is proper. */
  lemma CallIsExpected(x: Side, y: Side, c: Call)
    requires Mirror(x, y) && WellFormed(c) && Do(y, c).Some? && !y.cancel
    ensures Expects(x, Do(y, c).value.0, Do(y, c).value.1) <==> Proper(y, c)
  {
    match c
    case GroupRequest(t, g) => RequestIsExpected(x, y, t, g);
    case GroupResponse(t, r) => ReplyIsExpected(x, y, t, r);
    case ReadWriteRequest(reading) => StartIsExpected(x, y, reading);
    case DataRequest(data) => DataIsExpected(x, y, data);
    case DataEndRequest => EndIsExpected(x, y);
    case TransEndRequest => TransEndIsExpected(x, y);
    case TransEndResponse => TransEndIsExpected(x, y);
    case CancelRequest => CancelIsExpected(x, y);
    case CancelResponse => CancelIsExpected(x, y);
    case AccessRequest(locate) => AccessIsExpected(x, y, locate);
    case AccessResponse(identity) => AnswerIsExpected(x, y, identity);
  }

  /** Who is awaited by its peer may speak, its peer not. */
  lemma WhoIsAwaited(x: Side, y: Side, c: Call)
    requires Mirror(x, y) && WellFormed(c) && Do(y, c).Some? && !y.cancel
    ensures !MustAnswer(x)
  {
  }

  // ----- Catching up -----

  lemma {:induction false} CaughtMore(s: Side, q: seq<Psdu>, m: Psdu)
    requires Caught(s, q).Some?
    ensures Caught(s, q + [m]) == Caught(Caught(s, q).value, [m])
    decreases |q|
  {
    if q == [] {
      assert q + [m] == [m];
    } else {
      assert (q + [m])[0] == q[0] && (q + [m])[1..] == q[1..] + [m];
      match Receive(s, q[0])
      case Quiet(s', _) => CaughtMore(s', q[1..], m);
      case Told(s') => CaughtMore(s', q[1..], m);
    }
  }

  lemma CaughtOne(s: Side, m: Psdu)
    ensures Caught(s, [m]) ==
            if MustAnswer(s) then None
            else match Receive(s, m)
                 case Abort => None
                 case Quiet(s', reply) => if reply.Some? then None else Some(s')
                 case Told(s') => Some(s')
  {
    assert [m][1..] == [];
    assert forall s' :: Caught(s', []) == Some(s');
  }

  lemma PassedOverIsQuiet(s: Side, m: Psdu)
    requires s.state == DataCancel && PassedOver(s.view.initiator, m)
    ensures Receive(s, m) == Quiet(s, None)
  {
    OneRead(s, true, DataEnd);
    OneRead(s, true, TransEnd);
  }

  lemma {:induction false} SettledIsCaught(s: Side, q: seq<Psdu>)
    requires Settled(s, q)
    ensures Caught(s, q) == Some(s)
    ensures forall m :: m in q ==> Spoken(m)
    decreases |q|
  {
    if q != [] {
      assert q[0] in q && forall m :: m in q[1..] ==> m in q;
      PassedOverIsQuiet(s, q[0]);
      SettledIsCaught(s, q[1..]);
      forall m | m in q ensures Spoken(m) {
        assert PassedOver(s.view.initiator, m);
      }
    }
  }

  /** Groups are for sides outside transfers. */
  lemma NoGroupInTransfer(s: Side, m: Psdu)
    requires InTransfer(s.state) && m.Pdus? && forall p :: p in m.pdus ==> p.kind in Order()
    ensures Receive(s, m) == Abort
  {
    StepsIsScan(s, START, m.pdus);
  }

  /** What can arrive at a side in the middle of a transfer. */
  lemma TransferReceives(s: Side, m: Psdu)
    requires Spoken(m) && s.state in {DataRead, DataWrite, DataFin1} && !s.cancel && Receive(s, m) != Abort
    ensures Receive(s, m).Told?
    ensures m == One(true, Cancel) ==> Receive(s, m).side == s.(state := DataCancel)
    ensures m != One(true, Cancel) ==>
              var s' := Receive(s, m).side;
              PassedOver(s.view.initiator, m) && s'.view == s.view && s'.done == s.done && !s'.cancel &&
              (s'.state in {DataRead, DataWrite, DataFin1} || (s'.state == DataFin2 && !s.view.initiator)) &&
              !Sends(s) && !(s.view.initiator && s.state == DataFin1)
  {
    hide Steps, ScanPdus;
    if m.Pdus? {
      if forall p :: p in m.pdus ==> p.kind in Order() {
        NoGroupInTransfer(s, m);
      } else {
        OneRead(s, m.pdus[0].request, m.pdus[0].kind);
      }
    }
  }

  /** With no cancel on its way, a side in a transfer catches up inside the transfer, over what a cancel would drop. */
  lemma {:induction false} TransferCaught(s: Side, q: seq<Psdu>)
    requires (forall m :: m in q ==> Spoken(m) && m != One(true, Cancel)) && Caught(s, q).Some?
    requires s.state in {DataRead, DataWrite, DataFin1} && !s.cancel
    ensures forall m :: m in q ==> PassedOver(s.view.initiator, m)
    ensures var x := Caught(s, q).value;
            x.view == s.view && x.done == s.done && !x.cancel &&
            (x.state in {DataRead, DataWrite, DataFin1} || (x.state == DataFin2 && !x.view.initiator))
    decreases |q|
  {
    if q != [] {
      assert q[0] in q && forall m :: m in q <==> m == q[0] || m in q[1..];
      TransferReceives(s, q[0]);
      var s' := Receive(s, q[0]).side;
      if s'.state == DataFin2 {
        assert MustAnswer(s');
        assert q[1..] == [];
      } else {
        TransferCaught(s', q[1..]);
      }
    }
  }

  /** A side that sends can only be told to stop. */
  lemma {:induction false} SenderIsStopped(s: Side, q: seq<Psdu>)
    requires (forall m :: m in q ==> Spoken(m)) && Caught(s, q).Some? && q != []
    requires Sends(s) || (s.view.initiator && s.state == DataFin1)
    requires !s.cancel
    ensures q == [One(true, Cancel)] && Caught(s, q).value == s.(state := DataCancel)
  {
    assert q[0] in q;
    TransferReceives(s, q[0]);
    assert MustAnswer(s.(state := DataCancel));
    assert q[1..] == [];
  }

  // ----- One move keeps the sides in step -----

  /** A call by the side that is ahead. */
  lemma {:induction false} CallAhead(a: Side, qa: seq<Psdu>, b: Side, qb: seq<Psdu>, c: Call)
    requires Behind(a, qa, b, qb) && WellFormed(c) && Proper(b, c) && Do(b, c).Some? && !b.cancel
    ensures var (b', m) := Do(b, c).value; Behind(a, qa + [m], b', qb)
  {
    var (b', m) := Do(b, c).value;
    var x := Caught(a, qa).value;
    CallIsExpected(x, b, c);
    WhoIsAwaited(x, b, c);
    CaughtMore(a, qa, m);
    CaughtOne(x, m);
    CallIsSpoken(b, c);
  }

  lemma CallIsSpoken(s: Side, c: Call)
    requires WellFormed(c) && Do(s, c).Some?
    ensures Spoken(Do(s, c).value.1)
  {
    match c
    case GroupRequest(t, g) => EmitGrouped(g, 0);
    case GroupResponse(t, r) => ReplyGrouped(r, 0);
    case _ =>
  }

  /** A call by the side that is behind, when nothing is left on its way to it: now it is ahead. */
  lemma {:induction false} CallLevel(a: Side, b: Side, qb: seq<Psdu>, c: Call)
    requires Behind(a, [], b, qb) && WellFormed(c) && Proper(a, c) && Do(a, c).Some? && !a.cancel
    ensures var (a', m) := Do(a, c).value; Behind(b, qb + [m], a', [])
  {
    SettledIsCaught(b, qb);
    MirrorBack(a, b);
    CallAhead(b, qb, a, [], c);
  }

  lemma CancelIsHeard(b: Side)
    requires InTransfer(b.state) && !MustAnswer(b) && !b.cancel
    ensures Caught(b, [One(true, Cancel)]) == Some(b.(state := DataCancel))
  {
    CaughtOne(b, One(true, Cancel));
    OneRead(b, true, Cancel);
  }

  /** A cancel by the side that is behind. */
  lemma {:induction false} CancelBehind(a: Side, qa: seq<Psdu>, b: Side, qb: seq<Psdu>)
    requires Behind(a, qa, b, qb) && Do(a, CancelRequest).Some? && !a.cancel && One(true, Cancel) !in qa
    ensures Behind(b, qb + [One(true, Cancel)], a.(state := DataCancel, cancel := true), qa)
  {
    hide Receive, Mirror;
    TransferCaught(a, qa);
    MirrorFacts(Caught(a, qa).value, b);
    assert qb == [];
    CancelIsHeard(b);
    CancelMirrors(a, Caught(a, qa).value, b);
    assert qb + [One(true, Cancel)] == [One(true, Cancel)];
  }

  lemma MirrorFacts(x: Side, y: Side)
    requires Mirror(x, y) && !x.cancel
    ensures x.state == y.state && x.view.initiator != y.view.initiator && (x.state != DataCancel ==> !y.cancel)
  {
  }

  lemma CancelMirrors(a: Side, x: Side, b: Side)
    requires Mirror(x, b) && x.view == a.view && x.done == a.done && !x.cancel && InTransfer(x.state)
    ensures Mirror(b.(state := DataCancel), a.(state := DataCancel, cancel := true))
  {
  }

  /** A call by a sender that is being cancelled but does not know yet. */
  lemma {:induction false} CallTooLate(a: Side, qa: seq<Psdu>, b: Side, qb: seq<Psdu>, c: Call)
    requires Behind(a, qa, b, qb) && qa != [] && !a.cancel && WellFormed(c) && Do(a, c).Some?
    requires c.DataRequest? || c.DataEndRequest? || c.TransEndRequest?
    ensures var (a', m) := Do(a, c).value; Behind(a', qa, b, qb + [m])
  {
    hide Steps;
    var (a', m) := Do(a, c).value;
    SenderIsStopped(a, qa);
    OneRead(a', true, Cancel);
    CaughtOne(a', One(true, Cancel));
    CallIsSpoken(a, c);
  }

  /** No other call is open to a side something is on its way to. */
  lemma {:induction false} OnlyThese(a: Side, qa: seq<Psdu>, b: Side, qb: seq<Psdu>, c: Call)
    requires Behind(a, qa, b, qb) && qa != [] && !a.cancel && WellFormed(c) && Do(a, c).Some?
    ensures c.DataRequest? || c.DataEndRequest? || c.TransEndRequest? || c.CancelRequest?
  {
    assert !MustAnswer(a) && qa[0] in qa;
    assert Receive(a, qa[0]) != Abort;
    if a.state in {Initialized, DataIdle} && a.view.initiator {
      IdleHearsNothing(a, qa[0]);
    }
  }

  lemma IdleHearsNothing(s: Side, m: Psdu)
    requires s.view.initiator && s.state in {Initialized, DataIdle} && Spoken(m)
    ensures Receive(s, m) == Abort
  {
    hide Steps;
    if m.Pdus? {
      if forall p :: p in m.pdus ==> p.kind in Order() {
        IdleTakesNoGroup(s, m);
      } else {
        OneRead(s, m.pdus[0].request, m.pdus[0].kind);
      }
    }
  }

  lemma IdleTakesNoGroup(s: Side, m: Psdu)
    requires s.view.initiator && s.state in {Initialized, DataIdle} && m.Pdus? && forall p :: p in m.pdus ==> p.kind in Order()
    ensures Receive(s, m) == Abort
  {
    hide GroupStep;
    StepsIsScan(s, START, m.pdus);
  }

  lemma ArrivalKeepsOwn(s: Side, m: Psdu)
    requires Spoken(m) && (s.cancel ==> s.state == DataCancel)
    ensures match Receive(s, m)
            case Abort => true
            case Quiet(s', reply) => reply.None? ==> s' == s
            case Told(s') => s'.cancel ==> s'.state == DataCancel
  {
    hide Steps, ScanPdus;
    if m.Pdus? {
      if forall p :: p in m.pdus ==> p.kind in Order() {
        StepsIsScan(s, START, m.pdus);
      } else {
        OneRead(s, m.pdus[0].request, m.pdus[0].kind);
      }
    }
  }
}
