/**
 Runs of a whole association: two sides that call and listen in any order, with
 two queues of P-DATA between them.
 */
module FtamNet {
  import opened Wrappers
  import opened FtamTypes
  import opened FtamGroups
  import opened FtamReading
  import opened FtamReplies
  import opened FtamRegime
  import opened FtamRuns

  datatype Net = Net(a: Side, toA: seq<Psdu>, b: Side, toB: seq<Psdu>)

  datatype Move = Calls(c: Call) | Listens

  /** `first` tells which side moves. */
  datatype Event = Event(first: bool, move: Move)

  function Flip(n: Net): Net {
    Net(n.b, n.toB, n.a, n.toA)
  }

  predicate Sensible(e: Event) {
    e.move.Calls? ==> WellFormed(e.move.c)
  }

  function Extra(reply: Option<Psdu>): seq<Psdu> {
    if reply.Some? then [reply.value] else []
  }

  /**
   A move of side `a`; None when it meets something unexpected and aborts.  A
   side whose cancel is not answered yet is still inside that call and makes no
   other; a call that is turned down changes nothing.
   */
  function MoveA(n: Net, m: Move): Option<Net>
    requires m.Calls? ==> WellFormed(m.c)
  {
    match m
    case Calls(c) =>
      if n.a.cancel || Do(n.a, c).None? then Some(n)
      else Some(n.(a := Do(n.a, c).value.0, toB := n.toB + [Do(n.a, c).value.1]))
    case Listens =>
      if n.toA == [] then Some(n)
      else
        match Receive(n.a, n.toA[0])
        case Abort => None
        case Quiet(a', reply) => Some(Net(a', n.toA[1..], n.b, n.toB + Extra(reply)))
        case Told(a') => Some(n.(a := a', toA := n.toA[1..]))
  }

  function After(n: Net, e: Event): Option<Net>
    requires Sensible(e)
  {
    if e.first then MoveA(n, e.move)
    else match MoveA(Flip(n), e.move) case None => None case Some(n') => Some(Flip(n'))
  }

  predicate SensibleRun(es: seq<Event>) {
    forall e :: e in es ==> Sensible(e)
  }

  function Run(n: Net, es: seq<Event>): Option<Net>
    requires SensibleRun(es)
    decreases |es|
  {
    if es == [] then Some(n)
    else match After(n, es[0]) case None => None case Some(n') => Run(n', es[1..])
  }

  /** The call that makes two cancels cross: the peer's is already on its way. */
  predicate Crosses(n: Net, e: Event) {
    e.move == Calls(CancelRequest) && One(true, Cancel) in (if e.first then n.toA else n.toB) &&
    var s := if e.first then n.a else n.b; s.state in {DataRead, DataWrite} && !s.cancel
  }

  predicate ProperAt(n: Net, e: Event)
    requires Sensible(e)
  {
    e.move.Calls? ==> Proper(if e.first then n.a else n.b, e.move.c)
  }

  /** Every call is proper when it is made, and no two cancels cross. */
  predicate Orderly(n: Net, es: seq<Event>)
    requires SensibleRun(es)
    decreases |es|
  {
    es == [] || (ProperAt(n, es[0]) && !Crosses(n, es[0]) &&
                 match After(n, es[0]) case None => true case Some(n') => Orderly(n', es[1..]))
  }

  predicate InStep(n: Net) {
    Behind(n.a, n.toA, n.b, n.toB) || Behind(n.b, n.toB, n.a, n.toA)
  }

  /** A fresh association. */
  function Fresh(v: View): Net {
    Net(Side(v, Initialized, false, {}, false, [], [], []), [],
        Side(Peer(v), Initialized, false, {}, false, [], [], []), [])
  }

  lemma FreshIsInStep(v: View)
    ensures InStep(Fresh(v))
  {
  }

  // ----- The invariant -----

  lemma {:induction false} CallKeepsStep(n: Net, c: Call)
    requires InStep(n) && WellFormed(c) && Proper(n.a, c) && !Crosses(n, Event(true, Calls(c)))
    ensures MoveA(n, Calls(c)).Some? && InStep(MoveA(n, Calls(c)).value)
  {
    if !n.a.cancel && Do(n.a, c).Some? {
      if Behind(n.b, n.toB, n.a, n.toA) {
        CallAhead(n.b, n.toB, n.a, n.toA, c);
      } else if n.toA == [] {
        CallLevel(n.a, n.b, n.toB, c);
      } else {
        OnlyThese(n.a, n.toA, n.b, n.toB, c);
        if c.CancelRequest? {
          CancelBehind(n.a, n.toA, n.b, n.toB);
        } else {
          CallTooLate(n.a, n.toA, n.b, n.toB, c);
        }
      }
    }
  }

  lemma {:induction false} ListenKeepsStep(n: Net)
    requires InStep(n)
    ensures MoveA(n, Listens).Some? && InStep(MoveA(n, Listens).value)
  {
    if n.toA != [] {
      assert n.toA[0] in n.toA && forall m :: m in n.toA[1..] ==> m in n.toA;
      assert n.toB + Extra(None) == n.toB;
      if Behind(n.b, n.toB, n.a, n.toA) {
        PassedOverIsQuiet(n.a, n.toA[0]);
      } else {
        ArrivalKeepsOwn(n.a, n.toA[0]);
      }
    }
  }

  lemma {:induction false} MoveKeepsStep(n: Net, e: Event)
    requires InStep(n) && Sensible(e) && ProperAt(n, e) && !Crosses(n, e)
    ensures After(n, e).Some? && InStep(After(n, e).value)
  {
    var n' := if e.first then n else Flip(n);
    assert InStep(n');
    match e.move
    case Calls(c) => CallKeepsStep(n', c);
    case Listens => ListenKeepsStep(n');
  }

  /**
   Over every run of proper calls in which no two cancels cross, however calls and
   arrivals interleave, no side ever meets a PDU it does not expect, and the two
   stay in step.
   */
  lemma {:induction false} NoSideIsSurprised(n: Net, es: seq<Event>)
    requires InStep(n) && SensibleRun(es) && Orderly(n, es)
    ensures Run(n, es).Some? && InStep(Run(n, es).value)
    decreases |es|
  {
    if es != [] {
      assert Sensible(es[0]) && forall e :: e in es[1..] ==> e in es;
      MoveKeepsStep(n, es[0]);
      NoSideIsSurprised(After(n, es[0]).value, es[1..]);
    }
  }

  // ----- What one side sends the other gets -----

  lemma ArrivalKeepsDone(s: Side, m: Psdu)
    ensures match Receive(s, m)
            case Abort => true
            case Quiet(s', _) => s.done <= s'.done
            case Told(s') => s.done <= s'.done
  {
    hide Steps, Concluded;
  }

  lemma {:induction false} CaughtKeepsDone(s: Side, q: seq<Psdu>)
    requires Caught(s, q).Some?
    ensures s.done <= Caught(s, q).value.done
    decreases |q|
  {
    hide Receive;
    if q != [] {
      ArrivalKeepsDone(s, q[0]);
      match Receive(s, q[0])
      case Quiet(s', _) => CaughtKeepsDone(s', q[1..]);
      case Told(s') => CaughtKeepsDone(s', q[1..]);
    }
  }

  /**
   Of the transfers the two sides saw to their end, one list is the beginning of
   the other, data and all; when nothing is on its way they are the same.
   */
  lemma {:induction false} FinishedTransfersAgree(n: Net)
    requires InStep(n)
    ensures n.a.done <= n.b.done || n.b.done <= n.a.done
    ensures n.toA == n.toB == [] ==> Mirror(n.a, n.b) && n.a.done == n.b.done
  {
    if Behind(n.a, n.toA, n.b, n.toB) {
      CaughtKeepsDone(n.a, n.toA);
    } else {
      CaughtKeepsDone(n.b, n.toB);
    }
  }

  lemma {:induction false} CaughtGetsMore(s: Side, q: seq<Psdu>)
    requires (forall m :: m in q ==> Spoken(m)) && Caught(s, q).Some?
    requires InTransfer(s.state) && !s.cancel && InTransfer(Caught(s, q).value.state)
    requires s.state != DataFin2
    ensures var x := Caught(s, q).value; s.got <= x.got && x.out == s.out
    decreases |q|
  {
    if q != [] {
      assert q[0] in q && forall m :: m in q[1..] ==> m in q;
      TransferReceives(s, q[0]);
      var s' := Receive(s, q[0]).side;
      if q[0] != One(true, Cancel) {
        GetsOnly(s, q[0]);
        if s'.state == DataFin2 {
          assert q[1..] == [];
        } else {
          CaughtGetsMore(s', q[1..]);
        }
      }
    }
  }

  lemma GetsOnly(s: Side, m: Psdu)
    requires Spoken(m) && s.state in {DataRead, DataWrite, DataFin1} && Receive(s, m).Told? && m != One(true, Cancel)
    ensures s.got <= Receive(s, m).side.got && Receive(s, m).side.out == s.out
  {
    hide Steps;
    if m.Pdus? {
      if forall p :: p in m.pdus ==> p.kind in Order() {
        NoGroupInTransfer(s, m);
      } else {
        OneRead(s, m.pdus[0].request, m.pdus[0].kind);
      }
    }
  }

  lemma EndIsHeard(s: Side, m: Psdu)
    requires Spoken(m) && s.state == DataFin2 && !s.cancel && !MustAnswer(s) && Receive(s, m) != Abort
    ensures Receive(s, m).Told?
    ensures var s' := Receive(s, m).side;
            s'.view == s.view && !s'.cancel && ((s.view.initiator && s'.state == DataIdle) || (s'.state == DataCancel && MustAnswer(s')))
  {
    hide Steps;
    if m.Pdus? {
      if forall p :: p in m.pdus ==> p.kind in Order() {
        NoGroupInTransfer(s, m);
      } else {
        OneRead(s, m.pdus[0].request, m.pdus[0].kind);
      }
    }
  }

  /** At the end of a transfer only its end, or its cancel, can still arrive. */
  lemma {:induction false} LastWord(s: Side, q: seq<Psdu>)
    requires (forall m :: m in q ==> Spoken(m)) && Caught(s, q).Some? && s.state == DataFin2 && !s.cancel && q != []
    ensures !InTransfer(Caught(s, q).value.state)
  {
    hide Receive, Spoken;
    var m := q[0];
    assert m in q && !MustAnswer(s) && Receive(s, m) != Abort;
    EndIsHeard(s, m);
    var s' := Receive(s, m).side;
    if q[1..] != [] {
      assert q[1..][0] in q;
      if s'.state == DataIdle {
        IdleHearsNothing(s', q[1..][0]);
      }
    }
  }

  lemma {:induction false} BehindInTransfer(a: Side, qa: seq<Psdu>, b: Side, qb: seq<Psdu>)
    requires Behind(a, qa, b, qb) && InTransfer(a.state) && InTransfer(b.state)
    ensures a.got <= b.out && b.got == a.out && (a.out == [] || b.out == [])
  {
    if a.state == DataFin2 {
      if qa != [] {
        LastWord(a, qa);
      }
    } else {
      CaughtGetsMore(a, qa);
    }
  }

  /**
   In the middle of a transfer each side has got, in order, a beginning of what
   the other sent, and only one of them sent anything.
   */
  lemma {:induction false} DataArrivesInOrder(n: Net)
    requires InStep(n) && InTransfer(n.a.state) && InTransfer(n.b.state)
    ensures n.a.got <= n.b.out && n.b.got <= n.a.out && (n.a.out == [] || n.b.out == [])
  {
    if Behind(n.a, n.toA, n.b, n.toB) {
      BehindInTransfer(n.a, n.toA, n.b, n.toB);
    } else {
      BehindInTransfer(n.b, n.toB, n.a, n.toA);
    }
  }

  // ----- Crossing cancels -----

  const CANCEL := One(true, Cancel)
  const CANCELLED := One(false, Cancel)

  function Reply(answered: bool): seq<Psdu> {
    if answered then [CANCELLED] else []
  }

  predicate AllPassedOver(initiator: bool, q: seq<Psdu>) {
    forall m :: m in q ==> PassedOver(initiator, m)
  }

  /**
   A side whose cancel crossed with the peer's: it has yet to answer it, or has
   answered it and gone idle; either way it waits for its own to be answered.
   */
  ghost predicate Crossed(s: Side, q: seq<Psdu>, answered: bool) {
    s.cancel &&
    if s.state == DataCancel then exists d :: AllPassedOver(s.view.initiator, d) && q == d + [CANCEL] + Reply(answered)
    else s.state == DataIdle && q == Reply(answered)
  }

  ghost predicate Doomed(n: Net) {
    Crossed(n.a, n.toA, n.b.state == DataIdle) && Crossed(n.b, n.toB, n.a.state == DataIdle)
  }

  /** At the moment a second cancel is made, its maker has only this to hear. */
  lemma {:induction false} CancelEnds(s: Side, q: seq<Psdu>) returns (d: seq<Psdu>)
    requires (forall m :: m in q ==> Spoken(m)) && Caught(s, q).Some? && CANCEL in q
    requires s.state in {DataRead, DataWrite, DataFin1} && !s.cancel
    ensures q == d + [CANCEL] && AllPassedOver(s.view.initiator, d)
    ensures Caught(s, q).value.state == DataCancel && !Caught(s, q).value.cancel
    decreases |q|
  {
    hide Receive;
    assert q[0] in q && forall m :: m in q <==> m == q[0] || m in q[1..];
    TransferReceives(s, q[0]);
    var s' := Receive(s, q[0]).side;
    if q[0] == CANCEL {
      assert MustAnswer(s') && q[1..] == [];
      d := [];
      assert q == [CANCEL];
    } else {
      assert q[1..] != [] && !MustAnswer(s');
      var rest := CancelEnds(s', q[1..]);
      d := [q[0]] + rest;
      assert q == [q[0]] + q[1..];
    }
  }

  lemma {:induction false} CrossingDooms(n: Net)
    requires InStep(n) && Crosses(n, Event(true, Calls(CancelRequest)))
    ensures Doomed(MoveA(n, Calls(CancelRequest)).value)
  {
    assert !Behind(n.b, n.toB, n.a, n.toA);
    var d := CancelEnds(n.a, n.toA);
    var a' := n.a.(state := DataCancel, cancel := true);
    assert n.toA == d + [CANCEL] + Reply(false);
    assert n.toB + [CANCEL] == n.toB + [CANCEL] + Reply(false);
    assert AllPassedOver(n.b.view.initiator, n.toB);
    assert Crossed(a', n.toA, false);
    assert Crossed(n.b, n.toB + [CANCEL], false);
  }

  /** Whichever side makes the second cancel, the two have crossed. */
  lemma {:induction false} EitherCrossingDooms(n: Net, e: Event)
    requires InStep(n) && Crosses(n, e)
    ensures After(n, e).Some? && Doomed(After(n, e).value)
  {
    var n' := if e.first then n else Flip(n);
    assert InStep(n');
    CrossingDooms(n');
  }

  /** And it can happen: in a transfer with nothing on its way, both sides cancel. */
  lemma {:induction false} CancelsCanCross(n: Net)
    requires n.toA == n.toB == [] && Mirror(n.a, n.b) && n.a.state in {DataRead, DataWrite}
    ensures InStep(n)
    ensures After(n, Event(true, Calls(CancelRequest))).Some?
    ensures Crosses(After(n, Event(true, Calls(CancelRequest))).value, Event(false, Calls(CancelRequest)))
  {
    assert CANCEL in [CANCEL];
    assert n.toB + [CANCEL] == [CANCEL];
  }

  function Measure(n: Net): nat {
    |n.toA| + |n.toB| + (if n.a.state == DataCancel then 2 else 0) + (if n.b.state == DataCancel then 2 else 0)
  }

  lemma HearsCancelled(s: Side)
    requires s.state == DataIdle
    ensures Receive(s, CANCELLED) == Abort
  {
    OneRead(s, false, Cancel);
  }

  lemma HearsCancel(s: Side)
    requires s.state == DataCancel
    ensures Receive(s, CANCEL) == Quiet(s.(state := DataIdle), Some(CANCELLED))
  {
    OneRead(s, true, Cancel);
  }

  lemma {:induction false} PassesOne(s: Side, q: seq<Psdu>, answered: bool, d: seq<Psdu>)
    requires s.cancel && s.state == DataCancel && AllPassedOver(s.view.initiator, d) && q == d + [CANCEL] + Reply(answered)
    requires d != []
    ensures Receive(s, q[0]) == Quiet(s, None) && Crossed(s, q[1..], answered)
  {
    assert q[0] == d[0] && d[0] in d;
    PassedOverIsQuiet(s, d[0]);
    assert forall m :: m in d[1..] ==> m in d;
    assert AllPassedOver(s.view.initiator, d[1..]);
    assert q[1..] == d[1..] + [CANCEL] + Reply(answered);
  }

  lemma {:induction false} AnsweredPeer(s: Side, q: seq<Psdu>)
    requires Crossed(s, q, false)
    ensures Crossed(s, q + [CANCELLED], true)
  {
    if s.state == DataCancel {
      var d :| AllPassedOver(s.view.initiator, d) && q == d + [CANCEL] + Reply(false);
      assert q + [CANCELLED] == d + [CANCEL] + Reply(true);
    } else {
      assert q + [CANCELLED] == Reply(true);
    }
  }

  /** What is left of an association in which cancels crossed: calls do nothing, and what is heard is dropped, answered or fatal. */
  lemma {:induction false} DoomedListens(n: Net)
    requires Doomed(n) && n.toA != []
    ensures match MoveA(n, Listens)
            case None => true
            case Some(n') => Doomed(n') && Measure(n') < Measure(n)
    ensures !Receive(n.a, n.toA[0]).Told?
  {
    var answered := n.b.state == DataIdle;
    if n.a.state == DataIdle {
      assert n.toA == [CANCELLED];
      HearsCancelled(n.a);
    } else {
      var d :| AllPassedOver(n.a.view.initiator, d) && n.toA == d + [CANCEL] + Reply(answered);
      if d != [] {
        PassesOne(n.a, n.toA, answered, d);
        assert n.toB + Extra(None) == n.toB;
      } else {
        HearsCancel(n.a);
        assert d + [CANCEL] == [CANCEL];
        assert n.toA[0] == CANCEL && n.toA[1..] == Reply(answered);
        AnsweredPeer(n.b, n.toB);
      }
    }
  }

  lemma {:induction false} DoomedMoves(n: Net, e: Event)
    requires Doomed(n) && Sensible(e)
    ensures match After(n, e)
            case None => true
            case Some(n') => Doomed(n') && (n' == n || Measure(n') < Measure(n))
  {
    assert Doomed(Flip(n)) && Measure(Flip(n)) == Measure(n);
    var n0 := if e.first then n else Flip(n);
    if e.move.Listens? && n0.toA != [] {
      DoomedListens(n0);
    }
  }

  predicate Takes(n: Net, e: Event) {
    e.move.Listens? && (if e.first then n.toA else n.toB) != []
  }

  /** Each event takes something off a queue. */
  predicate Taking(n: Net, es: seq<Event>)
    requires SensibleRun(es)
    decreases |es|
  {
    es == [] || (Takes(n, es[0]) && match After(n, es[0]) case None => true case Some(n') => Taking(n', es[1..]))
  }

  /**
   Once two cancels have crossed, the association cannot be saved: something is
   always on its way, calls change nothing, and no run can hear more than
   `Measure` PDUs before a side meets one it does not expect.
   */
  lemma {:induction false} CrossedCancelsAreFatal(n: Net, es: seq<Event>)
    requires Doomed(n) && SensibleRun(es)
    ensures Run(n, es).Some? ==> Doomed(Run(n, es).value) && (Taking(n, es) ==> |es| <= Measure(n))
    ensures n.toA != [] || n.toB != []
    decreases |es|
  {
    if es != [] {
      assert Sensible(es[0]) && forall e :: e in es[1..] ==> e in es;
      DoomedMoves(n, es[0]);
      if After(n, es[0]).Some? {
        CrossedCancelsAreFatal(After(n, es[0]).value, es[1..]);
        if Takes(n, es[0]) {
          TakingShrinks(n, es[0]);
        }
      }
    }
  }

  lemma {:induction false} TakingShrinks(n: Net, e: Event)
    requires Doomed(n) && Sensible(e) && Takes(n, e) && After(n, e).Some?
    ensures Measure(After(n, e).value) < Measure(n)
  {
    assert Doomed(Flip(n)) && Measure(Flip(n)) == Measure(n);
    DoomedListens(if e.first then n else Flip(n));
  }
}
