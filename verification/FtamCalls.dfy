/**
 The calls of the service outside groups: which side may make each, in which
 states and with which functional unit, what it says to the peer, and that a call is
 open to a side exactly when its peer, in step with it, takes what it says.
 */
module FtamCalls {
  import opened Wrappers
  import opened FtamTypes
  import opened FtamGroups
  import opened FtamReading
  import opened FtamRegime
  import opened FtamRuns

  predicate Alone(c: Call) {
    !c.GroupRequest? && !c.GroupResponse?
  }

  // ----- The table of the calls -----

  /** The side the call is for, if it is not for both. */
  function Caller(c: Call): Option<bool>
    requires Alone(c)
  {
    match c
    case ReadWriteRequest(_) => Some(true)
    case TransEndRequest => Some(true)
    case AccessRequest(_) => Some(true)
    case TransEndResponse => Some(false)
    case AccessResponse(_) => Some(false)
    case _ => None
  }

  /** The states it is for. */
  function StatesFor(c: Call, initiator: bool): set<State>
    requires Alone(c)
  {
    match c
    case ReadWriteRequest(_) => {DataIdle}
    case AccessRequest(_) => {DataIdle}
    case DataRequest(_) => {if initiator then DataWrite else DataRead}
    case DataEndRequest => {if initiator then DataWrite else DataRead}
    case CancelRequest => {DataRead, DataWrite}
    case CancelResponse => {DataCancel}
    case TransEndRequest => {DataFin1}
    case TransEndResponse => {DataFin2}
    case AccessResponse(identity) => if identity then {Locating} else {Locating, Erasing}
  }

  /** The functional unit it needs. */
  function UnitFor(c: Call): Option<Unit>
    requires Alone(c)
  {
    match c
    case ReadWriteRequest(reading) => Some(if reading then UnitRead else UnitWrite)
    case AccessRequest(_) => Some(UnitAccess)
    case _ => None
  }

  predicate Open(s: Side, c: Call)
    requires Alone(c)
  {
    && (Caller(c).Some? ==> s.view.initiator == Caller(c).value)
    && s.state in StatesFor(c, s.view.initiator)
    && (UnitFor(c).Some? ==> UnitFor(c).value in s.view.units)
    && (c.DataRequest? ==> 1 <= |c.data| <= 125)
  }

  /** The PDU it sends, a request or a response. */
  function Asks(c: Call, st: State): (r: (bool, Kind))
    requires Alone(c) && !c.DataRequest?
    ensures r.1 in {Locate, Erase, Read, Write, DataEnd, TransEnd, Cancel}
  {
    match c
    case ReadWriteRequest(reading) => (true, if reading then Read else Write)
    case AccessRequest(locate) => (true, if locate then Locate else Erase)
    case DataEndRequest => (true, DataEnd)
    case CancelRequest => (true, Cancel)
    case CancelResponse => (false, Cancel)
    case TransEndRequest => (true, TransEnd)
    case TransEndResponse => (false, TransEnd)
    case AccessResponse(_) => (false, if st == Locating then Locate else Erase)
  }

  function Message(c: Call, st: State): Psdu
    requires Alone(c)
  {
    if c.DataRequest? then Fadus(c.data) else One(Asks(c, st).0, Asks(c, st).1)
  }

  /** Where it leads. */
  function StateAfter(c: Call, st: State): State
    requires Alone(c)
  {
    match c
    case ReadWriteRequest(reading) => if reading then DataRead else DataWrite
    case AccessRequest(locate) => if locate then Locating else Erasing
    case DataRequest(_) => st
    case DataEndRequest => DataFin1
    case CancelRequest => DataCancel
    case TransEndRequest => DataFin2
    case _ => DataIdle
  }

  /** A call is accepted exactly when it is open; it then says and leads to what the table has. */
  lemma CallsExactly(s: Side, c: Call)
    requires Alone(c)
    ensures Do(s, c).Some? <==> Open(s, c)
    ensures Do(s, c).Some? ==>
              var (s', m) := Do(s, c).value;
              && m == Message(c, s.state) && s'.state == StateAfter(c, s.state)
              && s'.view == s.view && s'.group == s.group && s'.cancel == (s.cancel || c.CancelRequest?)
              && s'.out == (if c.ReadWriteRequest? then [] else if c.DataRequest? then s.out + c.data else s.out)
              && s'.got == (if c.ReadWriteRequest? then [] else s.got)
              && s'.reading == (if c.ReadWriteRequest? then c.reading else s.reading)
              && s'.done == if c.TransEndResponse? then s.done + [Moved(s.reading, s.out + s.got)] else s.done
  {
  }

  // ----- The peer -----

  /** What a call may not do although the peer would take it: cancel a transfer that is ending, send too much, or give an identity with an erase. */
  predicate Refrains(c: Call, st: State)
    requires Alone(c)
  {
    (c.CancelRequest? && st !in {DataRead, DataWrite}) || (c.DataRequest? && |c.data| > 125) ||
    (c.AccessResponse? && c.identity && st != Locating)
  }

  /** Of a PDU that stands alone: whether it is taken, from the states alone. */
  predicate Takes(x: Side, request: bool, k: Kind) {
    var v, st := x.view, x.state;
    match k
    case Read => request && !v.initiator && st == DataIdle && UnitRead in v.units
    case Write => request && !v.initiator && st == DataIdle && UnitWrite in v.units
    case Locate => UnitAccess in v.units && if request then !v.initiator && st == DataIdle else v.initiator && st == Locating
    case Erase => UnitAccess in v.units && if request then !v.initiator && st == DataIdle else v.initiator && st == Erasing
    case DataEnd => request && st == if v.initiator then DataRead else DataWrite
    case TransEnd => if request then !v.initiator && st == DataFin1 else v.initiator && st == DataFin2
    case Cancel => if request then st in {DataRead, DataWrite, DataFin1, DataFin2} else st == DataCancel
    case _ => false
  }

  /** A PDU that stands alone is indicated exactly when it is taken. */
  lemma ToldExactly(x: Side, request: bool, k: Kind)
    requires k !in Order()
    ensures Receive(x, One(request, k)).Told? <==> Takes(x, request, k)
  {
    hide Steps, GroupArrived;
    OneRead(x, request, k);
  }

  /** The table of the calls and that of the arrivals fit together. */
  lemma TablesFit(x: Side, y: Side, c: Call)
    requires x.view == Peer(y.view) && x.state == y.state && Alone(c) && !c.DataRequest?
    requires y.state in {Locating, Erasing} ==> UnitAccess in y.view.units
    ensures var (request, k) := Asks(c, y.state); Open(y, c) <==> !Refrains(c, y.state) && Takes(x, request, k)
  {
  }

  lemma NotGrouped(k: Kind)
    requires k in {Locate, Erase, Read, Write, DataEnd, TransEnd, Cancel}
    ensures k !in Order()
  {
  }

  lemma InStep(x: Side, y: Side)
    requires Mirror(x, y)
    ensures x.view == Peer(y.view) && x.state == y.state && (y.state in {Locating, Erasing} ==> UnitAccess in y.view.units)
  {
  }

  /** In step, a call is accepted exactly when the peer takes what it says, but for what a side refrains from. */
  lemma OpenAsTaken(x: Side, y: Side, c: Call)
    requires Mirror(x, y) && Alone(c) && (c.DataRequest? ==> c.data != [])
    ensures Do(y, c).Some? <==> !Refrains(c, y.state) && Receive(x, Message(c, y.state)).Told?
  {
    hide Do, Receive, Mirror, Takes, One, Asks, Open, Refrains;
    InStep(x, y);
    CallsExactly(y, c);
    if c.DataRequest? {
      DataToldExactly(x, c.data);
      DataFits(x, y, c);
    } else {
      var (request, k) := Asks(c, y.state);
      NotGrouped(k);
      ToldExactly(x, request, k);
      TablesFit(x, y, c);
    }
  }

  lemma DataToldExactly(x: Side, data: seq<Fadu>)
    requires data != []
    ensures Receive(x, Fadus(data)).Told? <==> x.state == if x.view.initiator then DataRead else DataWrite
  {
  }

  lemma DataFits(x: Side, y: Side, c: Call)
    requires x.view == Peer(y.view) && x.state == y.state && c.DataRequest? && c.data != []
    ensures Open(y, c) <==> !Refrains(c, y.state) && x.state == if x.view.initiator then DataRead else DataWrite
  {
  }
}
