/**
 One side of an FTAM association: what each service call does to it
 (ftam/ftamgroup1.c, ftamgroup2.c, ftambulk.c, ftambulk1.c, ftambulk2.c,
 ftamaccess1.c, ftamaccess2.c) and what the arrival of a P-DATA does
 (ftam/ftamprovider.c).

 A side remembers, beside what the code keeps, the data it sent and got in the
 current transfer and the transfers it saw to their end; no decision looks at
 them.
 */
module FtamRegime {
  import opened Wrappers
  import opened FtamTypes
  import opened FtamGroups
  import opened FtamReading

  const NPDATA := 125

  type Fadu = nat

  datatype Moved = Moved(reading: bool, data: seq<Fadu>)

  datatype Side = Side(
    view: View, state: State,
    cancel: bool,            // FSB_CANCEL: this side started the cancel in progress
    group: set<Kind>,        // fsb_group
    reading: bool, out: seq<Fadu>, got: seq<Fadu>, done: seq<Moved>)

  datatype Psdu = Fadus(data: seq<Fadu>) | Pdus(pdus: seq<Pdu>)

  datatype Call =
    | GroupRequest(t: GroupType, g: Group) | GroupResponse(rt: GroupType, r: Reply)
    | ReadWriteRequest(reading: bool) | DataRequest(data: seq<Fadu>) | DataEndRequest
    | TransEndRequest | TransEndResponse
    | CancelRequest | CancelResponse
    | AccessRequest(locate: bool) | AccessResponse(identity: bool)

  function One(request: bool, k: Kind): Psdu {
    Pdus([Pdu(request, k, Plain)])
  }

  // ----- Calls -----

  /** The side that holds the data of the transfer in progress. */
  predicate Sends(s: Side) {
    if s.view.initiator then s.state == DataWrite else s.state == DataRead
  }

  function Started(s: Side, reading: bool): Side {
    s.(state := if reading then DataRead else DataWrite, reading := reading, out := [], got := [])
  }

  function Finished(s: Side): Side {
    s.(state := DataIdle, done := s.done + [Moved(s.reading, s.out + s.got)])
  }

  predicate WellFormed(c: Call) {
    (c.GroupRequest? ==> WellTyped(c.g)) && (c.GroupResponse? ==> WellTypedReply(c.r))
  }

  /** The calls; None when the call is turned down, which changes nothing. */
  function Do(s: Side, c: Call): Option<(Side, Psdu)>
    requires WellFormed(c)
  {
    var v := s.view;
    match c
    case GroupRequest(t, g) =>
      if Acceptable(v, s.state, t, g) && Encodable(g) then
        Some((s.(state := Asked(t), group := g.parts.Keys), Pdus(Emit(g)))) else None
    case GroupResponse(t, r) =>
      if ReplyAcceptable(v, s.state, s.group, t, r) && EncodableReply(r) && EmitReply(r) != [] then
        Some((s.(state := AfterReply(t, r)), Pdus(EmitReply(r))))
      else None
    case ReadWriteRequest(reading) =>
      if v.initiator && s.state == DataIdle && (if reading then UnitRead else UnitWrite) in v.units then
        Some((Started(s, reading), One(true, if reading then Read else Write)))
      else None
    case DataRequest(data) =>
      if Sends(s) && 1 <= |data| <= NPDATA then Some((s.(out := s.out + data), Fadus(data))) else None
    case DataEndRequest =>
      if Sends(s) then Some((s.(state := DataFin1), One(true, DataEnd))) else None
    case TransEndRequest =>
      if v.initiator && s.state == DataFin1 then Some((s.(state := DataFin2), One(true, TransEnd))) else None
    case TransEndResponse =>
      if !v.initiator && s.state == DataFin2 then Some((Finished(s), One(false, TransEnd))) else None
    case CancelRequest =>
      if s.state in {DataRead, DataWrite} then Some((s.(state := DataCancel, cancel := true), One(true, Cancel))) else None
    case CancelResponse =>
      if s.state == DataCancel then Some((s.(state := DataIdle), One(false, Cancel))) else None
    case AccessRequest(locate) =>
      if v.initiator && s.state == DataIdle && UnitAccess in v.units then
        Some((s.(state := if locate then Locating else Erasing), One(true, if locate then Locate else Erase)))
      else None
    case AccessResponse(identity) =>
      if !v.initiator && (s.state == Locating || (s.state == Erasing && !identity)) then
        Some((s.(state := DataIdle), One(false, if s.state == Locating then Locate else Erase)))
      else None
  }

  // ----- Arrivals -----

  datatype Progress = Going(scan: Scan, single: Option<Pdu>) | Dropped | Broken

  /** A PDU outside groups, when nothing came before it in its P-DATA. */
  function SingleStep(s: Side, g: Scan, p: Pdu): Progress {
    var v := s.view;
    var taken := if g.next == {Begin} then Going(g.(next := {}), Some(p)) else Broken;
    match p.kind
    case Locate => if InAccess(s, p, Locating) then taken else Broken
    case Erase => if InAccess(s, p, Erasing) then taken else Broken
    case Read => if p.request && !v.initiator && s.state == DataIdle && UnitRead in v.units then taken else Broken
    case Write => if p.request && !v.initiator && s.state == DataIdle && UnitWrite in v.units then taken else Broken
    case DataEnd =>
      if !p.request then Broken
      else if s.state == DataCancel then Dropped
      else if Gets(s) then taken else Broken
    case TransEnd =>
      if p.request then
        if v.initiator || g.next != {Begin} then Broken
        else if s.state == DataCancel then Dropped
        else if s.state == DataFin1 then taken else Broken
      else if v.initiator && s.state == DataFin2 then taken else Broken
    case Cancel =>
      if s.state == DataCancel || (p.request && s.state in {DataRead, DataWrite, DataFin1, DataFin2}) then taken else Broken
    case _ => Broken
  }

  predicate InAccess(s: Side, p: Pdu, busy: State) {
    UnitAccess in s.view.units &&
    if p.request then !s.view.initiator && s.state == DataIdle else s.view.initiator && s.state == busy
  }

  /** The side that is to get the data of the transfer in progress. */
  predicate Gets(s: Side) {
    if s.view.initiator then s.state == DataRead else s.state == DataWrite
  }

  /** The loop over the PDUs. */
  function Steps(s: Side, g: Scan, single: Option<Pdu>, ps: seq<Pdu>): Progress
    decreases |ps|
  {
    if ps == [] then Going(g, single)
    else if ps[0].kind in Order() then
      match GroupStep(s.view, g, ps[0])
      case None => Broken
      case Some(g') => Steps(s, g', single, ps[1..])
    else
      match SingleStep(s, g, ps[0])
      case Going(g', single') => Steps(s, g', single', ps[1..])
      case other => other
  }

  /** What an arrival does: an abort, nothing the user sees, or an indication. */
  datatype Receipt = Abort | Quiet(side: Side, reply: Option<Psdu>) | Told(side: Side)

  /** Two cancel requests crossed: the code answers the peer's and waits on. */
  predicate Collides(s: Side, p: Pdu) {
    p.kind == Cancel && p.request && s.state == DataCancel
  }

  function Single(s: Side, p: Pdu): Receipt {
    match p.kind
    case Locate => Told(s.(state := if s.view.initiator then DataIdle else Locating))
    case Erase => Told(s.(state := if s.view.initiator then DataIdle else Erasing))
    case Read => Told(Started(s, true))
    case Write => Told(Started(s, false))
    case DataEnd => Told(s.(state := DataFin1))
    case TransEnd => Told(if s.view.initiator then Finished(s) else s.(state := DataFin2))
    case Cancel =>
      if Collides(s, p) then Quiet(s.(state := DataIdle), Some(One(false, Cancel)))
      else if s.cancel then Told(s.(state := DataIdle, cancel := false))
      else Told(s.(state := DataCancel))
    case _ => Abort
  }

  function GroupArrived(s: Side, g: Scan, count: nat): Receipt {
    match Concluded(s.view, s.state, s.group, g, count)
    case None => Abort
    case Some(st) => Told(s.(state := st, group := if s.view.initiator then s.group else g.parts.Keys))
  }

  /** `doPSdata` */
  function Receive(s: Side, m: Psdu): Receipt {
    if m.Fadus? && m.data != [] then
      if Gets(s) then Told(s.(got := s.got + m.data))
      else if s.state == DataCancel then Quiet(s, None)
      else Abort
    else
      var ps := if m.Fadus? then [] else m.pdus;
      match Steps(s, START, None, ps)
      case Broken => Abort
      case Dropped => Quiet(s, None)
      case Going(g, single) =>
        if g.next != {} then Abort
        else if single.Some? then Single(s, single.value)
        else GroupArrived(s, g, |ps|)
  }
}
