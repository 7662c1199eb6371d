/**
 What a side can look back on, in any orderly run: whole exchanges of the service
 definition, bracketed by bulk-begin and bulk-end, and a beginning of one more
 that tells its state.
 */
module FtamHistory {
  import opened Wrappers
  import opened FtamTypes
  import opened FtamGroups
  import opened FtamGroupTheorems
  import opened FtamReading
  import opened FtamReplies
  import opened FtamRegime
  import opened FtamRuns
  import opened FtamNet

  datatype Mark =
    | Grouping(t: GroupType, kinds: seq<Kind>, entered: bool)
    | Accessed(locate: bool) | Moving(reading: bool) | Data | DataOver | MovingOver | Cancelling

  /** One PDU, or one group, or some data: who said it, and whether it asked or answered. */
  datatype Note = Note(mine: bool, request: bool, mark: Mark)

  datatype Past = Past(whole: seq<seq<Note>>, part: seq<Note>)

  // ----- What is noted -----

  function TypeOf(st: State): GroupType {
    if st == Management then ForManagement else if st == BulkBegin then ForBulkBegin else ForBulkEnd
  }

  /** What a side notes of its own call, which took it to `s'`. */
  function Said(s: Side, c: Call, s': Side): Note
    requires WellFormed(c)
  {
    match c
    case GroupRequest(t, g) => Note(true, true, Grouping(t, Kinds(Emit(g)), false))
    case GroupResponse(t, r) => Note(true, false, Grouping(t, Kinds(EmitReply(r)), s'.state == DataIdle))
    case ReadWriteRequest(reading) => Note(true, true, Moving(reading))
    case DataRequest(_) => Note(true, true, Data)
    case DataEndRequest => Note(true, true, DataOver)
    case TransEndRequest => Note(true, true, MovingOver)
    case TransEndResponse => Note(true, false, MovingOver)
    case CancelRequest => Note(true, true, Cancelling)
    case CancelResponse => Note(true, false, Cancelling)
    case AccessRequest(locate) => Note(true, true, Accessed(locate))
    case AccessResponse(_) => Note(true, false, Accessed(s.state == Locating))
  }

  /** What a side notes of an arrival, which took it to `s'`. */
  function Heard(s: Side, m: Psdu, s': Side): Note {
    if m.Fadus? || m.pdus == [] then Note(false, true, Data)
    else
      var p := m.pdus[0];
      match p.kind
      case Locate => Note(false, p.request, Accessed(true))
      case Erase => Note(false, p.request, Accessed(false))
      case Read => Note(false, p.request, Moving(true))
      case Write => Note(false, p.request, Moving(false))
      case DataEnd => Note(false, p.request, DataOver)
      case TransEnd => Note(false, p.request, MovingOver)
      case Cancel => Note(false, p.request, Cancelling)
      case _ =>
        Note(false, p.request, Grouping(TypeOf(if p.request then s'.state else s.state), Kinds(m.pdus), s'.state == DataIdle))
  }

  predicate AtRest(s: Side) {
    s.state == Initialized || s.state == DataIdle
  }

  function Track(p: Past, note: Note, s': Side): Past {
    if AtRest(s') then Past(p.whole + [p.part + [note]], []) else p.(part := p.part + [note])
  }

  // ----- The exchanges -----

  /** Some data, from one side. */
  predicate AllData(mine: bool, d: seq<Note>) {
    forall x :: x in d ==> x == Note(mine, true, Data)
  }

  /** A transfer from its start: the initiator asks, and one side sends, the responder in a read. */
  ghost predicate Begun(ini: bool, reading: bool, e: seq<Note>) {
    e != [] && e[0] == Note(ini, true, Moving(reading)) && AllData(ini != reading, e[1..])
  }

  ghost predicate Ended(ini: bool, reading: bool, e: seq<Note>) {
    |e| > 1 && Begun(ini, reading, e[..|e| - 1]) && e[|e| - 1] == Note(ini != reading, true, DataOver)
  }

  ghost predicate Closing(ini: bool, reading: bool, e: seq<Note>) {
    |e| > 1 && Ended(ini, reading, e[..|e| - 1]) && e[|e| - 1] == Note(ini, true, MovingOver)
  }

  /** A transfer somewhere between its start and its end. */
  ghost predicate Moved(ini: bool, e: seq<Note>) {
    exists reading :: Begun(ini, reading, e) || Ended(ini, reading, e) || Closing(ini, reading, e)
  }

  ghost predicate Closed(ini: bool, e: seq<Note>) {
    exists reading :: Closing(ini, reading, e)
  }

  /** A transfer cut by `maker`'s cancel. */
  ghost predicate Cut(ini: bool, e: seq<Note>, maker: bool) {
    |e| > 1 && e[|e| - 1] == Note(maker, true, Cancelling) &&
    Moved(ini, e[..|e| - 1])
  }

  /** A group the initiator asked for is one of the service definition. */
  ghost predicate Asking(ini: bool, t: GroupType, e: seq<Note>) {
    |e| == 1 && e[0].mine == ini && e[0].request && e[0].mark.Grouping? && e[0].mark.t == t &&
    (ini ==> exists s: Shape :: Legal(t, s) && e[0].mark.kinds == Spell(s))
  }

  ghost predicate IsAccess(ini: bool, e: seq<Note>) {
    exists locate :: e == [Note(ini, true, Accessed(locate)), Note(!ini, false, Accessed(locate))]
  }

  ghost predicate IsTransfer(ini: bool, e: seq<Note>) {
    |e| > 1 && e[|e| - 1] == Note(!ini, false, MovingOver) && Closed(ini, e[..|e| - 1])
  }

  ghost predicate IsCut(ini: bool, e: seq<Note>) {
    |e| > 1 && e[|e| - 1] == Note(e[|e| - 1].mine, false, Cancelling) && Cut(ini, e[..|e| - 1], !e[|e| - 1].mine)
  }

  ghost predicate IsGroup(ini: bool, t: GroupType, e: seq<Note>) {
    |e| == 2 && Asking(ini, t, e[..1]) && e[1].mine == !ini && !e[1].request && e[1].mark.Grouping? && e[1].mark.t == t
  }

  /** What `e` does to the data regime, open or not; None when it is no exchange or not in its place. */
  ghost function Effect(ini: bool, open: bool, e: seq<Note>): Option<bool> {
    if IsGroup(ini, ForManagement, e) && !open then Some(false)
    else if IsGroup(ini, ForBulkBegin, e) && !open then Some(e[1].mark.entered)
    else if IsGroup(ini, ForBulkEnd, e) && open then Some(false)
    else if (IsAccess(ini, e) || IsTransfer(ini, e) || IsCut(ini, e)) && open then Some(true)
    else None
  }

  /** Whether the data regime is open after all these; None if they are not in order. */
  ghost function Regime(ini: bool, whole: seq<seq<Note>>): Option<bool> {
    if whole == [] then Some(false)
    else
      var before := Regime(ini, whole[..|whole| - 1]);
      if before.None? then None else Effect(ini, before.value, whole[|whole| - 1])
  }

  predicate InRegime(st: State) {
    st !in {Initialized, Management, BulkBegin}
  }

  /** The exchange under way fits the state. */
  ghost predicate UnderWay(s: Side, e: seq<Note>) {
    var ini := s.view.initiator;
    match s.state
    case Initialized => e == []
    case DataIdle => e == []
    case Management => Asking(ini, ForManagement, e)
    case BulkBegin => Asking(ini, ForBulkBegin, e)
    case BulkEnd => Asking(ini, ForBulkEnd, e)
    case Locating => e == [Note(ini, true, Accessed(true))]
    case Erasing => e == [Note(ini, true, Accessed(false))]
    case DataRead => Begun(ini, true, e)
    case DataWrite => Begun(ini, false, e)
    case DataFin1 => exists reading :: Ended(ini, reading, e)
    case DataFin2 => Closed(ini, e)
    case DataCancel => Cut(ini, e, s.cancel)
  }

  ghost predicate Tells(s: Side, p: Past) {
    Regime(s.view.initiator, p.whole) == Some(InRegime(s.state)) && UnderWay(s, p.part)
  }

  // ----- Every step is told -----

  lemma {:induction false} RegimeMore(ini: bool, whole: seq<seq<Note>>, e: seq<Note>)
    requires Regime(ini, whole).Some?
    ensures Regime(ini, whole + [e]) == Effect(ini, Regime(ini, whole).value, e)
  {
    assert (whole + [e])[..|whole|] == whole;
  }

  /** A note that leaves the exchange under way. */
  lemma Goes(s: Side, p: Past, note: Note, s': Side)
    requires Tells(s, p) && !AtRest(s') && s'.view == s.view && InRegime(s'.state) == InRegime(s.state)
    requires UnderWay(s', p.part + [note])
    ensures Tells(s', Track(p, note, s'))
  {
  }

  /** A note that completes the exchange. */
  lemma Completes(s: Side, p: Past, note: Note, s': Side)
    requires Tells(s, p) && AtRest(s') && s'.view == s.view
    requires Effect(s.view.initiator, InRegime(s.state), p.part + [note]) == Some(InRegime(s'.state))
    ensures Tells(s', Track(p, note, s'))
  {
    RegimeMore(s.view.initiator, p.whole, p.part + [note]);
  }

  lemma NotAGroup(ini: bool, t: GroupType, e: seq<Note>)
    requires e != [] && !e[0].mark.Grouping?
    ensures !IsGroup(ini, t, e)
  {
    if |e| == 2 {
      assert e[..1][0] == e[0];
    }
  }

  lemma Split(part: seq<Note>, note: Note)
    ensures |part + [note]| == |part| + 1 && (part + [note])[..|part|] == part && (part + [note])[|part|] == note
    ensures part != [] ==> (part + [note])[0] == part[0] && (part + [note])[1..] == part[1..] + [note]
  {
  }

  lemma RequestTold(s: Side, p: Past, t: GroupType, g: Group, s': Side)
    requires Tells(s, p) && WellTyped(g) && Acceptable(s.view, s.state, t, g) && s'.view == s.view && s'.state == Asked(t)
    ensures Tells(s', Track(p, Note(true, true, Grouping(t, Kinds(Emit(g)), false)), s'))
  {
    AcceptedGroupsAreTheLegalOnes(s.view, s.state, t, g);
    var note := Note(true, true, Grouping(t, Kinds(Emit(g)), false));
    assert p.part + [note] == [note];
    Goes(s, p, note, s');
  }

  // One lemma for each kind of note, whoever makes it.

  lemma StartTold(s: Side, p: Past, s': Side, reading: bool)
    requires Tells(s, p) && s.state == DataIdle && s'.view == s.view && s'.state == (if reading then DataRead else DataWrite)
    ensures Tells(s', Track(p, Note(s.view.initiator, true, Moving(reading)), s'))
  {
    var note := Note(s.view.initiator, true, Moving(reading));
    assert p.part + [note] == [note] && [note][1..] == [];
    Goes(s, p, note, s');
  }

  lemma {:induction false} DataTold(s: Side, p: Past, s': Side, mine: bool)
    requires Tells(s, p) && s'.view == s.view && s'.state == s.state
    requires (s.state == DataRead && mine == !s.view.initiator) || (s.state == DataWrite && mine == s.view.initiator)
    ensures Tells(s', Track(p, Note(mine, true, Data), s'))
  {
    Split(p.part, Note(mine, true, Data));
    Goes(s, p, Note(mine, true, Data), s');
  }

  lemma {:induction false} DataOverTold(s: Side, p: Past, s': Side, mine: bool)
    requires Tells(s, p) && s'.view == s.view && s'.state == DataFin1
    requires (s.state == DataRead && mine == !s.view.initiator) || (s.state == DataWrite && mine == s.view.initiator)
    ensures Tells(s', Track(p, Note(mine, true, DataOver), s'))
  {
    var note := Note(mine, true, DataOver);
    Split(p.part, note);
    assert Ended(s.view.initiator, s.state == DataRead, p.part + [note]);
    Goes(s, p, note, s');
  }

  lemma {:induction false} ClosingTold(s: Side, p: Past, s': Side)
    requires Tells(s, p) && s.state == DataFin1 && s'.view == s.view && s'.state == DataFin2
    ensures Tells(s', Track(p, Note(s.view.initiator, true, MovingOver), s'))
  {
    var note := Note(s.view.initiator, true, MovingOver);
    var reading :| Ended(s.view.initiator, reading, p.part);
    Split(p.part, note);
    assert Closing(s.view.initiator, reading, p.part + [note]);
    Goes(s, p, note, s');
  }

  lemma {:induction false} FinishTold(s: Side, p: Past, s': Side)
    requires Tells(s, p) && s.state == DataFin2 && s'.view == s.view && s'.state == DataIdle
    ensures Tells(s', Track(p, Note(!s.view.initiator, false, MovingOver), s'))
  {
    var note := Note(!s.view.initiator, false, MovingOver);
    Split(p.part, note);
    DataEffect(s.view.initiator, p.part + [note]);
    Completes(s, p, note, s');
  }

  lemma {:induction false} CancelTold(s: Side, p: Past, s': Side, mine: bool)
    requires Tells(s, p) && InTransfer(s.state) && s'.view == s.view && s'.state == DataCancel && s'.cancel == mine
    ensures Tells(s', Track(p, Note(mine, true, Cancelling), s'))
  {
    var note := Note(mine, true, Cancelling);
    Split(p.part, note);
    assert Moved(s.view.initiator, p.part);
    Goes(s, p, note, s');
  }

  lemma {:induction false} CancelledTold(s: Side, p: Past, s': Side)
    requires Tells(s, p) && s.state == DataCancel && s'.view == s.view && s'.state == DataIdle
    ensures Tells(s', Track(p, Note(!s.cancel, false, Cancelling), s'))
  {
    var note := Note(!s.cancel, false, Cancelling);
    Split(p.part, note);
    DataEffect(s.view.initiator, p.part + [note]);
    Completes(s, p, note, s');
  }

  lemma {:induction false} AccessTold(s: Side, p: Past, s': Side, locate: bool)
    requires Tells(s, p) && s.state == DataIdle && s'.view == s.view && s'.state == (if locate then Locating else Erasing)
    ensures Tells(s', Track(p, Note(s.view.initiator, true, Accessed(locate)), s'))
  {
    var note := Note(s.view.initiator, true, Accessed(locate));
    assert p.part + [note] == [note];
    Goes(s, p, note, s');
  }

  lemma {:induction false} AccessedTold(s: Side, p: Past, s': Side, locate: bool)
    requires Tells(s, p) && s.state == (if locate then Locating else Erasing) && s'.view == s.view && s'.state == DataIdle
    ensures Tells(s', Track(p, Note(!s.view.initiator, false, Accessed(locate)), s'))
  {
    var note := Note(!s.view.initiator, false, Accessed(locate));
    assert p.part + [note] == [Note(s.view.initiator, true, Accessed(locate)), note];
    DataEffect(s.view.initiator, p.part + [note]);
    Completes(s, p, note, s');
  }

  /** Data exchanges keep the regime open. */
  lemma {:induction false} DataEffect(ini: bool, e: seq<Note>)
    requires IsAccess(ini, e) || IsTransfer(ini, e) || IsCut(ini, e)
    ensures Effect(ini, true, e) == Some(true)
  {
    FirstNote(ini, e);
    NotAGroup(ini, ForBulkEnd, e);
  }

  lemma MovedFirst(ini: bool, e: seq<Note>)
    requires Moved(ini, e)
    ensures e != [] && e[0].mark.Moving?
  {
    var reading :| Begun(ini, reading, e) || Ended(ini, reading, e) || Closing(ini, reading, e);
    if Closing(ini, reading, e) {
      assert Begun(ini, reading, e[..|e| - 1][..|e| - 2]);
    }
  }

  lemma FirstNote(ini: bool, e: seq<Note>)
    requires IsAccess(ini, e) || IsTransfer(ini, e) || IsCut(ini, e)
    ensures e != [] && !e[0].mark.Grouping?
  {
    if IsTransfer(ini, e) {
      var reading :| Closing(ini, reading, e[..|e| - 1]);
      assert Moved(ini, e[..|e| - 1]);
      MovedFirst(ini, e[..|e| - 1]);
    } else if IsCut(ini, e) {
      MovedFirst(ini, e[..|e| - 1][..|e| - 2]);
    }
  }

  lemma {:induction false} GroupTold(s: Side, p: Past, s': Side, t: GroupType, note: Note)
    requires Tells(s, p) && s.state == Asked(t) && s'.view == s.view
    requires note.mark.Grouping? && note == Note(!s.view.initiator, false, Grouping(t, note.mark.kinds, s'.state == DataIdle))
    requires s'.state == Initialized || (t == ForBulkBegin && s'.state == DataIdle)
    ensures Tells(s', Track(p, note, s'))
  {
    Split(p.part, note);
    var e := p.part + [note];
    assert e[..1] == p.part && e[1] == note;
    assert IsGroup(s.view.initiator, t, e);
    OneType(s.view.initiator, t, e);
    Completes(s, p, note, s');
  }

  lemma OneType(ini: bool, t: GroupType, e: seq<Note>)
    requires IsGroup(ini, t, e)
    ensures forall t' :: IsGroup(ini, t', e) ==> t' == t
  {
  }

  lemma {:induction false} CallTold(s: Side, p: Past, c: Call)
    requires Tells(s, p) && WellFormed(c) && Do(s, c).Some? && !s.cancel
    ensures var s' := Do(s, c).value.0; Tells(s', Track(p, Said(s, c, s'), s'))
  {
    var s' := Do(s, c).value.0;
    match c
    case GroupRequest(t, g) => RequestTold(s, p, t, g, s');
    case GroupResponse(t, r) => GroupTold(s, p, s', t, Said(s, c, s'));
    case ReadWriteRequest(reading) => StartTold(s, p, s', reading);
    case DataRequest(data) => DataTold(s, p, s', true);
    case DataEndRequest => DataOverTold(s, p, s', true);
    case TransEndRequest => ClosingTold(s, p, s');
    case TransEndResponse => FinishTold(s, p, s');
    case CancelRequest => CancelTold(s, p, s', true);
    case CancelResponse => CancelledTold(s, p, s');
    case AccessRequest(locate) => AccessTold(s, p, s', locate);
    case AccessResponse(_) => AccessedTold(s, p, s', s.state == Locating);
  }

  lemma HeardGroup(s: Side, p: Past, m: Psdu)
    requires Tells(s, p) && m.Pdus? && (forall q :: q in m.pdus ==> q.kind in Order()) && Receive(s, m).Told?
    ensures var s' := Receive(s, m).side; Tells(s', Track(p, Heard(s, m, s'), s'))
  {
    var s' := Receive(s, m).side;
    StepsIsScan(s, START, m.pdus);
    assert m.pdus != [] && m.pdus[0] in m.pdus;
    assert m.pdus[0].request != s.view.initiator;
    var note := Heard(s, m, s');
    if s.view.initiator {
      GroupTold(s, p, s', TypeOf(s.state), note);
    } else {
      assert p.part + [note] == [note];
      Goes(s, p, note, s');
    }
  }

  lemma HeardOne(s: Side, p: Past, q: Pdu)
    requires Tells(s, p) && !MustAnswer(s) && q.kind !in Order() && q == Pdu(q.request, q.kind, Plain)
    requires s.cancel ==> s.state == DataCancel
    requires Receive(s, Pdus([q])).Told?
    ensures var s' := Receive(s, Pdus([q])).side; Tells(s', Track(p, Heard(s, Pdus([q]), s'), s'))
  {
    OneRead(s, q.request, q.kind);
    var s' := Receive(s, Pdus([q])).side;
    match q.kind
    case Locate => if q.request { AccessTold(s, p, s', true); } else { AccessedTold(s, p, s', true); }
    case Erase => if q.request { AccessTold(s, p, s', false); } else { AccessedTold(s, p, s', false); }
    case Read => StartTold(s, p, s', true);
    case Write => StartTold(s, p, s', false);
    case DataEnd => DataOverTold(s, p, s', false);
    case TransEnd => if q.request { ClosingTold(s, p, s'); } else { FinishTold(s, p, s'); }
    case Cancel => if q.request { CancelTold(s, p, s', false); } else { CancelledTold(s, p, s'); }
    case _ =>
  }

  lemma {:induction false} ArrivalTold(s: Side, p: Past, m: Psdu)
    requires Tells(s, p) && !MustAnswer(s) && Spoken(m) && Receive(s, m).Told? && (s.cancel ==> s.state == DataCancel)
    ensures var s' := Receive(s, m).side; Tells(s', Track(p, Heard(s, m, s'), s'))
  {
    if m.Fadus? {
      DataTold(s, p, Receive(s, m).side, false);
    } else if forall q :: q in m.pdus ==> q.kind in Order() {
      HeardGroup(s, p, m);
    } else {
      HeardOne(s, p, m.pdus[0]);
    }
  }
}
