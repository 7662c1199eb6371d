/**
 The calls for groups, with every check there is on them, and what else than an
 indication comes of a PDU that stands alone.
 */
module FtamGroupCalls {
  import opened Wrappers
  import opened FtamTypes
  import opened FtamGroups
  import opened FtamGroupTheorems
  import opened FtamReplies
  import opened FtamRegime
  import opened FtamRuns
  import opened FtamTables
  import Codec = FtamAttributes
  import Refusals = FtamRefusals

  /** Every attribute that is present can be sent. */
  predicate AllSendable(a: Codec.Attributes)
    requires Codec.Whole(a)
  {
    forall k :: k in a.present ==> Refusals.Sendable(k, a.value[k], k in a.novalue)
  }

  lemma AllSendableIs(a: Codec.Attributes)
    requires Codec.Whole(a)
    ensures AllSendable(a) <==> Codec.Encode(a).Some?
  {
    hide Refusals.Sendable, Codec.Attr2fpm, Codec.Whole;
    Refusals.RefusedExactly(a);
  }

  /** So can those of a select, a create or a change. */
  predicate SendablePart(k: Kind, b: Body)
    requires Fits(k, b)
  {
    match k
    case Select => AllSendable(b.attrs)
    case Create => AllSendable(b.attrs)
    case Chattr => AllSendable(b.attrs)
    case _ => true
  }

  /** The state of either side while a group is unanswered. */
  predicate Unanswered(st: State, t: GroupType) {
    match t
    case ForManagement => st == Management
    case ForBulkBegin => st == BulkBegin
    case ForBulkEnd => st == BulkEnd
  }

  /**
   The request of a group is accepted exactly when it is made by an initiator in time,
   spelled as its type wants it with the right threshold, needs no unit that is not
   there, and has neither a fault nor an attribute that cannot be sent; the group is
   then kept, the state tells its type, and nothing else changes.
   */
  lemma {:induction false} GroupRequestsExactly(s: Side, t: GroupType, g: Group)
    requires WellTyped(g)
    ensures Do(s, GroupRequest(t, g)).Some? <==>
              && s.view.initiator && Timely(s.view, s.state, t)
              && (exists h: Shape :: Legal(t, h) && Kinds(Emit(g)) == Spell(h)) && g.threshold == |Emit(g)| - 2
              && UnitGrouping in s.view.units
              && (Create in g.parts || Rdattr in g.parts || Delete in g.parts ==> UnitLimited in s.view.units)
              && (Chattr in g.parts ==> UnitEnhanced in s.view.units)
              && (forall k :: k in g.parts ==> Faultless(s.view, k, g.parts[k]))
              && forall k :: k in g.parts ==> SendablePart(k, g.parts[k])
    ensures Do(s, GroupRequest(t, g)).Some? ==>
              var (s', m) := Do(s, GroupRequest(t, g)).value;
              m == Pdus(Emit(g)) && Unanswered(s'.state, t) && s' == s.(state := s'.state, group := g.parts.Keys)
  {
    hide Acceptable, Timely, Legal, Spell, Emit, Kinds, Faultless, SendablePart, EncodablePart, Fits;
    AcceptedExactly(s.view, s.state, t, g);
    forall k | k in g.parts ensures EncodablePart(g.parts[k]) <==> SendablePart(k, g.parts[k]) {
      PartSendable(k, g.parts[k]);
    }
  }

  lemma PartSendable(k: Kind, b: Body)
    requires Fits(k, b)
    ensures EncodablePart(b) <==> SendablePart(k, b)
  {
    hide AllSendable, Codec.Encode, Codec.Whole;
    if b.File? || b.Changes? {
      AllSendableIs(b.attrs);
    }
  }

  /** What of a reply is sent: all of it, or what failed between begin and end. */
  predicate Tells(r: Reply, k: Kind) {
    k in r.flags && (HeadFailed(r) ==> k == Begin || k == End || k == if Select in r.flags then Select else Create)
  }

  /**
   The response to a group is accepted exactly when it is due, answers nothing that was
   not asked, no answer has a fault, and something is sent, with no attribute in it that
   cannot be.
   */
  lemma {:induction false} GroupResponsesExactly(s: Side, t: GroupType, r: Reply)
    requires WellTypedReply(r) && Grouped(s.group)
    ensures Do(s, GroupResponse(t, r)).Some? <==>
              && !s.view.initiator && Pending(s.state, t) && r.flags <= s.group
              && (forall k :: k in r.flags ==> FaultlessAnswer(s.view, r, k))
              && (exists k :: Tells(r, k))
              && (Tells(r, Select) ==> AllSendable(r.selectAttrs)) && (Tells(r, Create) ==> AllSendable(r.createAttrs))
              && (Tells(r, Rdattr) ==> AllSendable(r.readAttrs)) && (Tells(r, Chattr) ==> AllSendable(r.changeAttrs))
    ensures Do(s, GroupResponse(t, r)).Some? ==>
              var (s', m) := Do(s, GroupResponse(t, r)).value;
              m == Pdus(EmitReply(r)) && s' == s.(state := s'.state) &&
              s'.state == if t == ForBulkBegin && HeadOk(r) && r.openOk then DataIdle else Initialized
  {
    hide ReplyAcceptable, FaultlessAnswer, EmitReply, AllSendable, EncodableReply, Codec.Encode, Codec.Whole;
    RepliesAcceptedExactly(s.view, s.state, s.group, t, r);
    if r.flags <= s.group {
      assert forall k :: k in r.flags ==> k in s.group;
      SomethingTold(r);
      AnswersSendable(r);
    }
  }

  lemma SomethingTold(r: Reply)
    requires Grouped(r.flags)
    ensures EmitReply(r) != [] <==> exists k :: Tells(r, k)
  {
    hide EmitReply, HeadFailed;
    forall k ensures k in Kinds(EmitReply(r)) <==> Tells(r, k) {
      RepliesAreCut(r, k);
    }
    if EmitReply(r) != [] {
      assert Tells(r, Kinds(EmitReply(r))[0]);
    }
  }

  lemma AnswersSendable(r: Reply)
    requires WellTypedReply(r)
    ensures EncodableReply(r) <==>
              && (Tells(r, Select) ==> AllSendable(r.selectAttrs)) && (Tells(r, Create) ==> AllSendable(r.createAttrs))
              && (Tells(r, Rdattr) ==> AllSendable(r.readAttrs)) && (Tells(r, Chattr) ==> AllSendable(r.changeAttrs))
  {
    hide AllSendable, Codec.Encode, Codec.Whole, ReplyFlags, HeadFailed;
    forall k ensures k in ReplyFlags(r) <==> Tells(r, k) {
      ReplyFlagsAre(r, k);
    }
    forall k | k in ATTRIBUTED ensures Codec.Encode(AttrsOf(r, k)).Some? <==> AllSendable(AttrsOf(r, k)) {
      AllSendableIs(AttrsOf(r, k));
    }
    assert forall k :: k in ATTRIBUTED <==> k in {Select, Create, Rdattr, Chattr};
    assert AttrsOf(r, Select) == r.selectAttrs && AttrsOf(r, Create) == r.createAttrs;
    assert AttrsOf(r, Rdattr) == r.readAttrs && AttrsOf(r, Chattr) == r.changeAttrs;
    assert EncodableReply(r) <==> forall k :: Tells(r, k) ==> EncodableAnswer(r, k);
  }

  // ----- PDUs that stand alone -----

  /** A side that waits for its cancel to be answered passes over what ends a transfer. */
  predicate Ignored(x: Side, request: bool, k: Kind) {
    x.state == DataCancel && request && (k == DataEnd || (k == TransEnd && !x.view.initiator))
  }

  /** Two cancels have crossed. */
  predicate Crossed(x: Side, request: bool, k: Kind) {
    x.state == DataCancel && request && k == Cancel
  }

  /** Such a PDU is passed over, or answered unseen, exactly in these cases. */
  lemma UnseenExactly(x: Side, request: bool, k: Kind)
    requires k !in Order()
    ensures Receive(x, One(request, k)).Quiet? <==> Ignored(x, request, k) || Crossed(x, request, k)
    ensures Ignored(x, request, k) ==> Receive(x, One(request, k)) == Quiet(x, None)
    ensures Crossed(x, request, k) ==> Receive(x, One(request, k)) == Quiet(x.(state := DataIdle), Some(One(false, Cancel)))
  {
    hide Steps, GroupArrived;
    OneRead(x, request, k);
  }

  /** The state an indication leads to. */
  function Indicated(x: Side, request: bool, k: Kind): State {
    match k
    case Read => DataRead
    case Write => DataWrite
    case Locate => if request then Locating else DataIdle
    case Erase => if request then Erasing else DataIdle
    case DataEnd => DataFin1
    case TransEnd => if request then DataFin2 else DataIdle
    case _ => if request then DataCancel else DataIdle
  }

  /** And what else it does: a read or write starts afresh, the end of a transfer is noted, the answer ends a cancel. */
  lemma IndicatedExactly(x: Side, request: bool, k: Kind)
    requires k !in Order() && Receive(x, One(request, k)).Told? && (x.cancel ==> x.state == DataCancel)
    requires k == Cancel && !request ==> x.cancel
    ensures var x' := Receive(x, One(request, k)).side;
            && x'.state == Indicated(x, request, k) && x'.view == x.view && x'.group == x.group
            && x'.cancel == (x.cancel && !(k == Cancel && !request))
            && x'.reading == (if k in {Read, Write} then k == Read else x.reading)
            && x'.out == (if k in {Read, Write} then [] else x.out) && x'.got == (if k in {Read, Write} then [] else x.got)
            && x'.done == if k == TransEnd && !request then x.done + [Moved(x.reading, x.out + x.got)] else x.done
  {
    hide Steps, GroupArrived;
    OneRead(x, request, k);
  }

  /** Data in a transfer towards this side is added to what it got; in a cancel it is passed over, and anywhere else it ends the association. */
  lemma DataTaken(x: Side, data: seq<Fadu>)
    requires data != []
    ensures var gets := x.state == if x.view.initiator then DataRead else DataWrite;
            Receive(x, Fadus(data)) ==
            if gets then Told(x.(got := x.got + data)) else if x.state == DataCancel then Quiet(x, None) else Abort
  {
  }
}
