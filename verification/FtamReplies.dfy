/**
 Replies to grouped requests.  The responder's caller may leave PDUs out of a
 reply; here is exactly when the initiator can still read it, and exactly when
 both sides then go to the same state.
 */
module FtamReplies {
  import opened Wrappers
  import opened FtamTypes
  import opened FtamGroups
  import opened FtamGroupTheorems
  import opened FtamReading
  import Codec = FtamAttributes

  /** The reply says what became of the whole group, or of the select or create alone. */
  predicate Complete(t: GroupType, group: set<Kind>, f: set<Kind>) {
    RightFlags(t, f) || (t != ForBulkEnd && f == {Begin, ShapeOf(group).head, End})
  }

  /** The state that goes with an open that was left out is not sent. */
  predicate Consistent(t: GroupType, r: Reply) {
    t == ForBulkBegin && HeadOk(r) && Open !in r.flags ==> r.openOk
  }

  lemma ShortRest(f: set<Kind>)
    requires End in f && Rdattr !in f && Chattr !in f && Deselect !in f && Delete !in f && Open !in f
    ensures EmittedFrom(f, 4) == [End]
  {
    Turn(f, 9, End);
    Turn(f, 8, Open);
    Turn(f, 7, Delete);
    Turn(f, 6, Deselect);
    Turn(f, 5, Chattr);
    Turn(f, 4, Rdattr);
  }

  lemma {:induction false} ShortEmitted(f: set<Kind>, head: Kind)
    requires head in {Select, Create} && f == {Begin, head, End}
    ensures EmittedFrom(f, 0) == [Begin, head, End]
  {
    ShortRest(f);
    EmittedHead(f, head);
    assert [Begin, head] + [End] == [Begin, head, End];
  }

  lemma {:induction false} ShortFlags(f: set<Kind>, head: Kind)
    requires Grouped(f) && head in {Select, Create}
    ensures EmittedFrom(f, 0) == [Begin, head, End] <==> f == {Begin, head, End}
  {
    if f == {Begin, head, End} {
      ShortEmitted(f, head);
    }
    var ks := EmittedFrom(f, 0);
    FlagsFrom(f, ks);
    ThreeFlags(head, ks);
  }

  lemma ThreeFlags(head: Kind, ks: seq<Kind>)
    ensures ks == [Begin, head, End] ==> (set k | k in ks) == {Begin, head, End}
  {
  }

  lemma {:induction false} FlagsFrom(f: set<Kind>, ks: seq<Kind>)
    requires Grouped(f) && EmittedFrom(f, 0) == ks
    ensures f == set k | k in ks
  {
    forall k ensures k in f <==> k in ks {
      EmittedHolds(f, 0, k);
      assert Order()[0..] == Order();
    }
  }

  lemma SubGroup(t: GroupType, t': GroupType, group: set<Kind>, f: set<Kind>)
    requires RightFlags(t, group) && f <= group && RightFlags(t', f)
    ensures t == t'
  {
    assert forall k :: k in f ==> k in group;
  }

  lemma {:induction false} FlagsTaken(t: GroupType, group: set<Kind>, f: set<Kind>)
    requires Grouped(group) && RightFlags(t, group) && f <= group
    ensures Taken(false, EmittedFrom(f, 0)) <==> Complete(t, group, f)
  {
    assert forall k :: k in f ==> k in group;
    var ks, head := EmittedFrom(f, 0), ShapeOf(group).head;
    ReplyAutomatonIsTheGrammar(ks);
    ShortFlags(f, Select);
    ShortFlags(f, Create);
    forall t', s: Shape | Legal(t', s) && ks == Spell(s) ensures RightFlags(t, f) {
      SpelledBack(t', f, s);
      SubGroup(t, t', group, f);
    }
    if RightFlags(t, f) {
      FlagsAreAShape(t, f);
      ShapeIsEmitted(t, ShapeOf(f));
      assert ks == Spell(ShapeOf(f));
    }
  }

  lemma {:induction false} ReplyContents(r: Reply, i: nat, p: Pdu)
    requires i <= 10
    ensures p in EmitReplyFrom(r, i) <==> p.kind in ReplyFlags(r) && p.kind in Order()[i..] && p == Answer(r, p.kind)
    decreases 10 - i
  {
    if i < 10 {
      ReplyContents(r, i + 1, p);
      assert Order()[i..] == [Order()[i]] + Order()[i + 1..];
    }
  }

  /** What an answer says of its success. */
  function AnswerOk(r: Reply, k: Kind): bool {
    match k
    case Select => r.selectOk
    case Create => r.createOk
    case Open => r.openOk
    case _ => true
  }

  predicate DecodablePart(r: Reply, k: Kind)
    requires WellTypedReply(r)
  {
    k in ATTRIBUTED ==> Codec.Decodable(AttrsOf(r, k))
  }

  /** No answer that is sent has an empty bit string in its attributes. */
  predicate DecodableReply(r: Reply)
    requires WellTypedReply(r)
  {
    forall k :: k in ReplyFlags(r) ==> DecodablePart(r, k)
  }

  /** An answer can be read exactly when its attributes can be decoded. */
  lemma AnswerIsRead(v: View, r: Reply, k: Kind)
    requires v.initiator && WellTypedReply(r) && EncodableAnswer(r, k)
    ensures Answer(r, k).request != v.initiator && Answer(r, k).kind == k
    ensures Received(v, Answer(r, k)).Some? <==> DecodablePart(r, k)
    ensures k in TELLING && Received(v, Answer(r, k)).Some? ==>
              Received(v, Answer(r, k)).value.Answered? && Received(v, Answer(r, k)).value.ok == AnswerOk(r, k)
  {
    hide Codec.Fpm2attr, Codec.Attr2fpm;
    if k in ATTRIBUTED {
      Codec.DecodesExactly(AttrsOf(r, k));
    }
  }

  /** Its attributes come back, masks and values, exactly when they are of the kind that is kept. */
  lemma AnswerKeepsAttributes(v: View, r: Reply, k: Kind)
    requires v.initiator && WellTypedReply(r) && EncodableAnswer(r, k) && DecodablePart(r, k)
    requires k in ATTRIBUTED && RightAnswer(Peer(v), k, AttrsOf(r, k).present)
    ensures Received(v, Answer(r, k)).Some? && Received(v, Answer(r, k)).value.Answered?
    ensures Codec.Restores(AttrsOf(r, k), Received(v, Answer(r, k)).value.attrs) <==> Codec.Keepable(AttrsOf(r, k))
  {
    hide Codec.Fpm2attr, Codec.Attr2fpm, Codec.Whole, Masked;
    var a := AttrsOf(r, k);
    AnswerIsRead(v, r, k);
    AllAttrs(a.present);
    assert !Forbidden(v, Filename);
    PeerForbids(v, a.present);
    assert Peer(Peer(v)) == v;
    AttributesArrive(Peer(v), a, Within(k));
  }

  lemma {:induction false} ReplyAllRead(v: View, r: Reply)
    requires v.initiator && WellTypedReply(r) && EncodableReply(r) && forall k :: k in ReplyFlags(r) ==> Permitted(v, k)
    requires Grouped(r.flags)
    ensures FromPeer(v, EmitReply(r)) && (AllRead(v, EmitReply(r)) <==> DecodableReply(r))
  {
    hide Received, Answer, DecodablePart, Permitted;
    var ps := EmitReply(r);
    forall p ensures p in ps <==> p.kind in ReplyFlags(r) && p == Answer(r, p.kind) {
      ReplyContents(r, 0, p);
      assert Order()[0..] == Order();
    }
    forall k | k in ReplyFlags(r)
      ensures Answer(r, k) in ps && Answer(r, k).request != v.initiator
      ensures Received(v, Answer(r, k)).Some? <==> DecodablePart(r, k)
    {
      assert EncodableAnswer(r, k);
      AnswerIsRead(v, r, k);
    }
  }

  /** The last word on a kind is what remains of it; an emitted reply says each only once. */
  lemma {:induction false} PutOne(v: View, parts: map<Kind, Body>, ps: seq<Pdu>, k: Kind, b: Body)
    requires AllRead(v, ps)
    requires forall p :: p in ps && p.kind == k ==> Received(v, p) == Some(b)
    requires (k in parts && parts[k] == b) || exists p :: p in ps && p.kind == k
    ensures k in Put(v, parts, ps) && Put(v, parts, ps)[k] == b
    decreases |ps|
  {
    if ps != [] {
      assert ps[0] in ps && forall p :: p in ps <==> p == ps[0] || p in ps[1..];
      PutOne(v, parts[ps[0].kind := Received(v, ps[0]).value], ps[1..], k, b);
    }
  }

  lemma {:induction false} AnswersArrive(v: View, r: Reply)
    requires v.initiator && (forall k :: k in ReplyFlags(r) ==> Permitted(v, k)) && Grouped(r.flags)
    requires WellTypedReply(r) && EncodableReply(r) && DecodableReply(r)
    ensures var parts := Put(v, map[], EmitReply(r));
            parts.Keys == ReplyFlags(r) && forall k :: k in parts ==> Received(v, Answer(r, k)) == Some(parts[k])
  {
    hide Received, Answer, DecodablePart, Permitted;
    var ps := EmitReply(r);
    ReplyAllRead(v, r);
    PutKeys(v, map[], ps);
    forall k ensures k in Kinds(ps) <==> k in ReplyFlags(r) {
      EmitReplyKinds(r, 0);
      EmittedHolds(ReplyFlags(r), 0, k);
      assert Order()[0..] == Order();
    }
    forall k | k in ReplyFlags(r)
      ensures k in Put(v, map[], ps) && Received(v, Answer(r, k)) == Some(Put(v, map[], ps)[k])
    {
      OneAnswer(v, r, k);
    }
  }

  lemma OneAnswer(v: View, r: Reply, k: Kind)
    requires v.initiator && WellTypedReply(r) && EncodableReply(r) && k in ReplyFlags(r) && Grouped(r.flags)
    requires AllRead(v, EmitReply(r)) && DecodablePart(r, k)
    ensures k in Put(v, map[], EmitReply(r)) && Received(v, Answer(r, k)) == Some(Put(v, map[], EmitReply(r))[k])
  {
    hide Received, Answer, DecodablePart;
    var ps := EmitReply(r);
    assert EncodableAnswer(r, k);
    AnswerIsRead(v, r, k);
    assert Order()[0..] == Order();
    ReplyContents(r, 0, Answer(r, k));
    var b := Received(v, Answer(r, k)).value;
    forall p | p in ps && p.kind == k ensures Received(v, p) == Some(b) {
      ReplyContents(r, 0, p);
    }
    PutOne(v, map[], ps, k, b);
  }

  /** Where the initiator goes on a reply to its group; None is a protocol error. */
  function Confirmed(v: View, t: GroupType, group: set<Kind>, r: Reply): Option<State> {
    match ScanPdus(v, START, EmitReply(r))
    case None => None
    case Some(s) => Concluded(v, Asked(t), group, s, |EmitReply(r)|)
  }

  lemma CompleteKeys(t: GroupType, group: set<Kind>, f: set<Kind>)
    requires RightFlags(t, group) && f <= group && Complete(t, group, f)
    ensures t == ForBulkEnd <==> Close in f
    ensures t != ForBulkEnd <==> Select in f || Create in f
    ensures (Select in f <==> ShapeOf(group).head == Select) && (Create in f <==> ShapeOf(group).head == Create)
  {
    assert forall k :: k in f ==> k in group;
  }

  lemma ConfirmedState(v: View, t: GroupType, group: set<Kind>, r: Reply, s: Scan, count: nat)
    requires v.initiator && RightClass(v, t) && RightFlags(t, group) && r.flags <= group
    requires s.next == {} && s.parts.Keys == ReplyFlags(r) && Complete(t, group, ReplyFlags(r))
    requires forall k :: k in s.parts && k in TELLING ==> s.parts[k].Answered? && s.parts[k].ok == AnswerOk(r, k)
    ensures Concluded(v, Asked(t), group, s, count).Some?
    ensures Concluded(v, Asked(t), group, s, count) == Some(AfterReply(t, r)) <==> Consistent(t, r)
  {
    assert ReplyFlags(r) <= r.flags <= group;
    CompleteKeys(t, group, ReplyFlags(r));
  }

  lemma {:induction false} ReplyScanned(v: View, r: Reply)
    requires v.initiator && Grouped(r.flags) && forall k :: k in ReplyFlags(r) ==> Permitted(v, k)
    requires WellTypedReply(r) && EncodableReply(r)
    ensures var w, s := Walk(false, false, {Begin}, EmittedFrom(ReplyFlags(r), 0)), ScanPdus(v, START, EmitReply(r));
            (s.Some? <==> w.Some? && DecodableReply(r)) &&
            (s.Some? ==> s.value.next == w.value && s.value.parts == Put(v, map[], EmitReply(r)))
  {
    ReplyAllRead(v, r);
    EmitReplyKinds(r, 0);
    ScanIsWalk(v, START, EmitReply(r));
  }

  /**
   The initiator can read a reply to its group exactly when it answers the whole
   group, or its select or create alone, and all the attributes in it can be decoded.
   */
  lemma {:induction false} ReplyTaken(v: View, t: GroupType, group: set<Kind>, r: Reply)
    requires v.initiator && Grouped(group) && RightFlags(t, group) && r.flags <= group
    requires WellTypedReply(r) && EncodableReply(r) && forall k :: k in group ==> Permitted(v, k)
    ensures ScanPdus(v, START, EmitReply(r)).Some? && ScanPdus(v, START, EmitReply(r)).value.next == {} <==>
              Complete(t, group, ReplyFlags(r)) && DecodableReply(r)
  {
    hide Walk, ScanPdus, Complete, DecodableReply, EncodableReply;
    var f := ReplyFlags(r);
    assert f <= r.flags <= group;
    assert forall k :: k in f ==> k in group;
    assert forall k :: k in r.flags ==> k in group;
    ReplyScanned(v, r);
    FlagsTaken(t, group, f);
  }

  /**
   A reply the responder accepted and encoded is read by the initiator exactly when it
   is complete and can be decoded, and the two sides then end in the same state
   exactly when it is consistent: a bulk-begin reply that leaves the open out although
   the select succeeded, with the open's state a failure, puts the initiator into the
   data regime and the responder out of it.
   */
  lemma {:induction false} RepliesAgreeExactly(v: View, t: GroupType, group: set<Kind>, r: Reply)
    requires v.initiator && RightClass(v, t) && Grouped(group) && RightFlags(t, group)
    requires forall k :: k in group ==> Permitted(v, k)
    requires WellTypedReply(r) && ReplyAcceptable(Peer(v), Asked(t), group, t, r) && EncodableReply(r)
    ensures Confirmed(v, t, group, r).Some? <==> Complete(t, group, ReplyFlags(r)) && DecodableReply(r)
    ensures Confirmed(v, t, group, r) == Some(AfterReply(t, r)) <==>
            Complete(t, group, ReplyFlags(r)) && DecodableReply(r) && Consistent(t, r)
  {
    hide Walk, ScanPdus, Complete, DecodablePart, EncodableReply, Permitted, Consistent;
    var f, ps := ReplyFlags(r), EmitReply(r);
    assert f <= r.flags <= group;
    assert forall k :: k in f ==> k in group;
    assert forall k :: k in r.flags ==> k in group;
    ReplyTaken(v, t, group, r);
    ReplyScanned(v, r);
    if Complete(t, group, f) && DecodableReply(r) {
      AnswersArrive(v, r);
      var s := ScanPdus(v, START, ps).value;
      AnswersTell(v, r, s.parts);
      ConfirmedState(v, t, group, r, s, |ps|);
    }
  }

  lemma AnswersTell(v: View, r: Reply, parts: map<Kind, Body>)
    requires v.initiator && WellTypedReply(r) && EncodableReply(r) && DecodableReply(r)
    requires parts.Keys == ReplyFlags(r) && forall k :: k in parts ==> Received(v, Answer(r, k)) == Some(parts[k])
    ensures forall k :: k in parts && k in TELLING ==> parts[k].Answered? && parts[k].ok == AnswerOk(r, k)
  {
    hide Received, Answer, DecodablePart;
    forall k | k in parts && k in TELLING ensures parts[k].Answered? && parts[k].ok == AnswerOk(r, k) {
      assert k in ReplyFlags(r) && EncodableAnswer(r, k);
      AnswerIsRead(v, r, k);
    }
  }
}
