/**
 Calls that are accepted and do not have the effect a caller may expect, one for
 each condition in `ResponderReadsTheGroup` and `RepliesAgreeExactly`.
 */
module FtamLosses {
  import opened Wrappers
  import opened FtamTypes
  import opened Codec = FtamAttributes
  import opened FtamGroups
  import opened FtamGroupTheorems
  import opened FtamReading
  import opened FtamReplies
  import opened FtamRegime

  // ----- Attributes -----

  /** Attributes with ordinary values, the one of `k` aside. */
  function Given(present: set<Attr>, novalue: set<Attr>, k: Attr, v: Value): (a: Attributes)
    requires FitsAttr(k, v)
    ensures Whole(a) && a.value[k] == v
  {
    Attributes(present, novalue, map x: Attr | true :: if x == k then v else Sample(x, []))
  }

  lemma SampleIsEncoded(x: Attr)
    requires x !in {Control, PrivateUse}
    ensures EncodeOne(x, Sample(x, []), false).Coded? && ValueKept(x, Sample(x, [])) && ValueReadable(Sample(x, []))
  {
  }

  lemma {:induction false} GivenIsEncoded(present: set<Attr>, novalue: set<Attr>, k: Attr, v: Value)
    requires present !! {Control, PrivateUse} && present !! novalue && FitsAttr(k, v) && !EncodeOne(k, v, false).Refused?
    ensures Encode(Given(present, novalue, k, v)).Some?
  {
    hide EncodeOne, Sample;
    var a := Given(present, novalue, k, v);
    forall x | x in a.present ensures !Codec.One(a, x).Refused? {
      SampleIsEncoded(x);
    }
  }

  // ----- Groups -----

  predicate MayManage(v: View) {
    v.initiator && v.service in {Manage, TransferManage, Access} && {UnitGrouping, UnitLimited, UnitEnhanced} <= v.units
  }

  /** A file is selected or created, and let go. */
  function Alone(head: Kind, file: Body): Group {
    Group(2, map[Begin := Plain, head := file, Deselect := Plain, End := Plain])
  }

  lemma AloneParts(head: Kind, file: Body, k: Kind)
    requires head in {Select, Create}
    ensures k in Alone(head, file).parts <==> k in {Begin, head, Deselect, End}
    ensures k in Alone(head, file).parts ==> Alone(head, file).parts[k] == if k == head then file else Plain
  {
  }

  lemma {:induction false} AloneIsInOrder(v: View, head: Kind, file: Body)
    requires MayManage(v) && head in {Select, Create} && Fits(head, file) && RightParams(v, head, file)
    ensures WellTyped(Alone(head, file)) && PartsInOrder(v, Alone(head, file))
    ensures EncodablePart(file) ==> Encodable(Alone(head, file))
  {
    hide RightParams, Fits, EncodablePart, Permitted, Alone, Order;
    forall k | k in Alone(head, file).parts
      ensures k in Order() && Fits(k, Alone(head, file).parts[k]) && Permitted(v, k)
      ensures RightParams(v, k, Alone(head, file).parts[k])
      ensures EncodablePart(file) ==> EncodablePart(Alone(head, file).parts[k])
    {
      AloneParts(head, file, k);
      PartInOrder(v, k);
    }
  }

  lemma PartInOrder(v: View, k: Kind)
    requires MayManage(v) && k in {Begin, Select, Create, Chattr, Deselect, End}
    ensures k in Order() && Permitted(v, k)
    ensures k in {Begin, Deselect, End} ==> Fits(k, Plain) && RightParams(v, k, Plain) && EncodablePart(Plain)
  {
    assert Order()[0] == Begin && Order()[1] == Select && Order()[2] == Create && Order()[5] == Chattr;
    assert Order()[6] == Deselect && Order()[9] == End;
  }

  lemma {:induction false} AloneIsAccepted(v: View, head: Kind, file: Body)
    requires MayManage(v) && head in {Select, Create} && Fits(head, file) && RightParams(v, head, file)
    ensures WellTyped(Alone(head, file)) && Acceptable(v, Initialized, ForManagement, Alone(head, file))
  {
    hide RightParams, Fits, PartsInOrder, WellTyped;
    AloneIsInOrder(v, head, file);
    assert Alone(head, file).parts.Keys == {Begin, head, Deselect, End};
  }

  /** Such a group stands or falls with its file. */
  lemma {:induction false} AloneIsRead(v: View, head: Kind, file: Body)
    requires MayManage(v) && head in {Select, Create} && Fits(head, file) && RightParams(v, head, file) && EncodablePart(file)
    ensures WellTyped(Alone(head, file)) && Acceptable(v, Initialized, ForManagement, Alone(head, file))
    ensures Encodable(Alone(head, file))
    ensures var r := ScanPdus(Peer(v), START, Emit(Alone(head, file)));
            (r.Some? <==> ReadablePart(head, file)) &&
            (r.Some? ==> (SameParts(Alone(head, file), r.value.parts) <==> LosslessPart(v, head, file)))
  {
    hide RightParams, Fits, Acceptable, Alone, EncodablePart, Emit, ScanPdus, ReadablePart, LosslessPart;
    hide SameParts, Concluded;
    AloneIsInOrder(v, head, file);
    AloneIsAccepted(v, head, file);
    var g := Alone(head, file);
    forall k | k in g.parts && k != head ensures ReadablePart(k, g.parts[k]) && LosslessPart(v, k, g.parts[k]) {
      AloneParts(head, file, k);
      PlainIsRead(v, k);
    }
    AloneParts(head, file, head);
    ResponderReadsTheGroup(v, Initialized, ForManagement, g, {});
  }

  lemma PlainIsRead(v: View, k: Kind)
    requires k in {Begin, Deselect, End}
    ensures Fits(k, Plain) && ReadablePart(k, Plain) && LosslessPart(v, k, Plain)
  {
  }

  function Filed(a: Attributes, access: set<Perm>): Body {
    File(a, access, map[], NOLOCKS, 0)
  }

  lemma FiledIsInOrder(v: View, a: Attributes, access: set<Perm>)
    requires Whole(a)
    ensures a.present == {Filename} ==> Fits(Select, Filed(a, access)) && RightParams(v, Select, Filed(a, access))
    ensures RightCreation(v, a.present) ==> Fits(Create, Filed(a, access)) && RightParams(v, Create, Filed(a, access))
  {
    hide RightCreation, Whole;
    assert forall p: Perm :: NOLOCKS.Of(p) == NotRequired;
  }

  /** No access is asked for: accepted and sent, but not read. */
  lemma {:induction false} EmptyAccessIsUnreadable(v: View)
    requires MayManage(v)
    ensures var g := Alone(Select, Filed(Given({Filename}, {}, Filename, Files([Some("f")])), {}));
            WellTyped(g) && Acceptable(v, Initialized, ForManagement, g) && Encodable(g) &&
            ScanPdus(Peer(v), START, Emit(g)) == None
  {
    hide Acceptable, Encodable, Alone, RightParams, ScanPdus, Emit, Given, Encode, WellTyped, LosslessPart, SameParts;
    var a := Given({Filename}, {}, Filename, Files([Some("f")]));
    GivenIsEncoded({Filename}, {}, Filename, Files([Some("f")]));
    GivenMasks({Filename}, {}, Filename, Files([Some("f")]));
    FiledIsInOrder(v, a, {});
    AloneIsRead(v, Select, Filed(a, {}));
  }

  lemma GivenMasks(present: set<Attr>, novalue: set<Attr>, k: Attr, v: Value)
    requires FitsAttr(k, v)
    ensures Given(present, novalue, k, v).present == present && Given(present, novalue, k, v).novalue == novalue
  {
  }

  lemma KernelIsRightCreation(v: View)
    ensures RightCreation(v, KERNEL)
  {
    assert forall a :: a in KERNEL ==> !Forbidden(v, a);
  }

  /** A file to be created without permitted actions or without a name, although both count as present: likewise. */
  lemma {:induction false} EmptyCreateIsUnreadable(v: View, k: Attr, value: Value)
    requires MayManage(v) && ((k == Actions && value == Acts({})) || (k == Filename && value == Files([])))
    ensures var g := Alone(Create, Filed(Given(KERNEL, {}, k, value), {ToRead}));
            WellTyped(g) && Acceptable(v, Initialized, ForManagement, g) && Encodable(g) &&
            ScanPdus(Peer(v), START, Emit(g)) == None
  {
    hide Acceptable, Encodable, Alone, RightParams, RightCreation, ScanPdus, Emit, Encode, WellTyped;
    hide LosslessPart, SameParts;
    var a := Given(KERNEL, {}, k, value);
    GivenIsEncoded(KERNEL, {}, k, value);
    KernelIsRightCreation(v);
    FiledIsInOrder(v, a, {ToRead});
    AloneIsRead(v, Create, Filed(a, {ToRead}));
    assert k in a.present && k !in a.novalue && a.value[k] == value;
    assert !ReadablePart(Create, Filed(a, {ToRead}));
  }

  /** Private use may be present in a create as far as the checks go, and then nothing is sent. */
  lemma {:induction false} PrivateUseIsRefused(s: Side)
    requires MayManage(s.view) && s.state == Initialized
    ensures var g := Alone(Create, Filed(Given(KERNEL + {PrivateUse}, {}, Actions, Acts({Does(ToRead)})), {ToRead}));
            WellTyped(g) && Acceptable(s.view, s.state, ForManagement, g) && Do(s, GroupRequest(ForManagement, g)) == None
  {
    hide Acceptable, RightParams, RightCreation, Emit, WellTyped;
    var a := Given(KERNEL + {PrivateUse}, {}, Actions, Acts({Does(ToRead)}));
    var file := Filed(a, {ToRead});
    PrivateIsRightCreation(s.view);
    FiledIsInOrder(s.view, a, {ToRead});
    AloneIsAccepted(s.view, Create, file);
    AloneParts(Create, file, Create);
    assert Codec.One(a, PrivateUse).Refused?;
    assert !EncodablePart(file);
  }

  lemma PrivateIsRightCreation(v: View)
    ensures RightCreation(v, KERNEL + {PrivateUse})
  {
    assert forall a :: a in KERNEL + {PrivateUse} ==> !Forbidden(v, a);
  }

  /** A select without any name: read, but not as it was meant. */
  lemma {:induction false} MissingNameIsLost(v: View)
    requires MayManage(v)
    ensures var g := Alone(Select, Filed(Given({Filename}, {}, Filename, Files([])), {ToRead}));
            && WellTyped(g) && Acceptable(v, Initialized, ForManagement, g) && Encodable(g)
            && var r := ScanPdus(Peer(v), START, Emit(g)); r.Some? && !SameParts(g, r.value.parts)
  {
    hide Acceptable, Encodable, Alone, RightParams, ScanPdus, Emit, Encode, WellTyped, SameParts;
    var a := Given({Filename}, {}, Filename, Files([]));
    GivenIsEncoded({Filename}, {}, Filename, Files([]));
    FiledIsInOrder(v, a, {ToRead});
    AloneIsRead(v, Select, Filed(a, {ToRead}));
    assert Filename in a.present && !ValueKept(Filename, a.value[Filename]);
  }

  // ----- Changes -----

  /** A file is selected, its attributes are changed, and it is let go. */
  function Altered(file: Body, change: Body): Group {
    Group(3, map[Begin := Plain, Select := file, Chattr := change, Deselect := Plain, End := Plain])
  }

  lemma AlteredParts(file: Body, change: Body, k: Kind)
    ensures k in Altered(file, change).parts <==> k in {Begin, Select, Chattr, Deselect, End}
    ensures k in {Begin, Deselect, End} ==> Altered(file, change).parts[k] == Plain
    ensures Altered(file, change).parts[Select] == file && Altered(file, change).parts[Chattr] == change
  {
  }

  lemma {:induction false} AlteredIsInOrder(v: View, file: Body, change: Body)
    requires MayManage(v) && Fits(Select, file) && RightParams(v, Select, file)
    requires Fits(Chattr, change) && RightParams(v, Chattr, change)
    ensures WellTyped(Altered(file, change)) && PartsInOrder(v, Altered(file, change))
    ensures EncodablePart(file) && EncodablePart(change) ==> Encodable(Altered(file, change))
  {
    hide RightParams, Fits, EncodablePart, Permitted, Altered, Order;
    forall k | k in Altered(file, change).parts
      ensures k in Order() && Fits(k, Altered(file, change).parts[k]) && Permitted(v, k)
      ensures RightParams(v, k, Altered(file, change).parts[k])
      ensures EncodablePart(file) && EncodablePart(change) ==> EncodablePart(Altered(file, change).parts[k])
    {
      AlteredParts(file, change, k);
      PartInOrder(v, k);
    }
  }

  lemma {:induction false} AlteredIsAccepted(v: View, file: Body, change: Body)
    requires MayManage(v) && Fits(Select, file) && RightParams(v, Select, file)
    requires Fits(Chattr, change) && RightParams(v, Chattr, change)
    ensures WellTyped(Altered(file, change)) && Acceptable(v, Initialized, ForManagement, Altered(file, change))
  {
    hide RightParams, Fits, PartsInOrder, WellTyped;
    AlteredIsInOrder(v, file, change);
    assert Altered(file, change).parts.Keys == {Begin, Select, Chattr, Deselect, End};
  }

  lemma {:induction false} AlteredIsRead(v: View, file: Body, change: Body)
    requires MayManage(v) && Fits(Select, file) && RightParams(v, Select, file) && EncodablePart(file)
    requires Fits(Chattr, change) && RightParams(v, Chattr, change) && EncodablePart(change)
    requires ReadablePart(Select, file) && ReadablePart(Chattr, change) && !LosslessPart(v, Chattr, change)
    ensures var g := Altered(file, change);
            && WellTyped(g) && Acceptable(v, Initialized, ForManagement, g) && Encodable(g)
            && var r := ScanPdus(Peer(v), START, Emit(g)); r.Some? && !SameParts(g, r.value.parts)
  {
    hide RightParams, Fits, Acceptable, Altered, EncodablePart, Emit, ScanPdus, ReadablePart, LosslessPart;
    hide SameParts, Concluded;
    AlteredIsInOrder(v, file, change);
    AlteredIsAccepted(v, file, change);
    var g := Altered(file, change);
    forall k | k in g.parts ensures ReadablePart(k, g.parts[k]) {
      AlteredParts(file, change, k);
      if k in {Begin, Deselect, End} {
        PlainIsRead(v, k);
      }
    }
    AlteredParts(file, change, Chattr);
    ResponderReadsTheGroup(v, Initialized, ForManagement, g, {});
  }

  /** The mark of an attribute that is not present does not arrive, although a change is checked for it. */
  lemma {:induction false} MarkIsLost(v: View)
    requires MayManage(v)
    ensures var name := Files([Some("f")]);
            var g := Altered(Filed(Given({Filename}, {}, Filename, name), {ToRead}),
                             Changes(Given({Filename}, {Account}, Filename, name)));
            && WellTyped(g) && Acceptable(v, Initialized, ForManagement, g) && Encodable(g)
            && var r := ScanPdus(Peer(v), START, Emit(g)); r.Some? && !SameParts(g, r.value.parts)
  {
    hide Acceptable, Encodable, Altered, ScanPdus, Emit, Encode, WellTyped, SameParts;
    var name := Files([Some("f")]);
    var a, b := Given({Filename}, {}, Filename, name), Given({Filename}, {Account}, Filename, name);
    GivenIsEncoded({Filename}, {}, Filename, name);
    GivenIsEncoded({Filename}, {Account}, Filename, name);
    FiledIsInOrder(v, a, {ToRead});
    assert !Forbidden(v, Filename);
    assert Account in b.novalue && Account !in b.present;
    AlteredIsRead(v, Filed(a, {ToRead}), Changes(b));
  }

  // ----- Replies -----

  /** Answers with ordinary attributes, those read aside. */
  function Replied(flags: set<Kind>, openOk: bool, read: Attributes): Reply {
    var name := Given({Filename}, {}, Filename, Files([Some("f")]));
    Reply(flags, true, true, openOk, Some(1), NOLOCKS, name, Given(KERNEL, {}, Filename, Files([Some("f")])), read, name)
  }

  lemma RepliedAttrs(flags: set<Kind>, openOk: bool, read: Attributes)
    requires Whole(read)
    ensures var r := Replied(flags, openOk, read);
            AttrsOf(r, Select) == Given({Filename}, {}, Filename, Files([Some("f")])) &&
            AttrsOf(r, Rdattr) == read && r.contents == Some(1) && r.openLocks == NOLOCKS &&
            r.flags == flags && r.selectOk && HeadOk(r) && r.openOk == openOk &&
            WellTypedReply(r) && (Create !in flags ==> ReplyFlags(r) == flags)
  {
    hide Given;
  }

  lemma KnownKinds(v: View, group: set<Kind>)
    requires UnitGrouping in v.units && group <= {Begin, Select, Rdattr, Deselect, Open, End}
    requires Rdattr in group ==> UnitLimited in v.units
    ensures Grouped(group) && forall k :: k in group ==> Permitted(v, k)
  {
    assert Order()[0] == Begin && Order()[1] == Select && Order()[4] == Rdattr && Order()[6] == Deselect;
    assert Order()[8] == Open && Order()[9] == End;
  }

  lemma RepliedIsAccepted(v: View, flags: set<Kind>, openOk: bool, read: Attributes)
    requires Create !in flags && Chattr !in flags && Whole(read) && NoneForbidden(v, read.present)
    ensures var r := Replied(flags, openOk, read);
            RightOpened(v, r) &&
            forall k :: k in ATTRIBUTED && k in r.flags ==> RightAnswer(v, k, AttrsOf(r, k).present)
  {
    hide Given, Replied;
    RepliedAttrs(flags, openOk, read);
    GivenMasks({Filename}, {}, Filename, Files([Some("f")]));
  }

  const READING := {Begin, Select, Rdattr, Deselect, End}

  /** What was read of a file has no permitted actions. */
  function EmptyAnswer(): Reply {
    Replied(READING, true, Given({Actions}, {}, Actions, Acts({})))
  }

  lemma {:induction false} EmptyAnswerIsAccepted(v: View)
    ensures var r := EmptyAnswer();
            WellTypedReply(r) && ReplyAcceptable(Peer(v.(initiator := true)), Management, READING, ForManagement, r)
    ensures ReplyFlags(EmptyAnswer()) == READING && RightFlags(ForManagement, READING)
  {
    hide Replied, Given, WellTypedReply;
    var w, read := Peer(v.(initiator := true)), Given({Actions}, {}, Actions, Acts({}));
    RepliedAttrs(READING, true, read);
    GivenMasks({Actions}, {}, Actions, Acts({}));
    assert !Forbidden(w, Actions);
    RepliedIsAccepted(w, READING, true, read);
  }

  lemma {:induction false} EmptyAnswerIsSent()
    ensures var r := EmptyAnswer(); WellTypedReply(r) && EncodableReply(r) && !DecodableReply(r)
  {
    hide Replied, Given, WellTypedReply, Encode, Decodable;
    var r, read := EmptyAnswer(), Given({Actions}, {}, Actions, Acts({}));
    RepliedAttrs(READING, true, read);
    GivenIsEncoded({Actions}, {}, Actions, Acts({}));
    GivenIsEncoded({Filename}, {}, Filename, Files([Some("f")]));
    EmptyIsUndecodable(read);
    assert Rdattr in ReplyFlags(r) && !DecodablePart(r, Rdattr);
  }

  lemma EmptyIsUndecodable(a: Attributes)
    requires a == Given({Actions}, {}, Actions, Acts({}))
    ensures !Decodable(a)
  {
    assert Actions in a.present && !ValueReadable(a.value[Actions]);
  }

  /** Complete, accepted and sent, and it ends the association. */
  lemma {:induction false} EmptyAnswerIsUnreadable(v: View)
    requires MayManage(v)
    ensures var r := EmptyAnswer();
            RightFlags(ForManagement, READING) && Complete(ForManagement, READING, ReplyFlags(r)) &&
            WellTypedReply(r) && ReplyAcceptable(Peer(v), Management, READING, ForManagement, r) && EncodableReply(r) &&
            Confirmed(v, ForManagement, READING, r) == None
  {
    hide EmptyAnswer, WellTypedReply, ReplyAcceptable, EncodableReply, DecodableReply, ReplyFlags, Confirmed;
    EmptyAnswerIsAccepted(v);
    assert v.(initiator := true) == v;
    EmptyAnswerIsSent();
    KnownKinds(v, READING);
    RepliesAgreeExactly(v, ForManagement, READING, EmptyAnswer());
  }

  const BULK := {Begin, Select, Open, End}

  /** The select succeeded, the open is left out and its state says that it failed. */
  function OpenLeftOut(): Reply {
    Replied({Begin, Select, End}, false, Given({}, {}, Actions, Acts({})))
  }

  lemma {:induction false} OpenLeftOutIsAccepted(v: View)
    ensures var r := OpenLeftOut();
            WellTypedReply(r) && ReplyAcceptable(Peer(v.(initiator := true)), BulkBegin, BULK, ForBulkBegin, r)
    ensures ReplyFlags(OpenLeftOut()) == {Begin, Select, End} && RightFlags(ForBulkBegin, BULK)
    ensures AfterReply(ForBulkBegin, OpenLeftOut()) == Initialized && !Consistent(ForBulkBegin, OpenLeftOut())
  {
    hide Replied, Given, WellTypedReply;
    var w, none := Peer(v.(initiator := true)), Given({}, {}, Actions, Acts({}));
    RepliedAttrs({Begin, Select, End}, false, none);
    GivenMasks({}, {}, Actions, Acts({}));
    RepliedIsAccepted(w, {Begin, Select, End}, false, none);
  }

  lemma {:induction false} OpenLeftOutIsSent()
    ensures var r := OpenLeftOut(); WellTypedReply(r) && EncodableReply(r) && DecodableReply(r)
  {
    hide Replied, Given, WellTypedReply, Encode, Decodable;
    RepliedAttrs({Begin, Select, End}, false, Given({}, {}, Actions, Acts({})));
    GivenIsEncoded({Filename}, {}, Filename, Files([Some("f")]));
    NameIsDecodable();
  }

  /** The initiator is then in the data regime and the responder is not. */
  lemma {:induction false} OpenLeftOutDisagrees(v: View)
    requires v.initiator && v.service in {Transfer, TransferManage, Access} && UnitGrouping in v.units
    ensures var r := OpenLeftOut();
            RightFlags(ForBulkBegin, BULK) && WellTypedReply(r) && EncodableReply(r) &&
            ReplyAcceptable(Peer(v), BulkBegin, BULK, ForBulkBegin, r) &&
            Confirmed(v, ForBulkBegin, BULK, r) == Some(DataIdle) && AfterReply(ForBulkBegin, r) == Initialized
  {
    hide OpenLeftOut, WellTypedReply, ReplyAcceptable, EncodableReply, DecodableReply, ReplyFlags, AfterReply, Consistent;
    hide ScanPdus, EmitReply, Concluded;
    OpenLeftOutIsAccepted(v);
    assert v.(initiator := true) == v;
    OpenLeftOutIsSent();
    KnownKinds(v, BULK);
    var r := OpenLeftOut();
    RepliesAgreeExactly(v, ForBulkBegin, BULK, r);
    BulkBeginEnds(v, BULK, ScanPdus(v, START, EmitReply(r)).value, |EmitReply(r)|);
  }

  lemma NameIsDecodable()
    ensures Decodable(Given({Filename}, {}, Filename, Files([Some("f")])))
  {
  }

  lemma BulkBeginEnds(v: View, group: set<Kind>, s: Scan, count: nat)
    requires v.initiator && Concluded(v, BulkBegin, group, s, count).Some?
    ensures Concluded(v, BulkBegin, group, s, count).value in {DataIdle, Initialized}
  {
  }
}
