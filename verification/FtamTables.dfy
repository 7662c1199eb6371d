/**
 The rules of the FTAM service as tables: which parameters a group or a reply may
 have, which functional unit each PDU needs, and what a class of service demands,
 unit by unit and attribute by attribute.
 */
module FtamTables {
  import opened Wrappers
  import opened FtamTypes
  import opened FtamGroups
  import opened FtamGroupTheorems
  import opened FtamReading
  import opened FtamReplies
  import Codec = FtamAttributes

  // ----- Groups -----

  /** Where a type of group may start, and in which classes. */
  predicate Timely(v: View, st: State, t: GroupType) {
    match t
    case ForManagement => st == Initialized && v.service in {Manage, TransferManage, Access}
    case ForBulkBegin => st == Initialized && v.service in {Transfer, TransferManage, Access}
    case ForBulkEnd => st == DataIdle && v.service in {Transfer, TransferManage, Access}
  }

  lemma TimelyIs(v: View, st: State, t: GroupType)
    ensures RightState(v, st, t) && RightClass(v, t) <==> v.initiator && Timely(v, st, t)
  {
  }

  /** The functional units the PDUs belong to. */
  lemma UnitsOfPdus(v: View, k: Kind)
    ensures Permitted(v, k) <==>
              && (k == Begin || k == End ==> UnitGrouping in v.units)
              && (k == Create || k == Rdattr || k == Delete ==> UnitLimited in v.units)
              && (k == Chattr ==> UnitEnhanced in v.units)
  {
  }

  /** The attribute groups the attributes belong to. */
  lemma GroupsOfAttributes(v: View, a: Attr)
    ensures !Forbidden(v, a) <==>
              match a
              case Filename | Actions | Contents | PrivateUse => true
              case Control | LegalQuals => Security in v.attrs
              case _ => Storage in v.attrs
  {
  }

  /** A shared lock only on what is asked for. */
  predicate LocksWithin(access: set<Perm>, l: Locks) {
    && (l.read == Shared ==> ToRead in access) && (l.insert == Shared ==> ToInsert in access)
    && (l.replace == Shared ==> ToReplace in access) && (l.extend == Shared ==> ToExtend in access)
    && (l.erase == Shared ==> ToErase in access) && (l.readAttr == Shared ==> ToReadAttr in access)
    && (l.changeAttr == Shared ==> ToChangeAttr in access) && (l.delete == Shared ==> ToDelete in access)
  }

  lemma LocksWithinIs(access: set<Perm>, l: Locks)
    ensures LocksWithin(access, l) <==> forall p: Perm :: p !in access ==> l.Of(p) != Shared
  {
    if LocksWithin(access, l) {
      forall p: Perm | p !in access ensures l.Of(p) != Shared {
        match p
        case ToRead =>
        case ToInsert =>
        case ToReplace =>
        case ToExtend =>
        case ToErase =>
        case ToReadAttr =>
        case ToChangeAttr =>
        case ToDelete =>
      }
    } else {
      NotWithin(access, l);
    }
  }

  lemma NotWithin(access: set<Perm>, l: Locks)
    requires !LocksWithin(access, l)
    ensures exists p: Perm :: p !in access && l.Of(p) == Shared
  {
    if l.read == Shared && ToRead !in access { assert l.Of(ToRead) == Shared; }
    if l.insert == Shared && ToInsert !in access { assert l.Of(ToInsert) == Shared; }
    if l.replace == Shared && ToReplace !in access { assert l.Of(ToReplace) == Shared; }
    if l.extend == Shared && ToExtend !in access { assert l.Of(ToExtend) == Shared; }
    if l.erase == Shared && ToErase !in access { assert l.Of(ToErase) == Shared; }
    if l.readAttr == Shared && ToReadAttr !in access { assert l.Of(ToReadAttr) == Shared; }
    if l.changeAttr == Shared && ToChangeAttr !in access { assert l.Of(ToChangeAttr) == Shared; }
    if l.delete == Shared && ToDelete !in access { assert l.Of(ToDelete) == Shared; }
  }

  /** Passwords and locks of a select or create. */
  predicate FaultlessFile(v: View, b: Body)
    requires b.File?
  {
    && (b.passwords != map[] ==> Security in v.attrs)
    && (Storage in v.attrs ==> LocksWithin(b.access, b.locks))
  }

  /** None of these attributes belongs to a group that was not negotiated. */
  predicate Negotiated(v: View, attrs: set<Attr>) {
    && (Storage in v.attrs || attrs !! {Account, DateCreate, DateModify, DateRead, DateAttr, IdCreate, IdModify, IdRead,
                                        IdAttr, Availability, FileSize, FutureSize})
    && (Security in v.attrs || attrs !! {Control, LegalQuals})
  }

  lemma NegotiatedIs(v: View, attrs: set<Attr>)
    ensures Negotiated(v, attrs) <==> NoneForbidden(v, attrs)
  {
    if NoneForbidden(v, attrs) {
      forall a | a in attrs ensures !Forbidden(v, a) {
      }
    } else {
      var a :| a in attrs && Forbidden(v, a);
      assert a in STORAGE || a in SECURITY;
    }
  }

  /** A new file has a name, permitted actions and a contents type, and no dates, identities or size. */
  predicate ForNewFile(v: View, attrs: set<Attr>) {
    && Filename in attrs && Actions in attrs && Contents in attrs && Negotiated(v, attrs)
    && attrs !! {DateCreate, DateModify, DateRead, DateAttr, IdCreate, IdModify, IdRead, IdAttr, FileSize}
  }

  lemma ForNewFileIs(v: View, attrs: set<Attr>)
    ensures ForNewFile(v, attrs) <==> RightCreation(v, attrs)
  {
    NegotiatedIs(v, attrs);
    if attrs !! {DateCreate, DateModify, DateRead, DateAttr, IdCreate, IdModify, IdRead, IdAttr, FileSize} {
      forall a | a in attrs ensures a in CREATION {
        AllAttrs({a});
        assert a in ALLATTRS;
      }
    }
  }

  /** What may go with each flag. */
  predicate Faultless(v: View, k: Kind, b: Body)
    requires Fits(k, b)
  {
    match k
    case Select => b.attrs.present == {Filename} && FaultlessFile(v, b)
    case Create => b.override in {0, 1, 2, 3} && ForNewFile(v, b.attrs.present) && FaultlessFile(v, b)
    case Close => b.action in {0, 1, 2}
    case Rdattr => Negotiated(v, b.names)
    case Chattr =>
      Control !in b.attrs.present && Negotiated(v, b.attrs.present) && b.attrs.present !! b.attrs.novalue
    case Open =>
      && b.mode !! {ToReadAttr, ToChangeAttr, ToDelete}
      && (Storage in v.attrs ==>
            LocksWithin(b.mode, b.openLocks) && b.openLocks.readAttr == NotRequired
            && b.openLocks.changeAttr == NotRequired && b.openLocks.delete == NotRequired)
    case _ => true
  }

  lemma EightPerms(p: Perm)
    ensures p in MODES || p in {ToReadAttr, ToChangeAttr, ToDelete}
  {
    match p
    case ToRead =>
    case ToInsert =>
    case ToReplace =>
    case ToExtend =>
    case ToErase =>
    case ToReadAttr =>
    case ToChangeAttr =>
    case ToDelete =>
  }

  lemma ModesAre(mode: set<Perm>)
    ensures mode !! {ToReadAttr, ToChangeAttr, ToDelete} <==> mode <= MODES
  {
    if mode !! {ToReadAttr, ToChangeAttr, ToDelete} {
      forall p | p in mode ensures p in MODES {
        assert p !in {ToReadAttr, ToChangeAttr, ToDelete};
        EightPerms(p);
      }
    }
  }

  lemma OpenLocksAre(mode: set<Perm>, l: Locks)
    requires mode <= MODES && l.readAttr == NotRequired && l.changeAttr == NotRequired && l.delete == NotRequired
    ensures LocksWithin(mode, l) <==> forall p :: p in MODES && p !in mode ==> l.Of(p) != Shared
  {
    LocksWithinIs(mode, l);
    forall p | p !in MODES ensures l.Of(p) != Shared {
    }
  }

  lemma NoneInBoth(s: set<Attr>, t: set<Attr>)
    ensures s !! t <==> s * t == {}
  {
    if s !! t {
      forall a ensures a !in s * t {
      }
    } else {
      var a :| a in s && a in t;
      assert a in s * t;
    }
  }

  lemma FaultlessIs(v: View, k: Kind, b: Body)
    requires Fits(k, b)
    ensures Faultless(v, k, b) <==> RightParams(v, k, b)
  {
    match k
    case Select => LocksWithinIs(b.access, b.locks);
    case Create =>
      LocksWithinIs(b.access, b.locks);
      ForNewFileIs(v, b.attrs.present);
    case Rdattr => NegotiatedIs(v, b.names);
    case Chattr =>
      NegotiatedIs(v, b.attrs.present);
      NoneInBoth(b.attrs.present, b.attrs.novalue);
    case Open =>
      ModesAre(b.mode);
      if b.openLocks.readAttr == NotRequired && b.openLocks.changeAttr == NotRequired && b.openLocks.delete == NotRequired {
        if b.mode <= MODES {
          OpenLocksAre(b.mode, b.openLocks);
        }
      }
    case _ =>
  }

  /**
   A group is accepted exactly when it comes at its time, is spelled as a group of its
   type with the number of its PDUs less two, needs no unit that was not negotiated,
   and has no fault in any of its parameters.
   */
  lemma {:induction false} AcceptedExactly(v: View, st: State, t: GroupType, g: Group)
    requires WellTyped(g)
    ensures Acceptable(v, st, t, g) <==>
              && v.initiator && Timely(v, st, t)
              && (exists s: Shape :: Legal(t, s) && Kinds(Emit(g)) == Spell(s)) && g.threshold == |Emit(g)| - 2
              && UnitGrouping in v.units
              && (Create in g.parts || Rdattr in g.parts || Delete in g.parts ==> UnitLimited in v.units)
              && (Chattr in g.parts ==> UnitEnhanced in v.units)
              && forall k :: k in g.parts ==> Faultless(v, k, g.parts[k])
  {
    hide Acceptable, RightState, RightClass, Timely, Legal, Spell, Emit, Kinds, Faultless, RightParams, Permitted, Fits;
    TimelyIs(v, st, t);
    AcceptedGroupsAreTheLegalOnes(v, st, t, g);
    if s: Shape :| Legal(t, s) && Kinds(Emit(g)) == Spell(s) {
      GroupsBegin(t, g, s);
      PartsAre(v, g);
    }
  }

  lemma GroupsBegin(t: GroupType, g: Group, s: Shape)
    requires WellTyped(g) && Legal(t, s) && Kinds(Emit(g)) == Spell(s)
    ensures Begin in g.parts
  {
    RightFlagsAreSpelled(t, g);
  }

  lemma PartsAre(v: View, g: Group)
    requires WellTyped(g) && Begin in g.parts
    ensures PartsInOrder(v, g) <==>
              && UnitGrouping in v.units
              && (Create in g.parts || Rdattr in g.parts || Delete in g.parts ==> UnitLimited in v.units)
              && (Chattr in g.parts ==> UnitEnhanced in v.units)
              && forall k :: k in g.parts ==> Faultless(v, k, g.parts[k])
  {
    hide Faultless, RightParams, Fits, Permitted;
    forall k ensures Permitted(v, k) <==>
                       && (k == Begin || k == End ==> UnitGrouping in v.units)
                       && (k == Create || k == Rdattr || k == Delete ==> UnitLimited in v.units)
                       && (k == Chattr ==> UnitEnhanced in v.units)
    {
      UnitsOfPdus(v, k);
    }
    forall k | k in g.parts ensures Faultless(v, k, g.parts[k]) <==> RightParams(v, k, g.parts[k]) {
      FaultlessIs(v, k, g.parts[k]);
    }
  }

  // ----- Replies -----

  /** What may be said in answer to each flag. */
  predicate FaultlessAnswer(v: View, r: Reply, k: Kind) {
    match k
    case Select => r.selectAttrs.present == {Filename}
    case Create => ForNewFile(v, r.createAttrs.present)
    case Rdattr => Negotiated(v, r.readAttrs.present)
    case Chattr => Control !in r.changeAttrs.present && Negotiated(v, r.changeAttrs.present)
    case Open =>
      && r.contents.Some?
      && (Storage in v.attrs ==> r.openLocks.readAttr == NotRequired && r.openLocks.changeAttr == NotRequired
                                 && r.openLocks.delete == NotRequired)
    case _ => true
  }

  /** The type of group a responder in some state has been asked for. */
  predicate Pending(st: State, t: GroupType) {
    match st
    case Management => t == ForManagement
    case BulkBegin => t == ForBulkBegin
    case BulkEnd => t == ForBulkEnd
    case _ => false
  }

  /** A reply is accepted exactly when it is due, answers nothing that was not asked, and no answer has a fault. */
  lemma RepliesAcceptedExactly(v: View, st: State, group: set<Kind>, t: GroupType, r: Reply)
    ensures ReplyAcceptable(v, st, group, t, r) <==>
              !v.initiator && Pending(st, t) && r.flags <= group && forall k :: k in r.flags ==> FaultlessAnswer(v, r, k)
  {
    ForNewFileIs(v, r.createAttrs.present);
    NegotiatedIs(v, r.readAttrs.present);
    NegotiatedIs(v, r.changeAttrs.present);
    forall k: Kind
      ensures FaultlessAnswer(v, r, k) <==>
                (k in ATTRIBUTED ==> RightAnswer(v, k, AttrsOf(r, k).present)) && (k == Open ==> RightOpened(v, r))
    {
    }
  }

  /** The select, or the create of a reply without one, did not succeed. */
  predicate HeadFailed(r: Reply) {
    if Select in r.flags then !r.selectOk else Create in r.flags && !r.createOk
  }

  lemma ReplyFlagsAre(r: Reply, k: Kind)
    ensures k in ReplyFlags(r) <==>
              k in r.flags && (HeadFailed(r) ==> k == Begin || k == End || k == if Select in r.flags then Select else Create)
  {
  }

  /** What is sent of a reply: all of it, or the failed select or create between begin and end. */
  lemma RepliesAreCut(r: Reply, k: Kind)
    requires Grouped(r.flags)
    ensures k in Kinds(EmitReply(r)) <==>
              k in r.flags && (HeadFailed(r) ==> k == Begin || k == End || k == if Select in r.flags then Select else Create)
  {
    hide ReplyFlags, EmittedFrom, EmitReplyFrom, HeadFailed;
    ReplyFlagsAre(r, k);
    EmitReplyKinds(r, 0);
    EmittedHolds(ReplyFlags(r), 0, k);
    assert Order()[0..] == Order();
  }

  /**
   A transfer is open for the responder exactly when the select or create and the open
   succeeded, and for the initiator exactly when neither was reported as a failure;
   any other reply that can be read ends the group for both.
   */
  lemma OpenedExactly(v: View, t: GroupType, group: set<Kind>, r: Reply)
    requires v.initiator && RightClass(v, t) && Grouped(group) && RightFlags(t, group)
    requires forall k :: k in group ==> Permitted(v, k)
    requires WellTypedReply(r) && ReplyAcceptable(Peer(v), Asked(t), group, t, r) && EncodableReply(r)
    requires Complete(t, group, ReplyFlags(r)) && DecodableReply(r)
    ensures AfterReply(t, r) == DataIdle <==> t == ForBulkBegin && !HeadFailed(r) && r.openOk
    ensures Confirmed(v, t, group, r) == Some(DataIdle) <==> t == ForBulkBegin && !HeadFailed(r) && (Open in r.flags ==> r.openOk)
    ensures AfterReply(t, r) != DataIdle ==> AfterReply(t, r) == Initialized
    ensures Confirmed(v, t, group, r) != Some(DataIdle) ==> Confirmed(v, t, group, r) == Some(Initialized)
  {
    hide Walk, ScanPdus, DecodablePart, EncodableReply, Permitted, EmitReply, ReplyFlags, Complete;
    forall k ensures k in ReplyFlags(r) ==> k in r.flags {
      ReplyFlagsAre(r, k);
    }
    assert forall k :: k in r.flags ==> k in group;
    ReplyTaken(v, t, group, r);
    ReplyScanned(v, r);
    AnswersArrive(v, r);
    var s := ScanPdus(v, START, EmitReply(r)).value;
    AnswersTell(v, r, s.parts);
    OpensExactly(v, t, group, r, s, |EmitReply(r)|);
  }

  lemma OpensExactly(v: View, t: GroupType, group: set<Kind>, r: Reply, s: Scan, count: nat)
    requires v.initiator && RightClass(v, t) && RightFlags(t, group) && r.flags <= group
    requires s.next == {} && s.parts.Keys == ReplyFlags(r) && Complete(t, group, ReplyFlags(r))
    requires forall k :: k in s.parts && k in TELLING ==> s.parts[k].Answered? && s.parts[k].ok == AnswerOk(r, k)
    ensures var open := t == ForBulkBegin && !HeadFailed(r);
            && AfterReply(t, r) == (if open && r.openOk then DataIdle else Initialized)
            && Concluded(v, Asked(t), group, s, count) ==
               Some(if open && (Open in r.flags ==> r.openOk) then DataIdle else Initialized)
  {
    forall k ensures k in ReplyFlags(r) ==> k in r.flags {
      ReplyFlagsAre(r, k);
    }
    CompleteKeys(t, group, ReplyFlags(r));
    if t != ForBulkEnd {
      HeadsAre(t, group, r);
    }
  }

  lemma HeadsAre(t: GroupType, group: set<Kind>, r: Reply)
    requires RightFlags(t, group) && r.flags <= group && Complete(t, group, ReplyFlags(r)) && t != ForBulkEnd
    ensures (Select in ReplyFlags(r) <==> Select in r.flags) && (Create in ReplyFlags(r) <==> Create in r.flags)
    ensures (Select in r.flags) != (Create in r.flags) && (HeadFailed(r) <==> !HeadOk(r))
    ensures !HeadFailed(r) ==> (Open in ReplyFlags(r) <==> Open in r.flags)
    ensures HeadFailed(r) ==> Open !in ReplyFlags(r)
  {
    ReplyFlagsAre(r, Select);
    ReplyFlagsAre(r, Create);
    ReplyFlagsAre(r, Open);
    CompleteKeys(t, group, ReplyFlags(r));
    assert Select in r.flags ==> Select in group;
    assert Create in r.flags ==> Create in group;
  }

  // ----- What is said -----

  /** Each PDU of a request says what was given with its flag, attributes in their coding, the first the threshold. */
  lemma RequestsSay(g: Group, k: Kind)
    requires WellTyped(g) && k in g.parts
    ensures var p, b := Sent(g, k), g.parts[k];
            && p.request && p.kind == k
            && match k
               case Begin => p.body == Threshold(g.threshold)
               case Chattr => p.body.ChangesSent? && p.body.coding == Codec.Encode(b.attrs)
               case Select =>
                 && p.body.FileSent? && p.body.coding == Codec.Encode(b.attrs) && p.body.access == b.access
                 && p.body.passwords == b.passwords && p.body.locks == b.locks && p.body.override == b.override
               case Create =>
                 && p.body.FileSent? && p.body.coding == Codec.Encode(b.attrs) && p.body.access == b.access
                 && p.body.passwords == b.passwords && p.body.locks == b.locks && p.body.override == b.override
               case _ => p.body == b
  {
    hide Codec.Encode, Codec.Whole;
    assert Fits(k, g.parts[k]);
  }

  /** Each answer says whether it succeeded, with its attributes; those read or changed are left out when there are none. */
  lemma AnswersSay(r: Reply, k: Kind)
    requires WellTypedReply(r) && k in Order()
    ensures var p := Answer(r, k);
            && !p.request && p.kind == k
            && match k
               case Select => p.body == Result(r.selectOk, Codec.Encode(r.selectAttrs))
               case Create => p.body == Result(r.createOk, Codec.Encode(r.createAttrs))
               case Rdattr => p.body == Result(true, if r.readAttrs.present == {} then None else Codec.Encode(r.readAttrs))
               case Chattr => p.body == Result(true, if r.changeAttrs.present == {} then None else Codec.Encode(r.changeAttrs))
               case Open => p.body == Result(r.openOk, None)
               case _ => p.body == Plain
  {
    hide Codec.Encode, Codec.Whole;
  }
}
