/**
 The `ftamblk` of one side in its own form: a block whose state and flags the
 service calls and arrivals change in place.  Each method does to it what the
 functions of `FtamRegime` say; what a call sends is returned.
 */
module FtamBlock {
  import opened Wrappers
  import opened FtamTypes
  import opened FtamGroups
  import opened FtamGroupTheorems
  import opened FtamParts
  import opened FtamReading
  import opened FtamRegime
  import opened FtamReplies

  datatype Heard = Aborted | Waiting | Indicated

  /** A lock on something that is not asked for, and shared. */
  predicate Loose(access: set<Perm>, p: Perm, lock: Lock) {
    p !in access && lock == Shared
  }

  lemma EightLocks(access: set<Perm>, l: Locks)
    ensures (exists p: Perm :: Loose(access, p, l.Of(p))) <==>
              (|| Loose(access, ToRead, l.read) || Loose(access, ToInsert, l.insert) || Loose(access, ToReplace, l.replace)
               || Loose(access, ToErase, l.erase) || Loose(access, ToExtend, l.extend)
               || Loose(access, ToReadAttr, l.readAttr) || Loose(access, ToChangeAttr, l.changeAttr)
               || Loose(access, ToDelete, l.delete))
    ensures (forall p: Perm :: p !in access ==> l.Of(p) != Shared) <==> !exists p: Perm :: Loose(access, p, l.Of(p))
  {
    hide Loose;
    assert l.Of(ToRead) == l.read && l.Of(ToInsert) == l.insert && l.Of(ToReplace) == l.replace;
    assert l.Of(ToErase) == l.erase && l.Of(ToExtend) == l.extend && l.Of(ToReadAttr) == l.readAttr;
    assert l.Of(ToChangeAttr) == l.changeAttr && l.Of(ToDelete) == l.delete;
    NoneLoose(access, l);
  }

  lemma NoneLoose(access: set<Perm>, l: Locks)
    ensures (forall p: Perm :: p !in access ==> l.Of(p) != Shared) <==> !exists p: Perm :: Loose(access, p, l.Of(p))
  {
    if p: Perm :| p !in access && l.Of(p) == Shared {
      assert Loose(access, p, l.Of(p));
    }
  }

  lemma FiveLocks(mode: set<Perm>, l: Locks)
    ensures (forall p :: p in MODES && p !in mode ==> l.Of(p) != Shared) <==>
              !(|| Loose(mode, ToRead, l.read) || Loose(mode, ToInsert, l.insert) || Loose(mode, ToReplace, l.replace)
                || Loose(mode, ToErase, l.erase) || Loose(mode, ToExtend, l.extend))
  {
    assert l.Of(ToRead) == l.read && l.Of(ToInsert) == l.insert && l.Of(ToReplace) == l.replace;
    assert l.Of(ToErase) == l.erase && l.Of(ToExtend) == l.extend;
  }

  /** The flags of a pair that are set: none, or both. */
  lemma OfPair(f: set<Kind>, a: Kind, b: Kind)
    ensures f * {a, b} == {} <==> a !in f && b !in f
    ensures {a, b} <= f <==> a in f && b in f
  {
    assert a in f ==> a in f * {a, b};
    assert b in f ==> b in f * {a, b};
  }

  lemma OfThree(f: set<Kind>, a: Kind, b: Kind, c: Kind)
    ensures f * {a, b, c} == {} <==> a !in f && b !in f && c !in f
  {
    assert a in f ==> a in f * {a, b, c};
    assert b in f ==> b in f * {a, b, c};
    assert c in f ==> c in f * {a, b, c};
  }

  class Ftamblk {
    const view: View
    var state: State
    var cancel: bool
    var group: set<Kind>
    ghost var reading: bool
    ghost var out: seq<Fadu>
    ghost var got: seq<Fadu>
    ghost var done: seq<Moved>

    ghost function Now(): Side
      reads this
    {
      Side(view, state, cancel, group, reading, out, got, done)
    }

    constructor (view: View)
      ensures Now() == Side(view, Initialized, false, {}, false, [], [], [])
    {
      this.view := view;
      state, cancel, group := Initialized, false, {};
      reading, out, got, done := false, [], [], [];
    }

    /** A call that was made, or one that was turned down. */
    ghost predicate Did(was: Side, c: Call, sent: Option<Psdu>)
      requires WellFormed(c)
      reads this
    {
      match Do(was, c)
      case None => sent == None && Now() == was
      case Some((s, m)) => sent == Some(m) && Now() == s
    }

    /** The switches on state and class that open `figrpchk`. */
    method CheckState(t: GroupType) returns (ok: bool)
      ensures ok == (RightState(view, state, t) && RightClass(view, t))
    {
      if !view.initiator {
        return false;
      }
      match state {
        case Initialized => if t == ForBulkEnd { return false; }
        case DataIdle => if t != ForBulkEnd { return false; }
        case _ => return false;
      }
      match view.service {
        case Transfer => if t == ForManagement { return false; }
        case Manage => if t != ForManagement { return false; }
        case TransferManage =>
        case Access =>
        case Unconstrained => return false;
      }
      return true;
    }

    /** The tests of the flags, and the switch on the type of the group. */
    method CheckFlags(t: GroupType, f: set<Kind>) returns (ok: bool)
      ensures ok == RightFlags(t, f)
    {
      if Begin !in f || End !in f {
        return false;
      }
      OfPair(f, Select, Create);
      OfPair(f, Deselect, Delete);
      OfPair(f, Open, Close);
      OfThree(f, Close, Deselect, Delete);
      OfThree(f, Select, Create, Open);
      match t {
        case ForManagement =>
          if f * {Select, Create} == {} || {Select, Create} <= f {
            return false;
          }
          if f * {Open, Close} != {} {
            return false;
          }
        case ForBulkBegin =>
          if f * {Select, Create} == {} || {Select, Create} <= f {
            return false;
          }
          if Open !in f || f * {Close, Deselect, Delete} != {} {
            return false;
          }
          return true;
        case ForBulkEnd =>
          if f * {Select, Create, Open} != {} || Close !in f {
            return false;
          }
      }
      return f * {Deselect, Delete} != {} && !({Deselect, Delete} <= f);
    }

    /** The three tests of functional units. */
    method CheckUnits(f: set<Kind>) returns (ok: bool)
      ensures ok <==> forall k :: k in f ==> Permitted(view, k)
    {
      if UnitGrouping !in view.units && f * {Begin, End} != {} {
        var k :| k in f * {Begin, End};
        assert !Permitted(view, k);
        return false;
      }
      if UnitLimited !in view.units && f * {Create, Rdattr, Delete} != {} {
        var k :| k in f * {Create, Rdattr, Delete};
        assert !Permitted(view, k);
        return false;
      }
      if UnitEnhanced !in view.units && Chattr in f {
        assert !Permitted(view, Chattr);
        return false;
      }
      forall k | k in f ensures Permitted(view, k) {
        assert k in {Begin, End} ==> k in f * {Begin, End};
        assert k in {Create, Rdattr, Delete} ==> k in f * {Create, Rdattr, Delete};
      }
      return true;
    }

    /** `finish_create`: passwords and locks of a select or create. */
    method CheckFile(b: Body) returns (ok: bool)
      requires b.File?
      ensures ok == RightFile(view, b)
    {
      if Security !in view.attrs && b.passwords != map[] {
        return false;
      }
      if Storage in view.attrs {
        EightLocks(b.access, b.locks);
        if Loose(b.access, ToRead, b.locks.read) || Loose(b.access, ToInsert, b.locks.insert)
           || Loose(b.access, ToReplace, b.locks.replace) || Loose(b.access, ToErase, b.locks.erase)
           || Loose(b.access, ToExtend, b.locks.extend) || Loose(b.access, ToReadAttr, b.locks.readAttr)
           || Loose(b.access, ToChangeAttr, b.locks.changeAttr) || Loose(b.access, ToDelete, b.locks.delete) {
          return false;
        }
      }
      return true;
    }

    /** Attributes of a group that was not negotiated. */
    method CheckAttrs(attrs: set<Attr>) returns (ok: bool)
      ensures ok == NoneForbidden(view, attrs)
    {
      if Storage !in view.attrs && attrs * STORAGE != {} {
        var a :| a in attrs * STORAGE;
        assert Forbidden(view, a);
        return false;
      }
      if Security !in view.attrs && attrs * SECURITY != {} {
        var a :| a in attrs * SECURITY;
        assert Forbidden(view, a);
        return false;
      }
      forall a | a in attrs ensures !Forbidden(view, a) {
        assert a in STORAGE ==> a in attrs * STORAGE;
        assert a in SECURITY ==> a in attrs * SECURITY;
      }
      return true;
    }

    /** Attributes of a file that is to be created. */
    method CheckCreation(attrs: set<Attr>) returns (ok: bool)
      ensures ok == RightCreation(view, attrs)
    {
      if Filename !in attrs || Actions !in attrs || Contents !in attrs || attrs - CREATION != {} {
        return false;
      }
      assert forall a :: a in attrs ==> a in CREATION || a in attrs - CREATION;
      ok := CheckAttrs(attrs);
    }

    method CheckCreate(b: Body) returns (ok: bool)
      requires Fits(Create, b)
      ensures ok == RightParams(view, Create, b)
    {
      if b.override < 0 || b.override > 3 {
        return false;
      }
      ok := CheckCreation(b.attrs.present);
      if ok {
        ok := CheckFile(b);
      }
    }

    /** Attributes that are to be changed. */
    method CheckChanges(attrs: set<Attr>) returns (ok: bool)
      ensures ok == RightChange(view, attrs)
    {
      ok := CheckAttrs(attrs);
      if ok {
        ok := Control !in attrs;
      }
    }

    method CheckChange(b: Body) returns (ok: bool)
      requires Fits(Chattr, b)
      ensures ok == RightParams(view, Chattr, b)
    {
      if b.attrs.present * b.attrs.novalue != {} {
        return false;
      }
      ok := CheckChanges(b.attrs.present);
    }

    method CheckOpen(b: Body) returns (ok: bool)
      requires b.Opening?
      ensures ok == RightParams(view, Open, b)
    {
      if b.mode - MODES != {} {
        return false;
      }
      assert forall p :: p in b.mode ==> p in MODES || p in b.mode - MODES;
      if Storage in view.attrs {
        var l := b.openLocks;
        FiveLocks(b.mode, l);
        if Loose(b.mode, ToRead, l.read) || Loose(b.mode, ToInsert, l.insert) || Loose(b.mode, ToReplace, l.replace)
           || Loose(b.mode, ToErase, l.erase) || Loose(b.mode, ToExtend, l.extend)
           || l.readAttr != NotRequired || l.changeAttr != NotRequired || l.delete != NotRequired {
          return false;
        }
      }
      return true;
    }

    /** The parameters of one PDU, if its flag is set: whether they are in order, and one more in the count. */
    method CheckPart(g: Group, k: Kind, i: nat) returns (ok: bool, j: nat)
      requires WellTyped(g)
      ensures ok == (k in g.parts ==> RightParams(view, k, g.parts[k]))
      ensures j == i + Bit(k in g.parts)
    {
      ok, j := true, i;
      if k in g.parts {
        j := i + 1;
        var b := g.parts[k];
        match k {
          case Select =>
            ok := b.attrs.present == {Filename};
            if ok {
              ok := CheckFile(b);
            }
          case Create => ok := CheckCreate(b);
          case Close => ok := b.action == 0 || b.action == 1 || b.action == 2;
          case Rdattr => ok := CheckAttrs(b.names);
          case Chattr => ok := CheckChange(b);
          case Open => ok := CheckOpen(b);
          case _ =>
        }
      }
    }

    /** The part of `figrpchk` that looks at the parameters and counts; a select jumps over the create. */
    method CheckParts(g: Group) returns (ok: bool, i: nat)
      requires WellTyped(g) && !(Select in g.parts && Create in g.parts)
      ensures ok ==> i == Count(g.parts.Keys)
      ensures ok <==> forall k :: k in g.parts ==> RightParams(view, k, g.parts[k])
    {
      hide RightParams, Bit;
      ok, i := CheckPart(g, Select, 0);
      if !ok { return; }
      ok, i := CheckPart(g, Create, i);
      if !ok { return; }
      ok, i := CheckPart(g, Close, i);
      if !ok { return; }
      ok, i := CheckPart(g, Rdattr, i);
      if !ok { return; }
      ok, i := CheckPart(g, Chattr, i);
      if !ok { return; }
      ok, i := CheckPart(g, Deselect, i);
      if !ok { return; }
      ok, i := CheckPart(g, Delete, i);
      if !ok { return; }
      ok, i := CheckPart(g, Open, i);
      forall k | k in g.parts ensures k in {Begin, Select, Create, Close, Rdattr, Chattr, Deselect, Delete, Open, End} {
        assert k in Order();
      }
      EndsAreBare(g);
      AtMostOne(Select in g.parts, Create in g.parts);
    }

    lemma AtMostOne(a: bool, b: bool)
      requires !(a && b)
      ensures Bit(a || b) == Bit(a) + Bit(b)
    {
    }

    lemma EndsAreBare(g: Group)
      requires WellTyped(g)
      ensures forall k :: k in {Begin, End} && k in g.parts ==> RightParams(view, k, g.parts[k])
    {
    }

    /** `figrpchk` */
    method CheckGroup(t: GroupType, g: Group) returns (ok: bool)
      requires WellTyped(g)
      ensures ok == Acceptable(view, state, t, g)
    {
      hide RightState, RightClass, RightParams, Permitted;
      ok := CheckState(t);
      if !ok { return; }
      ok := CheckFlags(t, g.parts.Keys);
      if !ok { return; }
      ok := CheckUnits(g.parts.Keys);
      if !ok { return; }
      var i;
      ok, i := CheckParts(g);
      if !ok { return; }
      ok := i == g.threshold;
    }

    /** One `if` of `figrp2pdus`, the one for the flag that comes `i`-th. */
    method AddPdu(pdus: seq<Pdu>, g: Group, k: Kind, ghost i: nat) returns (more: Option<seq<Pdu>>, ghost j: nat)
      requires WellTyped(g) && i < 10 && k == Order()[i] && pdus + EmitFrom(g, i) == Emit(g)
      ensures j == i + 1 && (more == None <==> k in g.parts && !EncodablePart(g.parts[k]))
      ensures more.Some? ==> more.value + EmitFrom(g, j) == Emit(g)
    {
      hide EncodablePart, Coded;
      j := i + 1;
      if k !in g.parts {
        Regroup(pdus, [], EmitFrom(g, j));
        return Some(pdus), j;
      }
      var p :- RequestPdu(g.threshold, k, g.parts[k]);
      more := Some(pdus + [p]);
      Regroup(pdus, [Sent(g, k)], EmitFrom(g, j));
    }

    /** The first half of `figrp2pdus`. */
    method HeadPdus(g: Group) returns (more: Option<seq<Pdu>>, ghost i: nat)
      requires WellTyped(g)
      ensures more == None ==> !Encodable(g)
      ensures more.Some? ==> i == 5 && more.value + EmitFrom(g, i) == Emit(g)
      ensures more.Some? ==> forall k :: k in Order()[..5] && k in g.parts ==> EncodablePart(g.parts[k])
    {
      hide EmitFrom, EncodablePart, WellTyped;
      i := 0;
      var pdus: seq<Pdu> := [];
      assert pdus + EmitFrom(g, i) == Emit(g);
      pdus, i :- AddPdu(pdus, g, Begin, i);
      pdus, i :- AddPdu(pdus, g, Select, i);
      pdus, i :- AddPdu(pdus, g, Create, i);
      pdus, i :- AddPdu(pdus, g, Close, i);
      pdus, i :- AddPdu(pdus, g, Rdattr, i);
      more := Some(pdus);
    }

    /** The second half. */
    method TailPdus(pdus: seq<Pdu>, g: Group, ghost i: nat) returns (more: Option<seq<Pdu>>)
      requires WellTyped(g) && i == 5 && pdus + EmitFrom(g, i) == Emit(g)
      ensures more == None ==> !Encodable(g)
      ensures more.Some? ==> more.value == Emit(g)
      ensures more.Some? ==> forall k :: k in Order()[5..] && k in g.parts ==> EncodablePart(g.parts[k])
    {
      hide EmitFrom, EncodablePart, WellTyped;
      ghost var i := i;
      var pdus := pdus;
      pdus, i :- AddPdu(pdus, g, Chattr, i);
      pdus, i :- AddPdu(pdus, g, Deselect, i);
      pdus, i :- AddPdu(pdus, g, Delete, i);
      pdus, i :- AddPdu(pdus, g, Open, i);
      pdus, i :- AddPdu(pdus, g, End, i);
      EmitEnds(g);
      assert pdus + EmitFrom(g, i) == pdus;
      more := Some(pdus);
    }

    lemma EmitEnds(g: Group)
      ensures EmitFrom(g, 10) == []
    {
    }

    /** `figrp2pdus` */
    method GroupPdus(g: Group) returns (more: Option<seq<Pdu>>)
      requires WellTyped(g)
      ensures more == if Encodable(g) then Some(Emit(g)) else None
    {
      hide EncodablePart, EmitFrom, Emit;
      var pdus, i :- HeadPdus(g);
      more := TailPdus(pdus, g, i);
      assert Order() == Order()[..5] + Order()[5..];
    }

    /** `FGroupRequestAux` */
    method GroupRequest(t: GroupType, g: Group) returns (sent: Option<Psdu>)
      requires WellTyped(g)
      modifies this
      ensures Did(old(Now()), Call.GroupRequest(t, g), sent)
    {
      hide Acceptable, Encodable;
      var ok := CheckGroup(t, g);
      if !ok {
        return None;
      }
      var pdus :- GroupPdus(g);
      state := Asked(t);
      group := g.parts.Keys;
      sent := Some(Pdus(pdus));
    }

    /** The switch on the state that opens `frgrpchk`. */
    method CheckTurn(t: GroupType, r: Reply) returns (ok: bool)
      ensures ok == (!view.initiator && r.flags <= group && state == Asked(t))
    {
      if view.initiator {
        return false;
      }
      match state {
        case Management => if t != ForManagement { return false; }
        case BulkBegin => if t != ForBulkBegin { return false; }
        case BulkEnd => if t != ForBulkEnd { return false; }
        case _ => return false;
      }
      assert forall k :: k in r.flags ==> k in group || k in r.flags - group;
      return r.flags - group == {};
    }

    /** `frgrpchk` */
    method CheckReply(t: GroupType, r: Reply) returns (ok: bool)
      ensures ok == ReplyAcceptable(view, state, group, t, r)
    {
      hide NoneForbidden, RightCreation, RightChange;
      ok := CheckTurn(t, r);
      if !ok { return; }
      if Select in r.flags && r.selectAttrs.present != {Filename} {
        assert !RightAnswer(view, Select, AttrsOf(r, Select).present);
        return false;
      }
      if Create in r.flags {
        ok := CheckCreation(r.createAttrs.present);
        assert ok == RightAnswer(view, Create, AttrsOf(r, Create).present);
        if !ok { return; }
      }
      if Rdattr in r.flags {
        ok := CheckAttrs(r.readAttrs.present);
        assert ok == RightAnswer(view, Rdattr, AttrsOf(r, Rdattr).present);
        if !ok { return; }
      }
      if Chattr in r.flags {
        ok := CheckChanges(r.changeAttrs.present);
        assert ok == RightAnswer(view, Chattr, AttrsOf(r, Chattr).present);
        if !ok { return; }
      }
      if Open in r.flags {
        if r.contents == None {
          return false;
        }
        if Storage in view.attrs
           && (r.openLocks.readAttr != NotRequired || r.openLocks.changeAttr != NotRequired
               || r.openLocks.delete != NotRequired) {
          return false;
        }
      }
    }

    /** One `if` of `frgrp2pdus`. */
    method AddAnswer(pdus: seq<Pdu>, r: Reply, flags: set<Kind>, k: Kind, ghost i: nat)
      returns (more: Option<seq<Pdu>>, ghost j: nat)
      requires WellTypedReply(r) && flags == ReplyFlags(r) && i < 10 && k == Order()[i]
      requires pdus + EmitReplyFrom(r, i) == EmitReply(r)
      ensures j == i + 1 && (more == None <==> k in flags && !EncodableAnswer(r, k))
      ensures more.Some? ==> more.value + EmitReplyFrom(r, j) == EmitReply(r)
    {
      hide Answer, WellTypedReply, ReplyFlags;
      j := i + 1;
      if k !in flags {
        Regroup(pdus, [], EmitReplyFrom(r, j));
        return Some(pdus), j;
      }
      var p :- AnswerPdu(r, k);
      more := Some(pdus + [p]);
      Regroup(pdus, [Answer(r, k)], EmitReplyFrom(r, j));
    }

    /** The first half of `frgrp2pdus`. */
    method HeadAnswers(r: Reply, flags: set<Kind>) returns (more: Option<seq<Pdu>>, ghost i: nat)
      requires WellTypedReply(r) && flags == ReplyFlags(r)
      ensures more == None ==> !EncodableReply(r)
      ensures more.Some? ==> i == 5 && more.value + EmitReplyFrom(r, i) == EmitReply(r)
      ensures more.Some? ==> forall k :: k in Order()[..5] && k in flags ==> EncodableAnswer(r, k)
    {
      hide EmitReplyFrom, EncodableAnswer, WellTypedReply, ReplyFlags;
      i := 0;
      var pdus: seq<Pdu> := [];
      assert pdus + EmitReplyFrom(r, i) == EmitReply(r);
      pdus, i :- AddAnswer(pdus, r, flags, Begin, i);
      pdus, i :- AddAnswer(pdus, r, flags, Select, i);
      pdus, i :- AddAnswer(pdus, r, flags, Create, i);
      pdus, i :- AddAnswer(pdus, r, flags, Close, i);
      pdus, i :- AddAnswer(pdus, r, flags, Rdattr, i);
      more := Some(pdus);
    }

    /** The second half. */
    method TailAnswers(pdus: seq<Pdu>, r: Reply, flags: set<Kind>, ghost i: nat) returns (more: Option<seq<Pdu>>)
      requires WellTypedReply(r) && flags == ReplyFlags(r) && i == 5 && pdus + EmitReplyFrom(r, i) == EmitReply(r)
      ensures more == None ==> !EncodableReply(r)
      ensures more.Some? ==> more.value == EmitReply(r)
      ensures more.Some? ==> forall k :: k in Order()[5..] && k in flags ==> EncodableAnswer(r, k)
    {
      hide EmitReplyFrom, EncodableAnswer, WellTypedReply, ReplyFlags;
      ghost var i := i;
      var pdus := pdus;
      pdus, i :- AddAnswer(pdus, r, flags, Chattr, i);
      pdus, i :- AddAnswer(pdus, r, flags, Deselect, i);
      pdus, i :- AddAnswer(pdus, r, flags, Delete, i);
      pdus, i :- AddAnswer(pdus, r, flags, Open, i);
      pdus, i :- AddAnswer(pdus, r, flags, End, i);
      AnswersEnd(r);
      assert pdus + EmitReplyFrom(r, i) == pdus;
      more := Some(pdus);
    }

    lemma AnswersEnd(r: Reply)
      ensures EmitReplyFrom(r, 10) == []
    {
    }

    /** A failed select or create leaves only itself. */
    method CutFlags(r: Reply) returns (flags: set<Kind>)
      ensures flags == ReplyFlags(r)
    {
      flags := r.flags;
      if Select in flags {
        if !r.selectOk {
          flags := flags * {Begin, Select, End};
        }
      } else if Create in flags {
        if !r.createOk {
          flags := flags * {Begin, Create, End};
        }
      }
    }

    /** `frgrp2pdus` */
    method ReplyPdus(r: Reply) returns (more: Option<seq<Pdu>>)
      requires WellTypedReply(r)
      ensures more == if EncodableReply(r) then Some(EmitReply(r)) else None
    {
      hide EncodableAnswer, WellTypedReply, EmitReplyFrom, EmitReply, ReplyFlags;
      var flags := CutFlags(r);
      var pdus, i :- HeadAnswers(r, flags);
      more := TailAnswers(pdus, r, flags, i);
      assert Order() == Order()[..5] + Order()[5..];
      EncodableAnswers(r);
    }

    /** `FGroupResponse` */
    method GroupResponse(t: GroupType, r: Reply) returns (sent: Option<Psdu>)
      requires WellTypedReply(r)
      modifies this
      ensures Did(old(Now()), Call.GroupResponse(t, r), sent)
    {
      hide ReplyAcceptable, EncodableReply, EmitReply;
      var ok := CheckReply(t, r);
      if !ok {
        return None;
      }
      var pdus :- ReplyPdus(r);
      if pdus == [] {
        return None;
      }
      sent := Some(Pdus(pdus));
      if t == ForBulkBegin && HeadOk(r) && r.openOk {
        state := DataIdle;
      } else {
        state := Initialized;
      }
    }

    /** `FReadWriteRequestAux` */
    method ReadWriteRequest(reading: bool) returns (sent: Option<Psdu>)
      modifies this
      ensures Did(old(Now()), Call.ReadWriteRequest(reading), sent)
    {
      if !view.initiator || state != DataIdle {
        return None;
      }
      if (if reading then UnitRead else UnitWrite) !in view.units {
        return None;
      }
      sent := Some(One(true, if reading then Read else Write));
      state := if reading then DataRead else DataWrite;
      this.reading, out, got := reading, [], [];
    }

    /** `FDataRequestAux` */
    method DataRequest(data: seq<Fadu>) returns (sent: Option<Psdu>)
      modifies this
      ensures Did(old(Now()), Call.DataRequest(data), sent)
    {
      match state {
        case DataRead => if view.initiator { return None; }
        case DataWrite => if !view.initiator { return None; }
        case _ => return None;
      }
      if |data| == 0 || |data| > NPDATA {
        return None;
      }
      sent := Some(Fadus(data));
      out := out + data;
    }

    /** `FDataEndRequestAux` */
    method DataEndRequest() returns (sent: Option<Psdu>)
      modifies this
      ensures Did(old(Now()), Call.DataEndRequest, sent)
    {
      match state {
        case DataRead => if view.initiator { return None; }
        case DataWrite => if !view.initiator { return None; }
        case _ => return None;
      }
      sent := Some(One(true, DataEnd));
      state := DataFin1;
    }

    /** `FTransEndRequestAux` */
    method TransEndRequest() returns (sent: Option<Psdu>)
      modifies this
      ensures Did(old(Now()), Call.TransEndRequest, sent)
    {
      if !view.initiator || state != DataFin1 {
        return None;
      }
      sent := Some(One(true, TransEnd));
      state := DataFin2;
    }

    /** `FTransEndResponseAux` */
    method TransEndResponse() returns (sent: Option<Psdu>)
      modifies this
      ensures Did(old(Now()), Call.TransEndResponse, sent)
    {
      if view.initiator || state != DataFin2 {
        return None;
      }
      sent := Some(One(false, TransEnd));
      state := DataIdle;
      done := done + [Moved(reading, out + got)];
    }

    /** `FCancelRequestAux` */
    method CancelRequest() returns (sent: Option<Psdu>)
      modifies this
      ensures Did(old(Now()), Call.CancelRequest, sent)
    {
      if state != DataRead && state != DataWrite {
        return None;
      }
      sent := Some(One(true, Cancel));
      cancel := true;
      state := DataCancel;
    }

    /** `FCancelResponseAux` */
    method CancelResponse() returns (sent: Option<Psdu>)
      modifies this
      ensures Did(old(Now()), Call.CancelResponse, sent)
    {
      if state != DataCancel {
        return None;
      }
      sent := Some(One(false, Cancel));
      state := DataIdle;
    }

    /** `FAccessRequestAux` */
    method AccessRequest(locate: bool) returns (sent: Option<Psdu>)
      modifies this
      ensures Did(old(Now()), Call.AccessRequest(locate), sent)
    {
      if !view.initiator || state != DataIdle || UnitAccess !in view.units {
        return None;
      }
      sent := Some(One(true, if locate then Locate else Erase));
      state := if locate then Locating else Erasing;
    }

    /** `FAccessResponseAux` */
    method AccessResponse(identity: bool) returns (sent: Option<Psdu>)
      modifies this
      ensures Did(old(Now()), Call.AccessResponse(identity), sent)
    {
      if view.initiator {
        return None;
      }
      match state {
        case Locating =>
        case Erasing => if identity { return None; }
        case _ => return None;
      }
      sent := Some(One(false, if state == Locating then Locate else Erase));
      state := DataIdle;
    }

    /** The loop over the PDUs of one P-DATA. */
    method ReadPdus(ps: seq<Pdu>) returns (r: Progress)
      requires forall p :: p in ps ==> WellSent(p)
      ensures r == Steps(Now(), START, None, ps)
    {
      var scan, single: Option<Pdu>, i := START, None, 0;
      while i < |ps|
        invariant 0 <= i <= |ps|
        invariant Steps(Now(), scan, single, ps[i..]) == Steps(Now(), START, None, ps)
      {
        assert ps[i..][0] == ps[i] && ps[i..][1..] == ps[i + 1..];
        var p := ps[i];
        if p.kind in Order() {
          if p.request == view.initiator || !Expected(p.request, scan.next, p.kind) || !Permitted(view, p.kind) {
            return Broken;
          }
          var b := TakePdu(view, p);
          if b == None {
            return Broken;
          }
          scan := Scan(Next(p.request, Select in scan.parts || Create in scan.parts, p.kind),
                       if p.request && p.kind == Begin then p.body.n else scan.threshold,
                       scan.parts[p.kind := b.value]);
        } else {
          var step := ReadSingle(scan, p);
          if !step.Going? {
            return step;
          }
          scan, single := step.scan, step.single;
        }
        i := i + 1;
      }
      r := Going(scan, single);
    }

    /** The cases of the PDUs that stand alone. */
    method ReadSingle(scan: Scan, p: Pdu) returns (r: Progress)
      ensures r == SingleStep(Now(), scan, p)
    {
      match p.kind {
        case Locate | Erase =>
          var busy := if p.kind == Locate then Locating else Erasing;
          if UnitAccess !in view.units { return Broken; }
          if p.request && (view.initiator || state != DataIdle) { return Broken; }
          if !p.request && (!view.initiator || state != busy) { return Broken; }
        case Read | Write =>
          if !p.request || view.initiator || state != DataIdle { return Broken; }
          if (if p.kind == Read then UnitRead else UnitWrite) !in view.units { return Broken; }
        case DataEnd =>
          if !p.request { return Broken; }
          match state {
            case DataRead => if !view.initiator { return Broken; }
            case DataWrite => if view.initiator { return Broken; }
            case DataCancel => return Dropped;
            case _ => return Broken;
          }
        case TransEnd =>
          if p.request {
            if view.initiator || scan.next != {Begin} { return Broken; }
            match state {
              case DataFin1 =>
              case DataCancel => return Dropped;
              case _ => return Broken;
            }
          } else if !view.initiator || state != DataFin2 {
            return Broken;
          }
        case Cancel =>
          if p.request {
            match state {
              case DataRead | DataWrite | DataFin1 | DataFin2 | DataCancel =>
              case _ => return Broken;
            }
          } else if state != DataCancel {
            return Broken;
          }
        case _ => return Broken;
      }
      if scan.next != {Begin} {
        return Broken;
      }
      r := Going(scan.(next := {}), Some(p));
    }

    /** An arrival that did what `Receive` says. */
    ghost predicate Got(was: Side, m: Psdu, r: Heard, reply: Option<Psdu>)
      reads this
    {
      match Receive(was, m)
      case Abort => r == Aborted && reply == None && Now() == was
      case Quiet(s, answer) => r == Waiting && reply == answer && Now() == s
      case Told(s) => r == Indicated && reply == None && Now() == s
    }

    /** The state changes after a PDU that stands alone. */
    method ConcludeSingle(p: Pdu) returns (r: Heard, reply: Option<Psdu>)
      modifies this
      ensures match Single(old(Now()), p)
              case Abort => r == Aborted && reply == None && Now() == old(Now())
              case Quiet(s, answer) => r == Waiting && reply == answer && Now() == s
              case Told(s) => r == Indicated && reply == None && Now() == s
    {
      r, reply := Indicated, None;
      match p.kind {
        case Locate => state := if view.initiator then DataIdle else Locating;
        case Erase => state := if view.initiator then DataIdle else Erasing;
        case Read | Write =>
          state := if p.kind == Read then DataRead else DataWrite;
          reading, out, got := p.kind == Read, [], [];
        case DataEnd => state := DataFin1;
        case TransEnd =>
          if view.initiator {
            state := DataIdle;
            done := done + [Moved(reading, out + got)];
          } else {
            state := DataFin2;
          }
        case Cancel =>
          if p.request && state == DataCancel {
            reply := CancelResponse();
            r := Waiting;
          } else if cancel {
            cancel := false;
            state := DataIdle;
          } else {
            state := DataCancel;
          }
        case _ => r := Aborted;
      }
    }

    /** What the answers of a bulk-begin reply report; the indication starts zeroed, which reads as success. */
    method CheckSuccess(scan: Scan) returns (ok: bool)
      ensures ok == Succeeded(scan)
    {
      var head := if Select in scan.parts then Select else Create;
      if head in scan.parts && scan.parts[head].Answered? && !scan.parts[head].ok {
        return false;
      }
      return !(Open in scan.parts && scan.parts[Open].Answered? && !scan.parts[Open].ok);
    }

    /** A group that did what `Concluded` says. */
    ghost predicate Closed(was: Side, scan: Scan, count: nat, ok: bool)
      reads this
    {
      match Concluded(was.view, was.state, was.group, scan, count)
      case None => !ok && Now() == was
      case Some(st) => ok && Now() == was.(state := st, group := if was.view.initiator then was.group else scan.parts.Keys)
    }

    /** The end of `doPSdata` for a group with a select or create and a management group's flags or state. */
    method ConcludeManagement(f: set<Kind>) returns (ok: bool)
      modifies this
      ensures ok == if view.initiator then f <= old(group)
                    else view.service in {Manage, TransferManage, Access} && old(state) == Initialized
      ensures Now() == if !ok then old(Now())
                       else if view.initiator then old(Now()).(state := Initialized)
                       else old(Now()).(state := Management, group := f)
    {
      if !view.initiator {
        match view.service {
          case Manage | TransferManage | Access =>
          case _ => return false;
        }
      }
      if view.initiator {
        if !(f <= group) {
          return false;
        }
        state := Initialized;
      } else {
        if state != Initialized {
          return false;
        }
        state := Management;
        group := f;
      }
      return true;
    }

    /** The same for a bulk-begin group. */
    method ConcludeBulkBegin(scan: Scan) returns (ok: bool)
      modifies this
      ensures ok == if view.initiator then scan.parts.Keys <= old(group)
                    else view.service in {Transfer, TransferManage, Access} && old(state) == Initialized
      ensures Now() == if !ok then old(Now())
                       else if view.initiator then old(Now()).(state := if Succeeded(scan) then DataIdle else Initialized)
                       else old(Now()).(state := BulkBegin, group := scan.parts.Keys)
    {
      if !view.initiator {
        match view.service {
          case Transfer | TransferManage | Access =>
          case _ => return false;
        }
      }
      if view.initiator {
        if !(scan.parts.Keys <= group) {
          return false;
        }
        var success := CheckSuccess(scan);
        state := if success then DataIdle else Initialized;
      } else {
        if state != Initialized {
          return false;
        }
        state := BulkBegin;
        group := scan.parts.Keys;
      }
      return true;
    }

    /** And for one with a close. */
    method ConcludeBulkEnd(f: set<Kind>) returns (ok: bool)
      modifies this
      ensures ok == (view.service in {Transfer, TransferManage, Access} &&
                     if view.initiator then old(state) == BulkEnd && f <= old(group) else old(state) == DataIdle)
      ensures Now() == if !ok then old(Now())
                       else if view.initiator then old(Now()).(state := Initialized)
                       else old(Now()).(state := BulkEnd, group := f)
    {
      match view.service {
        case Transfer | TransferManage | Access =>
        case _ => return false;
      }
      if view.initiator {
        if state != BulkEnd {
          return false;
        }
        if !(f <= group) {
          return false;
        }
        state := Initialized;
      } else {
        if state != DataIdle {
          return false;
        }
        state := BulkEnd;
        group := f;
      }
      return true;
    }

    /** The switches that conclude a group. */
    method ConcludeGroup(scan: Scan, count: nat) returns (ok: bool)
      requires scan.next == {}
      modifies this
      ensures Closed(old(Now()), scan, count, ok)
    {
      hide Succeeded;
      var f := scan.parts.Keys;
      if !view.initiator && scan.threshold != count - 2 {
        return false;
      }
      OfPair(f, Select, Create);
      OfPair(f, Deselect, Delete);
      if f * {Select, Create} != {} {
        var managed := if view.initiator then state == Management else f * {Deselect, Delete} != {};
        if managed {
          ok := ConcludeManagement(f);
          return;
        }
        var begun := if view.initiator then state == BulkBegin else Open in f;
        if begun {
          ok := ConcludeBulkBegin(scan);
          return;
        }
        return false;
      }
      if Close in f {
        ok := ConcludeBulkEnd(f);
        return;
      }
      return false;
    }

    /** `doPSdata` */
    method DoPSdata(m: Psdu) returns (r: Heard, reply: Option<Psdu>)
      requires m.Pdus? ==> forall p :: p in m.pdus ==> WellSent(p)
      modifies this
      ensures Got(old(Now()), m, r, reply)
    {
      r, reply := Aborted, None;
      if m.Fadus? && m.data != [] {
        match state {
          case DataRead => if !view.initiator { return; }
          case DataWrite => if view.initiator { return; }
          case DataCancel =>
            r := Waiting;
            return;
          case _ => return;
        }
        got := got + m.data;
        r := Indicated;
        return;
      }
      var ps := if m.Fadus? then [] else m.pdus;
      var p := ReadPdus(ps);
      match p {
        case Broken =>
        case Dropped => r := Waiting;
        case Going(scan, single) =>
          if scan.next == {} {
            if single.Some? {
              r, reply := ConcludeSingle(single.value);
            } else {
              var ok := ConcludeGroup(scan, |ps|);
              if ok {
                r := Indicated;
              }
            }
          }
      }
    }
  }

  lemma EncodableAnswers(r: Reply)
    ensures EncodableReply(r) <==> forall k :: k in ReplyFlags(r) && k in Order() ==> EncodableAnswer(r, k)
  {
    forall k | k in ATTRIBUTED ensures k in Order() {
      assert Order()[1] == Select && Order()[2] == Create && Order()[4] == Rdattr && Order()[5] == Chattr;
    }
  }

  lemma Regroup(a: seq<Pdu>, b: seq<Pdu>, c: seq<Pdu>)
    ensures a + (b + c) == (a + b) + c && a + c == a + ([] + c)
  {
  }

  /** What a call sends a receiver may be given. */
  lemma {:induction false} CallIsWellSent(s: Side, c: Call)
    requires WellFormed(c) && Do(s, c).Some? && Do(s, c).value.1.Pdus?
    ensures forall p :: p in Do(s, c).value.1.pdus ==> WellSent(p)
  {
    hide WellSent, Acceptable, ReplyAcceptable, Encodable, EncodableReply, WellTyped, WellTypedReply;
    if c.GroupRequest? {
      GroupIsWellSent(c.g);
    } else if c.GroupResponse? {
      ReplyIsWellSent(c.r);
    } else {
      OthersAreAlone(s, c);
      AloneIsWellSent(Do(s, c).value.1.pdus);
    }
  }

  lemma OthersAreAlone(s: Side, c: Call)
    requires !c.GroupRequest? && !c.GroupResponse? && Do(s, c).Some? && Do(s, c).value.1.Pdus?
    ensures |Do(s, c).value.1.pdus| == 1 && Do(s, c).value.1.pdus[0].kind !in Order()
  {
    hide Acceptable, ReplyAcceptable, Encodable, EncodableReply, WellTyped, WellTypedReply, Emit, EmitReply;
  }

  lemma GroupIsWellSent(g: Group)
    requires WellTyped(g) && Encodable(g)
    ensures forall p :: p in Emit(g) ==> WellSent(p)
  {
    hide WellSent, Sent;
    forall p | p in Emit(g) ensures WellSent(p) {
      EmitContents(g, 0, p);
      RequestIsWellSent(g, p.kind);
    }
  }

  lemma ReplyIsWellSent(r: Reply)
    requires EncodableReply(r)
    ensures forall p :: p in EmitReply(r) ==> WellSent(p)
  {
    hide WellSent, Answer, EncodableAnswer;
    forall p | p in EmitReply(r) ensures WellSent(p) {
      ReplyContents(r, 0, p);
      AnswerIsWellSent(r, p.kind);
    }
  }

  lemma AloneIsWellSent(ps: seq<Pdu>)
    requires |ps| == 1 && ps[0].kind !in Order()
    ensures forall p :: p in ps ==> WellSent(p)
  {
  }
}
