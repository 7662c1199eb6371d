/**
 One PDU of a group in the form of the code: how `figrp2pdus` and `frgrp2pdus`
 fill it in, and what the cases of `doPSdata` take out of it.
 */
module FtamParts {
  import opened Wrappers
  import opened FtamTypes
  import opened FtamGroups
  import opened FtamCodec
  import Codec = FtamAttributes

  // ----- Filling in -----

  /** The PDU for one flag of a request, unless its attributes are refused. */
  method RequestPdu(threshold: int, k: Kind, b: Body) returns (p: Option<Pdu>)
    requires Fits(k, b)
    ensures p == if !EncodablePart(b) then None
                 else Some(Pdu(true, k, if k == Begin then Threshold(threshold) else Coded(b)))
  {
    hide Codec.Attr2fpm;
    var sent := b;
    match k {
      case Begin => sent := Threshold(threshold);
      case Select | Create =>
        var coding :- EncodeAttributes(b.attrs);
        sent := FileSent(Some(coding), b.access, b.passwords, b.locks, b.override);
      case Chattr =>
        var coding :- EncodeAttributes(b.attrs);
        sent := ChangesSent(Some(coding));
      case _ =>
    }
    p := Some(Pdu(true, k, sent));
  }

  /** Read and change answers have attributes only if some are present. */
  method AnswerPdu(r: Reply, k: Kind) returns (p: Option<Pdu>)
    requires WellTypedReply(r)
    ensures p == if EncodableAnswer(r, k) then Some(Answer(r, k)) else None
  {
    hide Codec.Attr2fpm;
    var body := Plain;
    match k {
      case Select =>
        var coding :- EncodeAttributes(r.selectAttrs);
        body := Result(r.selectOk, Some(coding));
      case Create =>
        var coding :- EncodeAttributes(r.createAttrs);
        body := Result(r.createOk, Some(coding));
      case Rdattr | Chattr =>
        var attrs := if k == Rdattr then r.readAttrs else r.changeAttrs;
        body := Result(true, None);
        if attrs.present != {} {
          var coding :- EncodeAttributes(attrs);
          body := Result(true, Some(coding));
        } else {
          NothingToEncode(attrs);
        }
      case Open => body := Result(r.openOk, None);
      case _ =>
    }
    p := Some(Pdu(false, k, body));
  }

  lemma NothingToEncode(a: Codec.Attributes)
    requires Codec.Whole(a) && a.present == {}
    ensures Codec.Encode(a).Some?
  {
  }

  // ----- Taking out -----

  predicate WellFilled(coding: Option<Codec.Coding>) {
    coding.Some? && WellCoded(coding.value)
  }

  predicate WellAsked(k: Kind, b: Body) {
    SentFits(k, b) && (b.FileSent? || b.ChangesSent? ==> WellFilled(b.coding))
  }

  predicate WellAnswered(k: Kind, b: Body) {
    b.Result? && (b.coding.Some? || k in {Select, Create} ==> WellFilled(b.coding))
  }

  /** What can be made of octets at all: each PDU has its parameters, attributes among them. */
  predicate WellSent(p: Pdu) {
    p.kind in Order() ==>
      if p.request then (if p.kind == Begin then p.body.Threshold? else WellAsked(p.kind, p.body))
      else p.kind in TELLING ==> WellAnswered(p.kind, p.body)
  }

  lemma EncodedIsWellFilled(a: Codec.Attributes)
    requires Codec.Encode(a).Some?
    ensures WellFilled(Codec.Encode(a))
  {
    EncodedIsWellCoded(a);
  }

  /** Whatever a side sends is so. */
  lemma RequestIsWellSent(g: Group, k: Kind)
    requires WellTyped(g) && Encodable(g) && k in g.parts
    ensures WellSent(Sent(g, k))
  {
    hide Codec.Attr2fpm, Codec.Encode, WellFilled;
    assert EncodablePart(g.parts[k]);
    if k in {Select, Create, Chattr} {
      EncodedIsWellFilled(g.parts[k].attrs);
    }
  }

  lemma AnswerIsWellSent(r: Reply, k: Kind)
    requires EncodableAnswer(r, k)
    ensures WellSent(Answer(r, k))
  {
    hide Codec.Attr2fpm, Codec.Encode, WellFilled;
    if k in ATTRIBUTED {
      EncodedIsWellFilled(AttrsOf(r, k));
    }
  }

  /** The attribute groups that were not negotiated are masked out. */
  method Mask(v: View, attrs: set<Attr>) returns (left: set<Attr>)
    ensures left == Admitted(v, attrs)
  {
    left := attrs;
    if Storage !in v.attrs {
      left := left - STORAGE;
    }
    if Security !in v.attrs {
      left := left - SECURITY;
    }
  }

  /** The parameters a select and a create have in common. */
  method TakeFile(v: View, b: Body, attrs: Codec.Attributes) returns (taken: Option<Body>)
    requires b.FileSent?
    ensures taken == if b.access == {} then None
                     else Some(File(attrs, b.access, Kept(v, b), Held(v, b.locks), b.override))
  {
    if b.access == {} {
      return None;
    }
    var passwords: map<Perm, string>, locks := map[], NOLOCKS;
    if Security in v.attrs && b.passwords != map[] {
      passwords := Filled(b.passwords);
    }
    if Storage in v.attrs {
      locks := b.locks;
    }
    taken := Some(File(attrs, b.access, passwords, locks, b.override));
  }

  method TakeSelect(v: View, b: Body) returns (taken: Option<Body>)
    requires b.FileSent? && WellFilled(b.coding)
    ensures taken == Stored(v, Select, b)
  {
    hide Codec.Fpm2attr, WellCoded;
    var a :- DecodeAttributes(b.coding.value);
    taken := TakeFile(v, b, a.(present := a.present * {Filename}));
  }

  method TakeCreate(v: View, b: Body) returns (taken: Option<Body>)
    requires b.FileSent? && WellFilled(b.coding)
    ensures taken == Stored(v, Create, b)
  {
    hide Codec.Fpm2attr, WellCoded;
    var a :- DecodeAttributes(b.coding.value);
    if a.present * {Filename, Actions, Contents} != {Filename, Actions, Contents} {
      assert !(KERNEL <= a.present);
      return None;
    }
    assert KERNEL <= a.present * KERNEL;
    var present := Mask(v, a.present * CREATION);
    taken := TakeFile(v, b, a.(present := present));
  }

  method TakeChange(v: View, b: Body) returns (taken: Option<Body>)
    requires b.ChangesSent? && WellFilled(b.coding)
    ensures taken == Stored(v, Chattr, b)
  {
    hide Codec.Fpm2attr, WellCoded;
    var a :- DecodeAttributes(b.coding.value);
    if a.present * a.novalue != {} {
      return None;
    }
    AllAttrs(a.present);
    assert a.present * ALLATTRS == a.present;
    var present := Mask(v, a.present);
    taken := Some(Changes(a.(present := present)));
  }

  method TakeOpen(v: View, b: Body) returns (taken: Option<Body>)
    requires b.Opening?
    ensures taken == Stored(v, Open, b)
  {
    if b.mode == {} {
      return None;
    }
    var locks, locking := NOLOCKS, false;
    if Storage in v.attrs {
      locks := b.openLocks;
    }
    if UnitFaduLock in v.units {
      locking := b.locking;
    }
    taken := Some(Opening(b.mode, b.contents, locks, locking));
  }

  method TakeRequest(v: View, k: Kind, b: Body) returns (taken: Option<Body>)
    requires WellAsked(k, b)
    ensures taken == Stored(v, k, b)
  {
    hide WellCoded;
    match k {
      case Select => taken := TakeSelect(v, b);
      case Create => taken := TakeCreate(v, b);
      case Rdattr =>
        if b.names == {} {
          return None;
        }
        var names := Mask(v, b.names);
        taken := Some(Names(names));
      case Chattr => taken := TakeChange(v, b);
      case Open => taken := TakeOpen(v, b);
      case _ => taken := Some(b);
    }
  }

  method TakeAnswer(v: View, k: Kind, b: Body) returns (taken: Option<Body>)
    requires WellAnswered(k, b)
    ensures taken == AnswerTaken(v, k, b)
  {
    hide Codec.Fpm2attr, WellCoded;
    if b.coding.None? {
      return Some(Answered(b.ok, Codec.NOTHING));
    }
    var a :- DecodeAttributes(b.coding.value);
    var present := a.present;
    match k {
      case Select => present := present * {Filename};
      case Create => present := Mask(v, present * CREATION);
      case _ =>
        AllAttrs(present);
        assert present * ALLATTRS == present;
        present := Mask(v, present);
    }
    taken := Some(Answered(b.ok, a.(present := present)));
  }

  /** The parameters of one grouped PDU; None when they cannot be read. */
  method TakePdu(v: View, p: Pdu) returns (taken: Option<Body>)
    requires p.kind in Order() && WellSent(p)
    ensures taken == Received(v, p)
  {
    hide WellCoded, Stored, AnswerTaken;
    if p.request {
      if p.kind == Begin {
        return Some(Plain);
      }
      taken := TakeRequest(v, p.kind, p.body);
    } else {
      match p.kind {
        case Select | Create | Rdattr | Chattr | Open => taken := TakeAnswer(v, p.kind, p.body);
        case _ => taken := Some(Plain);
      }
    }
  }
}
