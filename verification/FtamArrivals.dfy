/**
 What arrives with each PDU of a group, whatever was sent, and which groups are
 indicated to their side: told of PDUs of any origin.
 */
module FtamArrivals {
  import opened Wrappers
  import opened FtamTypes
  import opened FtamGroups
  import opened FtamGroupTheorems
  import opened FtamReading
  import opened FtamRegime
  import opened FtamRuns
  import opened FtamTables
  import Codec = FtamAttributes

  // ----- Parameters -----

  /** An attribute whose group was negotiated. */
  predicate Covered(v: View, a: Attr) {
    match a
    case Filename => true
    case Actions => true
    case Contents => true
    case PrivateUse => true
    case Control => Security in v.attrs
    case LegalQuals => Security in v.attrs
    case _ => Storage in v.attrs
  }

  lemma CoveredIs(v: View, a: Attr)
    ensures Covered(v, a) <==> !Forbidden(v, a)
  {
    GroupsOfAttributes(v, a);
  }

  /** The marks and values as they were decoded; of what is present, what may be there. */
  predicate TakenAs(a: Codec.Attributes, read: Codec.Attributes, may: set<Attr>) {
    a.novalue == read.novalue && a.value == read.value && a.present == read.present * may
  }

  /** The attributes in `within` whose groups were negotiated. */
  function Eligible(v: View, within: set<Attr>): set<Attr> {
    set a | a in within && Covered(v, a)
  }

  lemma MaskedIs(v: View, read: Codec.Attributes, within: set<Attr>)
    ensures TakenAs(Masked(v, read, within), read, Eligible(v, within))
  {
    forall a ensures Covered(v, a) <==> !Forbidden(v, a) {
      CoveredIs(v, a);
    }
    assert forall a :: a in Masked(v, read, within).present <==> a in read.present && a in within && Covered(v, a);
  }

  /** All eight passwords, those that were not given empty, or none. */
  predicate PasswordsTaken(v: View, got: map<Perm, string>, given: map<Perm, string>) {
    if Security !in v.attrs || given == map[] then got == map[]
    else forall p: Perm :: p in got && got[p] == if p in given then given[p] else []
  }

  lemma PasswordsAre(v: View, b: Body)
    requires b.FileSent?
    ensures PasswordsTaken(v, Kept(v, b), b.passwords)
  {
    forall p: Perm ensures p in ALLPERMS {
      match p
      case ToRead =>
      case ToInsert =>
      case ToReplace =>
      case ToExtend =>
      case ToErase =>
      case ToReadAttr =>
      case ToChangeAttr =>
      case ToDelete =>
    }
  }

  predicate LocksTaken(v: View, got: Locks, given: Locks) {
    forall p: Perm :: got.Of(p) == if Storage in v.attrs then given.Of(p) else NotRequired
  }

  lemma LocksAre(v: View, given: Locks)
    ensures LocksTaken(v, Held(v, given), given)
  {
  }

  /** A select or create as it is taken. */
  predicate FileTaken(v: View, got: Body, b: Body, may: set<Attr>)
    requires b.FileSent? && Decoded(b.coding).Some?
  {
    && got.File? && TakenAs(got.attrs, Decoded(b.coding).value, may) && got.access == b.access && got.override == b.override
    && PasswordsTaken(v, got.passwords, b.passwords) && LocksTaken(v, got.locks, b.locks)
  }

  /** A select is taken exactly when its attributes can be decoded and it asks for some access; of its attributes only the name counts. */
  lemma SelectsTaken(v: View, b: Body)
    requires b.FileSent?
    ensures Received(v, Pdu(true, Select, b)).Some? <==> Decoded(b.coding).Some? && b.access != {}
    ensures Received(v, Pdu(true, Select, b)).Some? ==> FileTaken(v, Received(v, Pdu(true, Select, b)).value, b, {Filename})
  {
    hide Decoded, Kept, Held, PasswordsTaken, LocksTaken;
    PasswordsAre(v, b);
    LocksAre(v, b.locks);
  }

  /** A create must also have a name, permitted actions and a contents type; what a new file may not have, or was not negotiated, is passed over. */
  lemma CreatesTaken(v: View, b: Body)
    requires b.FileSent?
    ensures Received(v, Pdu(true, Create, b)).Some? <==>
              && Decoded(b.coding).Some? && b.access != {}
              && {Filename, Actions, Contents} <= Decoded(b.coding).value.present
    ensures Received(v, Pdu(true, Create, b)).Some? ==>
              FileTaken(v, Received(v, Pdu(true, Create, b)).value, b,
                        Eligible(v, {Filename, Actions, Contents, Account, Availability, FutureSize, Control, LegalQuals, PrivateUse}))
  {
    hide Decoded, Kept, Held, PasswordsTaken, LocksTaken, Eligible, Masked;
    PasswordsAre(v, b);
    LocksAre(v, b.locks);
    if Decoded(b.coding).Some? {
      MaskedIs(v, Decoded(b.coding).value, CREATION);
    }
  }

  /** Names to be read: some, and those whose groups were negotiated count. */
  lemma NamesTaken(v: View, b: Body)
    requires b.Names?
    ensures Received(v, Pdu(true, Rdattr, b)).Some? <==> b.names != {}
    ensures b.names != {} ==> Received(v, Pdu(true, Rdattr, b)) == Some(Names(Eligible(v, b.names)))
  {
    forall a ensures Covered(v, a) <==> !Forbidden(v, a) {
      CoveredIs(v, a);
    }
    assert Admitted(v, b.names) == Eligible(v, b.names);
  }

  /** A change is taken exactly when its attributes can be decoded and none is there with a value and a mark. */
  lemma ChangesTaken(v: View, b: Body)
    requires b.ChangesSent?
    ensures Received(v, Pdu(true, Chattr, b)).Some? <==>
              Decoded(b.coding).Some? && Decoded(b.coding).value.present !! Decoded(b.coding).value.novalue
    ensures Received(v, Pdu(true, Chattr, b)).Some? ==>
              && Received(v, Pdu(true, Chattr, b)).value.Changes?
              && TakenAs(Received(v, Pdu(true, Chattr, b)).value.attrs, Decoded(b.coding).value, set a | Covered(v, a))
  {
    hide Decoded, Masked;
    if Decoded(b.coding).Some? {
      var read := Decoded(b.coding).value;
      NoneInBoth(read.present, read.novalue);
      MaskedIs(v, read, ALLATTRS);
      AllAttrs(set a | Covered(v, a));
      assert Eligible(v, ALLATTRS) == set a | Covered(v, a);
    }
  }

  /** An open is taken with some mode, and locking only if that unit was negotiated. */
  lemma OpensTaken(v: View, b: Body)
    requires b.Opening?
    ensures var got := Received(v, Pdu(true, Open, b));
            if b.mode == {} then got == None
            else
              && got.Some? && got.value.Opening? && got.value.mode == b.mode && got.value.contents == b.contents
              && LocksTaken(v, got.value.openLocks, b.openLocks) && (got.value.locking <==> b.locking && UnitFaduLock in v.units)
  {
    LocksAre(v, b.openLocks);
  }

  /** An answer with attributes is kept with those that may be there; one to a select or create must have them. */
  lemma AnswersTaken(v: View, k: Kind, b: Body)
    requires b.Result? && k in {Select, Create, Rdattr, Chattr, Open}
    ensures var got := Received(v, Pdu(false, k, b));
            match b.coding
            case None => if k == Select || k == Create then got == None else got == Some(Answered(b.ok, Codec.NOTHING))
            case Some(m) =>
              match Codec.Fpm2attr(m)
              case None => got == None
              case Some(read) =>
                && got.Some? && got.value.Answered? && got.value.ok == b.ok
                && TakenAs(got.value.attrs, read,
                           if k == Select then {Filename}
                           else if k == Create then
                             Eligible(v, {Filename, Actions, Contents, Account, Availability, FutureSize, Control, LegalQuals, PrivateUse})
                           else set a | Covered(v, a))
  {
    hide Codec.Fpm2attr, Masked;
    if b.coding.Some? && Codec.Fpm2attr(b.coding.value).Some? {
      var read := Codec.Fpm2attr(b.coding.value).value;
      MaskedIs(v, read, Within(k));
      AllAttrs(set a | Covered(v, a));
      assert Eligible(v, ALLATTRS) == set a | Covered(v, a);
    }
  }

  // ----- Groups -----

  predicate AllGrouped(ps: seq<Pdu>) {
    forall p :: p in ps ==> p.kind in Order()
  }

  ghost predicate Spelled(t: GroupType, ks: seq<Kind>) {
    exists h: Shape :: Legal(t, h) && ks == Spell(h)
  }

  lemma {:induction false} GroupReceived(x: Side, ps: seq<Pdu>)
    requires AllGrouped(ps) && FromPeer(x.view, ps)
    ensures Receive(x, Pdus(ps)) ==
            if Taken(!x.view.initiator, Kinds(ps)) && AllRead(x.view, ps)
            then GroupArrived(x, Scan({}, Counted(0, ps), Put(x.view, map[], ps)), |ps|) else Abort
  {
    hide Received, Permitted, Walk, ScanPdus, GroupArrived, Put, Counted, AllRead;
    StepsIsScan(x, START, ps);
    ScanIsWalk(x.view, START, ps);
  }

  lemma {:induction false} RequestArrived(x: Side, ps: seq<Pdu>, t: GroupType)
    requires !x.view.initiator && AllRead(x.view, ps) && Spelled(t, Kinds(ps))
    ensures GroupArrived(x, Scan({}, Counted(0, ps), Put(x.view, map[], ps)), |ps|) ==
            if Counted(0, ps) == |ps| - 2 && Timely(x.view, x.state, t)
            then Told(x.(state := Asked(t), group := set p | p in ps :: p.kind)) else Abort
  {
    hide Legal, Spell, Timely, Put, Counted, AllRead, Concluded, RightFlags, Flags, Kinds, Asked;
    var s := Scan({}, Counted(0, ps), Put(x.view, map[], ps));
    ArrivedKinds(x.view, ps);
    var h: Shape :| Legal(t, h) && Kinds(ps) == Spell(h);
    KindsTaken(x.view, ps, t, h);
    SpelledFlags(t, h);
    ConcludedAs(x.view, x.state, x.group, s, |ps|, t);
  }

  lemma ArrivedKinds(v: View, ps: seq<Pdu>)
    requires AllRead(v, ps)
    ensures Put(v, map[], ps).Keys == set p | p in ps :: p.kind
  {
    hide AllRead, Put, Kinds;
    PutKeys(v, map[], ps);
    KindsAre(ps);
    var none: map<Kind, Body> := map[];
    assert none.Keys == {};
  }

  /**
   A responder is told of a group, stray deletes aside, exactly when it is spelled as a
   group of some type whose time it is, the threshold fits, and every PDU can be read
   and has its unit.
   */
  lemma {:induction false} RequestsToldExactly(x: Side, ps: seq<Pdu>)
    requires !x.view.initiator && AllGrouped(ps) && FromPeer(x.view, ps) && !Stray(Kinds(ps))
    ensures Receive(x, Pdus(ps)).Told? <==>
              AllRead(x.view, ps) && Counted(0, ps) == |ps| - 2 && exists t :: Spelled(t, Kinds(ps)) && Timely(x.view, x.state, t)
    ensures forall t :: Receive(x, Pdus(ps)).Told? && Spelled(t, Kinds(ps)) ==>
              Receive(x, Pdus(ps)).side == x.(state := Asked(t), group := set p | p in ps :: p.kind)
  {
    hide Receive, Timely, AllRead, Counted, GroupArrived, FromPeer, Asked, Stray, Taken;
    GroupReceived(x, ps);
    SpelledIsTaken(ps);
    if AllRead(x.view, ps) {
      forall t | Spelled(t, Kinds(ps))
        ensures GroupArrived(x, Scan({}, Counted(0, ps), Put(x.view, map[], ps)), |ps|) ==
                if Counted(0, ps) == |ps| - 2 && Timely(x.view, x.state, t)
                then Told(x.(state := Asked(t), group := set p | p in ps :: p.kind)) else Abort
      {
        RequestArrived(x, ps, t);
      }
    }
  }

  lemma SpelledIsTaken(ps: seq<Pdu>)
    requires !Stray(Kinds(ps))
    ensures Taken(true, Kinds(ps)) <==> exists t :: Spelled(t, Kinds(ps))
  {
    hide Taken, Stray, Legal, Spell;
    var ks := Kinds(ps);
    RequestAutomatonIsTheGrammar(ks);
    if t, h: Shape :| Legal(t, h) && ks == Spell(h) {
      assert Spelled(t, ks);
    }
    if t :| Spelled(t, ks) {
      var h: Shape :| Legal(t, h) && ks == Spell(h);
    }
  }

  lemma KindsAre(ps: seq<Pdu>)
    ensures (set k | k in Kinds(ps)) == set p | p in ps :: p.kind
  {
    forall k ensures k in Kinds(ps) <==> exists p :: p in ps && p.kind == k {
      if k in Kinds(ps) {
        var i :| 0 <= i < |ps| && Kinds(ps)[i] == k;
        assert ps[i] in ps && ps[i].kind == k;
      }
      if p :| p in ps && p.kind == k {
        var i :| 0 <= i < |ps| && ps[i] == p;
        assert Kinds(ps)[i] == k;
      }
    }
  }

  lemma ConcludedAs(v: View, st: State, group: set<Kind>, s: Scan, count: nat, t: GroupType)
    requires !v.initiator && RightFlags(t, s.parts.Keys) && s.next == {}
    ensures Concluded(v, st, group, s, count) == if s.threshold == count - 2 && Timely(v, st, t) then Some(Asked(t)) else None
  {
  }

  /** A select or create that is answered alone. */
  predicate Short(ks: seq<Kind>) {
    ks == [Begin, Select, End] || ks == [Begin, Create, End]
  }

  /** Whether a side has asked for what these answers answer. */
  ghost predicate Awaits(x: Side, ks: seq<Kind>) {
    if x.state == BulkEnd then x.view.service in {Transfer, TransferManage, Access} && Spelled(ForBulkEnd, ks)
    else x.state in {Management, BulkBegin} && (Short(ks) || Spelled(ForManagement, ks) || Spelled(ForBulkBegin, ks))
  }

  lemma AnswersSpelled(ks: seq<Kind>)
    ensures Taken(false, ks) <==> Short(ks) || Spelled(ForManagement, ks) || Spelled(ForBulkBegin, ks) || Spelled(ForBulkEnd, ks)
  {
    hide Taken, Legal, Spell;
    ReplyAutomatonIsTheGrammar(ks);
    if t, h: Shape :| Legal(t, h) && ks == Spell(h) {
      assert Spelled(t, ks);
      assert t == ForManagement || t == ForBulkBegin || t == ForBulkEnd;
    }
  }

  lemma AnswerHeads(ks: seq<Kind>)
    ensures Short(ks) || Spelled(ForManagement, ks) || Spelled(ForBulkBegin, ks) ==> (Select in ks || Create in ks) && Close !in ks
    ensures Spelled(ForBulkEnd, ks) ==> Select !in ks && Create !in ks && Close in ks
  {
    forall t | Spelled(t, ks)
      ensures if t == ForBulkEnd then Select !in ks && Create !in ks && Close in ks else (Select in ks || Create in ks) && Close !in ks
    {
      var h: Shape :| Legal(t, h) && ks == Spell(h);
      InSpell(h, Select);
      InSpell(h, Create);
      InSpell(h, Close);
    }
  }

  lemma ReplyConcluded(v: View, st: State, group: set<Kind>, s: Scan, count: nat)
    requires v.initiator && s.next == {}
    ensures var c, f := Concluded(v, st, group, s, count), s.parts.Keys;
            && (Select in f || Create in f ==> (c.Some? <==> st in {Management, BulkBegin} && f <= group))
            && (Select !in f && Create !in f && Close in f ==>
                  (c.Some? <==> st == BulkEnd && f <= group && v.service in {Transfer, TransferManage, Access}))
            && (c.Some? ==> c.value in {Initialized, DataIdle} && (st != BulkBegin ==> c.value == Initialized))
  {
    hide Succeeded;
  }

  lemma ReplyArrived(x: Side, ps: seq<Pdu>)
    requires x.view.initiator && AllRead(x.view, ps) && Taken(false, Kinds(ps))
    ensures var r := GroupArrived(x, Scan({}, Counted(0, ps), Put(x.view, map[], ps)), |ps|);
            && (r.Told? <==> Awaits(x, Kinds(ps)) && forall p :: p in ps ==> p.kind in x.group)
            && (r.Told? ==> r.side == x.(state := r.side.state) && r.side.state in {Initialized, DataIdle})
            && (r.Told? && x.state != BulkBegin ==> r.side.state == Initialized)
  {
    hide AllRead, Put, Taken, Counted, Short, Spelled, Concluded, Kinds;
    var ks, f := Kinds(ps), Put(x.view, map[], ps).Keys;
    ReplyConcluded(x.view, x.state, x.group, Scan({}, Counted(0, ps), Put(x.view, map[], ps)), |ps|);
    ArrivedKinds(x.view, ps);
    AnswersSpelled(ks);
    AnswerHeads(ks);
    forall k ensures k in f <==> k in ks {
      KindsAre(ps);
      assert k in ks <==> k in set j | j in ks;
    }
    assert f <= x.group <==> forall p :: p in ps ==> p.kind in x.group;
  }

  /**
   An initiator is told of a reply exactly when it waits for one of that type, every
   PDU can be read and has its unit, and each answers what was asked; it is then back
   in the regime, or in the data regime.
   */
  lemma {:induction false} RepliesToldExactly(x: Side, ps: seq<Pdu>)
    requires x.view.initiator && AllGrouped(ps) && FromPeer(x.view, ps)
    ensures Receive(x, Pdus(ps)).Told? <==>
              AllRead(x.view, ps) && Awaits(x, Kinds(ps)) && forall p :: p in ps ==> p.kind in x.group
    ensures Receive(x, Pdus(ps)).Told? ==>
              var x' := Receive(x, Pdus(ps)).side;
              && x' == x.(state := x'.state) && x'.state in {Initialized, DataIdle}
              && (x.state != BulkBegin ==> x'.state == Initialized)
  {
    hide Receive, AllRead, Counted, GroupArrived, FromPeer, Taken, Put, Short, Spelled;
    GroupReceived(x, ps);
    AnswersSpelled(Kinds(ps));
    if AllRead(x.view, ps) && Taken(false, Kinds(ps)) {
      ReplyArrived(x, ps);
    }
  }
}
