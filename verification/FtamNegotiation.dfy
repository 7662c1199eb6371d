/**
 What the two sides agree on when the association is set up:
 ftam/ftaminitiate.c offers and confirms, ftam/ftamrespond.c takes the offer and
 chooses.  The views that come out are those `FtamNet` starts from.
 */
module FtamNegotiation {
  import opened Wrappers
  import opened FtamTypes
  import opened FtamGroups
  import opened FtamGroupTheorems
  import opened FtamReading

  const CLASSES := {Transfer, TransferManage, Manage, Access}
  const MYUNITS := {UnitRead, UnitWrite, UnitAccess, UnitLimited, UnitEnhanced, UnitGrouping, UnitFaduLock}
  const MYATTRS := {Storage, Security}

  /** What the caller of `FInitializeRequest` wants. */
  datatype Offer = Offer(manage: bool, classes: set<Class>, units: set<Unit>, attrs: set<AttrGroup>)

  /** What goes over the wire, either way; a class that is left out is the transfer class. */
  datatype Terms = Terms(classes: Option<set<Class>>, units: set<Unit>, attrs: Option<set<AttrGroup>>)

  function Mandatory(c: Class): set<Unit> {
    match c
    case Transfer => {UnitGrouping}
    case Access => {UnitRead, UnitWrite, UnitAccess}
    case Manage => {UnitLimited, UnitGrouping}
    case TransferManage => {UnitLimited, UnitGrouping}
    case Unconstrained => {}
  }

  function Illegal(c: Class): set<Unit> {
    match c
    case Transfer => {UnitAccess, UnitFaduLock}
    case TransferManage => {UnitAccess, UnitFaduLock}
    case Manage => {UnitRead, UnitWrite, UnitAccess, UnitFaduLock, UnitRecovery, UnitRestart}
    case _ => {}
  }

  predicate Transfers(c: Class) {
    c == Transfer || c == TransferManage
  }

  /** The checks at the head of `FInitializeRequest`. */
  predicate MayOffer(o: Offer) {
    !o.manage && o.units <= MYUNITS && (UnitEnhanced in o.units ==> UnitLimited in o.units) &&
    (forall c :: c in o.classes ==> Mandatory(c) <= o.units) &&
    (Transfer in o.classes || TransferManage in o.classes ==> UnitRead in o.units || UnitWrite in o.units) &&
    o.classes * CLASSES != {} && UnitGrouping in o.units && o.attrs <= MYATTRS
  }

  function Wire(classes: set<Class>, units: set<Unit>, attrs: set<AttrGroup>): Terms {
    Terms(if classes == {Transfer} then None else Some(classes), units, if attrs == {} then None else Some(attrs))
  }

  function Offered(o: Offer): Option<Terms> {
    if MayOffer(o) then Some(Wire(o.classes * CLASSES, o.units, o.attrs)) else None
  }

  /** The reader of bit strings takes an empty one for an error. */
  function Classes(t: Terms): set<Class> {
    if t.classes.Some? then t.classes.value else {Transfer}
  }

  function Attrs(t: Terms): set<AttrGroup> {
    if t.attrs.Some? then t.attrs.value else {}
  }

  predicate Legible(t: Terms) {
    t.classes != Some({}) && t.units != {} && t.attrs != Some({})
  }

  function AllMandatory(classes: set<Class>): set<Unit> {
    (if Transfer in classes then Mandatory(Transfer) else {}) + (if TransferManage in classes then Mandatory(TransferManage) else {}) +
    (if Access in classes then Mandatory(Access) else {}) + (if Manage in classes then Mandatory(Manage) else {})
  }

  /** The responder takes the request in (`FInit`). */
  function TakenIn(t: Terms): Option<Offer> {
    var classes := Classes(t) * CLASSES;
    var units := t.units + AllMandatory(Classes(t));
    if !Legible(t) || classes == {} || (UnitLimited !in units && UnitEnhanced in units) || UnitGrouping !in units then None
    else Some(Offer(false, classes, units, Attrs(t)))
  }

  /** Some of the mandatory units are there: all that either side asks. */
  predicate Enough(c: Class, units: set<Unit>) {
    Mandatory(c) * units != {} && (Transfers(c) ==> UnitRead in units || UnitWrite in units) && Illegal(c) * units == {}
  }

  /** The responder's choice (`FInitializeResponse`), when it accepts. */
  function Chosen(seen: Offer, classes: set<Class>, units: set<Unit>, attrs: set<AttrGroup>): Option<(View, Terms)> {
    var common := classes * seen.classes;
    if !(exists c :: c in CLASSES && common == {c}) then None
    else
      var c :| c in CLASSES && common == {c};
      if !(units <= seen.units) || (UnitLimited !in units && UnitEnhanced in units) || !Enough(c, units) || !(attrs <= seen.attrs)
      then None
      else Some((View(false, c, units, attrs), Wire({c}, units, attrs)))
  }

  /** The initiator reads the response, up to the point where the association is accepted. */
  function Agreed(o: Offer, t: Terms): Option<View> {
    if !Legible(t) || !(exists c :: c in CLASSES && Classes(t) == {c}) then None
    else
      var c :| c in CLASSES && Classes(t) == {c};
      var units := t.units + Mandatory(c);
      if c !in o.classes || !(units <= o.units) || !Enough(c, units) || !(Attrs(t) <= o.attrs) then None
      else Some(View(true, c, units, Attrs(t)))
  }

  // ----- Properties -----

  /** Whatever the peer answers, the initiator ends up with one of the classes it offered, all its mandatory units and none it may not have. */
  lemma AgreementIsSound(o: Offer, t: Terms)
    requires MayOffer(o) && Agreed(o, t).Some?
    ensures var v := Agreed(o, t).value;
            v.initiator && v.service in o.classes && v.service != Unconstrained &&
            Mandatory(v.service) <= v.units <= o.units && Illegal(v.service) * v.units == {} &&
            (Transfers(v.service) ==> UnitRead in v.units || UnitWrite in v.units) && v.attrs <= o.attrs
  {
  }

  /** What of a response decides: its own bits alone, since the offer has all mandatory units and the test for some of them never fails. */
  predicate Fair(o: Offer, t: Terms, c: Class) {
    c in CLASSES && c in o.classes && Classes(t) == {c} && t.units <= o.units && Attrs(t) <= o.attrs &&
    (Transfers(c) ==> UnitRead in t.units || UnitWrite in t.units) && Illegal(c) * t.units == {}
  }

  /** A response is accepted exactly when it is legible and fair, and then every unit of its class is taken for granted. */
  lemma FairIsAgreed(o: Offer, t: Terms)
    requires MayOffer(o)
    ensures Agreed(o, t).Some? <==> Legible(t) && exists c :: Fair(o, t, c)
    ensures forall c :: Legible(t) && Fair(o, t, c) ==> Agreed(o, t) == Some(View(true, c, t.units + Mandatory(c), Attrs(t)))
  {
    forall c | Legible(t) && Fair(o, t, c)
      ensures Agreed(o, t) == Some(View(true, c, t.units + Mandatory(c), Attrs(t)))
    {
      SomeMandatory(c, t.units);
      ConfirmedChoice(o, t, c, t.units, Attrs(t));
    }
    if Agreed(o, t).Some? {
      var c := Agreed(o, t).value.service;
      AgreedIsFair(o, t, c);
    }
  }

  lemma AgreedIsFair(o: Offer, t: Terms, c: Class)
    requires MayOffer(o) && Agreed(o, t).Some? && c == Agreed(o, t).value.service
    ensures Fair(o, t, c)
  {
    var units := t.units + Mandatory(c);
    assert forall u :: u in t.units ==> u in units;
    assert forall u :: u in Illegal(c) * t.units ==> u in Illegal(c) * units;
    assert Transfers(c) ==> UnitRead !in Mandatory(c) && UnitWrite !in Mandatory(c);
  }

  lemma SomeMandatory(c: Class, units: set<Unit>)
    requires c in CLASSES && (Transfers(c) ==> UnitRead in units || UnitWrite in units) && Illegal(c) * units == {}
    ensures Enough(c, units + Mandatory(c))
  {
    assert Illegal(c) * Mandatory(c) == {};
    assert Illegal(c) * (units + Mandatory(c)) == Illegal(c) * units + Illegal(c) * Mandatory(c);
    assert Mandatory(c) * (units + Mandatory(c)) == Mandatory(c);
    assert c != Transfer || UnitGrouping in Mandatory(c);
    assert Mandatory(c) != {} by {
      assert UnitGrouping in Mandatory(c) || UnitRead in Mandatory(c);
    }
  }

  lemma MandatoryOfAll(classes: set<Class>, units: set<Unit>)
    requires classes <= CLASSES && forall c :: c in classes ==> Mandatory(c) <= units
    ensures units + AllMandatory(classes) == units
  {
    assert Transfer in classes ==> Mandatory(Transfer) <= units;
    assert TransferManage in classes ==> Mandatory(TransferManage) <= units;
    assert Access in classes ==> Mandatory(Access) <= units;
    assert Manage in classes ==> Mandatory(Manage) <= units;
  }

  /** The responder sees every offer as it was made. */
  lemma OffersAreTakenIn(o: Offer)
    requires MayOffer(o)
    ensures TakenIn(Offered(o).value) == Some(Offer(false, o.classes * CLASSES, o.units, o.attrs))
  {
    var t := Offered(o).value;
    assert Classes(t) == o.classes * CLASSES;
    assert (o.classes * CLASSES) * CLASSES == o.classes * CLASSES;
    assert forall c :: c in o.classes * CLASSES ==> c in o.classes;
    MandatoryOfAll(o.classes * CLASSES, o.units);
  }

  lemma OneClass(classes: set<Class>, c: Class, d: Class)
    requires classes == {c} == {d}
    ensures c == d
  {
    assert c in {d};
  }

  /**
   Every choice the responder is allowed is accepted by the initiator, with the
   same class and attribute groups; the functional units are the same exactly
   when the choice has all the mandatory ones.  Neither side checks that: it is
   enough for the code that one of them is there.
   */
  lemma ViewsAgreeExactly(o: Offer, classes: set<Class>, units: set<Unit>, attrs: set<AttrGroup>)
    requires MayOffer(o)
    requires Chosen(TakenIn(Offered(o).value).value, classes, units, attrs).Some?
    ensures var (w, t) := Chosen(TakenIn(Offered(o).value).value, classes, units, attrs).value;
            Agreed(o, t).Some? &&
            Agreed(o, t).value.service == w.service && Agreed(o, t).value.attrs == w.attrs &&
            (Agreed(o, t).value == Peer(w) <==> Mandatory(w.service) <= units)
  {
    OffersAreTakenIn(o);
    var seen := TakenIn(Offered(o).value).value;
    var (w, t) := Chosen(seen, classes, units, attrs).value;
    var c := w.service;
    assert classes * seen.classes == {c};
    assert c in classes * seen.classes && c in o.classes;
    assert Classes(t) == {c} && Attrs(t) == attrs;
    assert Mandatory(c) * units != {};
    assert units != {};
    assert Legible(t);
    MandatoryIsLegal(c, units);
    ConfirmedChoice(o, t, c, units, attrs);
    assert units + Mandatory(c) == units <==> Mandatory(c) <= units;
  }

  lemma MandatoryIsLegal(c: Class, units: set<Unit>)
    requires Enough(c, units)
    ensures Enough(c, units + Mandatory(c))
  {
    assert Illegal(c) * Mandatory(c) == {};
    assert Illegal(c) * (units + Mandatory(c)) == Illegal(c) * units + Illegal(c) * Mandatory(c);
    assert Mandatory(c) * (units + Mandatory(c)) == Mandatory(c);
  }

  lemma ConfirmedChoice(o: Offer, t: Terms, c: Class, units: set<Unit>, attrs: set<AttrGroup>)
    requires MayOffer(o) && Legible(t) && c in CLASSES && c in o.classes && Classes(t) == {c} && Attrs(t) == attrs
    requires t.units == units <= o.units && attrs <= o.attrs && Enough(c, units + Mandatory(c))
    ensures Agreed(o, t) == Some(View(true, c, units + Mandatory(c), attrs))
  {
    assert Mandatory(c) <= o.units;
    assert units + Mandatory(c) <= o.units;
    forall d | d in CLASSES && Classes(t) == {d} ensures d == c {
      OneClass(Classes(t), c, d);
    }
  }

  /**
   A choice that does go wrong: grouping left out of the transfer-and-management
   class.  The initiator takes it for granted, and the responder then breaks off
   at the first group.
   */
  lemma NegotiatedApart(o: Offer, t: GroupType, st: State, g: Group)
    requires MayOffer(o) && TransferManage in o.classes && UnitRead in o.units
    requires WellTyped(g)
    ensures var seen := TakenIn(Offered(o).value).value;
            var made := Chosen(seen, {TransferManage}, {UnitLimited, UnitRead}, {});
            made.Some? && Agreed(o, made.value.1).Some? &&
            UnitGrouping in Agreed(o, made.value.1).value.units && UnitGrouping !in made.value.0.units &&
            (Acceptable(Agreed(o, made.value.1).value, st, t, g) ==> ScanPdus(made.value.0, START, Emit(g)) == None)
  {
    OffersAreTakenIn(o);
    var seen := TakenIn(Offered(o).value).value;
    var units := {UnitLimited, UnitRead};
    assert {TransferManage} * seen.classes == {TransferManage};
    assert Mandatory(TransferManage) <= o.units;
    assert UnitLimited in Mandatory(TransferManage) * units;
    assert Illegal(TransferManage) * units == {};
    forall d | d in CLASSES && {TransferManage} * seen.classes == {d} ensures d == TransferManage {
      OneClass({TransferManage}, TransferManage, d);
    }
    ViewsAgreeExactly(o, {TransferManage}, units, {});
    var made := Chosen(seen, {TransferManage}, units, {}).value;
    var v := Agreed(o, made.1).value;
    AgreementIsSound(o, made.1);
    if Acceptable(v, st, t, g) {
      NoGrouping(v, made.0, t, g);
    }
  }

  lemma {:induction false} NoGrouping(v: View, w: View, t: GroupType, g: Group)
    requires WellTyped(g) && RightFlags(t, g.parts.Keys) && v.initiator && !w.initiator && UnitGrouping !in w.units
    ensures ScanPdus(w, START, Emit(g)) == None
  {
    forall p | p in Emit(g) ensures p.request != w.initiator {
      EmitContents(g, 0, p);
    }
    ScanIsWalk(w, START, Emit(g));
    assert Order()[0..] == Order();
    EmitContents(g, 0, Sent(g, Begin));
    assert !Permitted(w, Sent(g, Begin).kind);
  }

  // ----- In the form of the code -----

  datatype Setting = ByInitiator | ByResponder | ByChoice

  /**
   The session tokens, one after the other: the ones required are available, and
   the initiator owns those set to its side.  The association goes on exactly if
   it owns them all.
   */
  method TakeTokens(required: seq<bool>, setting: seq<Setting>) returns (fine: bool, owned: set<nat>, avail: set<nat>)
    requires |required| == |setting|
    ensures fine <==> forall i :: 0 <= i < |required| && required[i] ==> setting[i] == ByInitiator
    ensures fine ==> owned == avail == set i | 0 <= i < |required| && required[i]
  {
    fine, owned, avail := true, {}, {};
    for i := 0 to |required|
      invariant fine
      invariant avail == set j | 0 <= j < i && required[j]
      invariant owned == set j | 0 <= j < i && required[j] && setting[j] == ByInitiator
    {
      if required[i] {
        match setting[i] {
          case ByInitiator => owned, avail := owned + {i}, avail + {i};
          case ByResponder => avail := avail + {i};
          case ByChoice => return false, owned, avail;
        }
      }
    }
    assert forall i :: 0 <= i < |required| && required[i] ==> i in avail && (i in owned <==> setting[i] == ByInitiator);
    if owned != avail {
      assert exists i :: i in avail && i !in owned;
      fine := false;
    }
  }

  /** The part of `FInitializeRequestAux` that reads the response. */
  method Confirm(o: Offer, t: Terms) returns (v: Option<View>)
    ensures v == Agreed(o, t)
  {
    var service: Class;
    if t.classes == None || t.classes == Some({Transfer}) {
      service := Transfer;
    } else if t.classes == Some({TransferManage}) {
      service := TransferManage;
    } else if t.classes == Some({Access}) {
      service := Access;
    } else if t.classes == Some({Manage}) {
      service := Manage;
    } else {
      return None;
    }
    if service !in o.classes {
      UniqueClass(t, service);
      return None;
    }
    UniqueClass(t, service);
    var units := t.units + Mandatory(service);
    if t.units == {} || !(units <= o.units) {
      return None;
    }
    match service {
      case Transfer | TransferManage =>
        if Mandatory(service) * units == {} || (UnitRead !in units && UnitWrite !in units) { return None; }
        assert forall u :: u in Illegal(service) * units <==> u in {UnitAccess, UnitFaduLock} && u in units;
        if UnitAccess in units || UnitFaduLock in units { return None; }
      case Access => if Mandatory(Access) * units == {} { return None; }
      case Manage =>
        if Mandatory(Manage) * units == {} || Illegal(Manage) * units != {} { return None; }
    }
    if t.attrs == Some({}) || !(Attrs(t) <= o.attrs) {
      return None;
    }
    v := Some(View(true, service, units, Attrs(t)));
  }

  lemma UniqueClass(t: Terms, c: Class)
    requires c in CLASSES && Classes(t) == {c}
    ensures forall d :: d in CLASSES && Classes(t) == {d} ==> d == c
  {
    forall d | d in CLASSES && Classes(t) == {d} ensures d == c {
      OneClass(Classes(t), c, d);
    }
  }
}
