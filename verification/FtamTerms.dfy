/**
 The terms of an association as tables: exactly which offers, requests, choices and
 responses pass, and which functional units each side then holds, class by class and
 unit by unit.
 */
module FtamTerms {
  import opened Wrappers
  import opened FtamTypes
  import opened FtamGroups
  import opened FtamNegotiation

  /** The units that go with a class whether they were named or not. */
  predicate GoesWith(c: Class, u: Unit) {
    match u
    case UnitGrouping => c in {Transfer, TransferManage, Manage}
    case UnitLimited => c in {TransferManage, Manage}
    case UnitRead => c == Access
    case UnitWrite => c == Access
    case UnitAccess => c == Access
    case _ => false
  }

  lemma GoesWithIs(c: Class, u: Unit)
    ensures u in Mandatory(c) <==> GoesWith(c, u)
  {
  }

  /** The units a class is not to have. */
  predicate GoesAgainst(c: Class, u: Unit) {
    match u
    case UnitAccess => c in {Transfer, TransferManage, Manage}
    case UnitFaduLock => c in {Transfer, TransferManage, Manage}
    case UnitRead => c == Manage
    case UnitWrite => c == Manage
    case UnitRecovery => c == Manage
    case UnitRestart => c == Manage
    case _ => false
  }

  lemma GoesAgainstIs(c: Class, u: Unit)
    ensures u in Illegal(c) <==> GoesAgainst(c, u)
  {
  }

  /** What is asked of a choice of units: some that go with the class, none against it, and a direction for a transfer. */
  predicate Serves(c: Class, units: set<Unit>) {
    match c
    case Transfer => UnitGrouping in units && (UnitRead in units || UnitWrite in units) && units !! {UnitAccess, UnitFaduLock}
    case TransferManage =>
      && (UnitLimited in units || UnitGrouping in units) && (UnitRead in units || UnitWrite in units)
      && units !! {UnitAccess, UnitFaduLock}
    case Manage =>
      && (UnitLimited in units || UnitGrouping in units)
      && units !! {UnitRead, UnitWrite, UnitAccess, UnitFaduLock, UnitRecovery, UnitRestart}
    case Access => UnitRead in units || UnitWrite in units || UnitAccess in units
    case Unconstrained => false
  }

  lemma Meets(s: set<Unit>, t: set<Unit>)
    ensures s * t == {} <==> forall u :: u in s ==> u !in t
  {
    if s * t == {} {
      forall u | u in s ensures u !in t {
        assert u in t ==> u in s * t;
      }
    }
  }

  lemma ServesIs(c: Class, units: set<Unit>)
    ensures Enough(c, units) <==> Serves(c, units)
  {
    Meets(Mandatory(c), units);
    Meets(Illegal(c), units);
    Unwanted(c, units);
  }

  lemma Unwanted(c: Class, units: set<Unit>)
    ensures (forall u :: u in Illegal(c) ==> u !in units) <==>
              match c
              case Transfer => units !! {UnitAccess, UnitFaduLock}
              case TransferManage => units !! {UnitAccess, UnitFaduLock}
              case Manage => units !! {UnitRead, UnitWrite, UnitAccess, UnitFaduLock, UnitRecovery, UnitRestart}
              case _ => true
  {
    forall u ensures u in Illegal(c) <==> GoesAgainst(c, u) {
      GoesAgainstIs(c, u);
    }
  }

  /**
   An offer is made exactly when it does not ask for management of the association,
   names a class, no units and groups but those the program has, grouping among them,
   limited management with enhanced, and for each class what goes with it.
   */
  lemma OfferedExactly(o: Offer)
    ensures Offered(o).Some? <==>
              && !o.manage && (exists c :: c in o.classes && c != Unconstrained)
              && UnitGrouping in o.units && UnitRecovery !in o.units && UnitRestart !in o.units && Private !in o.attrs
              && (UnitEnhanced in o.units || Manage in o.classes || TransferManage in o.classes ==> UnitLimited in o.units)
              && (Access in o.classes ==> UnitRead in o.units && UnitWrite in o.units && UnitAccess in o.units)
              && (Transfer in o.classes || TransferManage in o.classes ==> UnitRead in o.units || UnitWrite in o.units)
    ensures Offered(o).Some? ==>
              var t := Offered(o).value;
              && t.units == o.units && (t.classes.None? <==> o.classes - {Unconstrained} == {Transfer})
              && (t.classes.Some? ==> t.classes.value == o.classes - {Unconstrained})
              && (t.attrs.None? <==> o.attrs == {}) && (t.attrs.Some? ==> t.attrs.value == o.attrs)
  {
    FiveClasses(o.classes);
    OwnUnits(o.units);
    OwnGroups(o.attrs);
    forall c ensures Mandatory(c) <= o.units <==> forall u :: GoesWith(c, u) ==> u in o.units {
      forall u ensures u in Mandatory(c) <==> GoesWith(c, u) {
        GoesWithIs(c, u);
      }
    }
  }

  lemma FiveClasses(classes: set<Class>)
    ensures classes * CLASSES == classes - {Unconstrained}
    ensures classes * CLASSES != {} <==> exists c :: c in classes && c != Unconstrained
  {
    forall c ensures c in classes * CLASSES <==> c in classes && c != Unconstrained {
      match c
      case Unconstrained =>
      case Manage =>
      case Transfer =>
      case TransferManage =>
      case Access =>
    }
  }

  lemma OwnUnits(units: set<Unit>)
    ensures units <= MYUNITS <==> UnitRecovery !in units && UnitRestart !in units
  {
    forall u ensures u in MYUNITS <==> u != UnitRecovery && u != UnitRestart {
      match u
      case UnitRead =>
      case UnitWrite =>
      case UnitAccess =>
      case UnitLimited =>
      case UnitEnhanced =>
      case UnitGrouping =>
      case UnitFaduLock =>
      case UnitRecovery =>
      case UnitRestart =>
    }
  }

  lemma OwnGroups(attrs: set<AttrGroup>)
    ensures attrs <= MYATTRS <==> Private !in attrs
  {
    forall a ensures a in MYATTRS <==> a != Private {
      match a
      case Storage =>
      case Security =>
      case Private =>
    }
  }

  /** The classes a request asks for. */
  function AskedFor(t: Terms): set<Class> {
    match t.classes
    case None => {Transfer}
    case Some(classes) => classes
  }

  /** A unit that is in the request or goes with one of its classes. */
  predicate SeenIn(t: Terms, u: Unit) {
    u in t.units || exists c :: c in AskedFor(t) && GoesWith(c, u)
  }

  lemma SeenInIs(t: Terms, u: Unit)
    ensures u in t.units + AllMandatory(Classes(t)) <==> SeenIn(t, u)
  {
    forall c ensures u in Mandatory(c) <==> GoesWith(c, u) {
      GoesWithIs(c, u);
    }
    assert AskedFor(t) == Classes(t);
    if SeenIn(t, u) && u !in t.units {
      var c :| c in Classes(t) && GoesWith(c, u);
      assert c != Unconstrained;
    }
  }

  /**
   A request is taken in exactly when no bit string in it is empty, it names a class,
   and grouping, and limited management if enhanced is there, are seen in it; the
   responder then sees the classes, the units with all that goes with them, and the groups.
   */
  lemma TakenInExactly(t: Terms)
    ensures TakenIn(t).Some? <==>
              && t.classes != Some({}) && t.units != {} && t.attrs != Some({})
              && (exists c :: c in AskedFor(t) && c != Unconstrained)
              && SeenIn(t, UnitGrouping) && (SeenIn(t, UnitEnhanced) ==> SeenIn(t, UnitLimited))
    ensures TakenIn(t).Some? ==>
              var o := TakenIn(t).value;
              && !o.manage && o.classes == AskedFor(t) - {Unconstrained}
              && (forall u :: u in o.units <==> SeenIn(t, u))
              && (forall a :: a in o.attrs <==> t.attrs.Some? && a in t.attrs.value)
  {
    FiveClasses(Classes(t));
    assert AskedFor(t) == Classes(t);
    forall u ensures u in t.units + AllMandatory(Classes(t)) <==> SeenIn(t, u) {
      SeenInIs(t, u);
    }
  }

  /** A choice the responder may make. */
  predicate MayChoose(seen: Offer, classes: set<Class>, units: set<Unit>, attrs: set<AttrGroup>, c: Class) {
    && c in classes && c in seen.classes && (forall d :: d in classes && d in seen.classes ==> d == c)
    && units <= seen.units && attrs <= seen.attrs
    && (UnitEnhanced in units ==> UnitLimited in units) && Serves(c, units)
  }

  lemma OneInCommon(s: set<Class>, t: set<Class>, c: Class)
    ensures s * t == {c} <==> c in s && c in t && forall d :: d in s && d in t ==> d == c
  {
    if s * t == {c} {
      assert c in s * t;
      forall d | d in s && d in t ensures d == c {
        assert d in s * t;
      }
    }
  }

  lemma NotUnconstrained(c: Class)
    ensures c in CLASSES <==> c != Unconstrained
  {
    FiveClasses({c});
    assert c in {c} * CLASSES <==> c in {c} - {Unconstrained};
  }

  /** The responder's choice stands exactly when it leaves one class that the units serve, and goes out as it was made. */
  lemma {:induction false} ChosenExactly(seen: Offer, classes: set<Class>, units: set<Unit>, attrs: set<AttrGroup>)
    ensures Chosen(seen, classes, units, attrs).Some? <==> exists c :: MayChoose(seen, classes, units, attrs, c)
    ensures forall c :: MayChoose(seen, classes, units, attrs, c) ==>
              Chosen(seen, classes, units, attrs) ==
              Some((View(false, c, units, attrs),
                    Terms(if c == Transfer then None else Some({c}), units, if attrs == {} then None else Some(attrs))))
  {
    forall c
      ensures classes * seen.classes == {c} <==> c in classes && c in seen.classes && forall d :: d in classes && d in seen.classes ==> d == c
      ensures Enough(c, units) <==> Serves(c, units)
      ensures c in CLASSES <==> c != Unconstrained
    {
      OneInCommon(classes, seen.classes, c);
      ServesIs(c, units);
      NotUnconstrained(c);
    }
    forall c: Class ensures {c} == {Transfer} <==> c == Transfer {
      if {c} == {Transfer} {
        assert c in {Transfer};
      }
    }
    if Chosen(seen, classes, units, attrs).Some? {
      assert MayChoose(seen, classes, units, attrs, Chosen(seen, classes, units, attrs).value.0.service);
    }
  }

  /** What a response must say for the initiator to go on with the class `c`. */
  predicate Confirms(o: Offer, t: Terms, c: Class) {
    && c != Unconstrained && c in o.classes && (t.classes == Some({c}) || (t.classes == None && c == Transfer))
    && t.units != {} && t.units <= o.units && t.attrs != Some({}) && (t.attrs.Some? ==> t.attrs.value <= o.attrs)
    && (c == Transfer || c == TransferManage ==>
          (UnitRead in t.units || UnitWrite in t.units) && t.units !! {UnitAccess, UnitFaduLock})
    && (c == Manage ==> t.units !! {UnitRead, UnitWrite, UnitAccess, UnitFaduLock})
  }

  lemma ConfirmsIs(o: Offer, t: Terms, c: Class)
    requires MayOffer(o)
    ensures Confirms(o, t, c) <==> Legible(t) && Fair(o, t, c)
  {
    NotUnconstrained(c);
    Meets(Illegal(c), t.units);
    Unwanted(c, t.units);
    assert t.units <= o.units ==> UnitRecovery !in t.units && UnitRestart !in t.units by {
      OwnUnits(o.units);
    }
    if Classes(t) == {c} && t.classes.None? {
      assert c in {Transfer};
    }
  }

  /**
   A response is accepted exactly when it confirms a class that was offered, whether or
   not it names the units that go with the class; the initiator adds those itself.
   */
  lemma {:induction false} ConfirmedExactly(o: Offer, t: Terms)
    requires Offered(o).Some?
    ensures Agreed(o, t).Some? <==> exists c :: Confirms(o, t, c)
    ensures forall c :: Confirms(o, t, c) ==>
              && Agreed(o, t).Some?
              && var v := Agreed(o, t).value;
                 && v.initiator && v.service == c && (forall u :: u in v.units <==> u in t.units || GoesWith(c, u))
                 && (forall a :: a in v.attrs <==> t.attrs.Some? && a in t.attrs.value)
  {
    FairIsAgreed(o, t);
    forall c ensures Confirms(o, t, c) <==> Legible(t) && Fair(o, t, c) {
      ConfirmsIs(o, t, c);
    }
    forall c, u ensures u in Mandatory(c) <==> GoesWith(c, u) {
      GoesWithIs(c, u);
    }
  }
}
