/**
 The attribute codec of ftam/ftamattr.c, ftam/ftamacl.c and ftam/ftambits.c: what
 of a set of file attributes survives being encoded and decoded again, exactly.

 An attribute structure has a value for every attribute, a mask of those that are
 present and a mask of those without a value.  Dates are assumed to survive.
 */
module FtamAttributes {
  import opened Wrappers
  import opened FtamTypes

  const NFFILE := 5

  datatype Act = Does(p: Perm) | Traverse | ReverseTraverse | RandomOrder

  datatype Element = Element(actions: set<Act>, locks: Locks, identity: Option<string>,
                             passwords: map<Perm, string>, title: Option<nat>)

  datatype Value =
    | Files(names: seq<Option<string>>)
    | Acts(acts: set<Act>)
    | Kinds(kind: Option<nat>, parameter: Option<nat>)
    | Text(text: Option<string>)
    | Date(date: nat)
    | Number(n: int)
    | Acl(elements: seq<Element>)

  datatype Attributes = Attributes(present: set<Attr>, novalue: set<Attr>, value: map<Attr, Value>)

  predicate FitsAttr(k: Attr, v: Value) {
    match k
    case Filename => v.Files?
    case Actions => v.Acts?
    case Contents => v.Kinds?
    case Account => v.Text?
    case DateCreate => v.Date?
    case DateModify => v.Date?
    case DateRead => v.Date?
    case DateAttr => v.Date?
    case IdCreate => v.Text?
    case IdModify => v.Text?
    case IdRead => v.Text?
    case IdAttr => v.Text?
    case Availability => v.Number?
    case FileSize => v.Number?
    case FutureSize => v.Number?
    case Control => v.Acl?
    case LegalQuals => v.Text?
    case PrivateUse => v.Text?
  }

  predicate Whole(a: Attributes) {
    forall k: Attr :: k in a.value && FitsAttr(k, a.value[k])
  }

  // ----- Encoding -----

  datatype Wire = NoValue | Actual(v: Value)

  type Coding = map<Attr, Wire>

  datatype Coded = Refused | Absent | Coded(w: Wire)

  const TRAVERSAL := {Traverse, ReverseTraverse, RandomOrder}

  /** `acl2fpm`: no traversal; the locks are sent, but in a form that is not read back. */
  predicate AclSendable(es: seq<Element>) {
    es != [] && forall i :: 0 <= i < |es| ==> es[i].actions * TRAVERSAL == {}
  }

  /** One attribute that is present. */
  function EncodeOne(k: Attr, v: Value, novalue: bool): Coded
    requires FitsAttr(k, v)
  {
    match v
    case Files(names) =>
      if novalue || |names| > NFFILE || None in names then Refused
      else if names == [] then Absent
      else Coded(Actual(v))
    case Acts(_) => if novalue then Refused else Coded(Actual(v))
    case Kinds(kind, _) => if novalue || kind == None then Refused else Coded(Actual(v))
    case Text(text) =>
      if k == PrivateUse then Refused
      else if k == Account && text == None then Refused
      else if novalue then Coded(NoValue)
      else if text == None then Refused
      else Coded(Actual(v))
    case Date(_) => if novalue then Coded(NoValue) else Coded(Actual(v))
    case Number(n) =>
      if novalue then Coded(NoValue)
      else if k == Availability && n != 0 && n != 1 then Refused
      else Coded(Actual(v))
    case Acl(es) => if novalue then Coded(NoValue) else if AclSendable(es) then Coded(Actual(v)) else Refused
  }

  function One(a: Attributes, k: Attr): Coded
    requires Whole(a)
  {
    EncodeOne(k, a.value[k], k in a.novalue)
  }

  /** `attr2fpm` */
  function Attr2fpm(a: Attributes): Option<Coding>
    requires Whole(a)
  {
    if exists k :: k in a.present && One(a, k).Refused? then None
    else Some(map k | k in a.present && One(a, k).Coded? :: One(a, k).w)
  }

  /** The same for a structure that may lack fields; every caller gives a whole one. */
  function Encode(a: Attributes): Option<Coding> {
    if Whole(a) then Attr2fpm(a) else None
  }

  const NOTHING := Attributes({}, {}, map[])

  // ----- Decoding -----

  datatype Decoded = Failed | Dropped | Unvalued | Valued(v: Value)

  /** An element as it is read back: no locks, and all its passwords if any. */
  function Read(e: Element): Element {
    e.(locks := NOLOCKS, passwords := Filled(e.passwords))
  }

  /** `fpm2acl`; an element without actions is an error. */
  function ReadAll(es: seq<Element>): Option<seq<Element>> {
    if es == [] then Some([])
    else
      var rest := ReadAll(es[1..]);
      if es[0].actions == {} || rest == None then None else Some([Read(es[0])] + rest.value)
  }

  function DecodeOne(k: Attr, w: Wire): Decoded {
    if k == PrivateUse then Unvalued
    else if w.NoValue? then Unvalued
    else
      match w.v
      case Files(names) => if |names| > NFFILE then Failed else Valued(w.v)
      case Acts(acts) => if acts == {} then Failed else Valued(w.v)
      case Text(text) => if k == Account && text == Some([]) then Dropped else Valued(w.v)
      case Acl(es) => (match ReadAll(es) case None => Failed case Some(rs) => Valued(Acl(rs)))
      case _ => Valued(w.v)
  }

  /** `fpm2attr`; here only what is valued has a value. */
  function Fpm2attr(m: Coding): Option<Attributes> {
    if exists k :: k in m && DecodeOne(k, m[k]).Failed? then None
    else Some(Attributes(
                set k | k in m && !DecodeOne(k, m[k]).Dropped?,
                set k | k in m && DecodeOne(k, m[k]).Unvalued?,
                map k | k in m && DecodeOne(k, m[k]).Valued? :: DecodeOne(k, m[k]).v))
  }

  // ----- What survives -----

  /** The masks, and every value that there is. */
  predicate Restores(a: Attributes, b: Attributes)
    requires Whole(a)
  {
    b.present == a.present && b.novalue == a.novalue &&
    forall k :: k in a.present && k !in a.novalue ==> k in b.value && b.value[k] == a.value[k]
  }

  predicate ElementKept(e: Element) {
    e.actions != {} && e.locks == NOLOCKS && AllOrNone(e.passwords)
  }

  predicate ValueKept(k: Attr, v: Value) {
    match v
    case Files(names) => names != []
    case Acts(acts) => acts != {}
    case Text(text) => k == Account ==> text != Some([])
    case Acl(es) => forall i :: 0 <= i < |es| ==> ElementKept(es[i])
    case _ => true
  }

  /** Nothing is without a value that is not present, and each value is of the kind that is kept. */
  predicate Keepable(a: Attributes)
    requires Whole(a)
  {
    a.novalue <= a.present && forall k :: k in a.present && k !in a.novalue ==> ValueKept(k, a.value[k])
  }

  lemma {:induction false} AclReadBack(es: seq<Element>)
    ensures ReadAll(es) == Some(es) <==> forall i :: 0 <= i < |es| ==> ElementKept(es[i])
  {
    if es != [] {
      AclReadBack(es[1..]);
      FilledAsGiven(es[0].passwords);
      assert [es[0]] + es[1..] == es;
      assert (forall i :: 0 <= i < |es| ==> ElementKept(es[i])) <==>
             ElementKept(es[0]) && forall i :: 0 <= i < |es[1..]| ==> ElementKept(es[1..][i]);
      if ReadAll(es) == Some(es) {
        assert ([Read(es[0])] + ReadAll(es[1..]).value)[1..] == ReadAll(es[1..]).value;
        assert es[1..] == ReadAll(es[1..]).value;
        assert es[0] == Read(es[0]);
      }
    }
  }

  /** One attribute on its way. */
  lemma OneReadBack(k: Attr, v: Value, novalue: bool)
    requires FitsAttr(k, v) && !EncodeOne(k, v, novalue).Refused?
    ensures var c := EncodeOne(k, v, novalue);
            if novalue then c.Coded? && DecodeOne(k, c.w) == Unvalued
            else ValueKept(k, v) <==> c.Coded? && DecodeOne(k, c.w) == Valued(v)
    ensures EncodeOne(k, v, novalue).Coded? && !novalue ==> !DecodeOne(k, EncodeOne(k, v, novalue).w).Unvalued?
  {
    if v.Acl? {
      AclReadBack(v.elements);
    }
  }

  lemma DecodedParts(m: Coding, k: Attr)
    requires Fpm2attr(m).Some?
    ensures var b := Fpm2attr(m).value;
            (k in b.present <==> k in m && !DecodeOne(k, m[k]).Dropped?) &&
            (k in b.novalue <==> k in m && DecodeOne(k, m[k]).Unvalued?) &&
            (k in b.value <==> k in m && DecodeOne(k, m[k]).Valued?) &&
            (k in b.value ==> b.value[k] == DecodeOne(k, m[k]).v)
  {
  }

  lemma EncodedParts(a: Attributes, k: Attr)
    requires Whole(a) && Attr2fpm(a).Some?
    ensures var m := Attr2fpm(a).value;
            (k in a.present ==> !One(a, k).Refused?) &&
            (k in m <==> k in a.present && One(a, k).Coded?) && (k in m ==> m[k] == One(a, k).w)
  {
  }

  lemma {:induction false} KeepableIsRestored(a: Attributes)
    requires Whole(a) && Attr2fpm(a).Some? && Keepable(a)
    ensures Fpm2attr(Attr2fpm(a).value).Some? && Restores(a, Fpm2attr(Attr2fpm(a).value).value)
  {
    var m := Attr2fpm(a).value;
    forall k
      ensures k in m <==> k in a.present
      ensures k in m ==> DecodeOne(k, m[k]) == if k in a.novalue then Unvalued else Valued(a.value[k])
    {
      EncodedParts(a, k);
      if k in a.present {
        OneReadBack(k, a.value[k], k in a.novalue);
      }
    }
    assert Fpm2attr(m).Some?;
    var b := Fpm2attr(m).value;
    forall k
      ensures k in b.present <==> k in a.present
      ensures k in b.novalue <==> k in a.novalue
      ensures k in a.present && k !in a.novalue ==> k in b.value && b.value[k] == a.value[k]
    {
      DecodedParts(m, k);
    }
    assert b.present == a.present && b.novalue == a.novalue;
  }

  lemma {:induction false} RestoredIsKeepable(a: Attributes)
    requires Whole(a) && Attr2fpm(a).Some?
    requires Fpm2attr(Attr2fpm(a).value).Some? && Restores(a, Fpm2attr(Attr2fpm(a).value).value)
    ensures Keepable(a)
  {
    var m := Attr2fpm(a).value;
    var b := Fpm2attr(m).value;
    forall k | k in a.novalue ensures k in a.present {
      assert k in b.novalue;
      DecodedParts(m, k);
      EncodedParts(a, k);
    }
    forall k | k in a.present && k !in a.novalue ensures ValueKept(k, a.value[k]) {
      assert k in b.value && b.value[k] == a.value[k];
      DecodedParts(m, k);
      EncodedParts(a, k);
      OneReadBack(k, a.value[k], false);
    }
  }

  /**
   Attributes that can be encoded come back, masks and values, exactly when each
   value is of the kind that is kept: at least one filename, some action, an
   account that is not empty, and access-control elements with an action, without
   locks and with no or all passwords.
   */
  lemma {:induction false} AttributesSurviveExactly(a: Attributes)
    requires Whole(a) && Attr2fpm(a).Some?
    ensures var b := Fpm2attr(Attr2fpm(a).value);
            b.Some? && Restores(a, b.value) <==> Keepable(a)
  {
    var b := Fpm2attr(Attr2fpm(a).value);
    if Keepable(a) {
      KeepableIsRestored(a);
    }
    if b.Some? && Restores(a, b.value) {
      RestoredIsKeepable(a);
    }
  }

  // ----- When decoding fails, and what arrives -----

  /** The decoder takes a bit string without bits for an error. */
  predicate ValueReadable(v: Value) {
    match v
    case Acts(acts) => acts != {}
    case Acl(es) => forall i :: 0 <= i < |es| ==> es[i].actions != {}
    case _ => true
  }

  predicate Decodable(a: Attributes)
    requires Whole(a)
  {
    forall k :: k in a.present && k !in a.novalue ==> ValueReadable(a.value[k])
  }

  lemma {:induction false} ReadAllExactly(es: seq<Element>)
    ensures ReadAll(es).Some? <==> forall i :: 0 <= i < |es| ==> es[i].actions != {}
  {
    if es != [] {
      ReadAllExactly(es[1..]);
      assert es == [es[0]] + es[1..];
      assert (forall i :: 0 <= i < |es| ==> es[i].actions != {}) <==>
             es[0].actions != {} && forall i :: 0 <= i < |es[1..]| ==> es[1..][i].actions != {};
    }
  }

  lemma OneDecodes(k: Attr, v: Value, novalue: bool)
    requires FitsAttr(k, v) && EncodeOne(k, v, novalue).Coded?
    ensures DecodeOne(k, EncodeOne(k, v, novalue).w).Failed? <==> !novalue && !ValueReadable(v)
  {
    if v.Acl? {
      ReadAllExactly(v.elements);
    }
  }

  /** Attributes that were encoded are decoded exactly when no bit string among them is empty. */
  lemma {:induction false} DecodesExactly(a: Attributes)
    requires Whole(a) && Attr2fpm(a).Some?
    ensures Fpm2attr(Attr2fpm(a).value).Some? <==> Decodable(a)
  {
    var m := Attr2fpm(a).value;
    forall k
      ensures k in m && DecodeOne(k, m[k]).Failed? <==> k in a.present && k !in a.novalue && !ValueReadable(a.value[k])
    {
      EncodedParts(a, k);
      if k in m {
        OneDecodes(k, a.value[k], k in a.novalue);
      }
    }
  }

  /** A list of no filenames is not sent, and an empty account is dropped. */
  predicate ValueLost(k: Attr, v: Value) {
    match v
    case Files(names) => names == []
    case Text(text) => k == Account && text == Some([])
    case _ => false
  }

  function Lost(a: Attributes): set<Attr>
    requires Whole(a)
  {
    set k | k in a.present && k !in a.novalue && ValueLost(k, a.value[k])
  }

  lemma OneArrives(k: Attr, v: Value, novalue: bool)
    requires FitsAttr(k, v) && !EncodeOne(k, v, novalue).Refused? && (novalue || ValueReadable(v))
    ensures var c := EncodeOne(k, v, novalue);
            if novalue then c.Coded? && DecodeOne(k, c.w) == Unvalued
            else if ValueLost(k, v) then c.Absent? || DecodeOne(k, c.w).Dropped?
            else c.Coded? && DecodeOne(k, c.w).Valued?
  {
    if v.Acl? {
      ReadAllExactly(v.elements);
    }
  }

  /** The masks that arrive; marks on attributes that are not present are not sent. */
  lemma {:induction false} MasksArrive(a: Attributes)
    requires Whole(a) && Attr2fpm(a).Some? && Decodable(a)
    ensures Fpm2attr(Attr2fpm(a).value).Some?
    ensures var b := Fpm2attr(Attr2fpm(a).value).value;
            b.present == a.present - Lost(a) && b.novalue == a.present * a.novalue
  {
    DecodesExactly(a);
    var m := Attr2fpm(a).value;
    var b := Fpm2attr(m).value;
    forall k
      ensures k in b.present <==> k in a.present && k !in Lost(a)
      ensures k in b.novalue <==> k in a.present && k in a.novalue
    {
      DecodedParts(m, k);
      EncodedParts(a, k);
      if k in a.present {
        OneArrives(k, a.value[k], k in a.novalue);
      }
    }
  }

  // ----- Attributes that do not come back -----

  /** A value of the right kind for every attribute, the list of access-control elements aside. */
  function Sample(k: Attr, es: seq<Element>): (v: Value)
    ensures FitsAttr(k, v)
  {
    match k
    case Filename => Files([Some("f")])
    case Actions => Acts({Does(ToRead)})
    case Contents => Kinds(Some(1), None)
    case Account => Text(Some("a"))
    case DateCreate => Date(0)
    case DateModify => Date(0)
    case DateRead => Date(0)
    case DateAttr => Date(0)
    case IdCreate => Text(Some("a"))
    case IdModify => Text(Some("a"))
    case IdRead => Text(Some("a"))
    case IdAttr => Text(Some("a"))
    case Availability => Number(0)
    case FileSize => Number(0)
    case FutureSize => Number(0)
    case Control => Acl(es)
    case LegalQuals => Text(Some("a"))
    case PrivateUse => Text(Some("a"))
  }

  /** One element that grants reading under an exclusive lock; one that gives a single password. */
  const LOCKED := Element({Does(ToRead)}, NOLOCKS.(read := Exclusive), None, map[], None)
  const GUARDED := Element({Does(ToRead)}, NOLOCKS, None, map[ToRead := "x"], None)

  /** Lists with such an element can be encoded, and come back changed. */
  lemma {:induction false} LocksAndPasswordsAreLost(e: Element)
    requires e == LOCKED || e == GUARDED
    ensures var a := Attributes({Control}, {}, map k: Attr | true :: Sample(k, [e]));
            && Whole(a) && Attr2fpm(a).Some?
            && var b := Fpm2attr(Attr2fpm(a).value); !(b.Some? && Restores(a, b.value))
  {
    var a := Attributes({Control}, {}, map k: Attr | true :: Sample(k, [e]));
    assert One(a, Control) == Coded(Actual(Acl([e])));
    assert ToRead in GUARDED.passwords;
    assert ToDelete in Filled(GUARDED.passwords);
    AttributesSurviveExactly(a);
    AclReadBack([e]);
  }
}
