/**
 Which attributes are refused by the encoder and which codings by the decoder, as
 tables: attribute by attribute, for all masks and values.
 */
module FtamRefusals {
  import opened Wrappers
  import opened FtamTypes
  import opened FtamAttributes

  /** An attribute that is present can be sent; some may be marked as being without a value, some may not. */
  predicate Sendable(k: Attr, v: Value, marked: bool)
    requires FitsAttr(k, v)
  {
    match k
    case Filename => !marked && |v.names| <= 5 && forall i :: 0 <= i < |v.names| ==> v.names[i] != None
    case Actions => !marked
    case Contents => !marked && v.kind != None
    case Account => v.text != None
    case DateCreate => true
    case DateModify => true
    case DateRead => true
    case DateAttr => true
    case IdCreate => marked || v.text != None
    case IdModify => marked || v.text != None
    case IdRead => marked || v.text != None
    case IdAttr => marked || v.text != None
    case Availability => marked || v.n in {0, 1}
    case FileSize => true
    case FutureSize => true
    case Control =>
      marked || (v.elements != [] && forall e :: e in v.elements ==>
                   Traverse !in e.actions && ReverseTraverse !in e.actions && RandomOrder !in e.actions)
    case LegalQuals => marked || v.text != None
    case PrivateUse => false
  }

  lemma NoneGiven(names: seq<Option<string>>)
    ensures None in names <==> !forall i :: 0 <= i < |names| ==> names[i] != None
  {
  }

  lemma NoTraversal(es: seq<Element>)
    ensures AclSendable(es) <==>
              es != [] && forall e :: e in es ==>
                Traverse !in e.actions && ReverseTraverse !in e.actions && RandomOrder !in e.actions
  {
    forall e: Element
      ensures e.actions * TRAVERSAL == {} <==>
                Traverse !in e.actions && ReverseTraverse !in e.actions && RandomOrder !in e.actions
    {
      if e.actions * TRAVERSAL == {} {
        assert forall t :: t in TRAVERSAL ==> t !in e.actions * TRAVERSAL;
      }
    }
  }

  lemma SendableIs(k: Attr, v: Value, marked: bool)
    requires FitsAttr(k, v)
    ensures !EncodeOne(k, v, marked).Refused? <==> Sendable(k, v, marked)
  {
    match v
    case Files(names) => NoneGiven(names);
    case Acl(es) => NoTraversal(es);
    case _ =>
  }

  /**
   Attributes are refused exactly when one that is present cannot be sent; otherwise
   everything present is sent but an empty list of names, as a mark where one was set
   and with its value where not.
   */
  lemma {:induction false} RefusedExactly(a: Attributes)
    requires Whole(a)
    ensures Attr2fpm(a).None? <==> exists k :: k in a.present && !Sendable(k, a.value[k], k in a.novalue)
    ensures Attr2fpm(a).Some? ==>
              var m := Attr2fpm(a).value;
              && (forall k :: k in m <==> k in a.present && (k == Filename ==> a.value[k].names != []))
              && forall k :: k in m ==> m[k] == if k in a.novalue then NoValue else Actual(a.value[k])
  {
    forall k ensures !One(a, k).Refused? <==> Sendable(k, a.value[k], k in a.novalue) {
      SendableIs(k, a.value[k], k in a.novalue);
    }
    if Attr2fpm(a).Some? {
      forall k
        ensures k in Attr2fpm(a).value <==> k in a.present && (k == Filename ==> a.value[k].names != [])
        ensures k in Attr2fpm(a).value ==> Attr2fpm(a).value[k] == if k in a.novalue then NoValue else Actual(a.value[k])
      {
        EncodedParts(a, k);
        if k in a.present {
          SentAs(k, a.value[k], k in a.novalue);
        }
      }
    }
  }

  lemma SentAs(k: Attr, v: Value, marked: bool)
    requires FitsAttr(k, v) && !EncodeOne(k, v, marked).Refused?
    ensures var c := EncodeOne(k, v, marked);
            if k == Filename && v.names == [] then c == Absent
            else c == Coded(if marked then NoValue else Actual(v))
  {
  }

  /** A value that breaks the whole coding it is in. */
  predicate Broken(k: Attr, v: Value)
    requires FitsAttr(k, v)
  {
    match k
    case Filename => |v.names| > 5
    case Actions => v.acts == {}
    case Control => exists e :: e in v.elements && e.actions == {}
    case _ => false
  }

  /** An attribute that is read as being without a value. */
  predicate ReadAsMark(k: Attr, w: Wire) {
    k == PrivateUse || w == NoValue
  }

  /** An element as it is read: the locks are gone, and with any password come all eight. */
  predicate ReadAs(e: Element, r: Element) {
    && r.actions == e.actions && r.identity == e.identity && r.title == e.title
    && r.locks == Locks(NotRequired, NotRequired, NotRequired, NotRequired, NotRequired, NotRequired, NotRequired, NotRequired)
    && (e.passwords == map[] ==> r.passwords == map[])
    && (e.passwords != map[] ==>
          forall p :: p in r.passwords && r.passwords[p] == if p in e.passwords then e.passwords[p] else [])
  }

  lemma ReadIs(e: Element)
    ensures ReadAs(e, Read(e))
  {
    if e.passwords != map[] {
      forall p: Perm ensures p in ALLPERMS {
        match p
        case ToRead =>
        case ToInsert =>
        case ToReplace =>
        case ToExtend =>
        case ToErase =>
        case ToReadAttr =>
        case ToChangeAttr =>
        case ToDelete =>
      }
    }
  }

  lemma {:induction false} ReadAllIs(es: seq<Element>)
    ensures ReadAll(es).None? <==> exists e :: e in es && e.actions == {}
    ensures ReadAll(es).Some? ==> |ReadAll(es).value| == |es| && forall i :: 0 <= i < |es| ==> ReadAs(es[i], ReadAll(es).value[i])
  {
    if es != [] {
      ReadAllIs(es[1..]);
      ReadIs(es[0]);
      assert forall e :: e in es <==> e == es[0] || e in es[1..];
      if ReadAll(es).Some? {
        var rest := ReadAll(es[1..]).value;
        assert ReadAll(es).value == [Read(es[0])] + rest;
        forall i | 0 < i < |es| ensures ReadAs(es[i], ReadAll(es).value[i]) {
          assert es[i] == es[1..][i - 1] && ReadAll(es).value[i] == rest[i - 1];
        }
      }
    }
  }

  lemma BrokenIs(k: Attr, w: Wire)
    requires w.Actual? ==> FitsAttr(k, w.v)
    ensures DecodeOne(k, w).Failed? <==> !ReadAsMark(k, w) && Broken(k, w.v)
  {
    if w.Actual? && w.v.Acl? {
      ReadAllIs(w.v.elements);
    }
  }

  /** The decoder fails exactly when a value is broken. */
  lemma {:induction false} DecodingFailsExactly(m: Coding)
    requires forall k :: k in m && m[k].Actual? ==> FitsAttr(k, m[k].v)
    ensures Fpm2attr(m).None? <==> exists k :: k in m && !ReadAsMark(k, m[k]) && Broken(k, m[k].v)
  {
    forall k | k in m ensures DecodeOne(k, m[k]).Failed? <==> !ReadAsMark(k, m[k]) && Broken(k, m[k].v) {
      BrokenIs(k, m[k]);
    }
  }

  /**
   What is read is what is there: an attribute with its value, the elements of a list
   one by one, or with a mark; an account that is empty is passed over.
   */
  lemma {:induction false} DecodedAsThere(m: Coding, k: Attr)
    requires forall k :: k in m && m[k].Actual? ==> FitsAttr(k, m[k].v)
    requires Fpm2attr(m).Some?
    ensures var a := Fpm2attr(m).value;
            && (k in a.present <==> k in m && (k == Account ==> m[k] != Actual(Text(Some([])))))
            && (k in a.novalue <==> k in m && ReadAsMark(k, m[k]))
            && (k in a.value <==> k in a.present && k !in a.novalue)
            && (k in a.value && k != Control ==> a.value[k] == m[k].v)
            && (k in a.value && k == Control ==>
                  && a.value[k].Acl? && |a.value[k].elements| == |m[k].v.elements|
                  && forall i :: 0 <= i < |m[k].v.elements| ==> ReadAs(m[k].v.elements[i], a.value[k].elements[i]))
  {
    DecodedParts(m, k);
    if k in m && m[k].Actual? && m[k].v.Acl? {
      ReadAllIs(m[k].v.elements);
    }
  }
}
