/**
 The attribute codec in the form of the code: loops over bit strings and
 access-control lists, and the long sequences of tests that encode and decode the
 attributes one after the other (ftam/ftambits.c, ftam/ftamacl.c, ftam/ftamattr.c).
 */
module FtamCodec {
  import opened Wrappers
  import opened FtamTypes
  import opened FtamAttributes

  // ----- Bit strings -----

  /** The table a bit string is read with: what each bit stands for. */
  type Pairs<T> = seq<(T, nat)>

  predicate GoodPairs<T(==)>(pairs: Pairs<T>) {
    forall i, j :: 0 <= i < j < |pairs| ==> pairs[i].1 != pairs[j].1 && pairs[i].0 != pairs[j].0
  }

  /** `bits2fpm`: the bits of those actions that have one. */
  method Bits2fpm<T(==)>(pairs: Pairs<T>, actions: set<T>) returns (fpm: set<nat>)
    ensures forall b :: b in fpm <==> exists i :: 0 <= i < |pairs| && pairs[i].0 in actions && pairs[i].1 == b
  {
    fpm := {};
    for i := 0 to |pairs|
      invariant forall b :: b in fpm <==> exists j :: 0 <= j < i && pairs[j].0 in actions && pairs[j].1 == b
    {
      if pairs[i].0 in actions {
        fpm := fpm + {pairs[i].1};
      }
    }
  }

  /** `fpm2bits`: how many bits of the table are on, none being an error. */
  method Fpm2bits<T(==)>(pairs: Pairs<T>, fpm: set<nat>) returns (count: int, actions: set<T>)
    ensures forall x :: x in actions <==> exists i :: 0 <= i < |pairs| && pairs[i].1 in fpm && pairs[i].0 == x
    ensures count == -1 <==> actions == {}
    ensures GoodPairs(pairs) && actions != {} ==> count == |actions|
  {
    count, actions := 0, {};
    for i := 0 to |pairs|
      invariant forall x :: x in actions <==> exists j :: 0 <= j < i && pairs[j].1 in fpm && pairs[j].0 == x
      invariant count >= 0 && (count == 0 <==> actions == {})
      invariant GoodPairs(pairs) ==> count == |actions|
    {
      if pairs[i].1 in fpm {
        assert GoodPairs(pairs) ==> pairs[i].0 !in actions;
        actions := actions + {pairs[i].0};
        count := count + 1;
      }
    }
    if count == 0 {
      count := -1;
    }
  }

  /** Through a bit string and back: the same actions, if each has a bit of its own, and an error for none. */
  method BitsThereAndBack<T(==)>(pairs: Pairs<T>, actions: set<T>) returns (count: int, back: set<T>)
    requires GoodPairs(pairs) && forall x :: x in actions ==> exists i :: 0 <= i < |pairs| && pairs[i].0 == x
    ensures back == actions && count == if actions == {} then -1 else |actions|
  {
    var fpm := Bits2fpm(pairs, actions);
    count, back := Fpm2bits(pairs, fpm);
    forall x ensures x in back <==> x in actions {
      if x in back {
        var i :| 0 <= i < |pairs| && pairs[i].1 in fpm && pairs[i].0 == x;
        var j :| 0 <= j < |pairs| && pairs[j].0 in actions && pairs[j].1 == pairs[i].1;
        assert i == j;
      }
    }
  }

  // ----- Access-control lists -----

  lemma {:induction false} ReadMore(es: seq<Element>, e: Element)
    ensures ReadAll(es + [e]) ==
            if ReadAll(es) == None || e.actions == {} then None else Some(ReadAll(es).value + [Read(e)])
  {
    if es == [] {
      assert [] + [e] == [e] && [e][1..] == [];
      assert ReadAll([]) == Some([]);
      assert [Read(e)] + [] == [] + [Read(e)];
    } else {
      assert (es + [e])[0] == es[0] && (es + [e])[1..] == es[1..] + [e];
      ReadMore(es[1..], e);
      if ReadAll(es[1..]) != None {
        var rest := ReadAll(es[1..]).value;
        assert [Read(es[0])] + (rest + [Read(e)]) == [Read(es[0])] + rest + [Read(e)];
      }
    }
  }

  lemma {:induction false} ReadStops(es: seq<Element>, i: nat)
    requires i <= |es| && ReadAll(es[..i]) == None
    ensures ReadAll(es) == None
    decreases |es| - i
  {
    if i < |es| {
      assert es[..i + 1] == es[..i] + [es[i]];
      ReadMore(es[..i], es[i]);
      ReadStops(es, i + 1);
    } else {
      assert es[..i] == es;
    }
  }

  /** `fpm2acl`: the list grows at its tail. */
  method Fpm2acl(es: seq<Element>) returns (list: Option<seq<Element>>)
    ensures list == ReadAll(es)
  {
    var fe: seq<Element> := [];
    for i := 0 to |es|
      invariant ReadAll(es[..i]) == Some(fe)
    {
      assert es[..i + 1] == es[..i] + [es[i]];
      ReadMore(es[..i], es[i]);
      if es[i].actions == {} {
        ReadStops(es, i + 1);
        return None;
      }
      fe := fe + [Read(es[i])];
    }
    assert es[..|es|] == es;
    list := Some(fe);
  }

  /** `acl2fpm`: stops at an element with a traversal action; an empty list yields nothing, which is taken for a failure. */
  method Acl2fpm(es: seq<Element>) returns (list: Option<seq<Element>>)
    ensures list == if AclSendable(es) then Some(es) else None
  {
    var fpm: seq<Element> := [];
    for i := 0 to |es|
      invariant fpm == es[..i]
      invariant forall j :: 0 <= j < i ==> es[j].actions * TRAVERSAL == {}
    {
      if es[i].actions * TRAVERSAL != {} {
        return None;
      }
      fpm := fpm + [es[i]];
    }
    assert es[..|es|] == es;
    list := if fpm == [] then None else Some(fpm);
  }

  // ----- attr2fpm -----

  /** What is built when the attributes `done` have been looked at. */
  ghost function Built(a: Attributes, done: set<Attr>): Option<Coding>
    requires Whole(a)
  {
    if exists k :: k in a.present && k in done && One(a, k).Refused? then None
    else Some(map k | k in a.present && k in done && One(a, k).Coded? :: One(a, k).w)
  }

  function Added(a: Attributes, k: Attr, fpm: Coding): Option<Coding>
    requires Whole(a)
  {
    if k !in a.present then Some(fpm)
    else
      match One(a, k)
      case Refused => None
      case Absent => Some(fpm)
      case Coded(w) => Some(fpm[k := w])
  }

  /** One attribute more; a refusal is one of the whole. */
  ghost predicate Follows(a: Attributes, done: set<Attr>, k: Attr, r: Option<Coding>, more: set<Attr>)
    requires Whole(a)
  {
    more == done + {k} && r == Built(a, more) && (r == None ==> Attr2fpm(a) == None)
  }

  lemma {:induction false} AddedFollows(a: Attributes, done: set<Attr>, k: Attr, fpm: Coding)
    requires Whole(a) && Built(a, done) == Some(fpm)
    ensures Follows(a, done, k, Added(a, k, fpm), done + {k})
  {
    hide One;
    var more := done + {k};
    if k in a.present && One(a, k).Refused? {
      assert Built(a, more) == None;
    } else {
      assert Built(a, more).Some?;
      assert Built(a, more).value == Added(a, k, fpm).value;
    }
  }

  method EncodeFilename(a: Attributes, fpm: Coding, ghost done: set<Attr>)
    returns (r: Option<Coding>, ghost more: set<Attr>)
    requires Whole(a) && Built(a, done) == Some(fpm)
    ensures Follows(a, done, Filename, r, more)
  {
    hide Follows;
    more := done + {Filename};
    AddedFollows(a, done, Filename, fpm);
    if Filename !in a.present {
      return Some(fpm), more;
    }
    var names := a.value[Filename].names;
    if Filename in a.novalue || |names| > NFFILE {
      return None, more;
    }
    var list: seq<Option<string>> := [];
    for i := 0 to |names|
      invariant list == names[..i] && None !in list
    {
      if names[i] == None {
        return None, more;
      }
      list := list + [names[i]];
    }
    assert names[..|names|] == names;
    r := Some(if list == [] then fpm else fpm[Filename := Actual(Files(list))]);
  }

  method EncodeActions(a: Attributes, fpm: Coding, ghost done: set<Attr>)
    returns (r: Option<Coding>, ghost more: set<Attr>)
    requires Whole(a) && Built(a, done) == Some(fpm)
    ensures Follows(a, done, Actions, r, more)
  {
    hide Follows;
    more := done + {Actions};
    AddedFollows(a, done, Actions, fpm);
    if Actions !in a.present {
      return Some(fpm), more;
    }
    if Actions in a.novalue {
      return None, more;
    }
    r := Some(fpm[Actions := Actual(a.value[Actions])]);
  }

  method EncodeContents(a: Attributes, fpm: Coding, ghost done: set<Attr>)
    returns (r: Option<Coding>, ghost more: set<Attr>)
    requires Whole(a) && Built(a, done) == Some(fpm)
    ensures Follows(a, done, Contents, r, more)
  {
    hide Follows;
    more := done + {Contents};
    AddedFollows(a, done, Contents, fpm);
    if Contents !in a.present {
      return Some(fpm), more;
    }
    if Contents in a.novalue || a.value[Contents].kind == None {
      return None, more;
    }
    r := Some(fpm[Contents := Actual(a.value[Contents])]);
  }

  /** The account has to be there even if it is not to be sent. */
  method EncodeAccount(a: Attributes, fpm: Coding, ghost done: set<Attr>)
    returns (r: Option<Coding>, ghost more: set<Attr>)
    requires Whole(a) && Built(a, done) == Some(fpm)
    ensures Follows(a, done, Account, r, more)
  {
    hide Follows;
    more := done + {Account};
    AddedFollows(a, done, Account, fpm);
    if Account !in a.present {
      return Some(fpm), more;
    }
    if a.value[Account].text == None {
      return None, more;
    }
    r := Some(fpm[Account := if Account in a.novalue then NoValue else Actual(a.value[Account])]);
  }

  /** The macros `dodate` and `dosize`. */
  method EncodePlain(a: Attributes, k: Attr, fpm: Coding, ghost done: set<Attr>)
    returns (r: Option<Coding>, ghost more: set<Attr>)
    requires Whole(a) && k in {DateCreate, DateModify, DateRead, DateAttr, FileSize, FutureSize} && Built(a, done) == Some(fpm)
    ensures Follows(a, done, k, r, more)
  {
    hide Follows;
    more := done + {k};
    AddedFollows(a, done, k, fpm);
    if k !in a.present {
      return Some(fpm), more;
    }
    r := Some(fpm[k := if k in a.novalue then NoValue else Actual(a.value[k])]);
  }

  /** The macro `douser`, and the legal qualifications. */
  method EncodeText(a: Attributes, k: Attr, fpm: Coding, ghost done: set<Attr>)
    returns (r: Option<Coding>, ghost more: set<Attr>)
    requires Whole(a) && k in {IdCreate, IdModify, IdRead, IdAttr, LegalQuals} && Built(a, done) == Some(fpm)
    ensures Follows(a, done, k, r, more)
  {
    hide Follows;
    more := done + {k};
    AddedFollows(a, done, k, fpm);
    if k !in a.present {
      return Some(fpm), more;
    }
    if k in a.novalue {
      return Some(fpm[k := NoValue]), more;
    }
    if a.value[k].text == None {
      return None, more;
    }
    r := Some(fpm[k := Actual(a.value[k])]);
  }

  method EncodeAvailability(a: Attributes, fpm: Coding, ghost done: set<Attr>)
    returns (r: Option<Coding>, ghost more: set<Attr>)
    requires Whole(a) && Built(a, done) == Some(fpm)
    ensures Follows(a, done, Availability, r, more)
  {
    hide Follows;
    more := done + {Availability};
    AddedFollows(a, done, Availability, fpm);
    if Availability !in a.present {
      return Some(fpm), more;
    }
    if Availability in a.novalue {
      return Some(fpm[Availability := NoValue]), more;
    }
    if a.value[Availability].n != 0 && a.value[Availability].n != 1 {
      return None, more;
    }
    r := Some(fpm[Availability := Actual(a.value[Availability])]);
  }

  method EncodeControl(a: Attributes, fpm: Coding, ghost done: set<Attr>)
    returns (r: Option<Coding>, ghost more: set<Attr>)
    requires Whole(a) && Built(a, done) == Some(fpm)
    ensures Follows(a, done, Control, r, more)
  {
    hide Follows;
    more := done + {Control};
    AddedFollows(a, done, Control, fpm);
    if Control !in a.present {
      return Some(fpm), more;
    }
    if Control in a.novalue {
      return Some(fpm[Control := NoValue]), more;
    }
    var list :- Acl2fpm(a.value[Control].elements);
    r := Some(fpm[Control := Actual(Acl(list))]);
  }

  /** Private use is not supported. */
  method EncodePrivate(a: Attributes, fpm: Coding, ghost done: set<Attr>)
    returns (r: Option<Coding>, ghost more: set<Attr>)
    requires Whole(a) && Built(a, done) == Some(fpm)
    ensures Follows(a, done, PrivateUse, r, more)
  {
    hide Follows;
    more := done + {PrivateUse};
    AddedFollows(a, done, PrivateUse, fpm);
    if PrivateUse !in a.present {
      return Some(fpm), more;
    }
    r := None;
  }

  /** One stretch of the code done. */
  ghost predicate Through(a: Attributes, done: set<Attr>, r: Option<Coding>, more: set<Attr>)
    requires Whole(a)
  {
    if r == None then Attr2fpm(a) == None else more == done && r == Built(a, done)
  }

  method EncodeKernel(a: Attributes) returns (r: Option<Coding>, ghost more: set<Attr>)
    requires Whole(a)
    ensures Through(a, KERNEL + {Account}, r, more)
  {
    hide Built;
    var fpm: Coding := map[];
    more := {};
    NothingBuilt(a);
    fpm, more :- EncodeFilename(a, fpm, more);
    fpm, more :- EncodeActions(a, fpm, more);
    fpm, more :- EncodeContents(a, fpm, more);
    fpm, more :- EncodeAccount(a, fpm, more);
    assert more == KERNEL + {Account};
    r := Some(fpm);
  }

  lemma NothingBuilt(a: Attributes)
    requires Whole(a)
    ensures Built(a, {}) == Some(map[])
  {
  }

  method EncodeDates(a: Attributes, fpm: Coding, ghost done: set<Attr>)
    returns (r: Option<Coding>, ghost more: set<Attr>)
    requires Whole(a) && Built(a, done) == Some(fpm)
    ensures Through(a, done + {DateCreate, DateModify, DateRead, DateAttr}, r, more)
  {
    hide Built;
    var fpm := fpm;
    fpm, more :- EncodePlain(a, DateCreate, fpm, done);
    fpm, more :- EncodePlain(a, DateModify, fpm, more);
    fpm, more :- EncodePlain(a, DateRead, fpm, more);
    fpm, more :- EncodePlain(a, DateAttr, fpm, more);
    assert more == done + {DateCreate, DateModify, DateRead, DateAttr};
    r := Some(fpm);
  }

  method EncodeIdentities(a: Attributes, fpm: Coding, ghost done: set<Attr>)
    returns (r: Option<Coding>, ghost more: set<Attr>)
    requires Whole(a) && Built(a, done) == Some(fpm)
    ensures Through(a, done + {IdCreate, IdModify, IdRead, IdAttr}, r, more)
  {
    hide Built;
    var fpm := fpm;
    fpm, more :- EncodeText(a, IdCreate, fpm, done);
    fpm, more :- EncodeText(a, IdModify, fpm, more);
    fpm, more :- EncodeText(a, IdRead, fpm, more);
    fpm, more :- EncodeText(a, IdAttr, fpm, more);
    assert more == done + {IdCreate, IdModify, IdRead, IdAttr};
    r := Some(fpm);
  }

  method EncodeSizes(a: Attributes, fpm: Coding, ghost done: set<Attr>)
    returns (r: Option<Coding>, ghost more: set<Attr>)
    requires Whole(a) && Built(a, done) == Some(fpm)
    ensures Through(a, done + {Availability, FileSize, FutureSize}, r, more)
  {
    hide Built;
    var fpm := fpm;
    fpm, more :- EncodeAvailability(a, fpm, done);
    fpm, more :- EncodePlain(a, FileSize, fpm, more);
    fpm, more :- EncodePlain(a, FutureSize, fpm, more);
    assert more == done + {Availability, FileSize, FutureSize};
    r := Some(fpm);
  }

  method EncodeSecurity(a: Attributes, fpm: Coding, ghost done: set<Attr>)
    returns (r: Option<Coding>, ghost more: set<Attr>)
    requires Whole(a) && Built(a, done) == Some(fpm)
    ensures Through(a, done + {Control, LegalQuals, PrivateUse}, r, more)
  {
    hide Built;
    var fpm := fpm;
    fpm, more :- EncodeControl(a, fpm, done);
    fpm, more :- EncodeText(a, LegalQuals, fpm, more);
    fpm, more :- EncodePrivate(a, fpm, more);
    assert more == done + {Control, LegalQuals, PrivateUse};
    r := Some(fpm);
  }

  /** `attr2fpm` */
  method EncodeAttributes(a: Attributes) returns (coding: Option<Coding>)
    requires Whole(a)
    ensures coding == Attr2fpm(a)
  {
    hide Built, Attr2fpm;
    var fpm: Coding;
    ghost var done: set<Attr>;
    fpm, done :- EncodeKernel(a);
    fpm, done :- EncodeDates(a, fpm, done);
    fpm, done :- EncodeIdentities(a, fpm, done);
    fpm, done :- EncodeSizes(a, fpm, done);
    fpm, done :- EncodeSecurity(a, fpm, done);
    coding := Some(fpm);
    AllBuilt(a, done);
  }

  lemma AllBuilt(a: Attributes, done: set<Attr>)
    requires Whole(a) && ALLATTRS <= done
    ensures Built(a, done) == Attr2fpm(a)
  {
    AllAttrs(a.present);
    if Built(a, done).Some? {
      assert Built(a, done).value == Attr2fpm(a).value;
    }
  }

  // ----- fpm2attr -----

  /** What is read when the attributes `done` have been looked at. */
  ghost function Gathered(m: Coding, done: set<Attr>): Option<Attributes> {
    if exists k :: k in m && k in done && DecodeOne(k, m[k]).Failed? then None
    else Some(Attributes(
                set k | k in m && k in done && !DecodeOne(k, m[k]).Dropped?,
                set k | k in m && k in done && DecodeOne(k, m[k]).Unvalued?,
                map k | k in m && k in done && DecodeOne(k, m[k]).Valued? :: DecodeOne(k, m[k]).v))
  }

  /** A value, or the mark that there is none. */
  function Unmarked(fa: Attributes, k: Attr, v: Value): Attributes {
    fa.(present := fa.present + {k}, value := fa.value[k := v])
  }

  function Marked(fa: Attributes, k: Attr): Attributes {
    fa.(present := fa.present + {k}, novalue := fa.novalue + {k})
  }

  function Fetched(m: Coding, k: Attr, fa: Attributes): Option<Attributes> {
    if k !in m then Some(fa)
    else
      match DecodeOne(k, m[k])
      case Failed => None
      case Dropped => Some(fa)
      case Unvalued => Some(Marked(fa, k))
      case Valued(v) => Some(Unmarked(fa, k, v))
  }

  ghost predicate Extends(m: Coding, done: set<Attr>, k: Attr, r: Option<Attributes>, more: set<Attr>) {
    more == done + {k} && r == Gathered(m, more) && (r == None ==> Fpm2attr(m) == None)
  }

  lemma GatheredParts(m: Coding, done: set<Attr>, x: Attr)
    requires Gathered(m, done).Some?
    ensures var b, here := Gathered(m, done).value, x in m && x in done;
            (x in b.present <==> here && !DecodeOne(x, m[x]).Dropped?) &&
            (x in b.novalue <==> here && DecodeOne(x, m[x]).Unvalued?) &&
            (x in b.value <==> here && DecodeOne(x, m[x]).Valued?) &&
            (x in b.value ==> b.value[x] == DecodeOne(x, m[x]).v)
  {
    hide DecodeOne;
  }

  lemma FailsOrGoesOn(m: Coding, done: set<Attr>, k: Attr)
    requires Gathered(m, done).Some?
    ensures Gathered(m, done + {k}) == None <==> k in m && DecodeOne(k, m[k]).Failed?
    ensures k in m && DecodeOne(k, m[k]).Failed? ==> Fpm2attr(m) == None
  {
    hide DecodeOne;
  }

  /** The attribute `x` after one attribute more. */
  lemma ExtendsAt(m: Coding, done: set<Attr>, k: Attr, fa: Attributes, x: Attr)
    requires Gathered(m, done) == Some(fa) && Gathered(m, done + {k}).Some? && Fetched(m, k, fa).Some?
    ensures var b, c := Gathered(m, done + {k}).value, Fetched(m, k, fa).value;
            (x in b.present <==> x in c.present) && (x in b.novalue <==> x in c.novalue) &&
            (x in b.value <==> x in c.value) && (x in b.value ==> b.value[x] == c.value[x])
  {
    hide DecodeOne, Gathered;
    GatheredParts(m, done, x);
    GatheredParts(m, done + {k}, x);
  }

  lemma {:induction false} ReadExtends(m: Coding, done: set<Attr>, k: Attr, fa: Attributes)
    requires Gathered(m, done) == Some(fa)
    ensures Extends(m, done, k, Fetched(m, k, fa), done + {k})
  {
    hide DecodeOne, Gathered, Fpm2attr;
    FailsOrGoesOn(m, done, k);
    if Gathered(m, done + {k}).Some? {
      hide Fetched;
      var b, c := Gathered(m, done + {k}).value, Fetched(m, k, fa).value;
      forall x
        ensures (x in b.present <==> x in c.present) && (x in b.novalue <==> x in c.novalue)
        ensures (x in b.value <==> x in c.value) && (x in b.value ==> b.value[x] == c.value[x])
      {
        ExtendsAt(m, done, k, fa, x);
      }
      assert b.present == c.present && b.novalue == c.novalue && b.value == c.value;
    }
  }

  /** What the PDUs on the wire are made of: each attribute has a value of its kind, and those of the kernel have one. */
  predicate WellCoded(m: Coding) {
    forall k :: k in m && k != PrivateUse ==>
      if m[k].NoValue? then k !in KERNEL else FitsAttr(k, m[k].v)
  }

  lemma EncodedIsWellCoded(a: Attributes)
    requires Whole(a) && Attr2fpm(a).Some?
    ensures WellCoded(Attr2fpm(a).value)
  {
    var m := Attr2fpm(a).value;
    forall k | k in m && k != PrivateUse ensures if m[k].NoValue? then k !in KERNEL else FitsAttr(k, m[k].v) {
      EncodedParts(a, k);
    }
  }

  method DecodeFilename(m: Coding, fa: Attributes, ghost done: set<Attr>)
    returns (r: Option<Attributes>, ghost more: set<Attr>)
    requires WellCoded(m) && Gathered(m, done) == Some(fa)
    ensures Extends(m, done, Filename, r, more)
  {
    hide Extends;
    more := done + {Filename};
    ReadExtends(m, done, Filename, fa);
    if Filename !in m {
      return Some(fa), more;
    }
    var sent := m[Filename].v.names;
    var list: seq<Option<string>> := [];
    for i := 0 to |sent|
      invariant list == sent[..i] && i <= NFFILE
    {
      if i == NFFILE {
        return None, more;
      }
      list := list + [sent[i]];
    }
    assert sent[..|sent|] == sent;
    r := Some(Unmarked(fa, Filename, Files(list)));
  }

  method DecodeActions(m: Coding, fa: Attributes, ghost done: set<Attr>)
    returns (r: Option<Attributes>, ghost more: set<Attr>)
    requires WellCoded(m) && Gathered(m, done) == Some(fa)
    ensures Extends(m, done, Actions, r, more)
  {
    hide Extends;
    more := done + {Actions};
    ReadExtends(m, done, Actions, fa);
    if Actions !in m {
      return Some(fa), more;
    }
    if m[Actions].v.acts == {} {
      return None, more;
    }
    r := Some(Unmarked(fa, Actions, m[Actions].v));
  }

  /** An empty account counts as none. */
  method DecodeAccount(m: Coding, fa: Attributes, ghost done: set<Attr>)
    returns (r: Option<Attributes>, ghost more: set<Attr>)
    requires WellCoded(m) && Gathered(m, done) == Some(fa)
    ensures Extends(m, done, Account, r, more)
  {
    hide Extends;
    more := done + {Account};
    ReadExtends(m, done, Account, fa);
    if Account !in m {
      return Some(fa), more;
    }
    if m[Account].NoValue? {
      return Some(Marked(fa, Account)), more;
    }
    if m[Account].v.text == Some([]) {
      return Some(fa), more;
    }
    r := Some(Unmarked(fa, Account, m[Account].v));
  }

  /** The macros `dodate`, `douser` and `dosize`, and those without any test of the value. */
  method DecodePlain(m: Coding, k: Attr, fa: Attributes, ghost done: set<Attr>)
    returns (r: Option<Attributes>, ghost more: set<Attr>)
    requires k !in {Filename, Actions, Account, Control, PrivateUse} && WellCoded(m) && Gathered(m, done) == Some(fa)
    ensures Extends(m, done, k, r, more)
  {
    hide Extends;
    more := done + {k};
    ReadExtends(m, done, k, fa);
    if k !in m {
      return Some(fa), more;
    }
    if m[k].NoValue? {
      return Some(Marked(fa, k)), more;
    }
    r := Some(Unmarked(fa, k, m[k].v));
  }

  method DecodeControl(m: Coding, fa: Attributes, ghost done: set<Attr>)
    returns (r: Option<Attributes>, ghost more: set<Attr>)
    requires WellCoded(m) && Gathered(m, done) == Some(fa)
    ensures Extends(m, done, Control, r, more)
  {
    hide Extends;
    more := done + {Control};
    ReadExtends(m, done, Control, fa);
    if Control !in m {
      return Some(fa), more;
    }
    if m[Control].NoValue? {
      return Some(Marked(fa, Control)), more;
    }
    var list :- Fpm2acl(m[Control].v.elements);
    r := Some(Unmarked(fa, Control, Acl(list)));
  }

  /** Whatever is there, it has no value. */
  method DecodePrivate(m: Coding, fa: Attributes, ghost done: set<Attr>)
    returns (r: Option<Attributes>, ghost more: set<Attr>)
    requires WellCoded(m) && Gathered(m, done) == Some(fa)
    ensures Extends(m, done, PrivateUse, r, more)
  {
    hide Extends;
    more := done + {PrivateUse};
    ReadExtends(m, done, PrivateUse, fa);
    if PrivateUse !in m {
      return Some(fa), more;
    }
    r := Some(Marked(fa, PrivateUse));
  }

  /** One stretch of the code done. */
  ghost predicate Reaches(m: Coding, done: set<Attr>, r: Option<Attributes>, more: set<Attr>) {
    if r == None then Fpm2attr(m) == None else more == done && r == Gathered(m, done)
  }

  lemma NothingGathered(m: Coding)
    ensures Gathered(m, {}) == Some(NOTHING)
  {
    var b := Gathered(m, {}).value;
    assert b.present == {} && b.novalue == {} && b.value == map[];
  }

  method DecodeKernel(m: Coding) returns (r: Option<Attributes>, ghost more: set<Attr>)
    requires WellCoded(m)
    ensures Reaches(m, {Filename, Actions, Contents, Account}, r, more)
  {
    hide Gathered, WellCoded;
    var fa := NOTHING;
    more := {};
    NothingGathered(m);
    fa, more :- DecodeFilename(m, fa, more);
    fa, more :- DecodeActions(m, fa, more);
    fa, more :- DecodePlain(m, Contents, fa, more);
    fa, more :- DecodeAccount(m, fa, more);
    assert more == {Filename, Actions, Contents, Account};
    r := Some(fa);
  }

  method DecodeDates(m: Coding, fa: Attributes, ghost done: set<Attr>)
    returns (r: Option<Attributes>, ghost more: set<Attr>)
    requires WellCoded(m) && Gathered(m, done) == Some(fa)
    ensures Reaches(m, done + {DateCreate, DateModify, DateRead, DateAttr}, r, more)
  {
    hide Gathered, WellCoded;
    var fa := fa;
    fa, more :- DecodePlain(m, DateCreate, fa, done);
    fa, more :- DecodePlain(m, DateModify, fa, more);
    fa, more :- DecodePlain(m, DateRead, fa, more);
    fa, more :- DecodePlain(m, DateAttr, fa, more);
    assert more == done + {DateCreate, DateModify, DateRead, DateAttr};
    r := Some(fa);
  }

  method DecodeIdentities(m: Coding, fa: Attributes, ghost done: set<Attr>)
    returns (r: Option<Attributes>, ghost more: set<Attr>)
    requires WellCoded(m) && Gathered(m, done) == Some(fa)
    ensures Reaches(m, done + {IdCreate, IdModify, IdRead, IdAttr}, r, more)
  {
    hide Gathered, WellCoded;
    var fa := fa;
    fa, more :- DecodePlain(m, IdCreate, fa, done);
    fa, more :- DecodePlain(m, IdModify, fa, more);
    fa, more :- DecodePlain(m, IdRead, fa, more);
    fa, more :- DecodePlain(m, IdAttr, fa, more);
    assert more == done + {IdCreate, IdModify, IdRead, IdAttr};
    r := Some(fa);
  }

  method DecodeSizes(m: Coding, fa: Attributes, ghost done: set<Attr>)
    returns (r: Option<Attributes>, ghost more: set<Attr>)
    requires WellCoded(m) && Gathered(m, done) == Some(fa)
    ensures Reaches(m, done + {Availability, FileSize, FutureSize}, r, more)
  {
    hide Gathered, WellCoded;
    var fa := fa;
    fa, more :- DecodePlain(m, Availability, fa, done);
    fa, more :- DecodePlain(m, FileSize, fa, more);
    fa, more :- DecodePlain(m, FutureSize, fa, more);
    assert more == done + {Availability, FileSize, FutureSize};
    r := Some(fa);
  }

  method DecodeSecurity(m: Coding, fa: Attributes, ghost done: set<Attr>)
    returns (r: Option<Attributes>, ghost more: set<Attr>)
    requires WellCoded(m) && Gathered(m, done) == Some(fa)
    ensures Reaches(m, done + {Control, LegalQuals, PrivateUse}, r, more)
  {
    hide Gathered, WellCoded;
    var fa := fa;
    fa, more :- DecodeControl(m, fa, done);
    fa, more :- DecodePlain(m, LegalQuals, fa, more);
    fa, more :- DecodePrivate(m, fa, more);
    assert more == done + {Control, LegalQuals, PrivateUse};
    r := Some(fa);
  }

  /** `fpm2attr` */
  method DecodeAttributes(m: Coding) returns (attrs: Option<Attributes>)
    requires WellCoded(m)
    ensures attrs == Fpm2attr(m)
  {
    hide WellCoded, Gathered, Fpm2attr;
    var fa: Attributes;
    ghost var done: set<Attr>;
    fa, done :- DecodeKernel(m);
    fa, done :- DecodeDates(m, fa, done);
    fa, done :- DecodeIdentities(m, fa, done);
    fa, done :- DecodeSizes(m, fa, done);
    fa, done :- DecodeSecurity(m, fa, done);
    attrs := Some(fa);
    AllGathered(m, done);
  }

  lemma AllGathered(m: Coding, done: set<Attr>)
    requires ALLATTRS <= done
    ensures Gathered(m, done) == Fpm2attr(m)
  {
    hide DecodeOne;
    AllAttrs(m.Keys);
    assert forall k :: k in m ==> k in m.Keys && k in done;
    if Gathered(m, done).Some? {
      var b, c := Gathered(m, done).value, Fpm2attr(m).value;
      assert b.present == c.present && b.novalue == c.novalue && b.value == c.value;
    }
  }
}
