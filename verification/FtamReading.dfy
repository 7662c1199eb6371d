/**
 How a receiver reads a group: what the automaton of `doPSdata` lets through, and
 what it recovers from the PDUs of an accepted group or reply.
 */
module FtamReading {
  import opened Wrappers
  import opened FtamTypes
  import opened FtamGroups
  import opened FtamGroupTheorems
  import Codec = FtamAttributes

  // ----- The automaton alone -----

  /** What is expected after the PDUs `ks`; None when one of them was not. */
  function Walk(request: bool, head: bool, next: set<Kind>, ks: seq<Kind>): Option<set<Kind>>
    decreases |ks|
  {
    if ks == [] then Some(next)
    else if ks[0] !in Order() || !Expected(request, next, ks[0]) then None
    else Walk(request, head || ks[0] in {Select, Create}, Next(request, head, ks[0]), ks[1..])
  }

  predicate Taken(request: bool, ks: seq<Kind>) {
    Walk(request, false, {Begin}, ks) == Some({})
  }

  /** A delete request that was let through although something else was due. */
  predicate StrayFrom(head: bool, next: set<Kind>, ks: seq<Kind>)
    decreases |ks|
  {
    ks != [] && (
      (ks[0] == Delete && Delete !in next) ||
      StrayFrom(head || ks[0] in {Select, Create}, Next(true, head, ks[0]), ks[1..]))
  }

  predicate Stray(ks: seq<Kind>) {
    StrayFrom(false, {Begin}, ks)
  }

  lemma WalkBoth(request: bool, head: bool, next: set<Kind>, a: Kind, ks: seq<Kind>)
    ensures Walk(request, head, next, [a] + ks) ==
            if a !in Order() || !Expected(request, next, a) then None
            else Walk(request, head || a in {Select, Create}, Next(request, head, a), ks)
    ensures StrayFrom(head, next, [a] + ks) <==>
            (a == Delete && Delete !in next) || StrayFrom(head || a in {Select, Create}, Next(true, head, a), ks)
  {
    assert ([a] + ks)[1..] == ks;
  }

  // The four stations of a group, from the last to the first.

  lemma WalkTail(request: bool, head: bool, next: set<Kind>, tail: Kind)
    requires tail in next && tail in {Deselect, Delete, Open}
    ensures Walk(request, head, next, [tail, End]) == Some({}) && !StrayFrom(head, next, [tail, End])
  {
    WalkBoth(request, head, {End}, End, []);
    WalkBoth(request, head, next, tail, [End]);
    assert [tail] + [End] == [tail, End];
    assert [End] + [] == [End];
  }

  lemma WalkChange(request: bool, head: bool, next: set<Kind>, ch: bool, tail: Kind)
    requires tail in next && Chattr in next && tail in {Deselect, Delete, Open} && (tail == Open ==> head)
    ensures Walk(request, head, next, Maybe(ch, Chattr) + [tail, End]) == Some({})
    ensures !StrayFrom(head, next, Maybe(ch, Chattr) + [tail, End])
  {
    if ch {
      WalkTail(request, head, Next(request, head, Chattr), tail);
      WalkBoth(request, head, next, Chattr, [tail, End]);
    } else {
      WalkTail(request, head, next, tail);
      assert Maybe(ch, Chattr) + [tail, End] == [tail, End];
    }
  }

  lemma WalkRead(request: bool, head: bool, next: set<Kind>, rd: bool, ch: bool, tail: Kind)
    requires tail in next && Chattr in next && Rdattr in next && tail in {Deselect, Delete, Open} && (tail == Open ==> head)
    ensures Walk(request, head, next, Maybe(rd, Rdattr) + (Maybe(ch, Chattr) + [tail, End])) == Some({})
    ensures !StrayFrom(head, next, Maybe(rd, Rdattr) + (Maybe(ch, Chattr) + [tail, End]))
  {
    var rest := Maybe(ch, Chattr) + [tail, End];
    if rd {
      WalkChange(request, head, Next(request, head, Rdattr), ch, tail);
      WalkBoth(request, head, next, Rdattr, rest);
    } else {
      WalkChange(request, head, next, ch, tail);
      assert Maybe(rd, Rdattr) + rest == rest;
    }
  }

  lemma LegalIsTaken(request: bool, t: GroupType, s: Shape)
    requires Legal(t, s)
    ensures Taken(request, Spell(s)) && !Stray(Spell(s))
  {
    var rest := Maybe(s.rd, Rdattr) + (Maybe(s.ch, Chattr) + [s.tail, End]);
    var head := s.head in {Select, Create};
    WalkRead(request, head, Next(request, false, s.head), s.rd, s.ch, s.tail);
    WalkBoth(request, false, Next(request, false, Begin), s.head, rest);
    WalkBoth(request, false, {Begin}, Begin, [s.head] + rest);
    assert [Begin] + ([s.head] + rest) == Spell(s);
  }

  // And back: what is taken without a stray delete is spelled.

  predicate Clean(request: bool, head: bool, next: set<Kind>, ks: seq<Kind>) {
    Walk(request, head, next, ks) == Some({}) && (request ==> !StrayFrom(head, next, ks))
  }

  lemma CleanStep(request: bool, head: bool, next: set<Kind>, ks: seq<Kind>)
    requires Clean(request, head, next, ks) && next != {}
    ensures ks != [] && ks[0] in next && ks == [ks[0]] + ks[1..]
    ensures Clean(request, head || ks[0] in {Select, Create}, Next(request, head, ks[0]), ks[1..])
  {
    assert ks != [];
    assert ks == [ks[0]] + ks[1..];
    WalkBoth(request, head, next, ks[0], ks[1..]);
  }

  lemma CleanStop(request: bool, head: bool, ks: seq<Kind>)
    requires Clean(request, head, {}, ks)
    ensures ks == []
  {
  }

  lemma OnlyEnd(request: bool, head: bool, ks: seq<Kind>)
    requires Clean(request, head, {End}, ks)
    ensures ks == [End]
  {
    assert End in {End};
    CleanStep(request, head, {End}, ks);
    CleanStop(request, head, ks[1..]);
  }

  lemma TailRead(request: bool, head: bool, ks: seq<Kind>)
    requires Clean(request, head, {Deselect, Delete} + (if head then {Open} else {}), ks)
    ensures |ks| == 2 && ks == [ks[0], End] && ks[0] in {Deselect, Delete} + (if head then {Open} else {})
  {
    var next := {Deselect, Delete} + (if head then {Open} else {});
    assert Deselect in next;
    CleanStep(request, head, next, ks);
    OnlyEnd(request, head, ks[1..]);
  }

  lemma ChangeRead(request: bool, head: bool, ks: seq<Kind>)
    requires Clean(request, head, {Chattr, Deselect, Delete} + (if head then {Open} else {}), ks)
    ensures exists ch, tail :: tail in {Deselect, Delete} + (if head then {Open} else {}) && ks == Maybe(ch, Chattr) + [tail, End]
  {
    var next := {Chattr, Deselect, Delete} + (if head then {Open} else {});
    assert Deselect in next;
    CleanStep(request, head, next, ks);
    if ks[0] == Chattr {
      TailRead(request, head, ks[1..]);
      assert ks == Maybe(true, Chattr) + [ks[1], End];
    } else {
      OnlyEnd(request, head, ks[1..]);
      assert ks == Maybe(false, Chattr) + [ks[0], End];
    }
  }

  lemma AttributesRead(request: bool, head: bool, next: set<Kind>, ks: seq<Kind>)
    requires next == {Rdattr, Chattr, Deselect, Delete} + (if head then {Open} else {}) + (if head && !request then {End} else {})
    requires Clean(request, head, next, ks)
    ensures (head && !request && ks == [End]) ||
            exists rd, ch, tail :: tail in {Deselect, Delete} + (if head then {Open} else {}) &&
                                   ks == Maybe(rd, Rdattr) + (Maybe(ch, Chattr) + [tail, End])
  {
    assert Deselect in next;
    CleanStep(request, head, next, ks);
    if ks[0] == Rdattr {
      ChangeRead(request, head, ks[1..]);
      var ch, tail :| tail in {Deselect, Delete} + (if head then {Open} else {}) && ks[1..] == Maybe(ch, Chattr) + [tail, End];
      assert ks == Maybe(true, Rdattr) + (Maybe(ch, Chattr) + [tail, End]);
    } else if ks[0] == Chattr {
      TailRead(request, head, ks[1..]);
      assert ks == Maybe(false, Rdattr) + (Maybe(true, Chattr) + [ks[1], End]);
    } else if ks[0] == End {
      CleanStop(request, head, ks[1..]);
    } else {
      OnlyEnd(request, head, ks[1..]);
      assert ks == Maybe(false, Rdattr) + (Maybe(false, Chattr) + [ks[0], End]);
    }
  }

  lemma BeginRead(request: bool, ks: seq<Kind>)
    requires Clean(request, false, {Begin}, ks)
    ensures |ks| >= 2 && ks == [Begin] + ks[1..] && ks[1] in {Select, Create, Close}
    ensures var head := ks[1] in {Select, Create};
            Clean(request, head, Next(request, false, ks[1]), ks[2..])
  {
    assert Begin in {Begin} && Select in {Select, Create, Close};
    CleanStep(request, false, {Begin}, ks);
    CleanStep(request, false, {Select, Create, Close}, ks[1..]);
    assert ks[1..][1..] == ks[2..];
  }

  lemma SpelledOut(ks: seq<Kind>, rd: bool, ch: bool, tail: Kind)
    requires |ks| >= 2 && ks == [Begin] + ks[1..] && ks[2..] == Maybe(rd, Rdattr) + (Maybe(ch, Chattr) + [tail, End])
    ensures ks == Spell(Shape(ks[1], rd, ch, tail))
  {
    assert ks == [Begin, ks[1]] + ks[2..];
  }

  lemma SomeType(s: Shape)
    requires s.head in {Select, Create, Close}
    requires s.tail in {Deselect, Delete} + (if s.head in {Select, Create} then {Open} else {})
    ensures exists t :: Legal(t, s)
  {
    assert Legal(if s.head == Close then ForBulkEnd else if s.tail == Open then ForBulkBegin else ForManagement, s);
  }

  lemma {:induction false} TakenIsLegal(request: bool, ks: seq<Kind>)
    requires Clean(request, false, {Begin}, ks)
    ensures (exists t, s: Shape :: Legal(t, s) && ks == Spell(s)) ||
            (!request && (ks == [Begin, Select, End] || ks == [Begin, Create, End]))
  {
    BeginRead(request, ks);
    var head := ks[1] in {Select, Create};
    AttributesRead(request, head, Next(request, false, ks[1]), ks[2..]);
    if !(head && !request && ks[2..] == [End]) {
      var rd, ch, tail :| tail in {Deselect, Delete} + (if head then {Open} else {}) &&
                          ks[2..] == Maybe(rd, Rdattr) + (Maybe(ch, Chattr) + [tail, End]);
      SpelledOut(ks, rd, ch, tail);
      SomeType(Shape(ks[1], rd, ch, tail));
    }
  }

  /**
   The automaton takes exactly the groups of the service definition, except that
   it lets a delete request through wherever it stands.
   */
  lemma {:induction false} RequestAutomatonIsTheGrammar(ks: seq<Kind>)
    ensures Taken(true, ks) && !Stray(ks) <==> exists t, s: Shape :: Legal(t, s) && ks == Spell(s)
  {
    if Taken(true, ks) && !Stray(ks) {
      TakenIsLegal(true, ks);
    }
    forall t, s: Shape | Legal(t, s) && ks == Spell(s) ensures Taken(true, ks) && !Stray(ks) {
      LegalIsTaken(true, t, s);
    }
  }

  lemma ShortIsTaken(head: Kind)
    requires head in {Select, Create}
    ensures Taken(false, [Begin, head, End])
  {
    WalkBoth(false, true, {End}, End, []);
    WalkBoth(false, true, Next(false, false, head), End, []);
    WalkBoth(false, false, Next(false, false, Begin), head, [End]);
    WalkBoth(false, false, {Begin}, Begin, [head, End]);
    assert [End] + [] == [End] && [head] + [End] == [head, End] && [Begin] + [head, End] == [Begin, head, End];
  }

  /** In replies a select or create may also stand alone, and no delete is out of place. */
  lemma {:induction false} ReplyAutomatonIsTheGrammar(ks: seq<Kind>)
    ensures Taken(false, ks) <==>
            ks == [Begin, Select, End] || ks == [Begin, Create, End] || exists t, s: Shape :: Legal(t, s) && ks == Spell(s)
  {
    if Taken(false, ks) {
      TakenIsLegal(false, ks);
    }
    ShortIsTaken(Select);
    ShortIsTaken(Create);
    forall t, s: Shape | Legal(t, s) && ks == Spell(s) ensures Taken(false, ks) {
      LegalIsTaken(false, t, s);
    }
  }

  // ----- The automaton with parameters -----

  predicate HasHead(parts: map<Kind, Body>) {
    Select in parts || Create in parts
  }

  /** The parameters the PDUs leave behind, when each of them can be read. */
  function Put(v: View, parts: map<Kind, Body>, ps: seq<Pdu>): map<Kind, Body>
    decreases |ps|
  {
    if ps == [] then parts
    else Put(v, if Received(v, ps[0]).Some? then parts[ps[0].kind := Received(v, ps[0]).value] else parts, ps[1..])
  }

  function Counted(threshold: int, ps: seq<Pdu>): int
    decreases |ps|
  {
    if ps == [] then threshold
    else Counted(if ps[0].request && ps[0].kind == Begin && ps[0].body.Threshold? then ps[0].body.n else threshold, ps[1..])
  }

  predicate AllRead(v: View, ps: seq<Pdu>) {
    forall p :: p in ps ==> Permitted(v, p.kind) && Received(v, p).Some?
  }

  predicate FromPeer(v: View, ps: seq<Pdu>) {
    forall p :: p in ps ==> p.request != v.initiator
  }

  lemma {:induction false} ScanIsWalk(v: View, s: Scan, ps: seq<Pdu>)
    requires FromPeer(v, ps)
    ensures var w := Walk(!v.initiator, HasHead(s.parts), s.next, Kinds(ps));
            ScanPdus(v, s, ps) == if w.Some? && AllRead(v, ps)
                                  then Some(Scan(w.value, Counted(s.threshold, ps), Put(v, s.parts, ps)))
                                  else None
    decreases |ps|
  {
    if ps != [] {
      var p, rest := ps[0], ps[1..];
      assert forall q :: q in ps <==> q == p || q in rest;
      assert Kinds(ps)[0] == p.kind && Kinds(ps)[1..] == Kinds(rest);
      var step := GroupStep(v, s, p);
      if step.Some? {
        ScanIsWalk(v, step.value, rest);
      }
    }
  }

  // ----- Requests -----

  function Peer(v: View): View {
    v.(initiator := !v.initiator)
  }

  /**
   The responder's reader of bit strings takes an empty one for an error, those in
   attributes included; and a file to be created needs a name.
   */
  predicate ReadablePart(k: Kind, b: Body)
    requires Fits(k, b)
  {
    match k
    case Select => b.access != {} && Codec.Decodable(b.attrs)
    case Create => b.access != {} && Codec.Decodable(b.attrs) && Filename !in Codec.Lost(b.attrs)
    case Rdattr => b.names != {}
    case Chattr => Codec.Decodable(b.attrs)
    case Open => b.mode != {}
    case _ => true
  }

  /** Nothing is given that the responder drops because it was not negotiated, no password is left out, and the attributes survive. */
  predicate LosslessPart(v: View, k: Kind, b: Body)
    requires Fits(k, b)
  {
    match k
    case Select => LosslessFile(v, b)
    case Create => LosslessFile(v, b)
    case Chattr => Codec.Keepable(b.attrs)
    case Open => (Storage in v.attrs || b.openLocks == NOLOCKS) && (UnitFaduLock in v.units || !b.locking)
    case _ => true
  }

  predicate LosslessFile(v: View, b: Body)
    requires b.File? && Codec.Whole(b.attrs)
  {
    (Storage in v.attrs || b.locks == NOLOCKS) && AllOrNone(b.passwords) && Codec.Keepable(b.attrs)
  }

  /** The same parameters; of attributes, the masks and every value that there is. */
  predicate SamePart(b: Body, b': Body)
    requires b.File? || b.Changes? ==> Codec.Whole(b.attrs)
  {
    match b
    case File(attrs, access, passwords, locks, override) =>
      b'.File? && Codec.Restores(attrs, b'.attrs) && b'.access == access && b'.passwords == passwords &&
      b'.locks == locks && b'.override == override
    case Changes(attrs) => b'.Changes? && Codec.Restores(attrs, b'.attrs)
    case _ => b' == b
  }

  predicate SameParts(g: Group, parts: map<Kind, Body>)
    requires WellTyped(g)
  {
    parts.Keys == g.parts.Keys && forall k :: k in g.parts ==> SamePart(g.parts[k], parts[k])
  }

  predicate Readable(g: Group)
    requires WellTyped(g)
  {
    forall k :: k in g.parts ==> ReadablePart(k, g.parts[k])
  }

  predicate Lossless(v: View, g: Group)
    requires WellTyped(g)
  {
    forall k :: k in g.parts ==> LosslessPart(v, k, g.parts[k])
  }

  lemma AdmittedAll(v: View, attrs: set<Attr>)
    requires NoneForbidden(v, attrs)
    ensures Admitted(v, attrs) == attrs
  {
  }

  /** What the initiator checked makes the responder's masks harmless. */
  lemma MaskedAll(v: View, a: Codec.Attributes, within: set<Attr>)
    requires a.present <= within && NoneForbidden(v, a.present)
    ensures Masked(v, a, within) == a
  {
    assert a.present * within == a.present;
    AdmittedAll(v, a.present);
  }

  lemma PeerForbids(v: View, attrs: set<Attr>)
    ensures NoneForbidden(Peer(v), attrs) <==> NoneForbidden(v, attrs)
  {
    assert forall a :: Forbidden(Peer(v), a) <==> Forbidden(v, a);
  }

  /** Attributes as they arrive, masked: those that were encoded, less what is lost on the way. */
  lemma AttributesArrive(v: View, a: Codec.Attributes, within: set<Attr>)
    requires Codec.Whole(a) && Codec.Encode(a).Some? && a.present <= within && NoneForbidden(v, a.present)
    ensures Decoded(Codec.Encode(a)).Some? <==> Codec.Decodable(a)
    ensures Codec.Decodable(a) ==>
              var b := Decoded(Codec.Encode(a)).value;
              b.present == a.present - Codec.Lost(a) && b.novalue == a.present * a.novalue &&
              Masked(Peer(v), b, within) == b && b.(present := b.present * within) == b &&
              (Codec.Restores(a, b) <==> Codec.Keepable(a))
  {
    Codec.DecodesExactly(a);
    if Codec.Decodable(a) {
      Codec.MasksArrive(a);
      Codec.AttributesSurviveExactly(a);
      var b := Decoded(Codec.Encode(a)).value;
      PeerForbids(v, b.present);
      MaskedAll(Peer(v), b, within);
      assert b.present * within == b.present;
    }
  }

  lemma FileStored(v: View, k: Kind, b: Body, within: set<Attr>)
    requires k in {Select, Create} && Fits(k, b) && EncodablePart(b)
    requires within == Within(k) && b.attrs.present <= within && NoneForbidden(v, b.attrs.present)
    requires RightFile(v, b) && (k == Create ==> KERNEL <= b.attrs.present)
    ensures Stored(Peer(v), k, Coded(b)).Some? <==> ReadablePart(k, b)
    ensures Stored(Peer(v), k, Coded(b)).Some? ==>
              (SamePart(b, Stored(Peer(v), k, Coded(b)).value) <==> LosslessPart(v, k, b))
  {
    hide Masked, Codec.Decodable, Codec.Keepable, Codec.Restores, Codec.Fpm2attr, Codec.Encode, Codec.Whole;
    AttributesArrive(v, b.attrs, within);
    FilledAsGiven(b.passwords);
    KernelArrives(b.attrs);
  }

  /** Of the attributes every new file has only the name can be lost. */
  lemma KernelArrives(a: Codec.Attributes)
    requires Codec.Whole(a)
    ensures Actions !in Codec.Lost(a) && Contents !in Codec.Lost(a)
  {
  }

  lemma ChangeStored(v: View, b: Body)
    requires Fits(Chattr, b) && RightParams(v, Chattr, b) && EncodablePart(b)
    ensures Stored(Peer(v), Chattr, Coded(b)).Some? <==> ReadablePart(Chattr, b)
    ensures Stored(Peer(v), Chattr, Coded(b)).Some? ==>
              (SamePart(b, Stored(Peer(v), Chattr, Coded(b)).value) <==> LosslessPart(v, Chattr, b))
  {
    hide Masked, Codec.Decodable, Codec.Keepable, Codec.Restores, Codec.Fpm2attr, Codec.Encode, Codec.Whole;
    AllAttrs(b.attrs.present);
    AttributesArrive(v, b.attrs, ALLATTRS);
    assert (b.attrs.present - Codec.Lost(b.attrs)) * (b.attrs.present * b.attrs.novalue) == {};
  }

  lemma PartStored(v: View, k: Kind, b: Body)
    requires Fits(k, b) && RightParams(v, k, b) && EncodablePart(b)
    ensures SentFits(k, Coded(b))
    ensures Stored(Peer(v), k, Coded(b)).Some? <==> ReadablePart(k, b)
    ensures Stored(Peer(v), k, Coded(b)).Some? ==>
              (SamePart(b, Stored(Peer(v), k, Coded(b)).value) <==> LosslessPart(v, k, b))
  {
    hide Codec.Decodable, Codec.Keepable, Codec.Restores, Codec.Fpm2attr, Codec.Encode, Codec.Whole, Codec.Lost;
    match k
    case Select =>
      assert !Forbidden(v, Filename);
      FileStored(v, k, b, {Filename});
    case Create => FileStored(v, k, b, CREATION);
    case Rdattr =>
      PeerForbids(v, b.names);
      AdmittedAll(Peer(v), b.names);
    case Chattr => ChangeStored(v, b);
    case _ =>
  }

  lemma SentIsReceived(v: View, g: Group, k: Kind)
    requires WellTyped(g) && PartsInOrder(v, g) && Encodable(g) && k in g.parts
    ensures Received(Peer(v), Sent(g, k)).Some? <==> ReadablePart(k, g.parts[k])
    ensures Received(Peer(v), Sent(g, k)).Some? ==>
            (SamePart(g.parts[k], Received(Peer(v), Sent(g, k)).value) <==> LosslessPart(v, k, g.parts[k]))
  {
    hide Stored;
    PartStored(v, k, g.parts[k]);
  }

  lemma {:induction false} EmitContents(g: Group, i: nat, p: Pdu)
    requires i <= 10
    ensures p in EmitFrom(g, i) <==> p.kind in g.parts && p.kind in Order()[i..] && p == Sent(g, p.kind)
    decreases 10 - i
  {
    if i < 10 {
      EmitContents(g, i + 1, p);
      assert Order()[i..] == [Order()[i]] + Order()[i + 1..];
    }
  }

  lemma {:induction false} EmitAllRead(v: View, g: Group)
    requires WellTyped(g) && PartsInOrder(v, g) && Encodable(g)
    ensures v.initiator ==> FromPeer(Peer(v), Emit(g))
    ensures AllRead(Peer(v), Emit(g)) <==> Readable(g)
  {
    forall p ensures p in Emit(g) <==> p.kind in g.parts && p == Sent(g, p.kind) {
      EmitContents(g, 0, p);
      assert Order()[0..] == Order();
    }
    forall k | k in g.parts ensures Sent(g, k) in Emit(g) {
      assert Sent(g, k).kind == k;
    }
    forall k | k in g.parts
      ensures Received(Peer(v), Sent(g, k)).Some? <==> ReadablePart(k, g.parts[k])
    {
      SentIsReceived(v, g, k);
    }
  }

  function Arrives(v: View, g: Group, k: Kind): Option<Body>
    requires k in g.parts
  {
    Received(Peer(v), Sent(g, k))
  }

  function Reception(v: View, g: Group, ks: seq<Kind>): map<Kind, Body> {
    map k | k in g.parts && k in ks && Arrives(v, g, k).Some? :: Arrives(v, g, k).value
  }

  lemma ReceptionStep(v: View, g: Group, acc: map<Kind, Body>, k: Kind, rest: seq<Kind>)
    requires k !in rest
    ensures acc + Reception(v, g, [k] + rest) ==
            if k in g.parts && Arrives(v, g, k).Some? then acc[k := Arrives(v, g, k).value] + Reception(v, g, rest)
            else acc + Reception(v, g, rest)
  {
    hide Arrives;
    var all, r := Reception(v, g, [k] + rest), Reception(v, g, rest);
    assert k !in r;
    if k in g.parts && Arrives(v, g, k).Some? {
      assert all == r[k := Arrives(v, g, k).value];
    } else {
      assert all == r;
    }
  }

  lemma {:induction false} PutEmit(v: View, g: Group, acc: map<Kind, Body>, i: nat)
    requires i <= 10
    ensures Put(Peer(v), acc, EmitFrom(g, i)) == acc + Reception(v, g, Order()[i..])
    decreases 10 - i
  {
    if i == 10 {
      assert Order()[10..] == [];
    } else {
      var k, rest := Order()[i], EmitFrom(g, i + 1);
      Distinct(i);
      assert Order()[i..] == [k] + Order()[i + 1..];
      ReceptionStep(v, g, acc, k, Order()[i + 1..]);
      if k in g.parts {
        var p := Sent(g, k);
        assert EmitFrom(g, i) == [p] + rest && ([p] + rest)[1..] == rest;
        PutEmit(v, g, if Received(Peer(v), p).Some? then acc[k := Received(Peer(v), p).value] else acc, i + 1);
      } else {
        PutEmit(v, g, acc, i + 1);
        assert EmitFrom(g, i) == rest;
      }
    }
  }

  lemma Distinct(i: nat)
    requires i < 10
    ensures Order()[i] !in Order()[i + 1..]
  {
  }

  lemma {:induction false} CountedEmit(g: Group, th: int, i: nat)
    requires i <= 10
    ensures Counted(th, EmitFrom(g, i)) == if i == 0 && Begin in g.parts then g.threshold else th
    decreases 10 - i
  {
    if i < 10 {
      var k, rest := Order()[i], EmitFrom(g, i + 1);
      if k in g.parts {
        var p := Sent(g, k);
        assert EmitFrom(g, i) == [p] + rest && ([p] + rest)[1..] == rest;
        Distinct(0);
        assert i > 0 ==> k in Order()[1..];
        CountedEmit(g, if i == 0 then g.threshold else th, i + 1);
      } else {
        CountedEmit(g, th, i + 1);
        assert EmitFrom(g, i) == rest;
      }
    }
  }

  /** The state in which the responder answers a group of each type. */
  function Asked(t: GroupType): State {
    match t
    case ForManagement => Management
    case ForBulkBegin => BulkBegin
    case ForBulkEnd => BulkEnd
  }

  lemma {:induction false} EmitIsTaken(v: View, t: GroupType, g: Group)
    requires WellTyped(g) && RightFlags(t, g.parts.Keys)
    ensures Walk(true, false, {Begin}, Kinds(Emit(g))) == Some({})
  {
    var s := ShapeOf(g.parts.Keys);
    FlagsAreAShape(t, g.parts.Keys);
    EmitKinds(g, 0);
    ShapeIsEmitted(t, s);
    LegalIsTaken(true, t, s);
  }

  /** The parameters that reach the responder. */
  lemma {:induction false} ReceptionIsTheGroup(v: View, g: Group)
    requires WellTyped(g) && PartsInOrder(v, g) && Encodable(g) && Readable(g)
    ensures Reception(v, g, Order()).Keys == g.parts.Keys
    ensures SameParts(g, Reception(v, g, Order())) <==> Lossless(v, g)
  {
    hide Received, SamePart, LosslessPart;
    assert Order()[0..] == Order();
    forall k | k in g.parts
      ensures k in Reception(v, g, Order())
      ensures SamePart(g.parts[k], Reception(v, g, Order())[k]) <==> LosslessPart(v, k, g.parts[k])
    {
      SentIsReceived(v, g, k);
    }
  }

  lemma RequestConcluded(v: View, st: State, t: GroupType, s: Scan, group: set<Kind>, count: nat)
    requires RightState(v, st, t) && RightClass(v, t) && RightFlags(t, s.parts.Keys)
    requires s.next == {} && s.threshold == count - 2
    ensures Concluded(Peer(v), st, group, s, count) == Some(Asked(t))
  {
  }

  lemma {:induction false} RequestScanned(v: View, t: GroupType, g: Group)
    requires WellTyped(g) && v.initiator && RightFlags(t, g.parts.Keys) && PartsInOrder(v, g) && Encodable(g)
    ensures ScanPdus(Peer(v), START, Emit(g)) ==
            if Readable(g) then Some(Scan({}, g.threshold, Reception(v, g, Order()))) else None
  {
    hide ScanPdus, Walk, Put, Counted, EmitFrom, Readable, Reception, AllRead, FromPeer, Encodable;
    EmitAllRead(v, g);
    EmitIsTaken(v, t, g);
    ScanIsWalk(Peer(v), START, Emit(g));
    PutEmit(v, g, map[], 0);
    CountedEmit(g, 0, 0);
    assert Order()[0..] == Order();
    assert map[] + Reception(v, g, Order()) == Reception(v, g, Order());
  }

  /**
   A group the initiator accepted and encoded is read by the responder exactly when
   none of its bit strings is empty, those in attributes included, and a file to be
   created has a name; it then arrives with its flags and threshold, and with all its
   parameters exactly when nothing was given that was not negotiated, passwords were
   given for everything or nothing, and the attributes are of the kind that is kept.
   The responder goes to the state that answers its type.
   */
  lemma {:induction false} ResponderReadsTheGroup(v: View, st: State, t: GroupType, g: Group, group: set<Kind>)
    requires WellTyped(g) && Acceptable(v, st, t, g) && Encodable(g)
    ensures var r := ScanPdus(Peer(v), START, Emit(g));
            (r.Some? <==> Readable(g)) &&
            (r.Some? ==> r.value.next == {} && r.value.threshold == g.threshold &&
                         r.value.parts.Keys == g.parts.Keys && (SameParts(g, r.value.parts) <==> Lossless(v, g)) &&
                         Concluded(Peer(v), st, group, r.value, |Emit(g)|) == Some(Asked(t)))
  {
    RequestScanned(v, t, g);
    if Readable(g) {
      ReceptionIsTheGroup(v, g);
      RightFlagsAreSpelled(t, g);
      RequestConcluded(v, st, t, Scan({}, g.threshold, Reception(v, g, Order())), group, |Emit(g)|);
    }
  }

  // ----- What the responder takes at all -----

  lemma {:induction false} PutKeys(v: View, parts: map<Kind, Body>, ps: seq<Pdu>)
    requires AllRead(v, ps)
    ensures Put(v, parts, ps).Keys == parts.Keys + set k | k in Kinds(ps)
    decreases |ps|
  {
    if ps != [] {
      assert ps[0] in ps && forall p :: p in ps[1..] ==> p in ps;
      assert Kinds(ps) == [ps[0].kind] + Kinds(ps[1..]);
      PutKeys(v, parts[ps[0].kind := Received(v, ps[0]).value], ps[1..]);
    }
  }

  lemma RequestOfType(v: View, st: State, group: set<Kind>, s: Scan, count: nat, t: GroupType)
    requires !v.initiator && RightFlags(t, s.parts.Keys) && Concluded(v, st, group, s, count).Some?
    ensures Concluded(v, st, group, s, count) == Some(Asked(t)) && s.threshold == count - 2
    ensures RightState(Peer(v), st, t) && RightClass(Peer(v), t)
  {
  }

  lemma {:induction false} KindsTaken(v: View, ps: seq<Pdu>, t: GroupType, s: Shape)
    requires AllRead(v, ps) && Legal(t, s) && Kinds(ps) == Spell(s)
    ensures Put(v, map[], ps).Keys == Flags(s)
  {
    PutKeys(v, map[], ps);
    forall k ensures k in Kinds(ps) <==> k in Flags(s) {
      InSpell(s, k);
    }
  }

  /**
   Whatever the peer sends, a group that the responder takes and that has no
   stray delete is one an initiator may send in that state and service class.
   */
  lemma {:induction false} ResponderTakesOnlyLegalGroups(v: View, st: State, group: set<Kind>, ps: seq<Pdu>, read: Scan)
    requires !v.initiator && FromPeer(v, ps) && ScanPdus(v, START, ps) == Some(read)
    requires Concluded(v, st, group, read, |ps|).Some? && !Stray(Kinds(ps))
    ensures exists t, s: Shape :: Legal(t, s) && Kinds(ps) == Spell(s) &&
              RightState(Peer(v), st, t) && RightClass(Peer(v), t) &&
              read.threshold == |ps| - 2 && Concluded(v, st, group, read, |ps|) == Some(Asked(t))
  {
    ScanIsWalk(v, START, ps);
    RequestAutomatonIsTheGrammar(Kinds(ps));
    var t, s: Shape :| Legal(t, s) && Kinds(ps) == Spell(s);
    KindsTaken(v, ps, t, s);
    SpelledFlags(t, s);
    RequestOfType(v, st, group, read, |ps|, t);
  }

  lemma OpenIsLast(t: GroupType, s: Shape, ks: seq<Kind>)
    requires Legal(t, s) && |ks| == 5 && ks[2] == Open && ks[3] == Delete
    ensures ks != Spell(s)
  {
  }

  function StrayPdus(file: Body, opening: Body): (ps: seq<Pdu>)
    ensures |ps| == 5
  {
    [Pdu(true, Begin, Threshold(3)), Pdu(true, Select, file), Pdu(true, Open, opening),
     Pdu(true, Delete, Plain), Pdu(true, End, Plain)]
  }

  lemma ScanOne(v: View, s: Scan, ps: seq<Pdu>, i: nat)
    requires i < |ps| && ps[i].kind in Order() && GroupStep(v, s, ps[i]).Some?
    ensures ScanPdus(v, s, ps[i..]) == ScanPdus(v, GroupStep(v, s, ps[i]).value, ps[i + 1..])
  {
    assert ps[i..][1..] == ps[i + 1..];
  }

  /** A stray delete: this group opens a file and deletes it, and is taken for a management group. */
  lemma {:induction false} StrayDeleteIsTaken(v: View, file: Body, opening: Body)
    requires !v.initiator && v.service == TransferManage && {UnitGrouping, UnitLimited} <= v.units
    requires file.FileSent? && Stored(v, Select, file).Some? && opening.Opening? && opening.mode != {}
    ensures var ps := StrayPdus(file, opening);
            ScanPdus(v, START, ps).Some? &&
            Concluded(v, Initialized, {}, ScanPdus(v, START, ps).value, |ps|) == Some(Management)
  {
    hide ScanPdus, Codec.Fpm2attr;
    var ps := StrayPdus(file, opening);
    var s1 := GroupStep(v, START, ps[0]).value;
    var s2 := GroupStep(v, s1, ps[1]).value;
    var s3 := GroupStep(v, s2, ps[2]).value;
    StrayTail(v, file, opening, s3);
    ScanOne(v, s2, ps, 2);
    ScanOne(v, s1, ps, 1);
    ScanOne(v, START, ps, 0);
    assert ps[0..] == ps;
  }

  /** The delete and the end, behind the open. */
  lemma StrayTail(v: View, file: Body, opening: Body, s: Scan)
    requires !v.initiator && {UnitGrouping, UnitLimited} <= v.units && s.next == {End}
    ensures ScanPdus(v, s, StrayPdus(file, opening)[3..]) == Some(Scan({}, s.threshold, s.parts[Delete := Plain][End := Plain]))
  {
    var ps := StrayPdus(file, opening);
    var s4 := GroupStep(v, s, ps[3]).value;
    ScanOne(v, s4, ps, 4);
    ScanOne(v, s, ps, 3);
    assert ps[5..] == [];
  }

  /** No initiator may send it. */
  lemma {:induction false} StrayDeleteIsIllegal(file: Body, opening: Body)
    ensures !exists t, s: Shape :: Legal(t, s) && Kinds(StrayPdus(file, opening)) == Spell(s)
  {
    var ks := Kinds(StrayPdus(file, opening));
    forall t, s: Shape | Legal(t, s) ensures ks != Spell(s) {
      OpenIsLast(t, s, ks);
    }
  }
}
