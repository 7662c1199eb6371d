/**
 The groups an initiator accepts are exactly those of the service definition: a
 begin, a head, attribute actions, a tail and an end, with the right threshold.
 */
module FtamGroupTheorems {
  import opened Wrappers
  import opened FtamTypes
  import opened FtamGroups

  // ----- The grammar -----

  /** A group as the service definition spells it: a head, attribute actions, a tail. */
  datatype Shape = Shape(head: Kind, rd: bool, ch: bool, tail: Kind)

  predicate Legal(t: GroupType, s: Shape) {
    match t
    case ForManagement => s.head in {Select, Create} && s.tail in {Deselect, Delete}
    case ForBulkBegin => s.head in {Select, Create} && s.tail == Open
    case ForBulkEnd => s.head == Close && s.tail in {Deselect, Delete}
  }

  function Maybe(b: bool, k: Kind): seq<Kind> {
    if b then [k] else []
  }

  function Spell(s: Shape): seq<Kind> {
    [Begin, s.head] + (Maybe(s.rd, Rdattr) + (Maybe(s.ch, Chattr) + [s.tail, End]))
  }

  function Flags(s: Shape): set<Kind> {
    {Begin, s.head, s.tail, End} + (if s.rd then {Rdattr} else {}) + (if s.ch then {Chattr} else {})
  }

  function Kinds(ps: seq<Pdu>): (ks: seq<Kind>)
    ensures |ks| == |ps| && forall i :: 0 <= i < |ps| ==> ks[i] == ps[i].kind
  {
    if ps == [] then [] else [ps[0].kind] + Kinds(ps[1..])
  }

  lemma KindsOfBoth(a: seq<Pdu>, b: seq<Pdu>)
    ensures Kinds(a + b) == Kinds(a) + Kinds(b)
  {
  }

  // ----- Emission -----

  function EmittedFrom(f: set<Kind>, i: nat): seq<Kind>
    requires i <= 10
    decreases f, 10 - i
  {
    if i == 10 then [] else Maybe(Order()[i] in f, Order()[i]) + EmittedFrom(f, i + 1)
  }

  lemma {:induction false} EmitKinds(g: Group, i: nat)
    requires i <= 10
    ensures Kinds(EmitFrom(g, i)) == EmittedFrom(g.parts.Keys, i)
    decreases 10 - i
  {
    if i < 10 {
      EmitKinds(g, i + 1);
      var here := if Order()[i] in g.parts then [Sent(g, Order()[i])] else [];
      KindsOfBoth(here, EmitFrom(g, i + 1));
      assert Kinds(here) == Maybe(Order()[i] in g.parts.Keys, Order()[i]);
    }
  }

  lemma {:induction false} EmitReplyKinds(r: Reply, i: nat)
    requires i <= 10
    ensures Kinds(EmitReplyFrom(r, i)) == EmittedFrom(ReplyFlags(r), i)
    decreases 10 - i
  {
    if i < 10 {
      EmitReplyKinds(r, i + 1);
      var here := if Order()[i] in ReplyFlags(r) then [Answer(r, Order()[i])] else [];
      KindsOfBoth(here, EmitReplyFrom(r, i + 1));
      assert Kinds(here) == Maybe(Order()[i] in ReplyFlags(r), Order()[i]);
    }
  }

  lemma Turn(f: set<Kind>, i: nat, k: Kind)
    requires i < 10 && Order()[i] == k
    ensures EmittedFrom(f, i) == if k in f then [k] + EmittedFrom(f, i + 1) else EmittedFrom(f, i + 1)
  {
  }

  lemma EmittedTail(f: set<Kind>, tail: Kind)
    requires tail in {Deselect, Delete, Open} && End in f
    requires (Deselect in f <==> tail == Deselect) && (Delete in f <==> tail == Delete) && (Open in f <==> tail == Open)
    ensures EmittedFrom(f, 6) == [tail, End]
  {
    hide EmittedFrom;
    Turn(f, 6, Deselect);
    Turn(f, 7, Delete);
    Turn(f, 8, Open);
    EmittedLast(f);
    assert [tail] + [End] == [tail, End];
  }

  lemma EmittedLast(f: set<Kind>)
    requires End in f
    ensures EmittedFrom(f, 9) == [End]
  {
    Turn(f, 9, End);
  }

  /** The heads that may follow the begin. */
  lemma EmittedSecond(f: set<Kind>, head: Kind)
    requires head in {Select, Create, Close}
    requires (Select in f <==> head == Select) && (Create in f <==> head == Create) && (Close in f <==> head == Close)
    ensures EmittedFrom(f, 1) == [head] + EmittedFrom(f, 4)
  {
    hide EmittedFrom;
    Turn(f, 3, Close);
    Turn(f, 2, Create);
    Turn(f, 1, Select);
  }

  lemma EmittedHead(f: set<Kind>, head: Kind)
    requires head in {Select, Create, Close} && Begin in f
    requires (Select in f <==> head == Select) && (Create in f <==> head == Create) && (Close in f <==> head == Close)
    ensures EmittedFrom(f, 0) == [Begin, head] + EmittedFrom(f, 4)
  {
    hide EmittedFrom;
    EmittedSecond(f, head);
    Turn(f, 0, Begin);
    Pair(Begin, head, EmittedFrom(f, 4));
  }

  lemma Pair(a: Kind, b: Kind, rest: seq<Kind>)
    ensures [a] + ([b] + rest) == [a, b] + rest
  {
  }

  predicate Grouped(f: set<Kind>) {
    forall k :: k in f ==> k in Order()
  }

  lemma {:induction false} EmittedHolds(f: set<Kind>, i: nat, k: Kind)
    requires i <= 10
    ensures k in EmittedFrom(f, i) <==> k in f && k in Order()[i..]
    decreases 10 - i
  {
    if i < 10 {
      EmittedHolds(f, i + 1, k);
      assert Order()[i..] == [Order()[i]] + Order()[i + 1..];
    }
  }

  lemma EmittedMiddle(f: set<Kind>, rd: bool, ch: bool)
    requires (Rdattr in f <==> rd) && (Chattr in f <==> ch)
    ensures EmittedFrom(f, 4) == Maybe(rd, Rdattr) + (Maybe(ch, Chattr) + EmittedFrom(f, 6))
  {
    Turn(f, 4, Rdattr);
    Turn(f, 5, Chattr);
    assert Maybe(rd, Rdattr) + EmittedFrom(f, 5) == EmittedFrom(f, 4);
    assert Maybe(ch, Chattr) + EmittedFrom(f, 6) == EmittedFrom(f, 5);
  }

  lemma ShapeIsEmitted(t: GroupType, s: Shape)
    requires Legal(t, s)
    ensures EmittedFrom(Flags(s), 0) == Spell(s)
  {
    var f := Flags(s);
    EmittedTail(f, s.tail);
    EmittedMiddle(f, s.rd, s.ch);
    EmittedHead(f, s.head);
  }

  function ShapeOf(f: set<Kind>): Shape {
    Shape(if Select in f then Select else if Create in f then Create else Close, Rdattr in f, Chattr in f,
          if Open in f then Open else if Deselect in f then Deselect else Delete)
  }

  lemma SameFlags(t: GroupType, f: set<Kind>, s: Shape)
    requires Grouped(f) && RightFlags(t, f) && s == ShapeOf(f)
    ensures Legal(t, s) && f == Flags(s)
  {
    forall k ensures k in f <==> k in Flags(s) {
      assert k in f ==> k in Order();
    }
  }

  lemma LegalFlags(t: GroupType, s: Shape)
    requires Legal(t, s)
    ensures RightFlags(t, Flags(s))
  {
  }

  lemma FlagsAreAShape(t: GroupType, f: set<Kind>)
    requires Grouped(f)
    ensures RightFlags(t, f) <==> Legal(t, ShapeOf(f)) && f == Flags(ShapeOf(f))
  {
    hide RightFlags, Legal, Flags, ShapeOf;
    var s := ShapeOf(f);
    if RightFlags(t, f) {
      SameFlags(t, f, s);
    }
    if Legal(t, s) && f == Flags(s) {
      LegalFlags(t, s);
    }
  }

  lemma SpelledFlags(t: GroupType, s: Shape)
    requires Legal(t, s)
    ensures RightFlags(t, Flags(s)) && ShapeOf(Flags(s)) == s && Count(Flags(s)) == |Spell(s)| - 2
    ensures 4 <= |Spell(s)| <= 6
  {
  }

  lemma {:induction false} SpelledBack(t: GroupType, f: set<Kind>, s: Shape)
    requires Grouped(f) && Legal(t, s) && EmittedFrom(f, 0) == Spell(s)
    ensures f == Flags(s) && RightFlags(t, f)
  {
    forall k ensures k in f <==> k in Flags(s) {
      EmittedHolds(f, 0, k);
      assert Order()[0..] == Order();
      InSpell(s, k);
    }
    SpelledFlags(t, s);
  }

  lemma InSpell(s: Shape, k: Kind)
    ensures k in Spell(s) <==> k in Flags(s)
  {
  }

  lemma {:induction false} RightFlagsAreSpelled(t: GroupType, g: Group)
    requires WellTyped(g)
    ensures RightFlags(t, g.parts.Keys) <==> exists s: Shape :: Legal(t, s) && Kinds(Emit(g)) == Spell(s)
    ensures RightFlags(t, g.parts.Keys) ==> Count(g.parts.Keys) == |Emit(g)| - 2
  {
    var f := g.parts.Keys;
    EmitKinds(g, 0);
    FlagsAreAShape(t, f);
    if RightFlags(t, f) {
      SpelledFlags(t, ShapeOf(f));
      ShapeIsEmitted(t, ShapeOf(f));
      assert Kinds(Emit(g)) == Spell(ShapeOf(f));
    }
    forall s: Shape | Legal(t, s) && Kinds(Emit(g)) == Spell(s) ensures RightFlags(t, f) {
      SpelledBack(t, f, s);
    }
  }

  /**
   `figrpchk` lets through exactly the groups whose PDUs are spelled as the
   service definition wants them, with the threshold that goes with them.
   */
  lemma {:induction false} AcceptedGroupsAreTheLegalOnes(v: View, st: State, t: GroupType, g: Group)
    requires WellTyped(g)
    ensures Acceptable(v, st, t, g) <==>
            RightState(v, st, t) && RightClass(v, t) && PartsInOrder(v, g) &&
            g.threshold == |Emit(g)| - 2 && exists s: Shape :: Legal(t, s) && Kinds(Emit(g)) == Spell(s)
  {
    RightFlagsAreSpelled(t, g);
  }
}
