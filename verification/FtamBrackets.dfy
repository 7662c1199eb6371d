/**
 The history theorems over whole runs: each side's past is made of whole exchanges
 in their places, and the PDUs of the groups an initiator had confirmed are well
 bracketed, file by file.
 */
module FtamBrackets {
  import opened Wrappers
  import opened FtamTypes
  import opened FtamGroups
  import opened FtamGroupTheorems
  import opened FtamReading
  import opened FtamRegime
  import opened FtamRuns
  import opened FtamNet
  import opened FtamHistory

  function SideOf(n: Net, first: bool): Side {
    if first then n.a else n.b
  }

  /** What side `first` can look back on after the event. */
  function Recall(n: Net, first: bool, p: Past, e: Event): Past
    requires Sensible(e)
  {
    var s, q := SideOf(n, first), if first then n.toA else n.toB;
    if e.first != first then p
    else
      match e.move
      case Calls(c) =>
        if s.cancel || Do(s, c).None? then p
        else var s' := Do(s, c).value.0; Track(p, Said(s, c, s'), s')
      case Listens =>
        if q != [] && Receive(s, q[0]).Told? then
          var s' := Receive(s, q[0]).side; Track(p, Heard(s, q[0], s'), s')
        else p
  }

  function RecallRun(n: Net, first: bool, p: Past, es: seq<Event>): Past
    requires SensibleRun(es)
    decreases |es|
  {
    if es == [] then p
    else match After(n, es[0])
         case None => p
         case Some(n') => RecallRun(n', first, Recall(n, first, p, es[0]), es[1..])
  }

  lemma {:induction false} MayHear(n: Net)
    requires InStep(n) && n.toA != []
    ensures !MustAnswer(n.a) && Spoken(n.toA[0]) && (n.a.cancel ==> n.a.state == DataCancel)
  {
    assert n.toA[0] in n.toA;
    if Behind(n.b, n.toB, n.a, n.toA) {
      SettledIsCaught(n.a, n.toA);
    }
  }

  lemma {:induction false} EventIsTold(n: Net, first: bool, p: Past, e: Event)
    requires InStep(n) && Sensible(e) && After(n, e).Some? && Tells(SideOf(n, first), p)
    ensures Tells(SideOf(After(n, e).value, first), Recall(n, first, p, e))
  {
    var n' := if e.first then n else Flip(n);
    assert InStep(n');
    if e.first == first {
      match e.move
      case Calls(c) =>
        if !n'.a.cancel && Do(n'.a, c).Some? {
          CallTold(n'.a, p, c);
        }
      case Listens =>
        if n'.toA != [] {
          MayHear(n');
          if Receive(n'.a, n'.toA[0]).Told? {
            ArrivalTold(n'.a, p, n'.toA[0]);
          } else {
            ArrivalKeepsOwn(n'.a, n'.toA[0]);
            StillTells(n', p);
          }
        }
    }
  }

  /** What is passed over leaves no trace. */
  lemma {:induction false} StillTells(n: Net, p: Past)
    requires InStep(n) && n.toA != [] && Receive(n.a, n.toA[0]).Quiet? && Tells(n.a, p)
    ensures Receive(n.a, n.toA[0]).side == n.a
  {
    MayHear(n);
    ArrivalKeepsOwn(n.a, n.toA[0]);
    if Behind(n.b, n.toB, n.a, n.toA) {
      assert n.toA[0] in n.toA;
      PassedOverIsQuiet(n.a, n.toA[0]);
    }
  }

  /**
   After any orderly run each side looks back on whole exchanges, each in its
   place, and on the part of one more that goes with its state.  So data is said
   only between a read or write and its end, in a read only by the responder and
   in a write only by the initiator, and the sides come back to rest only by a
   response.
   */
  lemma {:induction false} HistoryIsInOrder(n: Net, first: bool, p: Past, es: seq<Event>)
    requires InStep(n) && SensibleRun(es) && Orderly(n, es) && Tells(SideOf(n, first), p)
    ensures Run(n, es).Some? && Tells(SideOf(Run(n, es).value, first), RecallRun(n, first, p, es))
    decreases |es|
  {
    if es != [] {
      assert Sensible(es[0]) && forall e :: e in es[1..] ==> e in es;
      MoveKeepsStep(n, es[0]);
      EventIsTold(n, first, p, es[0]);
      HistoryIsInOrder(After(n, es[0]).value, first, Recall(n, first, p, es[0]), es[1..]);
    }
  }

  lemma FreshTells(v: View, first: bool)
    ensures Tells(SideOf(Fresh(v), first), Past([], []))
  {
  }

  // ----- Files are selected, opened, closed and deselected -----

  datatype Level = NoFile | Selected | Opened

  function LevelStep(l: Level, k: Kind): Option<Level> {
    match k
    case Begin => Some(l)
    case End => Some(l)
    case Select => if l == NoFile then Some(Selected) else None
    case Create => if l == NoFile then Some(Selected) else None
    case Rdattr => if l == Selected then Some(l) else None
    case Chattr => if l == Selected then Some(l) else None
    case Open => if l == Selected then Some(Opened) else None
    case Close => if l == Opened then Some(Selected) else None
    case Deselect => if l == Selected then Some(NoFile) else None
    case Delete => if l == Selected then Some(NoFile) else None
    case _ => None
  }

  function LevelRun(l: Level, ks: seq<Kind>): Option<Level>
    decreases |ks|
  {
    if ks == [] then Some(l)
    else match LevelStep(l, ks[0]) case None => None case Some(l') => LevelRun(l', ks[1..])
  }

  lemma {:induction false} LevelBoth(l: Level, a: seq<Kind>, b: seq<Kind>)
    requires LevelRun(l, a).Some?
    ensures LevelRun(l, a + b) == LevelRun(LevelRun(l, a).value, b)
    decreases |a|
  {
    if a == [] {
      assert a + b == b;
    } else {
      assert (a + b)[0] == a[0] && (a + b)[1..] == a[1..] + b;
      LevelBoth(LevelStep(l, a[0]).value, a[1..], b);
    }
  }

  lemma LevelTwo(l: Level, j: Kind, k: Kind)
    ensures LevelRun(l, [j, k]) == match LevelStep(l, j) case None => None case Some(l') => LevelStep(l', k)
  {
    assert [j, k][1..] == [k] && [k][1..] == [];
    assert forall l' :: LevelRun(l', []) == Some(l');
    assert forall l' :: LevelRun(l', [k]) == LevelStep(l', k);
  }

  lemma LevelMaybe(b: bool, k: Kind)
    requires k in {Rdattr, Chattr}
    ensures LevelRun(Selected, Maybe(b, k)) == Some(Selected)
  {
    assert [k][1..] == [];
  }

  /** A group whose head can be done where the file stands ends where its tail says. */
  lemma {:induction false} GroupLevels(l: Level, t: GroupType, s: Shape)
    requires Legal(t, s) && l == (if t == ForBulkEnd then Opened else NoFile)
    ensures LevelRun(l, Spell(s)) == Some(if t == ForBulkBegin then Opened else NoFile)
  {
    var rest := Maybe(s.ch, Chattr) + [s.tail, End];
    LevelTwo(l, Begin, s.head);
    LevelBoth(l, [Begin, s.head], Maybe(s.rd, Rdattr) + rest);
    LevelMaybe(s.rd, Rdattr);
    LevelBoth(Selected, Maybe(s.rd, Rdattr), rest);
    LevelMaybe(s.ch, Chattr);
    LevelBoth(Selected, Maybe(s.ch, Chattr), [s.tail, End]);
    LevelTwo(Selected, s.tail, End);
  }

  /** The PDUs of a group that was confirmed; a bulk-begin that did not enter the data regime did nothing. */
  function Done(e: seq<Note>): seq<Kind> {
    if |e| == 2 && e[0].mark.Grouping? && e[1].mark.Grouping? && (e[0].mark.t == ForBulkBegin ==> e[1].mark.entered)
    then e[0].mark.kinds
    else []
  }

  function Confirmed(whole: seq<seq<Note>>): seq<Kind> {
    if whole == [] then [] else Confirmed(whole[..|whole| - 1]) + Done(whole[|whole| - 1])
  }

  lemma {:induction false} ExchangeLevels(open: bool, e: seq<Note>)
    requires Effect(true, open, e).Some?
    ensures LevelRun(if open then Opened else NoFile, Done(e)) == Some(if Effect(true, open, e).value then Opened else NoFile)
  {
    if IsAccess(true, e) || IsTransfer(true, e) || IsCut(true, e) {
      FirstNote(true, e);
      NotAGroup(true, ForManagement, e);
      NotAGroup(true, ForBulkBegin, e);
      NotAGroup(true, ForBulkEnd, e);
    } else {
      var t := e[0].mark.t;
      assert e[..1][0] == e[0];
      assert IsGroup(true, t, e);
      var s: Shape :| Legal(t, s) && e[0].mark.kinds == Spell(s);
      GroupLevels(if open then Opened else NoFile, t, s);
    }
  }

  /**
   Over an initiator's past, files are opened only inside a selection and closed
   before they are deselected, and a file is open exactly in the data regime.
   */
  lemma {:induction false} GroupsAreBracketed(whole: seq<seq<Note>>)
    requires Regime(true, whole).Some?
    ensures LevelRun(NoFile, Confirmed(whole)) == Some(if Regime(true, whole).value then Opened else NoFile)
    decreases |whole|
  {
    if whole != [] {
      var before, e := whole[..|whole| - 1], whole[|whole| - 1];
      GroupsAreBracketed(before);
      ExchangeLevels(Regime(true, before).value, e);
      LevelBoth(NoFile, Confirmed(before), Done(e));
    }
  }

  /** All of it, from the start of an association. */
  lemma {:induction false} EveryOrderlyAssociation(v: View, es: seq<Event>)
    requires SensibleRun(es) && Orderly(Fresh(v), es)
    ensures Run(Fresh(v), es).Some?
    ensures var n := Run(Fresh(v), es).value;
            var mine := RecallRun(Fresh(v), true, Past([], []), es);
            InStep(n) && (n.a.done <= n.b.done || n.b.done <= n.a.done) &&
            Tells(n.a, mine) && Tells(n.b, RecallRun(Fresh(v), false, Past([], []), es)) &&
            (v.initiator ==> LevelRun(NoFile, Confirmed(mine.whole)) == Some(if InRegime(n.a.state) then Opened else NoFile))
  {
    FreshIsInStep(v);
    NoSideIsSurprised(Fresh(v), es);
    FinishedTransfersAgree(Run(Fresh(v), es).value);
    FreshTells(v, true);
    FreshTells(v, false);
    HistoryIsInOrder(Fresh(v), true, Past([], []), es);
    HistoryIsInOrder(Fresh(v), false, Past([], []), es);
    var mine := RecallRun(Fresh(v), true, Past([], []), es);
    RunKeepsView(Fresh(v), es);
    if v.initiator {
      GroupsAreBracketed(mine.whole);
    }
  }

  lemma DoKeepsView(s: Side, c: Call)
    requires WellFormed(c) && Do(s, c).Some?
    ensures Do(s, c).value.0.view == s.view
  {
  }

  lemma ReceiveKeepsView(s: Side, m: Psdu)
    ensures match Receive(s, m) case Abort => true case Quiet(s', _) => s'.view == s.view case Told(s') => s'.view == s.view
  {
  }

  lemma MoveKeepsView(n: Net, m: Move)
    requires (m.Calls? ==> WellFormed(m.c)) && MoveA(n, m).Some?
    ensures MoveA(n, m).value.a.view == n.a.view && MoveA(n, m).value.b.view == n.b.view
  {
    match m
    case Calls(c) => if Do(n.a, c).Some? { DoKeepsView(n.a, c); }
    case Listens => if n.toA != [] { ReceiveKeepsView(n.a, n.toA[0]); }
  }

  lemma {:induction false} RunKeepsView(n: Net, es: seq<Event>)
    requires SensibleRun(es) && Run(n, es).Some?
    ensures Run(n, es).value.a.view == n.a.view && Run(n, es).value.b.view == n.b.view
    decreases |es|
  {
    if es != [] {
      assert Sensible(es[0]) && forall e :: e in es[1..] ==> e in es;
      MoveKeepsView(if es[0].first then n else Flip(n), es[0].move);
      RunKeepsView(After(n, es[0]).value, es[1..]);
    }
  }
}
