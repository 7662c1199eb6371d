/**
 What the signal masks promise, whatever arrives between any two statements: a
 properly nested program restores the mask and every disposition, a blocked signal
 is only noted, and one that was noted is raised exactly once when it is let
 through again.
 */
module SignalTheorems {
  import opened Signals

  // ----- The invariant -----

  /** Pending signals are blocked; `sigser` is installed exactly for the blocked ones that can be caught. */
  ghost predicate Inv(s: State) {
    && |s.handler| == Nsig(s)
    && s.pending <= s.blocked
    && (forall sig :: sig in s.blocked ==> IsSignal(s, sig))
    && (forall sig :: IsSignal(s, sig) && sig in s.catchable ==> (s.disp[sig] == Sigser <==> sig in s.blocked))
    && (forall sig :: IsSignal(s, sig) ==> s.disp[sig] != BadSig && (sig !in s.catchable ==> s.disp[sig] != Sigser))
    && (forall sig :: sig in s.blocked ==>
          if sig in s.catchable then s.handler[sig] != Sigser && s.handler[sig] != BadSig else s.handler[sig] == BadSig)
  }

  /** The disposition the program gave a signal, whether or not it is blocked now. */
  function Intended(s: State, sig: int): Disposition
    requires IsSignal(s, sig)
  {
    if sig in s.blocked && sig in s.catchable then s.handler[sig] else s.disp[sig]
  }

  ghost predicate SameIntent(s: State, r: State) {
    && SameKind(s, r)
    && (|s.disp| > 0 ==> r.disp[0] == s.disp[0])
    && forall sig :: IsSignal(s, sig) ==> Intended(r, sig) == Intended(s, sig)
  }

  lemma IntentThrough(s: State, t: State, r: State)
    requires SameIntent(s, t) && SameIntent(t, r)
    ensures SameIntent(s, r)
  {
    assert forall sig :: IsSignal(s, sig) <==> IsSignal(t, sig);
  }

  lemma ArriveAllKeeps(s: State, sigs: seq<int>)
    requires Inv(s)
    ensures var r := ArriveAll(s, sigs);
            Inv(r) && SameIntent(s, r) && r.blocked == s.blocked && r.handler == s.handler && r.disp == s.disp
  {
    ArriveAllIs(s, sigs);
  }

  // ----- One turn, as a whole -----

  /** The four statements that block a signal, arrivals gathered. */
  lemma BlockOneIs(s: State, sig: int, g: Gaps)
    requires IsSignal(s, sig)
    ensures var (t, was) := Signal(s, sig, Sigser);
            BlockOne(s, sig, g) ==
              State(s.blocked + {sig},
                    (s.pending - {sig}) + Noticed(s, g.first) + Noticed(t, g.second) + Noticed(t, g.third),
                    s.handler[sig := was], t.disp, s.catchable,
                    s.log + Echo(s, g.first) + Echo(t, g.second) + Echo(t, g.third))
  {
    var s1 := s.(pending := s.pending - {sig});
    ArriveAllIs(s1, g.first);
    SameEcho(s1, s, g.first);
    var (s2, was) := Signal(ArriveAll(s1, g.first), sig, Sigser);
    var t := Signal(s, sig, Sigser).0;
    ArriveAllIs(s2, g.second);
    SameEcho(s2, t, g.second);
    var s3 := ArriveAll(s2, g.second);
    var s4 := s3.(handler := s3.handler[sig := was]);
    ArriveAllIs(s4, g.third);
    SameEcho(s4, t, g.third);
  }

  /** What is restored when a signal is let through. */
  function Restored(s: State, sig: int): State
    requires IsSignal(s, sig)
  {
    Signal(s, sig, if s.handler[sig] != BadSig then s.handler[sig] else Default).0
  }

  /** The statements that let it through. */
  lemma UnblockOneIs(s: State, sig: int, g: Gaps)
    requires IsSignal(s, sig)
    ensures var t := Restored(s, sig);
            var pending := s.pending + Noticed(s, g.first) + Noticed(t, g.second);
            var log := s.log + Echo(s, g.first) + Echo(t, g.second);
            UnblockOne(s, sig, g) ==
              if sig !in pending then State(s.blocked - {sig}, pending, s.handler, t.disp, s.catchable, log)
              else State(s.blocked - {sig}, (pending - {sig}) + Noticed(t, g.third), s.handler, t.disp, s.catchable,
                         log + Echo(t, g.third) + [Raised(sig)])
  {
    var s1 := s.(blocked := s.blocked - {sig});
    ArriveAllIs(s1, g.first);
    SameEcho(s1, s, g.first);
    var t := Restored(s, sig);
    var s2 := Restored(ArriveAll(s1, g.first), sig);
    ArriveAllIs(s2, g.second);
    SameEcho(s2, t, g.second);
    var s3 := ArriveAll(s2, g.second);
    if sig in s3.pending {
      var s4 := s3.(pending := s3.pending - {sig});
      ArriveAllIs(s4, g.third);
      SameEcho(s4, t, g.third);
    }
  }

  /** Only signals with `sigser` installed are noticed. */
  lemma NoticedAreShielded(s: State, sigs: seq<int>)
    ensures forall x :: x in Noticed(s, sigs) ==> IsSignal(s, x) && s.disp[x] == Sigser
  {
  }

  /** The same state but for its pending signals and its log. */
  predicate SameTables(s: State, r: State) {
    s.blocked == r.blocked && s.handler == r.handler && s.disp == r.disp && s.catchable == r.catchable
  }

  lemma InvFromTables(s: State, r: State)
    requires Inv(s) && SameTables(s, r) && r.pending <= r.blocked
    ensures Inv(r) && SameIntent(s, r)
  {
  }

  /** A signal is held: its disposition is saved and `sigser` installed. */
  lemma HeldKeeps(s: State, sig: int)
    requires Inv(s) && IsSignal(s, sig) && sig !in s.blocked
    ensures var (t, was) := Signal(s, sig, Sigser);
            var r := t.(blocked := s.blocked + {sig}, handler := s.handler[sig := was]);
            Inv(r) && SameIntent(s, r)
  {
  }

  lemma BlockOneKeeps(s: State, sig: int, g: Gaps)
    requires Inv(s) && IsSignal(s, sig) && sig !in s.blocked
    ensures var r := BlockOne(s, sig, g); Inv(r) && SameIntent(s, r) && r.blocked == s.blocked + {sig}
  {
    hide BlockOne, Noticed, Echo;
    BlockOneIs(s, sig, g);
    HeldKeeps(s, sig);
    var (t, was) := Signal(s, sig, Sigser);
    var held := t.(blocked := s.blocked + {sig}, handler := s.handler[sig := was]);
    NoticedAreShielded(s, g.first);
    NoticedAreShielded(t, g.second);
    NoticedAreShielded(t, g.third);
    ShieldedAreBlocked(s, s.disp);
    ShieldedAreBlocked(held, t.disp);
    forall x | x in BlockOne(s, sig, g).pending ensures x in held.blocked {
      assert x in s.pending || x in Noticed(s, g.first) || x in Noticed(t, g.second) || x in Noticed(t, g.third);
    }
    InvFromTables(held, BlockOne(s, sig, g));
    IntentThrough(s, held, BlockOne(s, sig, g));
  }

  lemma ShieldedAreBlocked(s: State, disp: seq<Disposition>)
    requires Inv(s) && disp == s.disp
    ensures forall x :: 1 <= x < |disp| && disp[x] == Sigser ==> x in s.blocked
  {
    assert forall x :: 1 <= x < |disp| ==> IsSignal(s, x);
  }

  /** It is let through: the saved disposition comes back. */
  lemma FreedKeeps(s: State, sig: int)
    requires Inv(s) && sig in s.blocked
    ensures var r := Restored(s, sig).(blocked := s.blocked - {sig}, pending := s.pending - {sig});
            Inv(r) && SameIntent(s, r)
  {
  }

  lemma UnblockOneKeeps(s: State, sig: int, g: Gaps)
    requires Inv(s) && sig in s.blocked
    ensures var r := UnblockOne(s, sig, g); Inv(r) && SameIntent(s, r) && r.blocked == s.blocked - {sig}
  {
    hide UnblockOne, Noticed, Echo, Restored;
    UnblockOneIs(s, sig, g);
    FreedKeeps(s, sig);
    var t := Restored(s, sig);
    RestoredTables(s, sig);
    var freed := t.(blocked := s.blocked - {sig}, pending := s.pending - {sig});
    NoticedAreShielded(s, g.first);
    NoticedAreShielded(t, g.second);
    NoticedAreShielded(t, g.third);
    ShieldedAreBlocked(s, s.disp);
    ShieldedAreBlocked(freed, t.disp);
    forall x | x in UnblockOne(s, sig, g).pending ensures x in freed.blocked {
      assert x in s.pending || x in Noticed(s, g.first) || x in Noticed(t, g.second) || x in Noticed(t, g.third);
      assert x in Noticed(s, g.first) ==> x in s.blocked;
      assert x == sig ==> x !in Noticed(t, g.third);
    }
    InvFromTables(freed, UnblockOne(s, sig, g));
    IntentThrough(s, freed, UnblockOne(s, sig, g));
  }

  lemma RestoredTables(s: State, sig: int)
    requires IsSignal(s, sig)
    ensures Restored(s, sig) == s.(disp := Restored(s, sig).disp) && SameKind(s, Restored(s, sig))
  {
  }

  // ----- What becomes of one signal -----

  /** What a stretch of the run adds to the log. */
  function News(s: State, r: State): seq<Event>
    requires s.log <= r.log
  {
    r.log[|s.log|..]
  }

  function Raises(e: seq<Event>, x: int): nat {
    multiset(e)[Raised(x)]
  }

  /** Between two states of a loop: what the mask says of a signal decides what may happen to it. */
  predicate Fate(s: State, r: State, x: int)
    requires s.log <= r.log
  {
    var e := News(s, r);
    if x in s.blocked && x in r.blocked then
      Handled(x) !in e && Raises(e, x) == 0 && (x in r.pending <==> x in s.pending || Noted(x) in e)
    else if x in s.blocked then
      Raises(e, x) == if x in s.pending || Noted(x) in e then 1 else 0
    else if x in r.blocked then
      Raises(e, x) == 0 && (x in r.pending <==> Noted(x) in e)
    else Raises(e, x) == 0 && Noted(x) !in e
  }

  lemma NewsJoin(s: State, t: State, r: State)
    requires s.log <= t.log <= r.log
    ensures News(s, r) == News(s, t) + News(t, r)
  {
  }

  lemma FateJoins(s: State, t: State, r: State, x: int)
    requires s.log <= t.log <= r.log && Fate(s, t, x) && Fate(t, r, x)
    requires Inv(s) && Inv(t)
    requires (x in t.blocked <==> x in s.blocked) || (x in t.blocked <==> x in r.blocked)
    ensures Fate(s, r, x)
  {
    NewsJoin(s, t, r);
  }

  /** A signal that can be caught. */
  predicate Tame(s: State, x: int) {
    IsSignal(s, x) && x in s.catchable
  }

  lemma ArriveAllFate(s: State, sigs: seq<int>, x: int)
    requires Inv(s) && Tame(s, x)
    ensures s.log <= ArriveAll(s, sigs).log && Fate(s, ArriveAll(s, sigs), x)
  {
    ArriveAllIs(s, sigs);
    EchoHas(s, sigs, x);
    assert News(s, ArriveAll(s, sigs)) == Echo(s, sigs);
  }

  /** What three stretches of arrivals leave in the log. */
  lemma ThreeEchoes(s: State, a: seq<int>, t: State, b: seq<int>, c: seq<int>, x: int)
    ensures var e := Echo(s, a) + Echo(t, b) + Echo(t, c);
            && (Noted(x) in e <==> x in Noticed(s, a) || x in Noticed(t, b) || x in Noticed(t, c))
            && (Handled(x) in e ==> (IsSignal(s, x) && s.disp[x] != Sigser) || (IsSignal(t, x) && t.disp[x] != Sigser))
            && Raises(e, x) == 0
  {
    EchoHas(s, a, x);
    EchoHas(t, b, x);
    EchoHas(t, c, x);
  }

  lemma AddedNews(s: State, r: State, e: seq<Event>)
    requires r.log == s.log + e
    ensures s.log <= r.log && News(s, r) == e
  {
  }

  lemma BlockOneFate(s: State, sig: int, g: Gaps, x: int)
    requires Inv(s) && IsSignal(s, sig) && sig !in s.blocked && Tame(s, x)
    ensures s.log <= BlockOne(s, sig, g).log && Fate(s, BlockOne(s, sig, g), x)
  {
    hide BlockOne, Echo, Raises;
    BlockOneIs(s, sig, g);
    var t := Signal(s, sig, Sigser).0;
    var e := Echo(s, g.first) + Echo(t, g.second) + Echo(t, g.third);
    assert s.log + Echo(s, g.first) + Echo(t, g.second) + Echo(t, g.third) == s.log + e;
    AddedNews(s, BlockOne(s, sig, g), e);
    ThreeEchoes(s, g.first, t, g.second, g.third, x);
    assert IsSignal(t, x) && (t.disp[x] == Sigser <==> x == sig || x in s.blocked);
    assert x in s.pending ==> x in s.blocked;
  }

  lemma RaisedLast(e: seq<Event>, sig: int, x: int)
    ensures Raises(e + [Raised(sig)], x) == Raises(e, x) + if sig == x then 1 else 0
    ensures Noted(x) in e + [Raised(sig)] <==> Noted(x) in e
    ensures Handled(x) in e + [Raised(sig)] <==> Handled(x) in e
  {
  }

  lemma UnblockOneFate(s: State, sig: int, g: Gaps, x: int)
    requires Inv(s) && sig in s.blocked && Tame(s, x)
    ensures s.log <= UnblockOne(s, sig, g).log && Fate(s, UnblockOne(s, sig, g), x)
  {
    hide UnblockOne, Echo, Raises, Restored;
    UnblockOneIs(s, sig, g);
    var t, r := Restored(s, sig), UnblockOne(s, sig, g);
    RestoredTables(s, sig);
    RestoredShield(s, sig, x);
    var third := if sig in s.pending + Noticed(s, g.first) + Noticed(t, g.second) then g.third else [];
    var e := Echo(s, g.first) + Echo(t, g.second) + Echo(t, third);
    ThreeEchoes(s, g.first, t, g.second, third, x);
    EchoHas(t, [], x);
    if sig in s.pending + Noticed(s, g.first) + Noticed(t, g.second) {
      assert s.log + Echo(s, g.first) + Echo(t, g.second) + Echo(t, third) + [Raised(sig)] == s.log + (e + [Raised(sig)]);
      AddedNews(s, r, e + [Raised(sig)]);
      RaisedLast(e, sig, x);
    } else {
      NoEcho(t);
      assert s.log + Echo(s, g.first) + Echo(t, g.second) == s.log + e;
      AddedNews(s, r, e);
    }
  }

  lemma NoEcho(t: State)
    ensures Echo(t, []) == [] && Noticed(t, []) == {}
  {
  }

  lemma RestoredShield(s: State, sig: int, x: int)
    requires Inv(s) && sig in s.blocked && Tame(s, x)
    ensures IsSignal(Restored(s, sig), x)
    ensures Restored(s, sig).disp[x] == Sigser <==> x != sig && x in s.blocked
  {
  }

  // ----- The loops -----

  lemma SetOneKeeps(s: State, mask: set<int>, sig: int, g: Gaps)
    requires Inv(s) && IsSignal(s, sig)
    ensures var r := SetOne(s, mask, sig, g);
            && Inv(r) && SameIntent(s, r)
            && (forall x :: x in r.blocked <==> if x == sig then x in mask else x in s.blocked)
  {
    hide BlockOne, UnblockOne, Inv, SameIntent;
    ArriveAllKeeps(s, g.before);
    var s0 := ArriveAll(s, g.before);
    if sig in mask && sig !in s0.blocked {
      BlockOneKeeps(s0, sig, g);
      IntentThrough(s, s0, BlockOne(s0, sig, g));
    } else if sig !in mask && sig in s0.blocked {
      UnblockOneKeeps(s0, sig, g);
      IntentThrough(s, s0, UnblockOne(s0, sig, g));
    }
  }

  lemma SetOneFate(s: State, mask: set<int>, sig: int, g: Gaps, x: int)
    requires Inv(s) && IsSignal(s, sig) && Tame(s, x)
    ensures s.log <= SetOne(s, mask, sig, g).log && Fate(s, SetOne(s, mask, sig, g), x)
  {
    hide BlockOne, UnblockOne, Inv, SameIntent, Fate;
    ArriveAllKeeps(s, g.before);
    ArriveAllFate(s, g.before, x);
    var s0 := ArriveAll(s, g.before);
    SetOneKeeps(s, mask, sig, g);
    if sig in mask && sig !in s0.blocked {
      BlockOneFate(s0, sig, g, x);
      FateJoins(s, s0, SetOne(s, mask, sig, g), x);
    } else if sig !in mask && sig in s0.blocked {
      UnblockOneFate(s0, sig, g, x);
      FateJoins(s, s0, SetOne(s, mask, sig, g), x);
    }
  }

  lemma InvSizes(s: State)
    requires Inv(s)
    ensures |s.handler| == Nsig(s)
    ensures s.blocked == s.blocked && forall x :: x in s.blocked ==> IsSignal(s, x)
  {
  }

  lemma {:induction false} SigsetmaskFromKeeps(s: State, mask: set<int>, sig: nat, env: Env)
    requires Inv(s) && 1 <= sig
    ensures var r := SigsetmaskFrom(s, mask, sig, env);
            && Inv(r) && SameIntent(s, r)
            && (forall x :: x in r.blocked <==> if sig <= x < Nsig(s) then x in mask else x in s.blocked)
    decreases Nsig(s) - sig
  {
    hide Inv, SetOne;
    InvSizes(s);
    if sig < Nsig(s) {
      SetOneKeeps(s, mask, sig, env(sig));
      SigsetmaskFromKeeps(SetOne(s, mask, sig, env(sig)), mask, sig + 1, env);
    }
  }

  /** The loop treats every signal as the mask before and after says, whatever arrives between its statements. */
  lemma {:induction false} SigsetmaskFromFate(s: State, mask: set<int>, sig: nat, env: Env, x: int)
    requires Inv(s) && 1 <= sig && Tame(s, x)
    ensures s.log <= SigsetmaskFrom(s, mask, sig, env).log && Fate(s, SigsetmaskFrom(s, mask, sig, env), x)
    decreases Nsig(s) - sig
  {
    hide Inv, SetOne, Fate;
    InvSizes(s);
    SigsetmaskFromKeeps(s, mask, sig, env);
    if sig < Nsig(s) {
      var t := SetOne(s, mask, sig, env(sig));
      SetOneKeeps(s, mask, sig, env(sig));
      SetOneFate(s, mask, sig, env(sig), x);
      SigsetmaskFromFate(t, mask, sig + 1, env, x);
      FateJoins(s, t, SigsetmaskFrom(t, mask, sig + 1, env), x);
    } else {
      ArriveAllFate(s, [], x);
    }
  }

  /** `sigblock` is `sigsetmask` to the signals blocked and those to be blocked. */
  lemma {:induction false} BlockingIsSetting(s: State, mask: set<int>, all: set<int>, sig: nat, env: Env)
    requires Inv(s) && 1 <= sig && mask <= all && s.blocked <= all && forall x :: x in all ==> x in mask || x in s.blocked
    ensures SigblockFrom(s, mask, sig, env) == SigsetmaskFrom(s, all, sig, env)
    decreases Nsig(s) - sig
  {
    hide Inv, BlockOne, UnblockOne;
    InvSizes(s);
    if sig < Nsig(s) {
      ArriveAllKeeps(s, env(sig).before);
      SetOneKeeps(s, all, sig, env(sig));
      var t := SetOne(s, all, sig, env(sig));
      assert HoldOne(s, mask, sig, env(sig)) == t;
      forall x | x in t.blocked ensures x in all {
      }
      BlockingIsSetting(t, mask, all, sig + 1, env);
    }
  }

  lemma SigblockIs(s: State, mask: set<int>, env: Env)
    requires Inv(s)
    ensures mask != {} ==> Sigblock(s, mask, env) == Sigsetmask(s, mask + s.blocked, env)
  {
    hide Inv, SigblockFrom, SigsetmaskFrom;
    InvSizes(s);
    if mask != {} {
      BlockingIsSetting(s, mask, mask + s.blocked, 1, env);
    }
  }

  // ----- Whole programs -----

  lemma ArriveAllGrows(s: State, sigs: seq<int>)
    requires |s.handler| == Nsig(s)
    ensures s.log <= ArriveAll(s, sigs).log
  {
    ArriveAllIs(s, sigs);
  }

  lemma SetOneGrows(s: State, mask: set<int>, sig: int, g: Gaps)
    requires IsSignal(s, sig)
    ensures s.log <= SetOne(s, mask, sig, g).log
  {
    hide BlockOne, UnblockOne, Echo, Noticed;
    ArriveAllGrows(s, g.before);
    var s0 := ArriveAll(s, g.before);
    BlockOneIs(s0, sig, g);
    UnblockOneIs(s0, sig, g);
  }

  lemma {:induction false} SigsetmaskFromGrows(s: State, mask: set<int>, sig: nat, env: Env)
    requires |s.handler| == Nsig(s) && 1 <= sig
    ensures s.log <= SigsetmaskFrom(s, mask, sig, env).log
    decreases Nsig(s) - sig
  {
    hide SetOne;
    if sig < Nsig(s) {
      SetOneGrows(s, mask, sig, env(sig));
      SigsetmaskFromGrows(SetOne(s, mask, sig, env(sig)), mask, sig + 1, env);
    }
  }

  function Between(mask: set<int>, low: int, high: int): set<int> {
    set x | x in mask && low <= x < high
  }

  lemma SigblockKeeps(s: State, mask: set<int>, env: Env)
    requires Inv(s)
    ensures var r := Sigblock(s, mask, env);
            && Inv(r) && SameIntent(s, r) && s.log <= r.log && r.blocked == s.blocked + Between(mask, 1, Nsig(s))
  {
    hide Inv, SigsetmaskFrom, Sigblock;
    InvSizes(s);
    if mask == {} {
      NothingToBlock(s, env);
      assert s.blocked + Between(mask, 1, Nsig(s)) == s.blocked;
    } else {
      SigblockIs(s, mask, env);
      SigsetmaskFromKeeps(s, mask + s.blocked, 1, env);
      SigsetmaskFromGrows(s, mask + s.blocked, 1, env);
      var r := Sigblock(s, mask, env);
      forall x ensures x in r.blocked <==> x in s.blocked + Between(mask, 1, Nsig(s)) {
      }
    }
  }

  lemma NothingToBlock(s: State, env: Env)
    requires |s.handler| == Nsig(s)
    ensures Sigblock(s, {}, env) == s && SameIntent(s, s)
  {
  }

  lemma SigblockFate(s: State, mask: set<int>, env: Env, x: int)
    requires Inv(s) && Tame(s, x)
    ensures s.log <= Sigblock(s, mask, env).log && Fate(s, Sigblock(s, mask, env), x)
  {
    hide Inv, SigsetmaskFrom, Sigblock, Fate;
    InvSizes(s);
    if mask == {} {
      NothingToBlock(s, env);
      ArriveAllFate(s, [], x);
    } else {
      SigblockIs(s, mask, env);
      SigsetmaskFromFate(s, mask + s.blocked, 1, env, x);
    }
  }

  lemma ArriveKeeps(s: State, sig: int)
    requires Inv(s)
    ensures var r := Arrive(s, sig);
            Inv(r) && SameIntent(s, r) && r.blocked == s.blocked && r.disp == s.disp && r.handler == s.handler && s.log <= r.log
  {
  }

  /** A program leaves the mask, the dispositions and what was saved of the blocked signals as they were. */
  predicate Restores(s: State, r: State)
    requires |s.handler| == |r.handler|
  {
    && r.blocked == s.blocked && r.disp == s.disp && s.log <= r.log
    && forall sig :: sig in s.blocked && IsSignal(s, sig) ==> r.handler[sig] == s.handler[sig]
  }

  /**
   Any properly nested program restores the blocked set and every disposition,
   whatever arrives meanwhile, inside the calls too, and keeps the invariant.
   */
  lemma {:induction false} NestingRestores(s: State, p: Prog)
    requires Inv(s)
    ensures Inv(Run(s, p)) && Restores(s, Run(s, p))
    decreases p
  {
    match p
    case Skip =>
    case Arrival(sig) => ArriveKeeps(s, sig);
    case Then(first, second) =>
      NestingRestores(s, first);
      NestingRestores(Run(s, first), second);
    case Guarded(mask, entry, body, exit) =>
      var s1 := Sigblock(s, mask, entry);
      SigblockKeeps(s, mask, entry);
      NestingRestores(s1, body);
      var s2 := Run(s1, body);
      SigsetmaskFromKeeps(s2, s.blocked, 1, exit);
      SigsetmaskFromGrows(s2, s.blocked, 1, exit);
      GuardRestores(s, s1, s2, Sigsetmask(s2, s.blocked, exit));
  }

  lemma GuardRestores(s: State, s1: State, s2: State, r: State)
    requires Inv(s) && Inv(s1) && Inv(s2) && Inv(r) && SameIntent(s, s1) && SameIntent(s2, r)
    requires SameKind(s1, s2) && Restores(s1, s2) && s.log <= s1.log && s2.log <= r.log
    requires s.blocked <= s1.blocked
    requires forall x :: x in r.blocked <==> if 1 <= x < Nsig(s2) then x in s.blocked else x in s2.blocked
    ensures Restores(s, r)
  {
    assert forall x :: x in r.blocked <==> x in s.blocked;
    forall sig | IsSignal(s, sig)
      ensures Intended(r, sig) == Intended(s, sig) && r.disp[sig] == s.disp[sig]
    {
      assert Intended(s1, sig) == Intended(s, sig);
      assert Intended(s2, sig) == Intended(s1, sig);
      assert Intended(r, sig) == Intended(s2, sig);
      assert sig in s.blocked && sig in s.catchable ==> s.disp[sig] == Sigser == r.disp[sig];
    }
  }

  /** A blocked signal is noted and nothing else happens to it, however the program nests. */
  lemma {:induction false} BlockedIsOnlyNoted(s: State, p: Prog, x: int)
    requires Inv(s) && x in s.blocked && x in s.catchable
    ensures s.log <= Run(s, p).log && x in Run(s, p).blocked && Fate(s, Run(s, p), x)
    decreases p
  {
    hide Inv, Fate, Sigblock, Sigsetmask, Restores;
    InvSizes(s);
    RunKeeps(s, p);
    match p
    case Skip => ArriveAllFate(s, [], x);
    case Arrival(sig) => ArriveAllFate(s, [sig], x); OneArrival(s, sig);
    case Then(first, second) =>
      RunKeeps(s, first);
      BlockedIsOnlyNoted(s, first, x);
      BlockedIsOnlyNoted(Run(s, first), second, x);
      FateJoins(s, Run(s, first), Run(s, p), x);
    case Guarded(mask, entry, body, exit) =>
      GuardFates(s, mask, entry, body, exit, x);
      var s1 := Sigblock(s, mask, entry);
      BlockedIsOnlyNoted(s1, body, x);
      var s2 := Run(s1, body);
      FateJoins(s, s1, s2, x);
      FateJoins(s, s2, Run(s, p), x);
  }

  lemma OneArrival(s: State, sig: int)
    requires |s.handler| == Nsig(s)
    ensures ArriveAll(s, [sig]) == Arrive(s, sig)
  {
    assert [sig][1..] == [];
    assert ArriveAll(Arrive(s, sig), []) == Arrive(s, sig);
  }

  lemma RunKeeps(s: State, p: Prog)
    requires Inv(s)
    ensures Inv(Run(s, p)) && Run(s, p).blocked == s.blocked && s.log <= Run(s, p).log
  {
    NestingRestores(s, p);
  }

  /** The two calls of a guard, seen from one signal. */
  lemma GuardFates(s: State, mask: set<int>, entry: Env, body: Prog, exit: Env, x: int)
    requires Inv(s) && Tame(s, x)
    ensures var s1 := Sigblock(s, mask, entry);
            var s2 := Run(s1, body);
            var r := Sigsetmask(s2, s.blocked, exit);
            && Inv(s1) && Inv(s2) && s1.catchable == s2.catchable == s.catchable && Tame(s1, x) && Tame(s2, x)
            && s.log <= s1.log <= s2.log <= r.log && s2.blocked == s1.blocked && r.blocked == s.blocked
            && (x in s1.blocked <==> x in s.blocked || x in mask) && Fate(s, s1, x) && Fate(s2, r, x)
  {
    hide Inv, Fate, SigblockFrom, SigsetmaskFrom;
    InvSizes(s);
    SigblockKeeps(s, mask, entry);
    SigblockFate(s, mask, entry, x);
    var s1 := Sigblock(s, mask, entry);
    RunKeeps(s1, body);
    SigsetmaskFromFate(Run(s1, body), s.blocked, 1, exit, x);
    NestingRestores(s, Guarded(mask, entry, body, exit));
  }

  /**
   A signal that a guard blocks: inside it is never handled, and over the whole
   guard it is raised again exactly once if it was noted and not at all otherwise,
   the statements of the two calls included.
   */
  lemma NotedIsRaisedOnce(s: State, mask: set<int>, entry: Env, body: Prog, exit: Env, x: int)
    requires Inv(s) && Tame(s, x) && x in mask && x !in s.blocked
    ensures var s1 := Sigblock(s, mask, entry);
            var s2 := Run(s1, body);
            var r := Run(s, Guarded(mask, entry, body, exit));
            && s.log <= s1.log <= s2.log <= r.log && Handled(x) !in News(s1, s2)
            && Raises(News(s, r), x) == if Noted(x) in News(s, r) then 1 else 0
  {
    GuardFates(s, mask, entry, body, exit, x);
    var s1 := Sigblock(s, mask, entry);
    BlockedIsOnlyNoted(s1, body, x);
    var s2 := Run(s1, body);
    var r := Sigsetmask(s2, s.blocked, exit);
    FateJoins(s, s1, s2, x);
    NewsJoin(s, s2, r);
  }
}
