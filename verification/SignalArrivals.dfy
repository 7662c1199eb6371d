/**
 No signal that arrives is lost: in each turn of the loops, whatever arrives between
 their statements is noted or handled as often as it arrives.
 */
module SignalArrivals {
  import opened Signals
  import opened SignalTheorems

  function Times(sigs: seq<int>, x: int): nat {
    multiset(sigs)[x]
  }

  /** How often `x` was noted or handled. */
  function Met(log: seq<Event>, x: int): nat {
    multiset(log)[Noted(x)] + multiset(log)[Handled(x)]
  }

  lemma MetBoth(a: seq<Event>, b: seq<Event>, x: int)
    ensures Met(a + b, x) == Met(a, x) + Met(b, x)
  {
  }

  lemma MetOne(s: State, sig: int, x: int)
    requires IsSignal(s, x)
    ensures Met(Reaction(s, sig), x) == if sig == x then 1 else 0
  {
  }

  lemma TimesNext(sigs: seq<int>, x: int)
    requires sigs != []
    ensures Times(sigs, x) == (if sigs[0] == x then 1 else 0) + Times(sigs[1..], x)
  {
    assert sigs == [sigs[0]] + sigs[1..];
  }

  lemma {:induction false} MetInEcho(s: State, sigs: seq<int>, x: int)
    requires IsSignal(s, x)
    ensures Met(Echo(s, sigs), x) == Times(sigs, x)
  {
    if sigs != [] {
      MetInEcho(s, sigs[1..], x);
      MetOne(s, sigs[0], x);
      MetBoth(Reaction(s, sigs[0]), Echo(s, sigs[1..]), x);
      TimesNext(sigs, x);
    }
  }

  lemma ArrivalsMet(s: State, sigs: seq<int>, x: int)
    requires IsSignal(s, x)
    ensures Met(ArriveAll(s, sigs).log, x) == Met(s.log, x) + Times(sigs, x)
  {
    ArriveAllIs(s, sigs);
    MetInEcho(s, sigs, x);
    MetBoth(s.log, Echo(s, sigs), x);
  }

  lemma BlockMeets(s: State, sig: int, g: Gaps, x: int)
    requires IsSignal(s, sig) && IsSignal(s, x)
    ensures Met(BlockOne(s, sig, g).log, x) == Met(s.log, x) + Times(g.first, x) + Times(g.second, x) + Times(g.third, x)
  {
    hide ArriveAll, Met, Times;
    var s0 := s.(pending := s.pending - {sig});
    var s1 := ArriveAll(s0, g.first);
    var (s2, was) := Signal(s1, sig, Sigser);
    var s3 := ArriveAll(s2, g.second);
    ArrivalsMet(s0, g.first, x);
    ArrivalsMet(s2, g.second, x);
    ArrivalsMet(s3.(handler := s3.handler[sig := was]), g.third, x);
  }

  lemma RaisingMeetsNothing(log: seq<Event>, sig: int, x: int)
    ensures Met(log + [Raised(sig)], x) == Met(log, x)
  {
    MetBoth(log, [Raised(sig)], x);
  }

  /** Whether letting `sig` through raises it: the last arrivals of the turn are those before that. */
  predicate WillRaise(s: State, sig: int, g: Gaps)
    requires IsSignal(s, sig)
  {
    sig in s.pending || (sig in g.first && s.disp[sig] == Sigser) ||
    (sig in g.second && (if sig in s.catchable then (if s.handler[sig] == BadSig then Default else s.handler[sig]) else s.disp[sig]) == Sigser)
  }

  lemma UnblockMeets(s: State, sig: int, g: Gaps, x: int)
    requires IsSignal(s, sig) && IsSignal(s, x)
    ensures Met(UnblockOne(s, sig, g).log, x) ==
            Met(s.log, x) + Times(g.first, x) + Times(g.second, x) + if WillRaise(s, sig, g) then Times(g.third, x) else 0
  {
    hide ArriveAll, Met, Times;
    var s0 := s.(blocked := s.blocked - {sig});
    var s1 := ArriveAll(s0, g.first);
    ArriveAllIs(s0, g.first);
    var s2 := Signal(s1, sig, if s1.handler[sig] != BadSig then s1.handler[sig] else Default).0;
    var s3 := ArriveAll(s2, g.second);
    ArriveAllIs(s2, g.second);
    ArrivalsMet(s0, g.first, x);
    ArrivalsMet(s2, g.second, x);
    assert sig in s3.pending <==> WillRaise(s, sig, g);
    if sig in s3.pending {
      var s4 := s3.(pending := s3.pending - {sig});
      ArrivalsMet(s4, g.third, x);
      RaisingMeetsNothing(ArriveAll(s4, g.third).log, sig, x);
    }
  }

  /** One turn of `sigsetmask`: all that arrives before it, and between the statements that are executed. */
  lemma SetMeetsArrivals(s: State, mask: set<int>, sig: int, g: Gaps, x: int)
    requires IsSignal(s, sig) && IsSignal(s, x)
    ensures var s0 := ArriveAll(s, g.before);
            Met(SetOne(s, mask, sig, g).log, x) == Met(s.log, x) + Times(g.before, x) +
              if (sig in mask) == (sig in s.blocked) then 0
              else Times(g.first, x) + Times(g.second, x) +
                   if sig in mask || WillRaise(s0, sig, g) then Times(g.third, x) else 0
  {
    hide ArriveAll, Met, Times, WillRaise, BlockOne, UnblockOne;
    var s0 := ArriveAll(s, g.before);
    ArriveAllIs(s, g.before);
    ArrivalsMet(s, g.before, x);
    BlockMeets(s0, sig, g, x);
    UnblockMeets(s0, sig, g, x);
  }

  /** And one of `sigblock`. */
  lemma HoldMeetsArrivals(s: State, mask: set<int>, sig: int, g: Gaps, x: int)
    requires IsSignal(s, sig) && IsSignal(s, x)
    ensures Met(HoldOne(s, mask, sig, g).log, x) == Met(s.log, x) + Times(g.before, x) +
              if sig in mask && sig !in s.blocked then Times(g.first, x) + Times(g.second, x) + Times(g.third, x) else 0
  {
    hide ArriveAll, Met, Times, BlockOne;
    ArriveAllIs(s, g.before);
    ArrivalsMet(s, g.before, x);
    BlockMeets(ArriveAll(s, g.before), sig, g, x);
  }
}
