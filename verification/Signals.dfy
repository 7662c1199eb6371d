/**
 The Berkeley signal masks emulated on System V, compat/signals.c: blocking a
 signal replaces its disposition by `sigser`, which only notes the arrival;
 unblocking restores the disposition and raises a noted signal again.

 A mask is a set of signals.  The kernel's table of dispositions is part of the
 state: `signal` changes it, and an arrival looks it up.  Signals that cannot be
 caught make `signal` fail.  Signals arrive between any two statements, those of
 the loops of `sigblock` and `sigsetmask` included; what arrives is a parameter.
 */
module Signals {

  datatype Disposition = Default | Ignored | User(id: nat) | Sigser | BadSig

  /** What happened to a signal: noted by `sigser`, handled by the program, or raised again by `kill`. */
  datatype Event = Noted(sig: int) | Handled(sig: int) | Raised(sig: int)

  datatype State = State(
    blocked: set<int>, pending: set<int>,
    handler: seq<Disposition>,   // the static array of saved dispositions
    disp: seq<Disposition>,      // the kernel's dispositions, indexed by signal
    catchable: set<int>,
    log: seq<Event>)

  /** Signals run from 1 to `NSIG` - 1. */
  function Nsig(s: State): nat {
    |s.disp|
  }

  predicate IsSignal(s: State, sig: int) {
    1 <= sig < Nsig(s) && Nsig(s) == |s.handler|
  }

  /** The sizes of the tables and what can be caught never change. */
  predicate SameKind(s: State, r: State) {
    |r.disp| == |s.disp| && |r.handler| == |s.handler| && r.catchable == s.catchable
  }

  function Signal(s: State, sig: int, f: Disposition): (r: (State, Disposition))
    requires IsSignal(s, sig)
    ensures SameKind(s, r.0)
  {
    if sig in s.catchable then (s.(disp := s.disp[sig := f]), s.disp[sig]) else (s, BadSig)
  }

  // ----- Arrivals -----

  /** A signal arrives: `sigser` reinstalls itself and notes it, anything else is the program's affair. */
  function Arrive(s: State, sig: int): (r: State)
    requires |s.handler| == Nsig(s)
    ensures SameKind(s, r)
  {
    if !IsSignal(s, sig) then s
    else if s.disp[sig] == Sigser then
      s.(disp := s.disp[sig := Sigser], pending := s.pending + {sig}, log := s.log + [Noted(sig)])
    else s.(log := s.log + [Handled(sig)])
  }

  function ArriveAll(s: State, sigs: seq<int>): (r: State)
    requires |s.handler| == Nsig(s)
    ensures SameKind(s, r)
    decreases |sigs|
  {
    if sigs == [] then s else ArriveAll(Arrive(s, sigs[0]), sigs[1..])
  }

  /** What arrives during one turn of a loop: before it, and between its statements. */
  datatype Gaps = Gaps(before: seq<int>, first: seq<int>, second: seq<int>, third: seq<int>)

  type Env = nat -> Gaps

  // ----- sigblock and sigsetmask -----

  /** The four statements that block a signal. */
  function BlockOne(s: State, sig: int, g: Gaps): (r: State)
    requires IsSignal(s, sig)
    ensures SameKind(s, r)
  {
    var s1 := ArriveAll(s.(pending := s.pending - {sig}), g.first);
    var (s2, was) := Signal(s1, sig, Sigser);
    var s3 := ArriveAll(s2, g.second);
    var s4 := ArriveAll(s3.(handler := s3.handler[sig := was]), g.third);
    s4.(blocked := s4.blocked + {sig})
  }

  /** The saved disposition comes back; a noted signal is raised once more and is then the program's. */
  function UnblockOne(s: State, sig: int, g: Gaps): (r: State)
    requires IsSignal(s, sig)
    ensures SameKind(s, r)
  {
    var s1 := ArriveAll(s.(blocked := s.blocked - {sig}), g.first);
    var s2 := Signal(s1, sig, if s1.handler[sig] != BadSig then s1.handler[sig] else Default).0;
    var s3 := ArriveAll(s2, g.second);
    if sig !in s3.pending then s3
    else
      var s4 := ArriveAll(s3.(pending := s3.pending - {sig}), g.third);
      s4.(log := s4.log + [Raised(sig)])
  }

  /** One turn of the loop of `sigblock`. */
  function HoldOne(s: State, mask: set<int>, sig: int, g: Gaps): (r: State)
    requires IsSignal(s, sig)
    ensures SameKind(s, r)
  {
    var s0 := ArriveAll(s, g.before);
    if sig in mask && sig !in s0.blocked then BlockOne(s0, sig, g) else s0
  }

  function SigblockFrom(s: State, mask: set<int>, sig: nat, env: Env): (r: State)
    requires 1 <= sig && |s.handler| == Nsig(s)
    ensures SameKind(s, r)
    decreases Nsig(s) - sig
  {
    if sig >= Nsig(s) then s else SigblockFrom(HoldOne(s, mask, sig, env(sig)), mask, sig + 1, env)
  }

  /** One turn of the loop of `sigsetmask`. */
  function SetOne(s: State, mask: set<int>, sig: int, g: Gaps): (r: State)
    requires IsSignal(s, sig)
    ensures SameKind(s, r)
  {
    var s0 := ArriveAll(s, g.before);
    if sig in mask && sig !in s0.blocked then BlockOne(s0, sig, g)
    else if sig !in mask && sig in s0.blocked then UnblockOne(s0, sig, g)
    else s0
  }

  function SigsetmaskFrom(s: State, mask: set<int>, sig: nat, env: Env): (r: State)
    requires 1 <= sig && |s.handler| == Nsig(s)
    ensures SameKind(s, r)
    decreases Nsig(s) - sig
  {
    if sig >= Nsig(s) then s else SigsetmaskFrom(SetOne(s, mask, sig, env(sig)), mask, sig + 1, env)
  }

  function Sigblock(s: State, mask: set<int>, env: Env): (r: State)
    requires |s.handler| == Nsig(s)
    ensures SameKind(s, r)
  {
    if mask == {} then s else SigblockFrom(s, mask, 1, env)
  }

  function Sigsetmask(s: State, mask: set<int>, env: Env): (r: State)
    requires |s.handler| == Nsig(s)
    ensures SameKind(s, r)
  {
    SigsetmaskFrom(s, mask, 1, env)
  }

  // ----- Programs that nest sigblock and sigsetmask -----

  /** `Guarded` is `omask = sigblock (mask); ... sigsetmask (omask);` around its body, with what arrives inside the two calls. */
  datatype Prog =
    | Skip | Arrival(sig: int) | Then(first: Prog, second: Prog)
    | Guarded(mask: set<int>, entry: Env, body: Prog, exit: Env)

  function Run(s: State, p: Prog): (r: State)
    requires |s.handler| == Nsig(s)
    ensures SameKind(s, r)
    decreases p
  {
    match p
    case Skip => s
    case Arrival(sig) => Arrive(s, sig)
    case Then(first, second) => Run(Run(s, first), second)
    case Guarded(mask, entry, body, exit) => Sigsetmask(Run(Sigblock(s, mask, entry), body), s.blocked, exit)
  }

  // ----- What arrivals do, all at once -----

  function Noticed(s: State, sigs: seq<int>): set<int> {
    set x | x in sigs && IsSignal(s, x) && s.disp[x] == Sigser
  }

  /** What one arrival leaves in the log. */
  function Reaction(s: State, sig: int): seq<Event> {
    if !IsSignal(s, sig) then [] else if s.disp[sig] == Sigser then [Noted(sig)] else [Handled(sig)]
  }

  function Echo(s: State, sigs: seq<int>): seq<Event> {
    if sigs == [] then [] else Reaction(s, sigs[0]) + Echo(s, sigs[1..])
  }

  lemma ReactionHas(s: State, sig: int, x: int)
    ensures Noted(x) in Reaction(s, sig) <==> x == sig && IsSignal(s, x) && s.disp[x] == Sigser
    ensures Handled(x) in Reaction(s, sig) <==> x == sig && IsSignal(s, x) && s.disp[x] != Sigser
    ensures multiset(Reaction(s, sig))[Raised(x)] == 0
  {
  }

  lemma {:induction false} EchoHas(s: State, sigs: seq<int>, x: int)
    ensures Noted(x) in Echo(s, sigs) <==> x in Noticed(s, sigs)
    ensures Handled(x) in Echo(s, sigs) <==> x in sigs && IsSignal(s, x) && s.disp[x] != Sigser
    ensures multiset(Echo(s, sigs))[Raised(x)] == 0
  {
    hide Reaction;
    if sigs != [] {
      ReactionHas(s, sigs[0], x);
      EchoHas(s, sigs[1..], x);
      assert x in sigs <==> x == sigs[0] || x in sigs[1..];
      assert multiset(Echo(s, sigs)) == multiset(Reaction(s, sigs[0])) + multiset(Echo(s, sigs[1..]));
    }
  }

  lemma ArriveIs(s: State, sig: int)
    requires |s.handler| == Nsig(s)
    ensures Arrive(s, sig) == s.(pending := s.pending + Noticed(s, [sig]), log := s.log + Reaction(s, sig))
  {
    assert Noticed(s, [sig]) == if IsSignal(s, sig) && s.disp[sig] == Sigser then {sig} else {};
    assert s.pending + {} == s.pending && s.log + [] == s.log;
  }

  lemma NoticedNext(s: State, sig: int, rest: seq<int>)
    ensures Noticed(s, [sig]) + Noticed(s, rest) == Noticed(s, [sig] + rest)
  {
  }

  lemma {:induction false} ArriveAllIs(s: State, sigs: seq<int>)
    requires |s.handler| == Nsig(s)
    ensures ArriveAll(s, sigs) == s.(pending := s.pending + Noticed(s, sigs), log := s.log + Echo(s, sigs))
    decreases |sigs|
  {
    if sigs == [] {
      assert s.pending + Noticed(s, sigs) == s.pending && s.log + [] == s.log;
    } else {
      hide Arrive, Noticed, Reaction;
      var x, rest := sigs[0], sigs[1..];
      var t := Arrive(s, x);
      ArriveIs(s, x);
      ArriveAllIs(t, rest);
      SameEcho(s, t, rest);
      NoticedNext(s, x, rest);
      assert sigs == [x] + rest;
      assert (s.pending + Noticed(s, [x])) + Noticed(s, rest) == s.pending + Noticed(s, sigs);
      assert (s.log + Reaction(s, x)) + Echo(s, rest) == s.log + Echo(s, sigs);
    }
  }

  lemma {:induction false} SameEcho(s: State, t: State, sigs: seq<int>)
    requires s.disp == t.disp && |s.handler| == |t.handler|
    ensures Echo(s, sigs) == Echo(t, sigs) && Noticed(s, sigs) == Noticed(t, sigs)
  {
    if sigs != [] {
      SameEcho(s, t, sigs[1..]);
    }
  }
}
