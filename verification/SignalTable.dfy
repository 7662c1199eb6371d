/**
 compat/signals.c in its own form: two masks and an array of saved dispositions,
 updated signal by signal in a loop, beside the kernel's table that `signal`
 changes; signals are delivered between the statements.  Each method does to
 them what the function of `Signals` says.
 */
module SignalTable {
  import opened Signals

  class Masks {
    var blocked: set<int>
    var pending: set<int>
    const handler: array<Disposition>
    const kernel: array<Disposition>  // what `signal` reads and writes
    const catchable: set<int>
    ghost var log: seq<Event>

    ghost predicate Valid()
      reads this
    {
      handler != kernel && handler.Length == kernel.Length
    }

    ghost function Now(): (s: State)
      reads this, handler, kernel
      ensures |s.handler| == handler.Length && |s.disp| == kernel.Length
    {
      State(blocked, pending, handler[..], kernel[..], catchable, log)
    }

    constructor (initial: seq<Disposition>, catchable: set<int>)
      ensures Valid() && fresh(handler) && fresh(kernel)
      ensures Now() == State({}, {}, seq(|initial|, _ => Default), initial, catchable, [])
    {
      blocked, pending, log := {}, {}, [];
      var h := new Disposition[|initial|](_ => Default);
      var k := new Disposition[|initial|](i requires 0 <= i < |initial| => initial[i]);
      handler, kernel := h, k;
      this.catchable := catchable;
      new;
      assert handler[..] == seq(|initial|, _ => Default);
      assert kernel[..] == initial;
    }

    /** The system call: installs `f` and returns what was installed, or fails. */
    method Install(sig: int, f: Disposition) returns (was: Disposition)
      requires Valid() && 1 <= sig < kernel.Length
      modifies kernel
      ensures (Now(), was) == Signal(old(Now()), sig, f)
    {
      if sig !in catchable {
        return BadSig;
      }
      was := kernel[sig];
      kernel[sig] := f;
    }

    /** `sigser` */
    method Note(sig: int)
      requires Valid() && 1 <= sig < kernel.Length
      modifies this`pending, this`log, kernel
      ensures Valid()
      ensures Now() == Signal(old(Now()), sig, Sigser).0.(pending := old(pending) + {sig}, log := old(log) + [Noted(sig)])
      ensures old(kernel[sig]) == Sigser ==> Now() == Arrive(old(Now()), sig)
    {
      var was := Install(sig, Sigser);
      pending := pending + {sig};
      log := log + [Noted(sig)];
    }

    /** A signal arrives. */
    method Deliver(sig: int)
      requires Valid()
      modifies this`pending, this`log, kernel
      ensures Valid() && Now() == Arrive(old(Now()), sig)
    {
      if 1 <= sig < kernel.Length {
        if kernel[sig] == Sigser {
          Note(sig);
        } else {
          log := log + [Handled(sig)];
        }
      }
    }

    /** Whatever arrives between two statements. */
    method Pause(sigs: seq<int>)
      requires Valid()
      modifies this`pending, this`log, kernel
      ensures Valid() && Now() == ArriveAll(old(Now()), sigs)
    {
      var i := 0;
      assert sigs[0..] == sigs;
      while i < |sigs|
        invariant 0 <= i <= |sigs| && Valid()
        invariant ArriveAll(Now(), sigs[i..]) == ArriveAll(old(Now()), sigs)
      {
        assert sigs[i..][1..] == sigs[i + 1..];
        Deliver(sigs[i]);
        i := i + 1;
      }
      assert sigs[i..] == [];
    }

    /** What the loops do to a signal that is to be blocked. */
    method Hold(sig: int, g: Gaps)
      requires Valid() && 1 <= sig < kernel.Length
      modifies this`blocked, this`pending, this`log, handler, kernel
      ensures Valid() && Now() == BlockOne(old(Now()), sig, g)
    {
      hide ArriveAll;
      pending := pending - {sig};
      Pause(g.first);
      var was := Install(sig, Sigser);
      Pause(g.second);
      handler[sig] := was;
      Pause(g.third);
      blocked := blocked + {sig};
    }

    /** What the loop of `sigsetmask` does to a signal that is to be let through. */
    method Release(sig: int, g: Gaps)
      requires Valid() && 1 <= sig < kernel.Length
      modifies this`blocked, this`pending, this`log, kernel
      ensures Valid() && Now() == UnblockOne(old(Now()), sig, g)
    {
      hide ArriveAll;
      blocked := blocked - {sig};
      Pause(g.first);
      var was := Install(sig, if handler[sig] != BadSig then handler[sig] else Default);
      Pause(g.second);
      if sig in pending {
        pending := pending - {sig};
        Pause(g.third);
        log := log + [Raised(sig)];
      }
    }

    method SigBlock(mask: set<int>, env: Env) returns (omask: set<int>)
      requires Valid()
      modifies this`blocked, this`pending, this`log, handler, kernel
      ensures Valid() && omask == old(blocked) && Now() == Sigblock(old(Now()), mask, env)
    {
      hide BlockOne;
      omask := blocked;
      if mask == {} {
        return;
      }
      var sig := 1;
      while sig < kernel.Length
        invariant Valid() && 1 <= sig
        invariant SigblockFrom(Now(), mask, sig, env) == Sigblock(old(Now()), mask, env)
      {
        Pause(env(sig).before);
        if sig in mask && sig !in blocked {
          Hold(sig, env(sig));
        }
        sig := sig + 1;
      }
    }

    method SigSetMask(mask: set<int>, env: Env) returns (omask: set<int>)
      requires Valid()
      modifies this`blocked, this`pending, this`log, handler, kernel
      ensures Valid() && omask == old(blocked) && Now() == Sigsetmask(old(Now()), mask, env)
    {
      hide BlockOne, UnblockOne;
      omask := blocked;
      var sig := 1;
      while sig < kernel.Length
        invariant Valid() && 1 <= sig
        invariant SigsetmaskFrom(Now(), mask, sig, env) == Sigsetmask(old(Now()), mask, env)
      {
        Pause(env(sig).before);
        if sig in mask {
          if sig !in blocked {
            Hold(sig, env(sig));
          }
        } else if sig in blocked {
          Release(sig, env(sig));
        }
        sig := sig + 1;
      }
    }
  }
}
