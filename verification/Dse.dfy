/**
 Presentation addresses in directory form, acsap/dse-c.c: `psap2dse` normalises
 every network address of a PSAP address, `dse2psap` reads them back.  The test
 program acsap/acsaptest.c compares an address with the result of the two; here
 is exactly when they agree.
 */
module Dse {
  import opened Wrappers
  import opened Nsap
  import opened NsapTheorems
  import NsapReading
  import NsapLoops

  const NTADDR := 8
  const SELECTOR := 64  // PSSIZE, SSSIZE and TSSIZE

  datatype Psap = Psap(psel: seq<Octet>, ssel: seq<Octet>, tsel: seq<Octet>, addrs: seq<Address>)
  datatype Directory = Directory(
    psel: Option<seq<Octet>>, ssel: Option<seq<Octet>>, tsel: Option<seq<Octet>>, addrs: seq<seq<Octet>>)

  predicate FitsPsap(pa: Psap) {
    |pa.psel| <= SELECTOR && |pa.ssel| <= SELECTOR && |pa.tsel| <= SELECTOR && |pa.addrs| <= NTADDR
  }

  function Optional(sel: seq<Octet>): Option<seq<Octet>> {
    if |sel| > 0 then Some(sel) else None
  }

  /** `gstring`: an absent, empty or overlong selector reads as empty. */
  function Selector(qb: Option<seq<Octet>>): seq<Octet> {
    if qb.None? || |qb.value| > SELECTOR then [] else qb.value
  }

  function NormaliseAll(table: seq<Community>, resolve: Resolver, addrs: seq<Address>): Option<seq<seq<Octet>>> {
    if addrs == [] then Some([])
    else
      var n := |addrs| - 1;
      var before, last := NormaliseAll(table, resolve, addrs[..n]), Na2norm(table, resolve, addrs[n]);
      if before.None? || last.None? then None else Some(before.value + [last.value])
  }

  function Psap2dse(table: seq<Community>, resolve: Resolver, pa: Psap): Option<Directory> {
    var addrs := NormaliseAll(table, resolve, pa.addrs);
    if addrs.None? then None
    else Some(Directory(Optional(pa.psel), Optional(pa.ssel), Optional(pa.tsel), addrs.value))
  }

  /** `stale(i)` is what the digit buffer holds when address `i` is read. */
  type Buffers = nat -> string

  function Buffer(stale: Buffers, i: nat): (s: string)
    ensures |s| == 14
    ensures |stale(i)| == 14 ==> s == stale(i)
  {
    if |stale(i)| == 14 then stale(i) else Clean()
  }

  /** Absent when there are more than `NTADDR` addresses or one cannot be read. */
  function ReadAll(table: seq<Community>, addrs: seq<seq<Octet>>, stale: Buffers): Option<seq<Address>> {
    if addrs == [] then Some([])
    else
      var n := |addrs| - 1;
      var before := ReadAll(table, addrs[..n], stale);
      if before.None? || n >= NTADDR then None
      else
        var o := Norm2na(table, addrs[n], Buffer(stale, n));
        if o.Read? then Some(before.value + [o.a]) else None
  }

  function Dse2psap(table: seq<Community>, dse: Directory, stale: Buffers): Option<Psap> {
    var addrs := ReadAll(table, dse.addrs, stale);
    if addrs.None? then None
    else Some(Psap(Selector(dse.psel), Selector(dse.ssel), Selector(dse.tsel), addrs.value))
  }

  lemma {:induction false} AllReadBack(table: seq<Community>, resolve: Resolver, addrs: seq<Address>, stale: Buffers)
    requires |addrs| <= NTADDR
    requires forall i :: 0 <= i < |addrs| ==> RoundTrips(table, resolve, addrs[i])
    ensures NormaliseAll(table, resolve, addrs).Some?
    ensures ReadAll(table, NormaliseAll(table, resolve, addrs).value, stale) == Some(addrs)
  {
    if addrs != [] {
      var n := |addrs| - 1;
      AllReadBack(table, resolve, addrs[..n], stale);
      var before, last := NormaliseAll(table, resolve, addrs[..n]).value, Na2norm(table, resolve, addrs[n]).value;
      NormaliseAllLength(table, resolve, addrs[..n]);
      assert RoundTrips(table, resolve, addrs[n]);
      assert (before + [last])[..n] == before;
      assert addrs[..n] + [addrs[n]] == addrs;
    }
  }

  lemma {:induction false} NormaliseAllLength(table: seq<Community>, resolve: Resolver, addrs: seq<Address>)
    ensures NormaliseAll(table, resolve, addrs).Some? ==>
              var r := NormaliseAll(table, resolve, addrs).value;
              |r| == |addrs| && forall i :: 0 <= i < |addrs| ==> Na2norm(table, resolve, addrs[i]) == Some(r[i])
  {
    if addrs != [] {
      NormaliseAllLength(table, resolve, addrs[..|addrs| - 1]);
    }
  }

  lemma {:induction false} ReadAllPointwise(table: seq<Community>, addrs: seq<seq<Octet>>, stale: Buffers)
    ensures ReadAll(table, addrs, stale).Some? ==>
              var r := ReadAll(table, addrs, stale).value;
              |r| == |addrs| && forall i :: 0 <= i < |addrs| ==> Norm2na(table, addrs[i], Buffer(stale, i)) == Outcome.Read(r[i])
  {
    if addrs != [] {
      ReadAllPointwise(table, addrs[..|addrs| - 1], stale);
    }
  }

  /** Parsing the directory form gives the address back, whatever the buffers held, exactly when each network address survives. */
  lemma PsapRoundTripsExactly(table: seq<Community>, resolve: Resolver, pa: Psap)
    requires FitsPsap(pa)
    ensures (&& Psap2dse(table, resolve, pa).Some?
             && forall stale: Buffers :: Dse2psap(table, Psap2dse(table, resolve, pa).value, stale) == Some(pa))
            <==> forall i :: 0 <= i < |pa.addrs| ==> RoundTrips(table, resolve, pa.addrs[i])
  {
    if forall i :: 0 <= i < |pa.addrs| ==> RoundTrips(table, resolve, pa.addrs[i]) {
      AllReadBack(table, resolve, pa.addrs, _ => Clean());
      forall stale: Buffers
        ensures Dse2psap(table, Psap2dse(table, resolve, pa).value, stale) == Some(pa)
      {
        AllReadBack(table, resolve, pa.addrs, stale);
      }
    }
    if && Psap2dse(table, resolve, pa).Some?
       && forall stale: Buffers :: Dse2psap(table, Psap2dse(table, resolve, pa).value, stale) == Some(pa) {
      forall i | 0 <= i < |pa.addrs|
        ensures RoundTrips(table, resolve, pa.addrs[i])
      {
        EachReadsBack(table, resolve, pa, i);
      }
    }
  }

  /** Put in terms of the fields: which presentation addresses come back. */
  lemma PsapCarriedExactly(table: seq<Community>, resolve: Resolver, pa: Psap)
    requires FitsPsap(pa) && UniqueSubnets(table) && forall i :: 0 <= i < |pa.addrs| ==> Fits(pa.addrs[i])
    ensures (&& Psap2dse(table, resolve, pa).Some?
             && forall stale: Buffers :: Dse2psap(table, Psap2dse(table, resolve, pa).value, stale) == Some(pa))
            <==> forall i :: 0 <= i < |pa.addrs| ==> NsapReading.Carried(table, resolve, pa.addrs[i])
  {
    hide Psap2dse, Dse2psap, RoundTrips, NsapReading.Carried;
    PsapRoundTripsExactly(table, resolve, pa);
    forall i | 0 <= i < |pa.addrs|
      ensures RoundTrips(table, resolve, pa.addrs[i]) == NsapReading.Carried(table, resolve, pa.addrs[i])
    {
      NsapReading.RoundTripsExactly(table, resolve, pa.addrs[i]);
    }
  }

  lemma EachReadsBack(table: seq<Community>, resolve: Resolver, pa: Psap, i: nat)
    requires i < |pa.addrs| && Psap2dse(table, resolve, pa).Some?
    requires forall stale: Buffers :: Dse2psap(table, Psap2dse(table, resolve, pa).value, stale) == Some(pa)
    ensures RoundTrips(table, resolve, pa.addrs[i])
  {
    var dse := Psap2dse(table, resolve, pa).value;
    NormaliseAllLength(table, resolve, pa.addrs);
    forall s: string | |s| == 14
      ensures Norm2na(table, dse.addrs[i], s) == Outcome.Read(pa.addrs[i])
    {
      var stale: Buffers := _ => s;
      assert Dse2psap(table, dse, stale) == Some(pa);
      ReadAllPointwise(table, dse.addrs, stale);
    }
  }

  // ----- The loops -----

  method BuildDirectory(table: seq<Community>, resolve: Resolver, pa: Psap) returns (dse: Option<Directory>)
    ensures dse == Psap2dse(table, resolve, pa)
  {
    var list: seq<seq<Octet>> := [];
    var n := 0;
    while n < |pa.addrs|
      invariant 0 <= n <= |pa.addrs|
      invariant NormaliseAll(table, resolve, pa.addrs[..n]) == Some(list)
    {
      assert pa.addrs[..n + 1][..n] == pa.addrs[..n];
      var ca := NsapLoops.Normalise(table, resolve, pa.addrs[n]);
      if ca.None? {
        NoneStaysNone(table, resolve, pa.addrs, n + 1);
        return None;
      }
      list := list + [ca.value];
      n := n + 1;
    }
    assert pa.addrs[..n] == pa.addrs;
    return Some(Directory(
      if |pa.psel| > 0 then Some(pa.psel) else None,
      if |pa.ssel| > 0 then Some(pa.ssel) else None,
      if |pa.tsel| > 0 then Some(pa.tsel) else None, list));
  }

  lemma {:induction false} NoneStaysNone(table: seq<Community>, resolve: Resolver, addrs: seq<Address>, n: nat)
    requires n <= |addrs| && NormaliseAll(table, resolve, addrs[..n]).None?
    ensures NormaliseAll(table, resolve, addrs).None?
    decreases |addrs|
  {
    if n < |addrs| {
      assert addrs[..|addrs| - 1][..n] == addrs[..n];
      NoneStaysNone(table, resolve, addrs[..|addrs| - 1], n);
    } else {
      assert addrs[..n] == addrs;
    }
  }

  method ParseDirectory(table: seq<Community>, dse: Directory, stale: Buffers) returns (pa: Option<Psap>)
    ensures pa == Dse2psap(table, dse, stale)
  {
    var naddr := 0;
    var addrs: seq<Address> := [];
    while naddr < |dse.addrs|
      invariant 0 <= naddr <= |dse.addrs|
      invariant ReadAll(table, dse.addrs[..naddr], stale) == Some(addrs)
    {
      assert dse.addrs[..naddr + 1][..naddr] == dse.addrs[..naddr];
      if naddr >= NTADDR {
        UnreadStaysUnread(table, dse.addrs, stale, naddr + 1);
        return None;
      }
      var o := NsapLoops.ReadNormal(table, dse.addrs[naddr], Buffer(stale, naddr));
      if !o.Read? {
        UnreadStaysUnread(table, dse.addrs, stale, naddr + 1);
        return None;
      }
      addrs := addrs + [o.a];
      naddr := naddr + 1;
    }
    assert dse.addrs[..naddr] == dse.addrs;
    return Some(Psap(Selector(dse.psel), Selector(dse.ssel), Selector(dse.tsel), addrs));
  }

  lemma {:induction false} UnreadStaysUnread(table: seq<Community>, addrs: seq<seq<Octet>>, stale: Buffers, n: nat)
    requires n <= |addrs| && ReadAll(table, addrs[..n], stale).None?
    ensures ReadAll(table, addrs, stale).None?
    decreases |addrs|
  {
    if n < |addrs| {
      assert addrs[..|addrs| - 1][..n] == addrs[..n];
      UnreadStaysUnread(table, addrs[..|addrs| - 1], stale, n);
    } else {
      assert addrs[..n] == addrs;
    }
  }
}
