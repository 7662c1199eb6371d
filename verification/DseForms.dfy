/**
 The directory form of a presentation address, and what is made of one of any
 origin: part by part, with the limits on each.
 */
module DseForms {
  import opened Wrappers
  import opened Nsap
  import opened NsapTheorems
  import opened Dse

  /** A selector is there exactly when it is not empty. */
  predicate Carries(there: Option<seq<Octet>>, sel: seq<Octet>) {
    if sel == [] then there == None else there == Some(sel)
  }

  lemma {:induction false} EachNormalised(table: seq<Community>, resolve: Resolver, addrs: seq<Address>)
    ensures NormaliseAll(table, resolve, addrs).Some? <==>
              forall i :: 0 <= i < |addrs| ==> Na2norm(table, resolve, addrs[i]).Some?
  {
    if addrs != [] {
      var n := |addrs| - 1;
      EachNormalised(table, resolve, addrs[..n]);
      assert forall i :: 0 <= i < n ==> addrs[..n][i] == addrs[i];
      if NormaliseAll(table, resolve, addrs).Some? {
        forall i | 0 <= i < |addrs| ensures Na2norm(table, resolve, addrs[i]).Some? {
          assert i < n ==> Na2norm(table, resolve, addrs[..n][i]).Some?;
        }
      }
    }
  }

  /** The form is built exactly when every network address can be normalised; it has their octets in order, and the selectors that are not empty. */
  lemma BuiltExactly(table: seq<Community>, resolve: Resolver, pa: Psap)
    ensures Psap2dse(table, resolve, pa).Some? <==>
              forall i :: 0 <= i < |pa.addrs| ==> Na2norm(table, resolve, pa.addrs[i]).Some?
    ensures Psap2dse(table, resolve, pa).Some? ==>
              var d := Psap2dse(table, resolve, pa).value;
              && Carries(d.psel, pa.psel) && Carries(d.ssel, pa.ssel) && Carries(d.tsel, pa.tsel) && |d.addrs| == |pa.addrs|
              && forall i :: 0 <= i < |pa.addrs| ==> Na2norm(table, resolve, pa.addrs[i]) == Some(d.addrs[i])
  {
    EachNormalised(table, resolve, pa.addrs);
    NormaliseAllLength(table, resolve, pa.addrs);
  }

  /** What is taken of a selector: nothing of one that is too long. */
  predicate TakenFrom(sel: seq<Octet>, there: Option<seq<Octet>>) {
    match there
    case None => sel == []
    case Some(given) => if |given| <= 64 then sel == given else sel == []
  }

  predicate Readable(table: seq<Community>, addrs: seq<seq<Octet>>, stale: Buffers, i: nat)
    requires i < |addrs|
  {
    Norm2na(table, addrs[i], Buffer(stale, i)).Read?
  }

  lemma {:induction false} EachRead(table: seq<Community>, addrs: seq<seq<Octet>>, stale: Buffers)
    ensures ReadAll(table, addrs, stale).Some? <==>
              |addrs| <= 8 && forall i :: 0 <= i < |addrs| ==> Readable(table, addrs, stale, i)
  {
    hide Norm2na;
    if addrs != [] {
      var n := |addrs| - 1;
      EachRead(table, addrs[..n], stale);
      forall i | 0 <= i < n ensures Readable(table, addrs[..n], stale, i) <==> Readable(table, addrs, stale, i) {
        assert addrs[..n][i] == addrs[i];
      }
      assert (forall i :: 0 <= i < |addrs| ==> Readable(table, addrs, stale, i)) <==>
             Readable(table, addrs, stale, n) && forall i :: 0 <= i < n ==> Readable(table, addrs[..n], stale, i);
    }
  }

  /** A form of any origin is read exactly when it has no more than eight addresses and each can be read; they come in order, with the selectors. */
  lemma ReadExactly(table: seq<Community>, d: Directory, stale: Buffers)
    ensures Dse2psap(table, d, stale).Some? <==>
              |d.addrs| <= 8 && forall i :: 0 <= i < |d.addrs| ==> Readable(table, d.addrs, stale, i)
    ensures Dse2psap(table, d, stale).Some? ==>
              var pa := Dse2psap(table, d, stale).value;
              && TakenFrom(pa.psel, d.psel) && TakenFrom(pa.ssel, d.ssel) && TakenFrom(pa.tsel, d.tsel) && |pa.addrs| == |d.addrs|
              && forall i :: 0 <= i < |d.addrs| ==> Norm2na(table, d.addrs[i], Buffer(stale, i)) == Outcome.Read(pa.addrs[i])
  {
    hide Norm2na;
    EachRead(table, d.addrs, stale);
    ReadAllPointwise(table, d.addrs, stale);
  }
}
