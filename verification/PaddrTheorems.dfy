/**
 The compact string of a presentation address is parsed back into its selectors
 and the octets of its network addresses, in order, exactly when each address
 starts with the macro value of some community.
 */
module PaddrTheorems {
  import opened Wrappers
  import opened Nsap
  import opened NsapTheorems
  import opened Dse
  import opened Paddr

  // ----- Pieces of strings -----

  lemma IndexAt(a: string, c: char, rest: string)
    requires c !in a
    ensures Index(a + [c] + rest, c) == |a| && Index(a, c) == |a|
    ensures (a + [c] + rest)[..|a|] == a && (a + [c] + rest)[|a| + 1..] == rest
  {
    var s := a + [c] + rest;
    var i := Index(s, c);
    assert forall k :: 0 <= k < |a| ==> s[k] == a[k];
    forall j | |a| < j <= |s| ensures c in s[..j] {
      assert s[..j][|a|] == c;
    }
  }

  lemma {:induction false} HexReadsBack(o: seq<Octet>)
    ensures |Explode(o)| == 2 * |o| && IsHex(Explode(o)) && Implode(Explode(o)) == o
    decreases |o|
  {
    if o != [] {
      HexReadsBack(o[1..]);
      assert Explode(o)[2..] == Explode(o[1..]);
      assert o[0] / 16 * 16 + o[0] % 16 == o[0];
      assert [o[0]] + o[1..] == o;
    }
  }

  lemma HexIsClean(o: seq<Octet>, c: char)
    requires !IsXdigit(c)
    ensures c !in Explode(o)
  {
    HexReadsBack(o);
  }

  lemma {:induction false} CharsReadBack(o: seq<Octet>)
    ensures Octets(Chars(o)) == o
  {
  }

  // ----- Selectors -----

  lemma {:induction false} ReadQuoted(text: string, rest: string)
    requires '\"' !in text
    ensures ReadSelector(['\"'] + (text + ['\"'] + rest)) == GotSelector(Octets(text), rest)
  {
    var t := text + ['\"'] + rest;
    IndexAt(text, '\"', rest);
    assert (['\"'] + t)[1..] == t;
  }

  lemma {:induction false} ReadHex(hex: string, rest: string)
    requires '\'' !in hex && IsHex(hex)
    ensures ReadSelector(['\''] + (hex + ['\''] + (['H'] + rest))) == GotSelector(Implode(hex), rest)
  {
    var t := hex + ['\''] + (['H'] + rest);
    IndexAt(hex, '\'', ['H'] + rest);
    assert (['\''] + t)[1..] == t;
    assert t[|hex| + 1..] == ['H'] + rest;
    assert t[|hex| + 1] == 'H' && t[|hex| + 2..] == rest;
  }

  lemma PlainIsClean(o: seq<Octet>)
    requires AllPlain(o)
    ensures '\"' !in Chars(o)
  {
    forall i | 0 <= i < |o| ensures Chars(o)[i] != '\"' {
      assert Plain(o[i]);
    }
  }

  lemma Quoted(q: char, text: string, more: string, rest: string)
    ensures ([q] + text + more) + rest == [q] + (text + (more + rest))
  {
  }

  lemma {:induction false} PlainReads(o: seq<Octet>, rest: string)
    requires o != [] && AllPlain(o)
    ensures ReadSelector(SelectorText(o) + rest) == GotSelector(o, rest)
  {
    hide ReadSelector, Chars, Octets;
    var text := Chars(o);
    PlainIsClean(o);
    ReadQuoted(text, rest);
    Quoted('\"', text, ['\"'], rest);
    assert text + ['\"'] + rest == text + (['\"'] + rest);
    CharsReadBack(o);
  }

  lemma {:induction false} HexSelectorReads(o: seq<Octet>, rest: string)
    requires o != [] && !AllPlain(o)
    ensures ReadSelector(SelectorText(o) + rest) == GotSelector(o, rest)
  {
    hide ReadSelector, Explode, Implode;
    var hex := Explode(o);
    HexIsClean(o, '\'');
    HexReadsBack(o);
    ReadHex(hex, rest);
    Quoted('\'', hex, ['\'', 'H'], rest);
    assert ['\'', 'H'] + rest == ['\''] + (['H'] + rest);
    assert hex + ['\''] + (['H'] + rest) == hex + (['\''] + (['H'] + rest));
  }

  /** Text, hexadecimal or empty: a selector is read as it was printed. */
  lemma {:induction false} SelectorReads(o: seq<Octet>, rest: string)
    requires rest != [] && rest[0] == '/'
    ensures ReadSelector(SelectorText(o) + rest) == GotSelector(o, rest)
  {
    if o == [] {
      assert SelectorText(o) + rest == rest;
    } else if AllPlain(o) {
      PlainReads(o, rest);
    } else {
      HexSelectorReads(o, rest);
    }
  }

  lemma {:induction false} OneSelectorRead(ts: seq<Ts>, macros: Macros, o: seq<Octet>, more: string, done: seq<seq<Octet>>)
    requires |done| < 3
    ensures ParseFrom(ts, macros, SelectorText(o) + (['/'] + more), done) == ParseFrom(ts, macros, more, done + [o])
  {
    SelectorReads(o, ['/'] + more);
    assert (['/'] + more)[1..] == more;
  }

  lemma Slashed(text: string, others: string, tail: string)
    ensures (text + ['/'] + others) + tail == text + (['/'] + (others + tail))
  {
  }

  lemma {:induction false} SelectorsRead(ts: seq<Ts>, macros: Macros, sels: seq<seq<Octet>>, tail: string, done: seq<seq<Octet>>)
    requires |done| + |sels| <= 3
    ensures ParseFrom(ts, macros, SelectorsText(sels) + tail, done) == ParseFrom(ts, macros, tail, done + sels)
    decreases |sels|
  {
    hide ParseFrom, SelectorText;
    if sels == [] {
      assert SelectorsText(sels) + tail == tail && done + sels == done;
    } else {
      var more := SelectorsText(sels[1..]) + tail;
      Slashed(SelectorText(sels[0]), SelectorsText(sels[1..]), tail);
      OneSelectorRead(ts, macros, sels[0], more, done);
      SelectorsRead(ts, macros, sels[1..], tail, done + [sels[0]]);
      assert done + [sels[0]] + sels[1..] == done + sels;
    }
  }

  // ----- Addresses -----

  function CommunityOf(ts: seq<Ts>, o: seq<Octet>): int
    requires ByValue(ts, NsText(o)).Some?
  {
    if ByPrefix(ts, o).Some? then ByPrefix(ts, o).value.community.subnet
    else ByValue(ts, NsText(o)).value.community.subnet
  }

  predicate AllKnown(ts: seq<Ts>, os: seq<seq<Octet>>) {
    forall o :: o in os ==> ByValue(ts, NsText(o)).Some?
  }

  function RawOf(ts: seq<Ts>, os: seq<seq<Octet>>): (addrs: seq<Address>)
    requires AllKnown(ts, os)
    ensures |addrs| == |os| && forall i :: 0 <= i < |os| ==> addrs[i] == RawNsap(CommunityOf(ts, os[i]), os[i])
  {
    if os == [] then [] else [RawNsap(CommunityOf(ts, os[0]), os[0])] + RawOf(ts, os[1..])
  }

  lemma StartsAlike(s: string, t: string)
    requires |t| >= 2
    ensures Starts(s, t) ==> s[0] == t[0]
  {
  }

  lemma NotAnAfi(o: seq<Octet>)
    ensures !LooksLikeAfi(NsText(o))
  {
    var s := NsText(o);
    assert s[0] == 'N' && s[1] == 'S' && s[2] == '+';
    forall i | 0 <= i < |AFIS| ensures !Starts(s, AFIS[i][..|AFIS[i]| - 1]) {
      var name := AFIS[i][..|AFIS[i]| - 1];
      assert |name| >= 2 && name[0] != 'N';
      StartsAlike(s, name);
    }
  }

  lemma {:induction false} NsAddressReads(ts: seq<Ts>, macros: Macros, o: seq<Octet>, n: nat)
    requires n < NTADDR && |o| <= NASIZE
    ensures ReadAddress(ts, macros, NsText(o), n) ==
            if ByValue(ts, NsText(o)).Some? then GotAddress(RawNsap(CommunityOf(ts, o), o)) else BadAddress
  {
    var s := NsText(o);
    HexReadsBack(o);
    HexIsClean(o, '=');
    assert s == ['N', 'S'] + ['+'] + Explode(o);
    assert '=' !in s;
    IndexAt(s, '=', []);
    IndexAt(['N', 'S'], '+', Explode(o));
    NotAnAfi(o);
  }

  lemma {:induction false} LastBar(ts: seq<Ts>, macros: Macros, o: seq<Octet>)
    ensures Index(NsText(o), '|') == |NsText(o)|
    ensures forall rest :: Index(NsText(o) + ['|'] + rest, '|') == |NsText(o)|
  {
    HexIsClean(o, '|');
    assert '|' !in NsText(o);
    forall rest ensures Index(NsText(o) + ['|'] + rest, '|') == |NsText(o)| {
      IndexAt(NsText(o), '|', rest);
    }
    IndexAt(NsText(o), '|', []);
  }

  /** The first of several addresses, or the only one. */
  lemma {:induction false} OneAddressRead(ts: seq<Ts>, macros: Macros, o: seq<Octet>, rest: seq<seq<Octet>>, sels: seq<seq<Octet>>, done: seq<Address>)
    requires |done| < NTADDR && |o| <= NASIZE
    ensures ParseAddresses(ts, macros, AddressesText([o] + rest), sels, done) ==
            if ByValue(ts, NsText(o)).Some?
            then ParseAddresses(ts, macros, AddressesText(rest), sels, done + [RawNsap(CommunityOf(ts, o), o)])
            else NoAddress
  {
    NsAddressReads(ts, macros, o, |done|);
    LastBar(ts, macros, o);
    var s := AddressesText([o] + rest);
    assert ([o] + rest)[1..] == rest;
    if rest == [] {
      assert s == NsText(o) && s[..|s|] == s;
      assert AddressesText(rest) == [];
    } else {
      assert s == NsText(o) + ['|'] + AddressesText(rest);
      assert s[..|NsText(o)|] == NsText(o) && s[|NsText(o)| + 1..] == AddressesText(rest);
    }
  }

  lemma KnownStep(ts: seq<Ts>, o: seq<Octet>, rest: seq<seq<Octet>>)
    ensures AllKnown(ts, [o] + rest) <==> ByValue(ts, NsText(o)).Some? && AllKnown(ts, rest)
    ensures AllKnown(ts, [o] + rest) ==> RawOf(ts, [o] + rest) == [RawNsap(CommunityOf(ts, o), o)] + RawOf(ts, rest)
  {
    assert o in [o] + rest && forall x :: x in [o] + rest <==> x == o || x in rest;
    assert ([o] + rest)[1..] == rest;
  }

  lemma Later(done: seq<Address>, a: Address, more: seq<Address>)
    ensures done + [a] + more == done + ([a] + more)
  {
  }

  lemma NoMoreAddresses(ts: seq<Ts>, macros: Macros, sels: seq<seq<Octet>>, done: seq<Address>)
    ensures AllKnown(ts, []) && done + RawOf(ts, []) == done
    ensures ParseAddresses(ts, macros, AddressesText([]), sels, done) == Parsed(Assigned(sels, done))
  {
  }

  lemma {:induction false} AddressesRead(ts: seq<Ts>, macros: Macros, os: seq<seq<Octet>>, sels: seq<seq<Octet>>, done: seq<Address>)
    requires |done| + |os| <= NTADDR && forall o :: o in os ==> |o| <= NASIZE
    ensures ParseAddresses(ts, macros, AddressesText(os), sels, done) ==
            if AllKnown(ts, os) then Parsed(Assigned(sels, done + RawOf(ts, os))) else NoAddress
    decreases |os|
  {
    hide ParseAddresses, AddressesText, NsText, RawOf, AllKnown;
    if os == [] {
      NoMoreAddresses(ts, macros, sels, done);
    } else {
      var o, rest := os[0], os[1..];
      assert os == [o] + rest && o in os && forall x :: x in rest ==> x in os;
      OneAddressRead(ts, macros, o, rest, sels, done);
      KnownStep(ts, o, rest);
      if ByValue(ts, NsText(o)).Some? {
        var a := RawNsap(CommunityOf(ts, o), o);
        AddressesRead(ts, macros, rest, sels, done + [a]);
        if AllKnown(ts, rest) {
          Later(done, a, RawOf(ts, rest));
        }
      }
    }
  }

  // ----- The whole address -----

  lemma NoSelectorThere(ts: seq<Ts>, macros: Macros, os: seq<seq<Octet>>, sels: seq<seq<Octet>>)
    ensures ParseFrom(ts, macros, AddressesText(os), sels) == ParseAddresses(ts, macros, AddressesText(os), sels, [])
  {
    var s := AddressesText(os);
    if s != [] {
      assert s[0] == 'N';
    }
  }

  lemma AssignedAgain(pa: Psap, addrs: seq<Address>)
    ensures Assigned(PrintedSelectors(pa), addrs) == Psap(pa.psel, pa.ssel, pa.tsel, addrs)
  {
  }

  lemma {:induction false} NullpaIsRefused(ts: seq<Ts>, macros: Macros)
    ensures Parse(ts, macros, NULLPA) == NoAddress
  {
    IndexAt(NULLPA, '|', []);
    IndexAt(NULLPA, '=', []);
    IndexAt(NULLPA, '+', []);
    assert NULLPA[..|NULLPA|] == NULLPA;
    assert ReadAddress(ts, macros, NULLPA, 0) == BadAddress;
  }

  /**
   What comes of printing an address and parsing the string: the same selectors,
   and the octets of each network address; nothing when the address cannot be
   printed, or when an address starts with no community's macro value.
   */
  lemma {:induction false} CompactFormReadsBack(ts: seq<Ts>, macros: Macros, table: seq<Community>, resolve: Resolver, pa: Psap)
    requires |pa.addrs| <= NTADDR
    requires var os := NormaliseAll(table, resolve, pa.addrs);
             os.Some? ==> forall o :: o in os.value ==> |o| <= NASIZE
    ensures var os := NormaliseAll(table, resolve, pa.addrs);
            Parse(ts, macros, Print(table, resolve, pa)) ==
            if os.Some? && (pa.addrs != [] || PrintedSelectors(pa) != []) && AllKnown(ts, os.value)
            then Parsed(Psap(pa.psel, pa.ssel, pa.tsel, RawOf(ts, os.value)))
            else NoAddress
  {
    var os := NormaliseAll(table, resolve, pa.addrs);
    NullpaIsRefused(ts, macros);
    if os.Some? && (pa.addrs != [] || PrintedSelectors(pa) != []) {
      var sels := PrintedSelectors(pa);
      NormalisedCount(table, resolve, pa.addrs);
      SelectorsRead(ts, macros, sels, AddressesText(os.value), []);
      assert [] + sels == sels;
      NoSelectorThere(ts, macros, os.value, sels);
      AddressesRead(ts, macros, os.value, sels, []);
      if AllKnown(ts, os.value) {
        assert [] + RawOf(ts, os.value) == RawOf(ts, os.value);
        AssignedAgain(pa, RawOf(ts, os.value));
      }
    }
  }

  lemma {:induction false} NormalisedCount(table: seq<Community>, resolve: Resolver, addrs: seq<Address>)
    ensures NormaliseAll(table, resolve, addrs).Some? ==> |NormaliseAll(table, resolve, addrs).value| == |addrs|
    decreases |addrs|
  {
    if addrs != [] {
      NormalisedCount(table, resolve, addrs[..|addrs| - 1]);
    }
  }

  lemma {:induction false} NormalisedAt(table: seq<Community>, resolve: Resolver, addrs: seq<Address>, i: nat)
    requires i < |addrs| && NormaliseAll(table, resolve, addrs).Some?
    ensures |NormaliseAll(table, resolve, addrs).value| == |addrs|
    ensures Na2norm(table, resolve, addrs[i]) == Some(NormaliseAll(table, resolve, addrs).value[i])
    decreases |addrs|
  {
    NormalisedCount(table, resolve, addrs);
    NormalisedCount(table, resolve, addrs[..|addrs| - 1]);
    if i < |addrs| - 1 {
      NormalisedAt(table, resolve, addrs[..|addrs| - 1], i);
    }
  }

  /**
   Through the string and back to an address: what `norm2na` makes of the octets
   parsed for an address is that address exactly when it survives `na2norm`.
   */
  lemma {:induction false} StringsKeepAddresses(ts: seq<Ts>, macros: Macros, table: seq<Community>, resolve: Resolver, pa: Psap, i: nat)
    requires i < |pa.addrs| <= NTADDR
    requires var os := NormaliseAll(table, resolve, pa.addrs);
             os.Some? && AllKnown(ts, os.value) && forall o :: o in os.value ==> |o| <= NASIZE
    ensures var r := Parse(ts, macros, Print(table, resolve, pa));
            r.Parsed? && |r.pa.addrs| == |pa.addrs| && r.pa.addrs[i].RawNsap? &&
            (RoundTrips(table, resolve, pa.addrs[i]) <==>
             forall stale: string :: |stale| == 14 ==> Norm2na(table, r.pa.addrs[i].octets, stale) == Read(pa.addrs[i]))
  {
    CompactFormReadsBack(ts, macros, table, resolve, pa);
    NormalisedAt(table, resolve, pa.addrs, i);
  }
}
