/**
 compat/explode.c, compat/implode.c and the two converters of compat/isoaddrs.c
 in their own form: loops over characters, octets and communities.
 */
module PaddrLoops {
  import opened Wrappers
  import opened Nsap
  import opened NsapTheorems
  import opened Dse
  import opened Paddr

  lemma {:induction false} ExplodeMore(o: seq<Octet>, x: Octet)
    ensures Explode(o + [x]) == Explode(o) + [HexDigit(x / 16), HexDigit(x % 16)]
  {
    if o == [] {
      assert [] + [x] == [x] && [x][1..] == [];
    } else {
      assert (o + [x])[1..] == o[1..] + [x];
      ExplodeMore(o[1..], x);
    }
  }

  /** `explode` */
  method ExplodeOctets(b: seq<Octet>) returns (a: string)
    ensures a == Explode(b)
  {
    a := [];
    for i := 0 to |b|
      invariant a == Explode(b[..i])
    {
      assert b[..i + 1] == b[..i] + [b[i]];
      ExplodeMore(b[..i], b[i]);
      a := a + [HexDigit(b[i] / 16)];
      a := a + [HexDigit(b[i] % 16)];
    }
    assert b[..|b|] == b;
  }

  lemma {:induction false} ImplodeMore(s: string, c: char, d: char)
    requires |s| % 2 == 0
    ensures Implode(s + [c, d]) == Implode(s) + [HexValue(c) * 16 + HexValue(d)]
  {
    if s == [] {
      assert [] + [c, d] == [c, d] && [c, d][2..] == [];
    } else {
      assert (s + [c, d])[2..] == s[2..] + [c, d];
      ImplodeMore(s[2..], c, d);
    }
  }

  /** `implode` */
  method ImplodeHex(b: string) returns (a: seq<Octet>)
    requires |b| % 2 == 0
    ensures a == Implode(b)
  {
    a := [];
    var i := 0;
    while i < |b|
      invariant 0 <= i <= |b| && i % 2 == 0
      invariant a == Implode(b[..i])
    {
      assert b[..i + 2] == b[..i] + [b[i], b[i + 1]];
      ImplodeMore(b[..i], b[i], b[i + 1]);
      a := a + [HexValue(b[i]) * 16 + HexValue(b[i + 1])];
      i := i + 2;
    }
    assert b[..|b|] == b;
  }

  /** The `IMPLODE` macro: every character is looked at, from the last, then the length. */
  method CheckedHex(y: string) returns (o: Option<seq<Octet>>)
    ensures o == if IsHex(y) then Some(Implode(y)) else None
  {
    var zp := |y|;
    while zp > 0
      invariant 0 <= zp <= |y|
      invariant forall i :: zp <= i < |y| ==> IsXdigit(y[i])
    {
      zp := zp - 1;
      if !IsXdigit(y[zp]) {
        return None;
      }
    }
    if |y| % 2 != 0 {
      return None;
    }
    var a := ImplodeHex(y);
    o := Some(a);
  }

  lemma {:induction false} CharsMore(o: seq<Octet>, x: Octet)
    ensures Chars(o + [x]) == Chars(o) + [x as char]
  {
  }

  /** `SEL2STR` */
  method Sel2Str(sel: seq<Octet>) returns (text: string)
    ensures text == SelectorText(sel)
  {
    if |sel| == 0 {
      return [];
    }
    text := ['\"'];
    for i := 0 to |sel|
      invariant text == ['\"'] + Chars(sel[..i])
      invariant forall j :: 0 <= j < i ==> Plain(sel[j])
    {
      if !Plain(sel[i]) {
        var hex := ExplodeOctets(sel);
        text := ['\''] + hex + ['\'', 'H'];
        return;
      }
      assert sel[..i + 1] == sel[..i] + [sel[i]];
      CharsMore(sel[..i], sel[i]);
      text := text + [sel[i] as char];
    }
    assert sel[..|sel|] == sel;
    text := text + ['\"'];
  }

  // ----- Communities -----

  /** The scan for the longest macro value. */
  method FindByValue(ts: seq<Ts>, ep: string) returns (tp: Option<Ts>)
    ensures tp == ByValue(ts, ep)
  {
    tp := None;
    var n := 0;
    for i := 0 to |ts|
      invariant tp == ByValue(ts[..i], ep)
      invariant n == if tp.Some? then |tp.value.value.value| else 0
    {
      assert ts[..i + 1][..i] == ts[..i] && ts[..i + 1][i] == ts[i];
      var v := ts[i].value;
      if v.Some? && |v.value| <= |ep| && |v.value| > n && ep[..|v.value|] == v.value {
        tp, n := Some(ts[i]), |v.value|;
      }
    }
    assert ts[..|ts|] == ts;
  }

  /** The scan for the longest prefix. */
  method FindByPrefix(ts: seq<Ts>, o: seq<Octet>) returns (tp: Option<Ts>)
    ensures tp == ByPrefix(ts, o)
  {
    tp := None;
    var n := 0;
    for i := 0 to |ts|
      invariant tp == ByPrefix(ts[..i], o)
      invariant n == if tp.Some? then |tp.value.community.prefix| else 0
    {
      assert ts[..i + 1][..i] == ts[..i] && ts[..i + 1][i] == ts[i];
      if |ts[i].community.prefix| > n && Prefixes(ts[i].community.prefix, o) {
        tp, n := Some(ts[i]), |ts[i].community.prefix|;
      }
    }
    assert ts[..|ts|] == ts;
  }

  // ----- Printing -----

  lemma {:induction false} AddressesMore(os: seq<seq<Octet>>, o: seq<Octet>)
    ensures AddressesText(os + [o]) == (AddressesText(os) + (if os == [] then [] else ['|'])) + NsText(o)
  {
    if os != [] {
      assert (os + [o])[1..] == os[1..] + [o];
      AddressesMore(os[1..], o);
      if |os| > 1 {
        Grouped(NsText(os[0]), AddressesText(os[1..]), NsText(o));
      }
    }
  }

  lemma Grouped(a: string, b: string, c: string)
    ensures a + ['|'] + (b + ['|'] + c) == (a + ['|'] + b) + ['|'] + c
  {
  }

  lemma {:induction false} NormaliseMore(table: seq<Community>, resolve: Resolver, addrs: seq<Address>, i: nat)
    requires i < |addrs|
    ensures NormaliseAll(table, resolve, addrs[..i + 1]) ==
            match NormaliseAll(table, resolve, addrs[..i])
            case None => None
            case Some(before) =>
              match Na2norm(table, resolve, addrs[i]) case None => None case Some(o) => Some(before + [o])
  {
    assert addrs[..i + 1][..i] == addrs[..i];
  }

  lemma {:induction false} NormaliseStops(table: seq<Community>, resolve: Resolver, addrs: seq<Address>, i: nat)
    requires i <= |addrs| && NormaliseAll(table, resolve, addrs[..i]).None?
    ensures NormaliseAll(table, resolve, addrs).None?
    decreases |addrs| - i
  {
    if i < |addrs| {
      NormaliseMore(table, resolve, addrs, i);
      NormaliseStops(table, resolve, addrs, i + 1);
    } else {
      assert addrs[..i] == addrs;
    }
  }

  method AddSelector(text: string, sel: seq<Octet>) returns (more: string)
    ensures more == text + (SelectorText(sel) + ['/']) && more != []
  {
    var t := Sel2Str(sel);
    more := text + (t + ['/']);
  }

  /** Each selector is printed if it, or one before it, is not empty. */
  method SelectorsStr(pa: Psap) returns (text: string)
    ensures text == SelectorsText(PrintedSelectors(pa))
    ensures text == [] <==> PrintedSelectors(pa) == []
  {
    hide SelectorText, SelectorsText;
    text := [];
    if pa.psel != [] {
      text := AddSelector(text, pa.psel);
    }
    if pa.ssel != [] || text != [] {
      text := AddSelector(text, pa.ssel);
    }
    if pa.tsel != [] || text != [] {
      text := AddSelector(text, pa.tsel);
    }
    SelectorsPrinted(pa);
  }

  /** One address more, after a bar unless it is the first. */
  method AppendAddress(text: string, first: bool, ca: seq<Octet>) returns (more: string)
    ensures more == text + ((if first then [] else ['|']) + NsText(ca))
  {
    more := text;
    if !first {
      more := more + ['|'];
    }
    more := more + "NS+";
    var hex := ExplodeOctets(ca);
    more := more + hex;
  }

  /** `_paddr2str` with `compact`. */
  method CompactStr(table: seq<Community>, resolve: Resolver, pa: Psap) returns (text: string)
    ensures text == Print(table, resolve, pa)
  {
    var head := SelectorsStr(pa);
    text := head;
    if pa.addrs == [] && text == [] {
      return NULLPA;
    }
    ghost var os: seq<seq<Octet>> := [];
    assert AddressesText(os) == [] && text == head + AddressesText(os);
    for i := 0 to |pa.addrs|
      invariant NormaliseAll(table, resolve, pa.addrs[..i]) == Some(os) && |os| == i
      invariant text == head + AddressesText(os)
    {
      NormaliseMore(table, resolve, pa.addrs, i);
      var ca := Na2norm(table, resolve, pa.addrs[i]);
      if ca == None {
        NormaliseStops(table, resolve, pa.addrs, i + 1);
        return NULLPA;
      }
      AddressesMore(os, ca.value);
      text := AppendAddress(text, i == 0, ca.value);
      Appended(head, AddressesText(os), if i == 0 then [] else ['|'], NsText(ca.value));
      os := os + [ca.value];
    }
    assert pa.addrs[..|pa.addrs|] == pa.addrs;
  }

  lemma Appended(head: string, before: string, bar: string, last: string)
    ensures (head + before) + (bar + last) == head + ((before + bar) + last)
    ensures before == [] && bar == [] ==> before + bar + last == last
  {
  }

  lemma {:induction false} SelectorsPrinted(pa: Psap)
    ensures var p, s, t := SelectorText(pa.psel) + ['/'], SelectorText(pa.ssel) + ['/'], SelectorText(pa.tsel) + ['/'];
            SelectorsText(PrintedSelectors(pa)) ==
            if pa.psel != [] then [] + p + s + t
            else if pa.ssel != [] then [] + s + t
            else if pa.tsel != [] then [] + t
            else []
  {
    hide SelectorText;
    var p, s, t := SelectorText(pa.psel) + ['/'], SelectorText(pa.ssel) + ['/'], SelectorText(pa.tsel) + ['/'];
    assert SelectorsText([pa.tsel]) == t + [] == [] + t;
    assert [pa.ssel, pa.tsel][1..] == [pa.tsel];
    assert SelectorsText([pa.ssel, pa.tsel]) == s + (t + []) == [] + s + t;
    assert [pa.psel, pa.ssel, pa.tsel][1..] == [pa.ssel, pa.tsel];
    assert SelectorsText([pa.psel, pa.ssel, pa.tsel]) == p + (s + (t + [])) == [] + p + s + t;
  }

  // ----- Parsing -----

  /** `index`, from position `from` on. */
  method Find(s: string, from: nat, c: char) returns (i: nat)
    requires from <= |s|
    ensures from <= i <= |s| && i - from == Index(s[from..], c)
  {
    i := from;
    while i < |s| && s[i] != c
      invariant from <= i <= |s|
      invariant Index(s[from..], c) == i - from + Index(s[i..], c)
    {
      assert s[i..][1..] == s[i + 1..];
      i := i + 1;
    }
  }

  /** `#` and a decimal number, of which two octets are kept. */
  method NumberSelector(str: string, cp: nat) returns (r: SelectorRead, next: nat)
    requires cp < |str| && str[cp] == '#'
    ensures r == ReadSelector(str[cp..])
    ensures r.GotSelector? ==> cp <= next <= |str| && r.rest == str[next..]
  {
    ghost var t := str[cp..][1..];
    assert t == str[cp + 1..];
    var j;
    j, next := ReadNumber(str, cp + 1);
    assert t[..next - cp - 1] == str[cp + 1..next] && t[next - cp - 1..] == str[next..];
    if j > 0xffff {
      return BadSelector, cp;
    }
    r := GotSelector([j / 256, j % 256], str[next..]);
  }

  /** The digits from `from` on, and the number they spell. */
  method ReadNumber(str: string, from: nat) returns (j: nat, next: nat)
    requires from <= |str|
    ensures from <= next <= |str| && next - from == Digits(str[from..])
    ensures AllDigits(str[from..next]) && j == Value(str[from..next])
  {
    hide Digits, Value;
    j, next := 0, from;
    NoDigitsYet(str, from);
    while next < |str| && IsDigit(str[next])
      invariant from <= next <= |str| && AllDigits(str[from..next]) && j == Value(str[from..next])
      invariant Digits(str[from..]) == next - from + Digits(str[next..])
    {
      OneMoreDigit(str, from, next);
      j := j * 10 + Nibble(str[next]);
      next := next + 1;
    }
    NoDigitHere(str, next);
  }

  lemma NoDigitsYet(str: string, from: nat)
    requires from <= |str|
    ensures Value(str[from..from]) == 0
  {
    assert str[from..from] == [];
  }

  lemma NoDigitHere(str: string, i: nat)
    requires i <= |str| && (i < |str| ==> !IsDigit(str[i]))
    ensures Digits(str[i..]) == 0
  {
  }

  lemma OneMoreDigit(s: string, from: nat, i: nat)
    requires from <= i < |s| && IsDigit(s[i]) && AllDigits(s[from..i])
    ensures AllDigits(s[from..i + 1]) && Value(s[from..i + 1]) == Value(s[from..i]) * 10 + Nibble(s[i])
    ensures Digits(s[i..]) == 1 + Digits(s[i + 1..])
  {
    assert s[from..i + 1][..i - from] == s[from..i];
    assert s[i..][1..] == s[i + 1..];
  }

  /** Text between double quotes. */
  method TextSelector(str: string, cp: nat) returns (r: SelectorRead, next: nat)
    requires cp < |str| && str[cp] == '\"'
    ensures r == ReadSelector(str[cp..])
    ensures r.GotSelector? ==> cp <= next <= |str| && r.rest == str[next..]
  {
    next := cp;
    ghost var t := str[cp..][1..];
    assert t == str[cp + 1..];
    var close := Find(str, cp + 1, '\"');
    if close == |str| {
      return BadSelector, cp;
    }
    next := close + 1;
    assert t[..close - cp - 1] == str[cp + 1..close] && t[close - cp..] == str[next..];
    r := GotSelector(Octets(str[cp + 1..close]), str[next..]);
  }

  /** Hexadecimal between a quote and `'H`. */
  method HexSelector(str: string, cp: nat) returns (r: SelectorRead, next: nat)
    requires cp < |str| && str[cp] == '\''
    ensures r == ReadSelector(str[cp..])
    ensures r.GotSelector? ==> cp <= next <= |str| && r.rest == str[next..]
  {
    next := cp;
    ghost var t := str[cp..][1..];
    assert t == str[cp + 1..];
    var close := Find(str, cp + 1, '\'');
    if close >= |str| - 1 || str[close + 1] != 'H' {
      return BadSelector, cp;
    }
    var o := CheckedHex(str[cp + 1..close]);
    assert t[..close - cp - 1] == str[cp + 1..close];
    if o == None {
      return BadSelector, cp;
    }
    next := close + 2;
    assert t[close - cp + 1..] == str[next..];
    r := GotSelector(o.value, str[next..]);
  }

  /** One selector at `cp`; `next` is where the slash should be. */
  method NextSelector(str: string, cp: nat) returns (r: SelectorRead, next: nat)
    requires cp < |str|
    ensures r == ReadSelector(str[cp..])
    ensures r.GotSelector? ==> cp <= next <= |str| && r.rest == str[next..]
  {
    next := cp;
    match str[cp] {
      case '\"' => r, next := TextSelector(str, cp);
      case '#' => r, next := NumberSelector(str, cp);
      case '\'' => r, next := HexSelector(str, cp);
      case '/' => r := GotSelector([], str[cp..]);
      case _ => r := NoSelector;
    }
  }

  /** Puts the value of a macro in the place of its name. */
  method ExpandMacro(macros: Macros, seg: string) returns (e: Option<string>)
    ensures e == Expanded(macros, seg)
  {
    var equals := Find(seg, 0, '=');
    assert seg[0..] == seg;
    if equals == |seg| {
      return Some(seg);
    }
    var m := macros(seg[..equals]);
    if m == None {
      return None;
    }
    e := Some(m.value + seg[equals + 1..]);
  }

  /** The digits behind `NS+`. */
  method NsAddress(ts: seq<Ts>, community: int, hex: string) returns (r: AddressRead)
    ensures r == ReadNs(ts, community, hex)
  {
    hide ByPrefix, Implode;
    var o := CheckedHex(hex);
    if o == None {
      return BadAddress;
    }
    if |hex| > 2 * NASIZE {
      return OtherForm;
    }
    var best := FindByPrefix(ts, o.value);
    r := GotAddress(RawNsap(if best != None then best.value.community.subnet else community, o.value));
  }

  /** One network address between bars. */
  method NextAddress(ts: seq<Ts>, macros: Macros, seg: string, n: nat) returns (r: AddressRead)
    ensures r == ReadAddress(ts, macros, seg, n)
  {
    hide Expanded, ByValue, ReadNs, Index;
    var e := ExpandMacro(macros, seg);
    if e == None {
      return BadAddress;
    }
    var ep := e.value;
    var tp := FindByValue(ts, ep);
    if tp == None && !LooksLikeAfi(ep) {
      return BadAddress;
    }
    var community := if tp == None then SUBNET_REALNS else tp.value.community.subnet;
    var plus := Find(ep, 0, '+');
    assert ep[0..] == ep;
    if plus == |ep| {
      return BadAddress;
    }
    if n >= NTADDR {
      return TooMany;
    }
    if !LexEqual(ep[..plus], "NS") {
      return OtherForm;
    }
    r := NsAddress(ts, community, ep[plus + 1..]);
  }

  lemma {:induction false} SelectorStep(ts: seq<Ts>, macros: Macros, str: string, cp: nat, next: nat, sels: seq<seq<Octet>>)
    requires cp < |str| && |sels| < 3
    ensures match ReadSelector(str[cp..])
            case BadSelector => ParseFrom(ts, macros, str[cp..], sels) == NoAddress
            case NoSelector => ParseFrom(ts, macros, str[cp..], sels) == ParseAddresses(ts, macros, str[cp..], sels, [])
            case GotSelector(o, rest) =>
              cp <= next <= |str| && rest == str[next..] ==>
                if next == |str| || str[next] != '/' then ParseFrom(ts, macros, str[cp..], sels) == NoAddress
                else ParseFrom(ts, macros, str[cp..], sels) == ParseFrom(ts, macros, str[next + 1..], sels + [o])
  {
    assert next < |str| ==> str[next..][1..] == str[next + 1..];
  }

  lemma {:induction false} AddressStep(ts: seq<Ts>, macros: Macros, str: string, cp: nat, bar: nat,
                                       sels: seq<seq<Octet>>, addrs: seq<Address>)
    requires cp < |str| && cp <= bar <= |str| && bar - cp == Index(str[cp..], '|')
    ensures ParseAddresses(ts, macros, str[cp..], sels, addrs) ==
            match ReadAddress(ts, macros, str[cp..bar], |addrs|)
            case BadAddress => NoAddress
            case OtherForm => Unmodelled
            case TooMany => Parsed(Psap([], [], [], addrs))
            case GotAddress(a) => ParseAddresses(ts, macros, str[if bar < |str| then bar + 1 else bar..], sels, addrs + [a])
  {
    assert str[cp..][..bar - cp] == str[cp..bar];
    assert bar < |str| ==> str[cp..][bar - cp + 1..] == str[bar + 1..];
  }

  lemma ParseEnds(ts: seq<Ts>, macros: Macros, sels: seq<seq<Octet>>, addrs: seq<Address>)
    ensures ParseAddresses(ts, macros, [], sels, addrs) == Parsed(Assigned(sels, addrs))
    ensures addrs == [] ==> ParseFrom(ts, macros, [], sels) == Parsed(Assigned(sels, addrs))
    ensures forall s :: |sels| == 3 ==> ParseFrom(ts, macros, s, sels) == ParseAddresses(ts, macros, s, sels, [])
  {
  }

  /** `str2paddr`: up to three selectors, then addresses, as `state` says. */
  method Str2Paddr(ts: seq<Ts>, macros: Macros, str: string) returns (r: Parsed)
    ensures r == Parse(ts, macros, str)
  {
    hide ParseFrom, ParseAddresses, ReadSelector, ReadAddress, Index;
    var state, cp := 0, 0;
    var sels: seq<seq<Octet>>, addrs: seq<Address> := [], [];
    assert str[0..] == str;
    while cp < |str|
      invariant 0 <= cp <= |str| && 0 <= state <= 3
      invariant state < 3 ==> |sels| == state && addrs == [] && ParseFrom(ts, macros, str[cp..], sels) == Parse(ts, macros, str)
      invariant state == 3 ==> ParseAddresses(ts, macros, str[cp..], sels, addrs) == Parse(ts, macros, str)
      decreases |str| - cp, 3 - state
    {
      if state < 3 {
        var sel, next := NextSelector(str, cp);
        SelectorStep(ts, macros, str, cp, next, sels);
        match sel {
          case BadSelector => return NoAddress;
          case NoSelector => state := 3;
          case GotSelector(o, _) =>
            if next == |str| || str[next] != '/' {
              return NoAddress;
            }
            sels := sels + [o];
            cp := next + 1;
            state := state + 1;
            ParseEnds(ts, macros, sels, addrs);
        }
      } else {
        var bar := Find(str, cp, '|');
        AddressStep(ts, macros, str, cp, bar, sels, addrs);
        var a := NextAddress(ts, macros, str[cp..bar], |addrs|);
        match a {
          case BadAddress => return NoAddress;
          case OtherForm => return Unmodelled;
          case TooMany => return Parsed(Psap([], [], [], addrs));
          case GotAddress(na) =>
            cp := if bar < |str| then bar + 1 else bar;
            addrs := addrs + [na];
        }
      }
    }
    assert str[cp..] == [];
    ParseEnds(ts, macros, sels, addrs);
    r := Parsed(Assigned(sels, addrs));
  }
}
