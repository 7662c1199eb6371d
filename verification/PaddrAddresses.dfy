/**
 How presentation addresses are printed, and every way to write a network address
 behind `NS+`: with a macro or without, in capitals or not, and whose it then is.
 */
module PaddrAddresses {
  import opened Wrappers
  import opened Nsap
  import opened Dse
  import opened Paddr
  import opened PaddrTheorems
  import opened PaddrSelectors
  import opened DseForms

  // ----- Printing -----

  const SMALL := "abcdefghijklmnopqrstuvwxyz"
  const CAPITALS := "ABCDEFGHIJKLMNOPQRSTUVWXYZ"

  predicate InPlain(o: Octet) {
    var c := o as char;
    c in "+-." || c in "0123456789" || c in SMALL || c in CAPITALS
  }

  lemma SmallLetters(c: char)
    ensures c in SMALL <==> 'a' <= c <= 'z'
  {
    if 'a' <= c <= 'z' {
      assert SMALL[c as int - 97] == c;
    }
  }

  lemma CapitalLetters(c: char)
    ensures c in CAPITALS <==> 'A' <= c <= 'Z'
  {
    if 'A' <= c <= 'Z' {
      assert CAPITALS[c as int - 65] == c;
    }
  }

  lemma SomeDigit(c: char)
    ensures c in "0123456789" <==> '0' <= c <= '9'
  {
    if '0' <= c <= '9' {
      assert "0123456789"[c as int - 48] == c;
    }
  }

  lemma PlainIs(o: Octet)
    ensures Plain(o) <==> InPlain(o)
  {
    SmallLetters(o as char);
    CapitalLetters(o as char);
    SomeDigit(o as char);
    assert o as char in "+-." <==> o == 43 || o == 45 || o == 46;
  }

  /** The digits of octets, two for each, the higher first, in lower case. */
  predicate LowerHex(digits: string, o: seq<Octet>) {
    |digits| == 2 * |o| && forall i :: 0 <= i < |o| ==> digits[2 * i] == LOWER[o[i] / 16] && digits[2 * i + 1] == LOWER[o[i] % 16]
  }

  lemma HexDigitIs(n: nat)
    requires n < 16
    ensures HexDigit(n) == LOWER[n]
  {
  }

  lemma {:induction false} ExplodeIs(o: seq<Octet>)
    ensures LowerHex(Explode(o), o)
  {
    if o != [] {
      ExplodeIs(o[1..]);
      HexDigitIs(o[0] / 16);
      HexDigitIs(o[0] % 16);
      var s, rest := Explode(o), Explode(o[1..]);
      forall i | 0 < i < |o| ensures s[2 * i] == LOWER[o[i] / 16] && s[2 * i + 1] == LOWER[o[i] % 16] {
        assert s[2 * i] == rest[2 * (i - 1)] && s[2 * i + 1] == rest[2 * (i - 1) + 1] && o[1..][i - 1] == o[i];
      }
    }
  }

  lemma InQuotes(o: seq<Octet>)
    ensures var s := ['\"'] + Chars(o) + ['\"'];
            |s| == |o| + 2 && s[0] == s[|s| - 1] == '\"' && forall i :: 0 <= i < |o| ==> s[i + 1] as int == o[i]
  {
    hide Chars;
  }

  lemma InHexadecimal(o: seq<Octet>)
    ensures var s := ['\''] + Explode(o) + ['\'', 'H'];
            |s| == 2 * |o| + 3 && s[0] == '\'' && s[|s| - 2..] == "'H" && LowerHex(s[1..|s| - 2], o)
  {
    hide Explode;
    ExplodeIs(o);
    var s := ['\''] + Explode(o) + ['\'', 'H'];
    assert s[1..|s| - 2] == Explode(o);
  }

  /** Letters, digits and three signs are printed in quotes, anything else in hexadecimal, and nothing as nothing. */
  lemma SelectorsPrintAs(o: seq<Octet>)
    ensures var s := SelectorText(o);
            if o == [] then s == ""
            else if forall i :: 0 <= i < |o| ==> InPlain(o[i]) then
              |s| == |o| + 2 && s[0] == s[|s| - 1] == '\"' && forall i :: 0 <= i < |o| ==> s[i + 1] as int == o[i]
            else
              |s| == 2 * |o| + 3 && s[0] == '\'' && s[|s| - 2..] == "'H" && LowerHex(s[1..|s| - 2], o)
  {
    hide InPlain, Plain, Chars, Explode, LowerHex;
    forall i | 0 <= i < |o| ensures Plain(o[i]) <==> InPlain(o[i]) {
      PlainIs(o[i]);
    }
    InQuotes(o);
    InHexadecimal(o);
  }

  /** The selectors printed are the last ones, from the first that is not empty. */
  lemma SelectorsPrinted(pa: Psap)
    ensures var ps, all := PrintedSelectors(pa), [pa.psel, pa.ssel, pa.tsel];
            && |ps| <= 3 && ps == all[3 - |ps|..] && (ps != [] ==> ps[0] != [])
            && forall i :: 0 <= i < 3 - |ps| ==> all[i] == []
  {
  }

  /** Each has a slash behind it. */
  lemma {:induction false} SelectorPrinted(sels: seq<seq<Octet>>, sel: seq<Octet>)
    ensures SelectorsText([]) == "" && SelectorsText(sels + [sel]) == SelectorsText(sels) + SelectorText(sel) + "/"
    decreases |sels|
  {
    hide SelectorText;
    var all := sels + [sel];
    if sels == [] {
      assert all[0] == sel && all[1..] == [];
    } else {
      SelectorPrinted(sels[1..], sel);
      assert all[0] == sels[0] && all[1..] == sels[1..] + [sel];
    }
  }

  /** An address is `NS+` and its octets in hexadecimal, and behind others there is a bar before it. */
  lemma {:induction false} AddressPrinted(os: seq<seq<Octet>>, o: seq<Octet>)
    ensures AddressesText([]) == ""
    ensures exists hex :: LowerHex(hex, o) && AddressesText(os + [o]) == AddressesText(os) + (if os == [] then "" else "|") + "NS+" + hex
    decreases |os|
  {
    hide LowerHex, Explode;
    ExplodeIs(o);
    var all := os + [o];
    if os == [] {
      assert all == [o];
    } else {
      AddressPrinted(os[1..], o);
      assert all[0] == os[0] && all[1..] == os[1..] + [o];
      var hex :| LowerHex(hex, o) &&
                 AddressesText(os[1..] + [o]) == AddressesText(os[1..]) + (if os[1..] == [] then "" else "|") + "NS+" + hex;
      assert AddressesText(all) == AddressesText(os) + "|" + "NS+" + hex;
    }
  }

  /** Of an address with nothing in it, or with a network address that cannot be normalised, no more than a word is printed. */
  lemma PrintedExactly(table: seq<Community>, resolve: Resolver, pa: Psap)
    ensures var fine := forall i :: 0 <= i < |pa.addrs| ==> Na2norm(table, resolve, pa.addrs[i]).Some?;
            if !fine || (pa.addrs == [] && pa.psel == pa.ssel == pa.tsel == []) then Print(table, resolve, pa) == "NULLPA"
            else exists os :: |os| == |pa.addrs|
                              && (forall i :: 0 <= i < |os| ==> Na2norm(table, resolve, pa.addrs[i]) == Some(os[i]))
                              && Print(table, resolve, pa) == SelectorsText(PrintedSelectors(pa)) + AddressesText(os)
  {
    hide Na2norm, SelectorsText, AddressesText;
    EachNormalised(table, resolve, pa.addrs);
    NormaliseAllLength(table, resolve, pa.addrs);
  }

  // ----- Names and macros -----

  /** The same letter, as a capital or not. */
  predicate SameLetter(c: char, d: char) {
    c == d || ('a' <= c <= 'z' && c as int == d as int + 32) || ('a' <= d <= 'z' && d as int == c as int + 32)
  }

  lemma LexEqualIs(s: string, t: string)
    ensures LexEqual(s, t) <==> |s| == |t| && forall i :: 0 <= i < |s| ==> SameLetter(s[i], t[i])
  {
    forall c: char, d: char ensures Fold(c) == Fold(d) <==> SameLetter(c, d) {
    }
  }

  /** What a string is expanded to: itself, or the value of the macro before the first equals sign and the rest. */
  predicate ExpandsTo(macros: Macros, s: string, e: string) {
    if '=' !in s then e == s
    else exists i :: 0 <= i < |s| && s[i] == '=' && '=' !in s[..i] && macros(s[..i]).Some? && e == macros(s[..i]).value + s[i + 1..]
  }

  lemma IndexIsFirst(s: string, c: char, i: nat)
    requires i < |s| && s[i] == c && c !in s[..i]
    ensures Index(s, c) == i
  {
    var j := Index(s, c);
    forall k | 0 <= k < i ensures s[k] != c {
      assert s[..i][k] == s[k];
    }
    forall k | 0 <= k < j ensures s[k] != c {
      assert s[..j][k] == s[k];
    }
  }

  lemma NoIndex(s: string, c: char)
    ensures Index(s, c) == |s| <==> c !in s
  {
    assert s[..|s|] == s;
    if Index(s, c) < |s| {
      assert s[Index(s, c)] in s;
    }
  }

  lemma ExpandedIs(macros: Macros, s: string, e: string)
    ensures ExpandsTo(macros, s, e) <==> Expanded(macros, s) == Some(e)
  {
    NoIndex(s, '=');
    if '=' in s {
      if i :| 0 <= i < |s| && s[i] == '=' && '=' !in s[..i] && macros(s[..i]).Some? && e == macros(s[..i]).value + s[i + 1..] {
        IndexIsFirst(s, '=', i);
      }
    }
  }

  // ----- Communities -----

  /** The string begins with the macro value of community `i`. */
  predicate ValueHeads(ts: seq<Ts>, s: string, i: nat)
    requires i < |ts|
  {
    ts[i].value.Some? && ts[i].value.value != [] && |ts[i].value.value| <= |s| &&
    forall j :: 0 <= j < |ts[i].value.value| ==> s[j] == ts[i].value.value[j]
  }

  function ValueLength(ts: seq<Ts>, i: nat): nat
    requires i < |ts|
  {
    if ts[i].value.Some? then |ts[i].value.value| else 0
  }

  /** The first of those with the longest such value. */
  predicate OwnsValue(ts: seq<Ts>, s: string, k: nat)
    requires k < |ts|
  {
    && ValueHeads(ts, s, k)
    && forall i :: 0 <= i < |ts| && ValueHeads(ts, s, i) ==>
         if i < k then ValueLength(ts, i) < ValueLength(ts, k) else ValueLength(ts, i) <= ValueLength(ts, k)
  }

  lemma StartsIs(ts: seq<Ts>, s: string, i: nat)
    requires i < |ts| && ts[i].value.Some?
    ensures ValueHeads(ts, s, i) <==> ts[i].value.value != [] && Starts(s, ts[i].value.value)
  {
    var v := ts[i].value.value;
    if ValueHeads(ts, s, i) {
      assert s[..|v|] == v;
    }
  }

  lemma {:induction false} NoValueHeads(ts: seq<Ts>, s: string)
    ensures ByValue(ts, s).None? <==> forall i :: 0 <= i < |ts| ==> !ValueHeads(ts, s, i)
  {
    if ts != [] {
      var n := |ts| - 1;
      var before := ts[..n];
      NoValueHeads(before, s);
      forall i | 0 <= i < n ensures ValueHeads(before, s, i) <==> ValueHeads(ts, s, i) {
      }
      if ts[n].value.Some? {
        StartsIs(ts, s, n);
      }
    }
  }

  /** The value found is never empty. */
  lemma {:induction false} FoundHeads(ts: seq<Ts>, s: string) returns (i: nat)
    requires ByValue(ts, s).Some?
    ensures i < |ts| && ByValue(ts, s) == Some(ts[i]) && ValueHeads(ts, s, i)
    decreases |ts|
  {
    var n := |ts| - 1;
    if ByValue(ts[..n], s) == ByValue(ts, s) {
      i := FoundHeads(ts[..n], s);
    } else {
      i := n;
      StartsIs(ts, s, n);
    }
  }

  lemma {:induction false} OwnerFound(ts: seq<Ts>, s: string, k: nat)
    requires k < |ts| && OwnsValue(ts, s, k)
    ensures ByValue(ts, s) == Some(ts[k])
    decreases |ts|
  {
    var n := |ts| - 1;
    var before := ts[..n];
    forall i | 0 <= i < n ensures ValueHeads(before, s, i) <==> ValueHeads(ts, s, i) {
    }
    if ts[n].value.Some? {
      StartsIs(ts, s, n);
    }
    if k < n {
      OwnerFound(before, s, k);
    } else if ByValue(before, s).Some? {
      var i := FoundHeads(before, s);
    }
  }

  /** The octets, with zeros behind them, begin with the prefix of community `i`. */
  predicate PrefixHeads(ts: seq<Ts>, o: seq<Octet>, i: nat)
    requires i < |ts|
  {
    var p := ts[i].community.prefix;
    0 < |p| <= 64 && forall j :: 0 <= j < |p| ==> p[j] == if j < |o| then o[j] else 0
  }

  predicate OwnsPrefix(ts: seq<Ts>, o: seq<Octet>, k: nat)
    requires k < |ts|
  {
    && PrefixHeads(ts, o, k)
    && forall i :: 0 <= i < |ts| && PrefixHeads(ts, o, i) ==>
         var l, m := |ts[i].community.prefix|, |ts[k].community.prefix|; if i < k then l < m else l <= m
  }

  lemma {:induction false} NoPrefixHeads(ts: seq<Ts>, o: seq<Octet>)
    ensures ByPrefix(ts, o).None? <==> forall i :: 0 <= i < |ts| ==> !PrefixHeads(ts, o, i)
  {
    if ts != [] {
      var n := |ts| - 1;
      var before := ts[..n];
      NoPrefixHeads(before, o);
      forall i | 0 <= i < n ensures PrefixHeads(before, o, i) <==> PrefixHeads(ts, o, i) {
      }
      assert PrefixHeads(ts, o, n) <==> |ts[n].community.prefix| > 0 && Prefixes(ts[n].community.prefix, o);
      if ByPrefix(before, o).Some? {
        var i :| 0 <= i < n && PrefixHeads(before, o, i);
        assert PrefixHeads(ts, o, i);
      }
    }
  }

  lemma {:induction false} FoundPrefix(ts: seq<Ts>, o: seq<Octet>) returns (i: nat)
    requires ByPrefix(ts, o).Some?
    ensures i < |ts| && ByPrefix(ts, o) == Some(ts[i]) && PrefixHeads(ts, o, i)
    decreases |ts|
  {
    var n := |ts| - 1;
    if ByPrefix(ts[..n], o) == ByPrefix(ts, o) {
      i := FoundPrefix(ts[..n], o);
    } else {
      i := n;
    }
  }

  lemma {:induction false} PrefixFound(ts: seq<Ts>, o: seq<Octet>, k: nat)
    requires k < |ts| && OwnsPrefix(ts, o, k)
    ensures ByPrefix(ts, o) == Some(ts[k])
    decreases |ts|
  {
    var n := |ts| - 1;
    var before := ts[..n];
    forall i | 0 <= i < n ensures PrefixHeads(before, o, i) <==> PrefixHeads(ts, o, i) {
    }
    if k < n {
      PrefixFound(before, o, k);
    } else if ByPrefix(before, o).Some? {
      var i := FoundPrefix(before, o);
    }
  }

  /** A name, whose last letter is not looked at, and a plus. */
  predicate Named(s: string, most: string) {
    |s| > |most| + 1 && s[..|most|] == most && s[|most| + 1] == '+'
  }

  /** The formats that need no community's value: X121, DCC, TELEX, PSTN, ISDN, ICD and LOCAL. */
  lemma FormatsAre(s: string)
    ensures LooksLikeAfi(s) <==>
              || Named(s, "X12") || Named(s, "DC") || Named(s, "TELE") || Named(s, "PST")
              || Named(s, "ISD") || Named(s, "IC") || Named(s, "LOCA")
  {
    var most := ["X12", "DC", "TELE", "PST", "ISD", "IC", "LOCA"];
    forall i | 0 <= i < 7
      ensures Named(s, most[i]) <==> Starts(s, AFIS[i][..|AFIS[i]| - 1]) && |AFIS[i]| < |s| && s[|AFIS[i]|] == '+'
    {
      assert AFIS[i][..|AFIS[i]| - 1] == most[i];
    }
    if LooksLikeAfi(s) {
      var i :| 0 <= i < |AFIS| && Starts(s, AFIS[i][..|AFIS[i]| - 1]) && |AFIS[i]| < |s| && s[|AFIS[i]|] == '+';
      assert Named(s, most[i]);
    }
    assert forall i :: 0 <= i < 7 && Named(s, most[i]) ==> LooksLikeAfi(s);
    assert most[0] == "X12" && most[1] == "DC" && most[2] == "TELE" && most[3] == "PST" && most[4] == "ISD" && most[5] == "IC"
           && most[6] == "LOCA";
  }

  // ----- One address -----

  /** `NS`, in capitals or not, a plus, and digits. */
  predicate NsForm(e: string, hex: string) {
    |e| == 3 + |hex| && SameLetter(e[0], 'N') && SameLetter(e[1], 'S') && e[2] == '+' && e[3..] == hex
  }

  lemma NsFormIs(e: string, hex: string)
    requires NsForm(e, hex)
    ensures Index(e, '+') == 2 && LexEqual(e[..2], "NS") && e[3..] == hex
  {
    assert '+' !in e[..2];
    IndexIsFirst(e, '+', 2);
    LexEqualIs(e[..2], "NS");
  }

  /**
   An address of this form, once expanded, of a community's value and with room for it:
   refused with digits that are no octets, not for this model with more than 64, and
   otherwise given those octets and the community of the longest prefix in them, or
   that of the longest value if there is none.
   */
  lemma {:induction false} NsAddressRead(ts: seq<Ts>, macros: Macros, s: string, e: string, hex: string, n: nat, k: nat)
    requires ExpandsTo(macros, s, e) && NsForm(e, hex) && n < 8 && k < |ts| && OwnsValue(ts, e, k)
    ensures var r := ReadAddress(ts, macros, s, n);
            if !Formed(Hex(hex)) then r == BadAddress
            else if |hex| > 128 then r == OtherForm
            else
              && r.GotAddress? && r.a.RawNsap? && StandsFor(Hex(hex), r.a.octets)
              && (forall j :: 0 <= j < |ts| && OwnsPrefix(ts, r.a.octets, j) ==> r.a.community == ts[j].community.subnet)
              && ((forall j :: 0 <= j < |ts| ==> !PrefixHeads(ts, r.a.octets, j)) ==> r.a.community == ts[k].community.subnet)
  {
    hide Expanded, ByValue, ByPrefix, Index, LexEqual, Implode, IsHex, HexIs, OwnsValue, OwnsPrefix, PrefixHeads, LooksLikeAfi, ExpandsTo;
    ExpandedIs(macros, s, e);
    OwnerFound(ts, e, k);
    NsFormIs(e, hex);
    FormedIsHex(hex);
    if IsHex(hex) {
      HexPairs(hex);
      var o := Implode(hex);
      NoPrefixHeads(ts, o);
      forall j | 0 <= j < |ts| && OwnsPrefix(ts, o, j) ensures ByPrefix(ts, o) == Some(ts[j]) {
        PrefixFound(ts, o, j);
      }
    }
  }

  /** A name that is no macro, a string without a plus, and one that begins with nobody's value and no format's name are refused. */
  lemma {:induction false} AddressRefused(ts: seq<Ts>, macros: Macros, s: string, n: nat)
    ensures (forall e :: !ExpandsTo(macros, s, e)) ==> ReadAddress(ts, macros, s, n) == BadAddress
    ensures forall e :: ExpandsTo(macros, s, e) && '+' !in e ==> ReadAddress(ts, macros, s, n) == BadAddress
    ensures forall e :: ExpandsTo(macros, s, e) && !LooksLikeAfi(e) && (forall i :: 0 <= i < |ts| ==> !ValueHeads(ts, e, i)) ==>
                          ReadAddress(ts, macros, s, n) == BadAddress
  {
    hide Expanded, ByValue, ByPrefix, Index, LexEqual, LooksLikeAfi, ExpandsTo, ValueHeads;
    forall e ensures ExpandsTo(macros, s, e) <==> Expanded(macros, s) == Some(e) {
      ExpandedIs(macros, s, e);
    }
    if Expanded(macros, s).Some? {
      var e := Expanded(macros, s).value;
      NoIndex(e, '+');
      NoValueHeads(ts, e);
    }
  }

  /** Behind three selectors nothing is taken for a fourth: without a plus it is no address. */
  lemma {:induction false} ThreeSelectorsAtMost(ts: seq<Ts>, macros: Macros, ws: seq<Written>, tail: string)
    requires |ws| == 3 && AllFormed(ws) && tail != [] && '=' !in tail && '|' !in tail && '+' !in tail
    ensures Parse(ts, macros, SpellAll(ws) + tail) == NoAddress
  {
    hide ParseFrom, ReadAddress, Index, ExpandsTo, StandsFor, Spelling, OneTooGreat, AllFormed, TooGreat, LooksLikeAfi, ValueHeads;
    var sels := AllParsed(ts, macros, ws, tail, []);
    if !OneTooGreat(ws) {
      assert [] + sels == sels;
      NoIndex(tail, '|');
      assert tail[..|tail|] == tail;
      AsItIs(macros, tail);
      AddressRefused(ts, macros, tail, 0);
      FourthIsAddress(ts, macros, tail, sels);
    }
  }

  lemma AsItIs(macros: Macros, s: string)
    requires '=' !in s
    ensures ExpandsTo(macros, s, s)
  {
  }

  lemma FourthIsAddress(ts: seq<Ts>, macros: Macros, tail: string, sels: seq<seq<Octet>>)
    requires |sels| == 3 && tail != [] && Index(tail, '|') == |tail| && ReadAddress(ts, macros, tail[..|tail|], 0) == BadAddress
    ensures ParseFrom(ts, macros, tail, sels) == NoAddress
  {
    hide ReadAddress, Index;
  }

  lemma {:induction false} NinthAddress(ts: seq<Ts>, macros: Macros, o: seq<Octet>, rest: seq<seq<Octet>>,
                                        sels: seq<seq<Octet>>, done: seq<Address>)
    requires |done| == 8 && ByValue(ts, NsText(o)).Some?
    ensures ParseAddresses(ts, macros, AddressesText([o] + rest), sels, done) == Parsed(Psap([], [], [], done))
  {
    hide Explode, ByValue;
    LastBar(ts, macros, o);
    NinthRead(ts, macros, o);
    var s := AddressesText([o] + rest);
    assert ([o] + rest)[1..] == rest;
    if rest == [] {
      assert s == NsText(o) && s[..|s|] == s;
    } else {
      assert s == NsText(o) + ['|'] + AddressesText(rest);
      IndexAt(NsText(o), '|', AddressesText(rest));
      assert s[..|NsText(o)|] == NsText(o);
    }
  }

  lemma NinthRead(ts: seq<Ts>, macros: Macros, o: seq<Octet>)
    requires ByValue(ts, NsText(o)).Some?
    ensures ReadAddress(ts, macros, NsText(o), 8) == TooMany
  {
    var e := NsText(o);
    assert e[2] == '+';
    ExplodeIs(o);
    forall i | 0 <= i < |e| ensures e[i] != '=' {
      if i >= 3 {
        assert e[i] == Explode(o)[i - 3];
        LowerIsNoSign(Explode(o), o, i - 3);
      }
    }
    NoIndex(e, '=');
    NoIndex(e, '+');
  }

  lemma LowerIsNoSign(s: string, o: seq<Octet>, i: nat)
    requires LowerHex(s, o) && i < |s|
    ensures s[i] != '='
  {
    assert s[i] == LOWER[if i % 2 == 0 then o[i / 2] / 16 else o[i / 2] % 16];
  }

  lemma FirstOfMore(done: seq<Address>, a: Address, more: seq<Address>, n: nat)
    requires |done| < n <= |done| + 1 + |more|
    ensures done + [a] + more[..n - |done| - 1] == done + ([a] + more)[..n - |done|]
  {
  }

  lemma OneOfEight(ts: seq<Ts>, macros: Macros, o: seq<Octet>, rest: seq<seq<Octet>>, sels: seq<seq<Octet>>, done: seq<Address>)
    requires |done| < 8 < |done| + 1 + |rest| && |o| <= 64 && AllKnown(ts, [o] + rest) && AllKnown(ts, rest)
    requires var a := RawNsap(CommunityOf(ts, o), o);
             ParseAddresses(ts, macros, AddressesText(rest), sels, done + [a]) ==
             Parsed(Psap([], [], [], done + [a] + RawOf(ts, rest)[..8 - |done| - 1]))
    ensures ParseAddresses(ts, macros, AddressesText([o] + rest), sels, done) ==
            Parsed(Psap([], [], [], done + RawOf(ts, [o] + rest)[..8 - |done|]))
  {
    hide ParseAddresses, AddressesText, NsText, RawOf, AllKnown, ByValue, CommunityOf;
    KnownStep(ts, o, rest);
    OneAddressRead(ts, macros, o, rest, sels, done);
    FirstOfMore(done, RawNsap(CommunityOf(ts, o), o), RawOf(ts, rest), 8);
  }

  /** More than eight addresses: the first eight are given, without the selectors. */
  lemma {:induction false} EightAddressesAtMost(ts: seq<Ts>, macros: Macros, os: seq<seq<Octet>>, sels: seq<seq<Octet>>, done: seq<Address>)
    requires |done| + |os| > 8 >= |done| && AllKnown(ts, os) && forall o :: o in os ==> |o| <= 64
    ensures ParseAddresses(ts, macros, AddressesText(os), sels, done) == Parsed(Psap([], [], [], done + RawOf(ts, os)[..8 - |done|]))
    decreases |os|
  {
    hide ParseAddresses, AddressesText, RawOf, AllKnown, ByValue, CommunityOf;
    var o, rest := os[0], os[1..];
    assert os == [o] + rest;
    KnownStep(ts, o, rest);
    if |done| == 8 {
      NinthAddress(ts, macros, o, rest, sels, done);
    } else {
      EightAddressesAtMost(ts, macros, rest, sels, done + [RawNsap(CommunityOf(ts, o), o)]);
      OneOfEight(ts, macros, o, rest, sels, done);
    }
  }
}
