/**
 Every form of selector that `str2paddr` knows, printed by this code or not: what
 each stands for, which are refused, and where the selectors of a whole string go.
 */
module PaddrSelectors {
  import opened Wrappers
  import opened Nsap
  import opened Dse
  import opened Paddr
  import opened PaddrTheorems

  /** A selector as somebody writes it. */
  datatype Written = Text(chars: string) | Hex(digits: string) | Number(digits: string) | Nothing

  const LOWER := "0123456789abcdef"
  const UPPER := "0123456789ABCDEF"

  predicate HexIs(c: char, n: int) {
    0 <= n < 16 && (c == LOWER[n] || c == UPPER[n])
  }

  predicate Formed(w: Written) {
    match w
    case Text(chars) => '\"' !in chars
    case Hex(digits) => |digits| % 2 == 0 && forall i :: 0 <= i < |digits| ==> digits[i] in LOWER || digits[i] in UPPER
    case Number(digits) => AllDigits(digits)
    case Nothing => true
  }

  function Spelling(w: Written): string {
    match w
    case Text(chars) => "\"" + chars + "\""
    case Hex(digits) => "'" + digits + "'H"
    case Number(digits) => "#" + digits
    case Nothing => ""
  }

  /** More than two octets can hold. */
  predicate TooGreat(w: Written)
    requires Formed(w)
  {
    w.Number? && Value(w.digits) > 65535
  }

  /** The octets a selector stands for: its characters, its pairs of digits, or its number in two octets. */
  predicate StandsFor(w: Written, sel: seq<Octet>)
    requires Formed(w)
  {
    match w
    case Text(chars) => |sel| == |chars| && forall i :: 0 <= i < |sel| ==> sel[i] == chars[i] as int % 256
    case Hex(digits) =>
      2 * |sel| == |digits| &&
      forall i :: 0 <= i < |sel| ==> HexIs(digits[2 * i], sel[i] / 16) && HexIs(digits[2 * i + 1], sel[i] % 16)
    case Number(digits) => |sel| == 2 && sel[0] as int * 256 + sel[1] as int == Value(digits)
    case Nothing => sel == []
  }

  // ----- One selector -----

  lemma HexIsRead(c: char)
    ensures IsXdigit(c) <==> c in LOWER || c in UPPER
    ensures IsXdigit(c) ==> HexIs(c, HexValue(c))
  {
    if IsXdigit(c) {
      var n := HexValue(c);
      assert c == LOWER[n] || c == UPPER[n];
    } else {
      forall i | 0 <= i < 16 ensures LOWER[i] != c && UPPER[i] != c {
        assert IsXdigit(LOWER[i]) && IsXdigit(UPPER[i]);
      }
    }
  }

  lemma HexPair(a: char, b: char)
    requires IsXdigit(a) && IsXdigit(b)
    ensures var o := HexValue(a) * 16 + HexValue(b); HexIs(a, o / 16) && HexIs(b, o % 16)
  {
    hide HexIs, HexValue, IsXdigit;
    HexIsRead(a);
    HexIsRead(b);
    Halves(HexValue(a), HexValue(b));
  }

  lemma Halves(high: nat, low: nat)
    requires low < 16
    ensures (high * 16 + low) / 16 == high && (high * 16 + low) % 16 == low
  {
  }

  lemma {:induction false} HexPairs(s: string)
    requires IsHex(s)
    ensures 2 * |Implode(s)| == |s|
    ensures forall i :: 0 <= i < |Implode(s)| ==>
              HexIs(s[2 * i], Implode(s)[i] / 16) && HexIs(s[2 * i + 1], Implode(s)[i] % 16)
    decreases |s|
  {
    hide HexIs, HexValue;
    if s != [] {
      HexPairs(s[2..]);
      HexPair(s[0], s[1]);
      var o, rest := Implode(s), Implode(s[2..]);
      forall i | 0 < i < |o| ensures HexIs(s[2 * i], o[i] / 16) && HexIs(s[2 * i + 1], o[i] % 16) {
        assert o[i] == rest[i - 1] && s[2..][2 * (i - 1)] == s[2 * i] && s[2..][2 * (i - 1) + 1] == s[2 * i + 1];
      }
    }
  }

  lemma {:induction false} DigitsEnd(digits: string, rest: string)
    requires AllDigits(digits) && (rest == [] || !IsDigit(rest[0]))
    ensures Digits(digits + rest) == |digits|
    decreases |digits|
  {
    if digits == [] {
      assert digits + rest == rest;
    } else {
      DigitsEnd(digits[1..], rest);
      assert (digits + rest)[1..] == digits[1..] + rest;
    }
  }

  lemma {:induction false} NumberReads(digits: string, rest: string)
    requires AllDigits(digits) && (rest == [] || !IsDigit(rest[0]))
    ensures var r := ReadSelector("#" + digits + rest);
            if Value(digits) > 65535 then r == BadSelector
            else r.GotSelector? && r.rest == rest && StandsFor(Number(digits), r.sel)
  {
    hide Value;
    DigitsEnd(digits, rest);
    var s, t := "#" + digits + rest, digits + rest;
    assert s[1..] == t && t[..|digits|] == digits && t[|digits|..] == rest;
  }

  lemma {:induction false} TextReads(chars: string, rest: string)
    requires '\"' !in chars
    ensures var r := ReadSelector("\"" + chars + "\"" + rest);
            r.GotSelector? && r.rest == rest && StandsFor(Text(chars), r.sel)
  {
    hide ReadSelector, Octets;
    ReadQuoted(chars, rest);
    assert "\"" + chars + "\"" + rest == ['\"'] + (chars + ['\"'] + rest);
  }

  lemma QuoteIsNoDigit()
    ensures !IsXdigit('\'')
  {
  }

  lemma FormedIsHex(digits: string)
    ensures Formed(Hex(digits)) <==> IsHex(digits)
    ensures IsHex(digits) ==> '\'' !in digits
  {
    hide HexIs, HexValue, IsXdigit;
    forall i | 0 <= i < |digits| ensures IsXdigit(digits[i]) <==> digits[i] in LOWER || digits[i] in UPPER {
      HexIsRead(digits[i]);
    }
    QuoteIsNoDigit();
  }

  lemma {:induction false} HexReads(digits: string, rest: string)
    requires Formed(Hex(digits))
    ensures var r := ReadSelector("'" + digits + "'H" + rest);
            r.GotSelector? && r.rest == rest && StandsFor(Hex(digits), r.sel)
  {
    hide Implode, HexIs, IsHex, ReadSelector;
    FormedIsHex(digits);
    HexPairs(digits);
    ReadHex(digits, rest);
    assert "'" + digits + "'H" + rest == ['\''] + (digits + ['\''] + (['H'] + rest));
  }

  /** Whatever the form, a selector before a slash is read as what it stands for, or refused when its number is too great. */
  lemma {:induction false} EveryFormReads(w: Written, rest: string)
    requires Formed(w) && rest != [] && rest[0] == '/'
    ensures var r := ReadSelector(Spelling(w) + rest);
            if TooGreat(w) then r == BadSelector else r.GotSelector? && r.rest == rest && StandsFor(w, r.sel)
  {
    hide ReadSelector, Value;
    match w
    case Text(chars) => TextReads(chars, rest);
    case Hex(digits) => HexReads(digits, rest);
    case Number(digits) => NumberReads(digits, rest);
    case Nothing =>
      assert Spelling(w) + rest == rest;
      SlashIsEmpty(rest);
  }

  lemma SlashIsEmpty(rest: string)
    requires rest != [] && rest[0] == '/'
    ensures ReadSelector(rest) == GotSelector([], rest)
  {
  }

  /** The forms that are refused: a quote that is not closed, no `H` behind it, or what is no hexadecimal. */
  lemma {:induction false} BrokenFormsAreRefused(text: string, rest: string)
    ensures '\"' !in text ==> ReadSelector("\"" + text) == BadSelector
    ensures '\'' !in text ==> ReadSelector("'" + text) == BadSelector
    ensures '\'' !in text && (rest == [] || rest[0] != 'H') ==> ReadSelector("'" + text + "'" + rest) == BadSelector
    ensures '\'' !in text && !Formed(Hex(text)) ==> ReadSelector("'" + text + "'H" + rest) == BadSelector
  {
    if '\"' !in text {
      IndexAt(text, '\"', rest);
      assert ("\"" + text)[1..] == text;
    }
    if '\'' !in text {
      UnclosedHex(text);
      UnmarkedHex(text, rest);
      NoHex(text, rest);
    }
  }

  lemma UnclosedHex(text: string)
    requires '\'' !in text
    ensures ReadSelector("'" + text) == BadSelector
  {
    IndexAt(text, '\'', []);
    assert ("'" + text)[1..] == text;
  }

  lemma UnmarkedHex(text: string, rest: string)
    requires '\'' !in text
    ensures rest == [] || rest[0] != 'H' ==> ReadSelector("'" + text + "'" + rest) == BadSelector
  {
    var t := text + ['\''] + rest;
    IndexAt(text, '\'', rest);
    assert ("'" + text + "'" + rest)[1..] == t;
    assert rest != [] ==> t[|text| + 1] == rest[0];
  }

  lemma NoHex(text: string, rest: string)
    requires '\'' !in text
    ensures !Formed(Hex(text)) ==> ReadSelector("'" + text + "'H" + rest) == BadSelector
  {
    var t := text + ['\''] + ("H" + rest);
    IndexAt(text, '\'', "H" + rest);
    assert ("'" + text + "'H" + rest)[1..] == t;
    FormedIsHex(text);
  }

  // ----- Selectors before addresses -----

  function SpellAll(ws: seq<Written>): string {
    if ws == [] then [] else Spelling(ws[0]) + (['/'] + SpellAll(ws[1..]))
  }

  predicate AllFormed(ws: seq<Written>) {
    forall i :: 0 <= i < |ws| ==> Formed(ws[i])
  }

  predicate OneTooGreat(ws: seq<Written>)
    requires AllFormed(ws)
  {
    exists i :: 0 <= i < |ws| && TooGreat(ws[i])
  }

  lemma {:induction false} FirstParsed(ts: seq<Ts>, macros: Macros, w: Written, more: string, done: seq<seq<Octet>>)
    requires |done| < 3 && Formed(w)
    ensures var s := Spelling(w) + (['/'] + more);
            if TooGreat(w) then ParseFrom(ts, macros, s, done) == NoAddress
            else exists sel :: StandsFor(w, sel) && ParseFrom(ts, macros, s, done) == ParseFrom(ts, macros, more, done + [sel])
  {
    hide ReadSelector, Value;
    EveryFormReads(w, ['/'] + more);
    var s := Spelling(w) + (['/'] + more);
    assert (['/'] + more)[1..] == more && s != [];
    var r := ReadSelector(s);
    if !TooGreat(w) {
      assert StandsFor(w, r.sel) && ParseFrom(ts, macros, s, done) == ParseFrom(ts, macros, more, done + [r.sel]);
    }
  }

  lemma {:induction false} AllParsed(ts: seq<Ts>, macros: Macros, ws: seq<Written>, tail: string, done: seq<seq<Octet>>)
    returns (sels: seq<seq<Octet>>)
    requires |done| + |ws| <= 3 && AllFormed(ws)
    ensures OneTooGreat(ws) ==> ParseFrom(ts, macros, SpellAll(ws) + tail, done) == NoAddress
    ensures !OneTooGreat(ws) ==>
              |sels| == |ws| && (forall i :: 0 <= i < |ws| ==> StandsFor(ws[i], sels[i])) &&
              ParseFrom(ts, macros, SpellAll(ws) + tail, done) == ParseFrom(ts, macros, tail, done + sels)
    decreases |ws|
  {
    hide ParseFrom, TooGreat, StandsFor, Spelling, Formed;
    sels := [];
    if ws == [] {
      assert SpellAll(ws) + tail == tail && done + [] == done;
    } else {
      var w, rest := ws[0], ws[1..];
      assert ws == [w] + rest;
      var more := SpellAll(rest) + tail;
      assert SpellAll(ws) + tail == Spelling(w) + (['/'] + more);
      FirstParsed(ts, macros, w, more, done);
      assert OneTooGreat(ws) <==> TooGreat(w) || OneTooGreat(rest);
      if !TooGreat(w) {
        var sel :| StandsFor(w, sel) &&
                   ParseFrom(ts, macros, SpellAll(ws) + tail, done) == ParseFrom(ts, macros, more, done + [sel]);
        var others := AllParsed(ts, macros, rest, tail, done + [sel]);
        sels := [sel] + others;
        assert done + [sel] + others == done + sels;
      }
    }
  }

  /** The last selector is that of the transport, the one before it of the session, the first of three of the presentation. */
  predicate Placed(ws: seq<Written>, pa: Psap)
    requires AllFormed(ws)
  {
    var n := |ws|;
    && (if n >= 1 then StandsFor(ws[n - 1], pa.tsel) else pa.tsel == [])
    && (if n >= 2 then StandsFor(ws[n - 2], pa.ssel) else pa.ssel == [])
    && (if n >= 3 then StandsFor(ws[n - 3], pa.psel) else pa.psel == [])
  }

  lemma AssignedPlaces(ws: seq<Written>, sels: seq<seq<Octet>>, addrs: seq<Address>)
    requires |sels| == |ws| <= 3 && AllFormed(ws) && forall i :: 0 <= i < |ws| ==> StandsFor(ws[i], sels[i])
    ensures Placed(ws, Assigned(sels, addrs)) && Assigned(sels, addrs).addrs == addrs
  {
    hide StandsFor, Formed;
  }

  /**
   Up to three selectors of any form, each before a slash, and then addresses: refused
   exactly when a number is too great or an address starts with no community's macro
   value, and otherwise each selector in its place.
   */
  lemma {:induction false} EverySelectorParsed(ts: seq<Ts>, macros: Macros, ws: seq<Written>, os: seq<seq<Octet>>)
    requires |ws| <= 3 && AllFormed(ws) && |os| <= NTADDR && forall o :: o in os ==> |o| <= NASIZE
    ensures var r := Parse(ts, macros, SpellAll(ws) + AddressesText(os));
            if OneTooGreat(ws) || !AllKnown(ts, os) then r == NoAddress
            else r.Parsed? && r.pa.addrs == RawOf(ts, os) && Placed(ws, r.pa)
  {
    hide ParseFrom, ParseAddresses, AllKnown, RawOf, StandsFor, Spelling, Placed, Assigned, OneTooGreat, AllFormed, TooGreat;
    var sels := AllParsed(ts, macros, ws, AddressesText(os), []);
    if !OneTooGreat(ws) {
      assert [] + sels == sels;
      NoSelectorThere(ts, macros, os, sels);
      AddressesRead(ts, macros, os, sels, []);
      if AllKnown(ts, os) {
        assert [] + RawOf(ts, os) == RawOf(ts, os);
        AssignedPlaces(ws, sels, RawOf(ts, os));
      }
    }
  }

  /** A selector that no slash follows is refused. */
  lemma {:induction false} SlashIsNeeded(ts: seq<Ts>, macros: Macros, chars: string, rest: string)
    requires '\"' !in chars && (rest == [] || rest[0] != '/')
    ensures Parse(ts, macros, "\"" + chars + "\"" + rest) == NoAddress
  {
    TextReads(chars, rest);
  }
}
