/**
 Presentation addresses as strings, compat/isoaddrs.c: `_paddr2str` in its compact
 form prints the selectors and, for every network address, its octets in
 hexadecimal; `str2paddr` parses selectors of every form, macros and `NS+`
 addresses.  Characters are octets.
 */
module Paddr {
  import opened Wrappers
  import opened Nsap
  import opened Dse

  /** A community as `ts_interim` lists it, with the value of its macro if it has one. */
  datatype Ts = Ts(value: Option<string>, community: Community)

  /** `name2macro` */
  type Macros = string -> Option<string>

  // ----- Characters -----

  predicate IsAlnum(c: char) {
    '0' <= c <= '9' || 'a' <= c <= 'z' || 'A' <= c <= 'Z'
  }

  predicate IsXdigit(c: char) {
    '0' <= c <= '9' || 'a' <= c <= 'f' || 'A' <= c <= 'F'
  }

  function Fold(c: char): char {
    if 'a' <= c <= 'z' then c - 'a' + 'A' else c
  }

  predicate LexEqual(s: string, t: string) {
    |s| == |t| && forall i :: 0 <= i < |s| ==> Fold(s[i]) == Fold(t[i])
  }

  function OctetOf(c: char): Octet {
    c as int % 256
  }

  function Octets(s: string): (o: seq<Octet>)
    ensures |o| == |s| && forall i :: 0 <= i < |s| ==> o[i] == OctetOf(s[i])
  {
    if s == [] then [] else [OctetOf(s[0])] + Octets(s[1..])
  }

  function Chars(o: seq<Octet>): (s: string)
    ensures |o| == |s| && forall i :: 0 <= i < |s| ==> s[i] == o[i] as char
  {
    if o == [] then [] else [o[0] as char] + Chars(o[1..])
  }

  function HexDigit(n: nat): (c: char)
    requires n < 16
    ensures IsXdigit(c) && HexValue(c) == n
  {
    if n < 10 then '0' + n as char else 'a' + (n - 10) as char
  }

  function HexValue(c: char): (n: nat)
    ensures n < 16
  {
    if '0' <= c <= '9' then c as int - '0' as int
    else if 'a' <= c <= 'f' then c as int - 'a' as int + 10
    else if 'A' <= c <= 'F' then c as int - 'A' as int + 10
    else 0
  }

  /** `explode` */
  function Explode(o: seq<Octet>): string {
    if o == [] then [] else [HexDigit(o[0] / 16), HexDigit(o[0] % 16)] + Explode(o[1..])
  }

  predicate IsHex(s: string) {
    |s| % 2 == 0 && forall i :: 0 <= i < |s| ==> IsXdigit(s[i])
  }

  /** `implode` */
  function Implode(s: string): seq<Octet>
    requires |s| % 2 == 0
  {
    if s == [] then [] else [HexValue(s[0]) * 16 + HexValue(s[1])] + Implode(s[2..])
  }

  /** `index`: where `c` first stands, or the length. */
  function Index(s: string, c: char): (i: nat)
    ensures i <= |s| && c !in s[..i] && (i < |s| ==> s[i] == c)
  {
    if s == [] || s[0] == c then 0 else 1 + Index(s[1..], c)
  }

  // ----- Printing -----

  predicate Plain(o: Octet) {
    o == '+' as int || o == '-' as int || o == '.' as int || IsAlnum(o as char)
  }

  predicate AllPlain(o: seq<Octet>) {
    forall i :: 0 <= i < |o| ==> Plain(o[i])
  }

  /** `SEL2STR` */
  function SelectorText(o: seq<Octet>): string {
    if o == [] then []
    else if AllPlain(o) then ['\"'] + Chars(o) + ['\"']
    else ['\''] + Explode(o) + ['\'', 'H']
  }

  /** The selectors that are printed: none before the first that is not empty. */
  function PrintedSelectors(pa: Psap): seq<seq<Octet>> {
    if pa.psel != [] then [pa.psel, pa.ssel, pa.tsel]
    else if pa.ssel != [] then [pa.ssel, pa.tsel]
    else if pa.tsel != [] then [pa.tsel]
    else []
  }

  function SelectorsText(sels: seq<seq<Octet>>): string {
    if sels == [] then [] else SelectorText(sels[0]) + ['/'] + SelectorsText(sels[1..])
  }

  function NsText(o: seq<Octet>): string {
    "NS+" + Explode(o)
  }

  function AddressesText(os: seq<seq<Octet>>): string {
    if os == [] then []
    else if |os| == 1 then NsText(os[0])
    else NsText(os[0]) + ['|'] + AddressesText(os[1..])
  }

  const NULLPA := ['N', 'U', 'L', 'L', 'P', 'A']

  /** `paddr2str`, compact. */
  function Print(table: seq<Community>, resolve: Resolver, pa: Psap): string {
    var os := NormaliseAll(table, resolve, pa.addrs);
    if os.None? || (pa.addrs == [] && PrintedSelectors(pa) == []) then NULLPA
    else SelectorsText(PrintedSelectors(pa)) + AddressesText(os.value)
  }

  // ----- Parsing -----

  datatype SelectorRead = NoSelector | BadSelector | GotSelector(sel: seq<Octet>, rest: string)

  function Digits(s: string): (n: nat)
    ensures n <= |s| && AllDigits(s[..n])
  {
    if s != [] && IsDigit(s[0]) then 1 + Digits(s[1..]) else 0
  }

  /** One selector at the head of `s`, without the slash after it. */
  function ReadSelector(s: string): (r: SelectorRead)
    requires s != []
    ensures r.GotSelector? ==> |r.rest| <= |s|
  {
    var t := s[1..];
    if s[0] == '\"' then
      var i := Index(t, '\"');
      if i == |t| then BadSelector else GotSelector(Octets(t[..i]), t[i + 1..])
    else if s[0] == '#' then
      var n := Digits(t);
      var j := Value(t[..n]);
      if j > 0xffff then BadSelector else GotSelector([j / 256, j % 256], t[n..])
    else if s[0] == '\'' then
      var i := Index(t, '\'');
      if i >= |t| - 1 || t[i + 1] != 'H' || !IsHex(t[..i]) then BadSelector
      else GotSelector(Implode(t[..i]), t[i + 2..])
    else if s[0] == '/' then GotSelector([], s)
    else NoSelector
  }

  predicate Starts(s: string, t: string) {
    |t| <= |s| && s[..|t|] == t
  }

  /** The longest macro value of a community that `s` starts with. */
  function ByValue(ts: seq<Ts>, s: string): (r: Option<Ts>)
    ensures r.Some? ==> r.value.value.Some? && Starts(s, r.value.value.value)
    ensures r.None? ==> forall c :: c in ts && c.value.Some? && c.value.value != [] ==> !Starts(s, c.value.value)
  {
    if ts == [] then None
    else
      var n := |ts| - 1;
      var before, v := ByValue(ts[..n], s), ts[n].value;
      if v.Some? && Starts(s, v.value) && |v.value| > (if before.Some? then |before.value.value.value| else 0)
      then Some(ts[n]) else before
  }

  /** The address a prefix is compared with is padded with zeros. */
  predicate Prefixes(p: seq<Octet>, o: seq<Octet>) {
    |p| <= NASIZE && forall i :: 0 <= i < |p| ==> p[i] == if i < |o| then o[i] else 0
  }

  /** The longest prefix of a community in the octets. */
  function ByPrefix(ts: seq<Ts>, o: seq<Octet>): (r: Option<Ts>)
    ensures r.Some? ==> r.value in ts && Prefixes(r.value.community.prefix, o)
  {
    if ts == [] then None
    else
      var n := |ts| - 1;
      var before, p := ByPrefix(ts[..n], o), ts[n].community.prefix;
      if |p| > (if before.Some? then |before.value.community.prefix| else 0) && Prefixes(p, o)
      then Some(ts[n]) else before
  }

  const AFIS: seq<string> := ["X121", "DCC", "TELEX", "PSTN", "ISDN", "ICD", "LOCAL"]

  /** Compared without the last letter of the name. */
  predicate LooksLikeAfi(s: string) {
    exists i :: 0 <= i < |AFIS| && Starts(s, AFIS[i][..|AFIS[i]| - 1]) && |AFIS[i]| < |s| && s[|AFIS[i]|] == '+'
  }

  /** Of another form, or beyond `NASIZE` octets: not modelled. */
  datatype AddressRead = BadAddress | TooMany | OtherForm | GotAddress(a: Address)

  function Expanded(macros: Macros, s: string): Option<string> {
    var i := Index(s, '=');
    if i == |s| then Some(s)
    else
      match macros(s[..i])
      case None => None
      case Some(v) => Some(v + s[i + 1..])
  }

  function ReadNs(ts: seq<Ts>, community: int, hex: string): AddressRead {
    if !IsHex(hex) then BadAddress
    else if |hex| > 2 * NASIZE then OtherForm
    else
      var o := Implode(hex);
      var best := ByPrefix(ts, o);
      GotAddress(RawNsap(if best.Some? then best.value.community.subnet else community, o))
  }

  /** One network address, when `n` came before it. */
  function ReadAddress(ts: seq<Ts>, macros: Macros, s: string, n: nat): AddressRead {
    match Expanded(macros, s)
    case None => BadAddress
    case Some(e) =>
      var tp, plus := ByValue(ts, e), Index(e, '+');
      if tp.None? && !LooksLikeAfi(e) then BadAddress
      else if plus == |e| then BadAddress
      else if n >= NTADDR then TooMany
      else if !LexEqual(e[..plus], "NS") then OtherForm
      else ReadNs(ts, if tp.Some? then tp.value.community.subnet else SUBNET_REALNS, e[plus + 1..])
  }

  datatype Parsed = Parsed(pa: Psap) | NoAddress | Unmodelled

  /** Where the selectors go, by their number. */
  function Assigned(sels: seq<seq<Octet>>, addrs: seq<Address>): Psap {
    if |sels| == 3 then Psap(sels[0], sels[1], sels[2], addrs)
    else if |sels| == 2 then Psap([], sels[0], sels[1], addrs)
    else if |sels| == 1 then Psap([], [], sels[0], addrs)
    else Psap([], [], [], addrs)
  }

  function ParseAddresses(ts: seq<Ts>, macros: Macros, s: string, sels: seq<seq<Octet>>, addrs: seq<Address>): Parsed
    decreases |s|
  {
    if s == [] then Parsed(Assigned(sels, addrs))
    else
      var bar := Index(s, '|');
      match ReadAddress(ts, macros, s[..bar], |addrs|)
      case BadAddress => NoAddress
      case OtherForm => Unmodelled
      case TooMany => Parsed(Psap([], [], [], addrs))
      case GotAddress(a) => ParseAddresses(ts, macros, if bar < |s| then s[bar + 1..] else [], sels, addrs + [a])
  }

  /** `str2paddr` from the point where `sels` have been read. */
  function ParseFrom(ts: seq<Ts>, macros: Macros, s: string, sels: seq<seq<Octet>>): Parsed
    decreases |s|
  {
    if s == [] || |sels| >= 3 then ParseAddresses(ts, macros, s, sels, [])
    else
      match ReadSelector(s)
      case BadSelector => NoAddress
      case NoSelector => ParseAddresses(ts, macros, s, sels, [])
      case GotSelector(sel, rest) =>
        if rest == [] || rest[0] != '/' then NoAddress
        else ParseFrom(ts, macros, rest[1..], sels + [sel])
  }

  function Parse(ts: seq<Ts>, macros: Macros, s: string): Parsed {
    ParseFrom(ts, macros, s, [])
  }
}
