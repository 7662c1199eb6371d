/**
 The network-address codec of compat/na2norm.c and compat/norm2na.c: how TCP and
 X.25 addresses become the octets of an NSAP behind their community's prefix, and
 how octets are read back.  Strings are C strings without their terminator; ports
 and transport sets are in host order.
 */
module Nsap {
  import opened Wrappers

  type Octet = x: int | 0 <= x < 256

  const NASIZE := 64
  const NSAP_DTELEN := 36
  const NPSIZE := 4
  const CUDFSIZE := 16
  const NA_TSET_TCP := 1
  const SUBNET_REALNS := -1
  const SUBNET_INT_X25 := 1

  datatype Stack = NA_NSAP | NA_TCP | NA_X25 | NA_OTHER
  datatype Community = Community(subnet: int, syntax: Stack, prefix: seq<Octet>)

  datatype Address =
    | RawNsap(community: int, octets: seq<Octet>)
    | Tcp(community: int, domain: string, port: nat, tset: nat)
    | X25(community: int, dte: string, pid: seq<Octet>, cudf: seq<Octet>)
    | Other(community: int)

  /** What the fields of the C structure can hold. */
  predicate Fits(a: Address) {
    match a
    case RawNsap(_, octets) => |octets| <= NASIZE
    case Tcp(_, _, port, tset) => port < 0x10000 && tset < 0x10000
    case X25(_, dte, pid, cudf) => |dte| <= NSAP_DTELEN && |pid| <= NPSIZE && |cudf| <= CUDFSIZE
    case Other(_) => true
  }

  // ----- Digits and semi-octets -----

  predicate IsDigit(c: char) {
    '0' <= c <= '9'
  }

  predicate AllDigits(s: string) {
    forall i :: 0 <= i < |s| ==> IsDigit(s[i])
  }

  function DigitChar(d: nat): (c: char)
    requires d < 10
    ensures IsDigit(c) && Nibble(c) == d
  {
    '0' + d as char
  }

  /** `(c - '0') & 0x0f` */
  function Nibble(c: char): (n: nat)
    ensures n < 16
    ensures IsDigit(c) ==> n == c as int - '0' as int < 10
  {
    (c as int - '0' as int) % 16
  }

  /** Two characters to an octet; a last odd one gets a low semi-octet of all ones. */
  function Pack(s: string): seq<Octet> {
    if s == [] then []
    else if |s| == 1 then [Nibble(s[0]) * 16 + 15]
    else [Nibble(s[0]) * 16 + Nibble(s[1])] + Pack(s[2..])
  }

  /** The digits of one octet; absent when a semi-octet is no digit, except a low one of all ones, which is skipped. */
  function UnpackOctet(o: Octet): Option<string> {
    if o / 16 > 9 then None
    else if o % 16 > 9 then
      if o % 16 != 15 then None else Some([DigitChar(o / 16)])
    else Some([DigitChar(o / 16), DigitChar(o % 16)])
  }

  function Unpack(p: seq<Octet>): Option<string> {
    if p == [] then Some([])
    else
      var first, rest := UnpackOctet(p[0]), Unpack(p[1..]);
      if first.None? || rest.None? then None else Some(first.value + rest.value)
  }

  /** How many digits are written before the octets end or one of them is no digit. */
  function Written(p: seq<Octet>): (n: nat)
    ensures n <= 2 * |p|
  {
    if p == [] || p[0] / 16 > 9 then 0
    else if p[0] % 16 > 9 then if p[0] % 16 != 15 then 1 else 1 + Written(p[1..])
    else 2 + Written(p[1..])
  }

  /** `%0<width>d` */
  function Padded(n: nat, width: nat): string
    decreases n, width
  {
    if width == 0 then [] else Padded(n / 10, width - 1) + [DigitChar(n % 10)]
  }

  /** `%d` */
  function Decimal(n: nat): string {
    if n < 10 then [DigitChar(n)] else Decimal(n / 10) + [DigitChar(n % 10)]
  }

  /** What `sscanf` reads from a run of digits. */
  function Value(s: string): nat
    requires AllDigits(s)
  {
    if s == [] then 0 else Value(s[..|s| - 1]) * 10 + Nibble(s[|s| - 1])
  }

  function Dotted(q: seq<nat>): string
    requires |q| == 4
  {
    Decimal(q[0]) + "." + Decimal(q[1]) + "." + Decimal(q[2]) + "." + Decimal(q[3])
  }

  // ----- na2norm -----

  /** `gethostbystring`: the four octets of a host, if it is known. */
  type Resolver = string -> Option<seq<Octet>>

  function FindSubnet(table: seq<Community>, subnet: int): (r: Option<Community>)
    ensures r.Some? ==> r.value in table && r.value.subnet == subnet
    ensures r.None? ==> forall c :: c in table ==> c.subnet != subnet
  {
    if table == [] then None
    else if table[0].subnet == subnet then Some(table[0])
    else FindSubnet(table[1..], subnet)
  }

  function QuadDigits(q: seq<Octet>): string
    requires |q| == 4
  {
    Padded(q[0], 3) + Padded(q[1], 3) + Padded(q[2], 3) + Padded(q[3], 3)
  }

  function PortDigits(port: nat, tset: nat): string {
    if port == 0 then []
    else Padded(port, 5) + if tset != 0 && tset != NA_TSET_TCP then Padded(tset, 5) else []
  }

  function TcpDigits(q: seq<Octet>, port: nat, tset: nat): string
    requires |q| == 4
  {
    QuadDigits(q) + PortDigits(port, tset)
  }

  function OctetDigits(data: seq<Octet>): string {
    if data == [] then [] else Padded(data[0], 3) + OctetDigits(data[1..])
  }

  /** An indicator, the number of octets, and the octets. */
  function Counted(kind: char, data: seq<Octet>): string {
    [kind] + Decimal(|data|) + OctetDigits(data)
  }

  function X25Digits(dte: string, pid: seq<Octet>, cudf: seq<Octet>): string {
    if pid != [] then Counted('1', pid) + dte
    else if cudf != [] then Counted('2', cudf) + dte
    else "0" + dte
  }

  /** The international X.25 subnet with nothing but a DTE that does not start with 0. */
  predicate UsesX121(a: Address) {
    a.X25? && a.community == SUBNET_INT_X25 && a.pid == [] && a.cudf == [] && (a.dte == [] || a.dte[0] != '0')
  }

  function PadLeft(s: string, width: nat, pad: char): string
    decreases width - |s|
  {
    if |s| >= width then s else PadLeft([pad] + s, width, pad)
  }

  function Na2norm(table: seq<Community>, resolve: Resolver, a: Address): Option<seq<Octet>> {
    if a.RawNsap? then Some(a.octets)
    else
      var ts := FindSubnet(table, a.community);
      if ts.None? then None
      else
        match a
        case Tcp(_, domain, port, tset) =>
          var q := resolve(domain);
          if q.None? || |q.value| != 4 then None
          else Some(ts.value.prefix + Pack(TcpDigits(q.value, port, tset)))
        case X25(_, dte, pid, cudf) =>
          if UsesX121(a) then Some(Pack("36" + PadLeft(dte, 14, '0')))
          else Some(ts.value.prefix + Pack(X25Digits(dte, pid, cudf)))
        case _ => None
  }

  // ----- norm2na -----

  /** An address; or octets that do not fit; or digits for which the C code leaves its buffers. */
  datatype Outcome = Read(a: Address) | TooLong | OffBuffer

  predicate LooksLikeX121(p: seq<Octet>) {
    |p| == 8 && (p[0] == 0x36 || p[0] == 0x37)
  }

  predicate PrefixOf(c: Community, p: seq<Octet>) {
    |c.prefix| < |p| && c.prefix == p[..|c.prefix|]
  }

  /** The first community among those with the longest prefix of `p`. */
  function Best(table: seq<Community>, p: seq<Octet>): (r: Option<Community>)
    ensures r.Some? ==> r.value in table && PrefixOf(r.value, p)
    ensures forall c :: c in table && PrefixOf(c, p) ==> r.Some? && |c.prefix| <= |r.value.prefix|
  {
    if table == [] then None
    else
      var n := |table| - 1;
      var before := Best(table[..n], p);
      if PrefixOf(table[n], p) && (before.None? || |table[n].prefix| > |before.value.prefix|)
      then Some(table[n]) else before
  }

  function Raw(community: int, p: seq<Octet>): Outcome {
    if |p| > NASIZE then TooLong else Read(RawNsap(community, p))
  }

  function SkipZeros(s: string): string {
    if s != [] && s[0] == '0' then SkipZeros(s[1..]) else s
  }

  /**
   The 8-octet form: 14 digits less their leading zeros.  `stale` is what the
   digit buffer held before; it shows through when a filler semi-octet was skipped.
   */
  function ReadX121(p: seq<Octet>, stale: string): Outcome
    requires |p| == 8 && |stale| == 14
  {
    var digits := Unpack(p[1..]);
    if digits.None? then Raw(SUBNET_REALNS, p)
    else
      UnpackGivesDigits(p[1..]);
      var dte := SkipZeros(digits.value + stale[|digits.value|..]);
      if dte == [] then OffBuffer else Read(X25(SUBNET_INT_X25, dte, [], []))
  }

  /** `n` octets of three digits each; absent when one exceeds 255. */
  function ReadOctets(s: string, n: nat): Option<seq<Octet>>
    requires AllDigits(s) && 3 * n <= |s|
    decreases n
  {
    if n == 0 then Some([])
    else
      var v, rest := Value(s[..3]), ReadOctets(s[3..], n - 1);
      if v > 255 || rest.None? then None else Some([v] + rest.value)
  }

  function ReadX25(subnet: int, s: string): Option<Address>
    requires AllDigits(s)
  {
    if s == [] then None
    else if s[0] == '0' then Some(X25(subnet, s[1..], [], []))
    else if s[0] == '1' || s[0] == '2' then
      if |s| < 2 then None
      else
        var ilen := Nibble(s[1]);
        if |s| - 2 < 3 * ilen then None
        else if s[0] == '1' && ilen > NPSIZE then None
        else
          var data := ReadOctets(s[2..], ilen);
          if data.None? then None
          else if s[0] == '1' then Some(X25(subnet, s[2 + 3 * ilen..], data.value, []))
          else Some(X25(subnet, s[2 + 3 * ilen..], [], data.value))
    else None
  }

  function ReadTcp(subnet: int, s: string): Option<Address>
    requires AllDigits(s)
  {
    if |s| < 12 then None
    else
      var domain := Dotted([Value(s[..3]), Value(s[3..6]), Value(s[6..9]), Value(s[9..12])]);
      if |s| == 12 then Some(Tcp(subnet, domain, 0, 0))
      else if |s| < 17 then None
      else
        var port := Value(s[12..17]) % 0x10000;
        if |s| == 17 then Some(Tcp(subnet, domain, port, 0))
        else if |s| < 22 then None
        else Some(Tcp(subnet, domain, port, Value(s[17..22]) % 0x10000))
  }

  function ReadDigits(c: Community, s: string): Option<Address>
    requires AllDigits(s)
  {
    match c.syntax
    case NA_X25 => ReadX25(c.subnet, s)
    case NA_TCP => ReadTcp(c.subnet, s)
    case _ => None
  }

  function Norm2na(table: seq<Community>, p: seq<Octet>, stale: string): Outcome
    requires |stale| == 14
  {
    if LooksLikeX121(p) then ReadX121(p, stale)
    else
      var best := Best(table, p);
      if best.None? then Raw(SUBNET_REALNS, p)
      else if best.value.syntax == NA_NSAP then Raw(best.value.subnet, p)
      else
        var rest := p[|best.value.prefix|..];
        var digits := Unpack(rest);
        if Written(rest) > 2 * NASIZE then OffBuffer
        else if digits.None? then Raw(SUBNET_REALNS, p)
        else
          UnpackGivesDigits(rest);
          var a := ReadDigits(best.value, digits.value);
          if a.None? then Raw(SUBNET_REALNS, p)
          else if a.value.X25? && |a.value.dte| > NSAP_DTELEN then OffBuffer
          else Read(a.value)
  }

  lemma {:induction false} UnpackGivesDigits(p: seq<Octet>)
    ensures Unpack(p).Some? ==> AllDigits(Unpack(p).value) && |p| <= |Unpack(p).value| <= 2 * |p|
  {
    if p != [] {
      UnpackGivesDigits(p[1..]);
    }
  }
}
