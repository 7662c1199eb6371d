/**
 What reading makes of octets that nobody normalised: exactly which become a
 structured address, which are kept raw, and for which the C code leaves its
 buffers.
 */
module NsapReading {
  import opened Wrappers
  import opened Nsap
  import opened NsapTheorems

  // ----- Semi-octets -----

  /** A high semi-octet that is no digit, or a low one that is neither a digit nor the filler. */
  predicate BadOctet(o: Octet) {
    o / 16 > 9 || 9 < o % 16 < 15
  }

  predicate HasBadOctet(p: seq<Octet>) {
    exists i :: 0 <= i < |p| && BadOctet(p[i])
  }

  lemma {:induction false} DigitsUnlessBad(p: seq<Octet>)
    ensures Unpack(p).None? <==> HasBadOctet(p)
  {
    if p != [] {
      DigitsUnlessBad(p[1..]);
      assert p == [p[0]] + p[1..];
      if HasBadOctet(p[1..]) {
        var i :| 0 <= i < |p[1..]| && BadOctet(p[1..][i]);
        assert BadOctet(p[i + 1]);
      }
    }
  }

  // ----- The runs of digits that mean something -----

  /** The parts a run of digits is made of. */
  datatype Run =
    | Host(quad: seq<nat>)
    | HostPort(quad: seq<nat>, port: nat)
    | HostPortTset(quad: seq<nat>, port: nat, tset: nat, extra: string)
    | Dte(dte: string)
    | PidDte(pid: seq<Octet>, dte: string)
    | CudfDte(cudf: seq<Octet>, dte: string)

  predicate Quad(q: seq<nat>) {
    |q| == 4 && q[0] < 1000 && q[1] < 1000 && q[2] < 1000 && q[3] < 1000
  }

  /** The parts have the widths they are written with. */
  predicate Formed(r: Run) {
    match r
    case Host(q) => Quad(q)
    case HostPort(q, port) => Quad(q) && port < 100000
    case HostPortTset(q, port, tset, extra) => Quad(q) && port < 100000 && tset < 100000
    case Dte(_) => true
    case PidDte(pid, _) => |pid| <= NPSIZE
    case CudfDte(cudf, _) => |cudf| <= 9
  }

  function SyntaxOf(r: Run): Stack {
    if r.Host? || r.HostPort? || r.HostPortTset? then NA_TCP else NA_X25
  }

  function Triples(q: seq<nat>): string
    requires |q| == 4
  {
    Padded(q[0], 3) + Padded(q[1], 3) + Padded(q[2], 3) + Padded(q[3], 3)
  }

  /** How the parts are written. */
  function Spelled(r: Run): string
    requires Formed(r)
  {
    match r
    case Host(q) => Triples(q)
    case HostPort(q, port) => Triples(q) + Padded(port, 5)
    case HostPortTset(q, port, tset, extra) => Triples(q) + (Padded(port, 5) + (Padded(tset, 5) + extra))
    case Dte(dte) => "0" + dte
    case PidDte(pid, dte) => Counted('1', pid) + dte
    case CudfDte(cudf, dte) => Counted('2', cudf) + dte
  }

  /** The address they mean; ports and transport sets are cut to sixteen bits. */
  function Meant(subnet: int, r: Run): Address
    requires Formed(r)
  {
    match r
    case Host(q) => Tcp(subnet, Dotted(q), 0, 0)
    case HostPort(q, port) => Tcp(subnet, Dotted(q), port % 0x10000, 0)
    case HostPortTset(q, port, tset, _) => Tcp(subnet, Dotted(q), port % 0x10000, tset % 0x10000)
    case Dte(dte) => X25(subnet, dte, [], [])
    case PidDte(pid, dte) => X25(subnet, dte, pid, [])
    case CudfDte(cudf, dte) => X25(subnet, dte, [], cudf)
  }

  /** The digits are a run of that syntax. */
  predicate Spells(r: Run, syntax: Stack, s: string) {
    Formed(r) && SyntaxOf(r) == syntax && Spelled(r) == s
  }

  // ----- Numbers are written in one way -----

  lemma {:induction false} ValuePadsBack(s: string)
    requires AllDigits(s)
    ensures Value(s) < Pow10(|s|) && Padded(Value(s), |s|) == s
  {
    if s != [] {
      var t, c := s[..|s| - 1], s[|s| - 1];
      ValuePadsBack(t);
      assert Value(s) / 10 == Value(t) && Value(s) % 10 == Nibble(c);
      DigitOfNibble(c);
      assert t + [c] == s;
    }
  }

  lemma ThreeDigits(s: string)
    requires AllDigits(s) && |s| == 3
    ensures Value(s) < 1000 && Padded(Value(s), 3) == s
  {
    assert Pow10(3) == 1000;
    ValuePadsBack(s);
  }

  lemma FiveDigits(s: string)
    requires AllDigits(s) && |s| == 5
    ensures Value(s) < 100000 && Padded(Value(s), 5) == s
  {
    assert Pow10(5) == 100000;
    ValuePadsBack(s);
  }

  lemma PaddedWidth(n: nat, width: nat)
    requires (width == 3 && n < 1000) || (width == 5 && n < 100000)
    ensures |Padded(n, width)| == width && AllDigits(Padded(n, width)) && Value(Padded(n, width)) == n
  {
    assert Pow10(3) == 1000 && Pow10(5) == 100000;
    PaddedReadsBack(n, width);
  }

  // ----- TCP runs -----

  function QuadOf(s: string): seq<nat>
    requires |s| >= 12 && AllDigits(s)
  {
    [Value(s[..3]), Value(s[3..6]), Value(s[6..9]), Value(s[9..12])]
  }

  lemma QuadIsSpelled(s: string)
    requires |s| >= 12 && AllDigits(s)
    ensures Quad(QuadOf(s)) && Triples(QuadOf(s)) == s[..12]
  {
    ThreeDigits(s[..3]); ThreeDigits(s[3..6]); ThreeDigits(s[6..9]); ThreeDigits(s[9..12]);
    assert s[..12] == s[..3] + s[3..6] + s[6..9] + s[9..12];
  }

  lemma TriplesRead(q: seq<nat>, tail: string)
    requires Quad(q) && AllDigits(tail)
    ensures var s := Triples(q) + tail;
            |Triples(q)| == 12 && AllDigits(s) && QuadOf(s) == q && s[12..] == tail
  {
    PaddedWidth(q[0], 3); PaddedWidth(q[1], 3); PaddedWidth(q[2], 3); PaddedWidth(q[3], 3);
    var s := Triples(q) + tail;
    assert s[..3] == Padded(q[0], 3) && s[3..6] == Padded(q[1], 3) && s[6..9] == Padded(q[2], 3) && s[9..12] == Padded(q[3], 3);
  }

  /** The run that is read from digits of the right number. */
  function TcpRun(s: string): Run
    requires |s| >= 12 && AllDigits(s)
  {
    if |s| < 17 then Host(QuadOf(s))
    else if |s| < 22 then HostPort(QuadOf(s), Value(s[12..17]))
    else HostPortTset(QuadOf(s), Value(s[12..17]), Value(s[17..22]), s[22..])
  }

  predicate TcpLength(n: int) {
    n == 12 || n == 17 || n >= 22
  }

  lemma TcpRunSpells(subnet: int, s: string)
    requires AllDigits(s) && TcpLength(|s|)
    ensures Spells(TcpRun(s), NA_TCP, s) && ReadTcp(subnet, s) == Some(Meant(subnet, TcpRun(s)))
  {
    QuadIsSpelled(s);
    if |s| >= 17 {
      FiveDigits(s[12..17]);
    }
    if |s| >= 22 {
      FiveDigits(s[17..22]);
    }
    JoinAtTwelve(s);
  }

  lemma JoinAtTwelve(s: string)
    requires |s| >= 12
    ensures |s| == 12 ==> s[..12] == s
    ensures |s| == 17 ==> s[..12] + s[12..17] == s
    ensures |s| >= 22 ==> s[..12] + (s[12..17] + (s[17..22] + s[22..])) == s
  {
  }

  /** A run is read as itself: the digits determine it. */
  lemma SpelledTcpIs(r: Run, s: string)
    requires AllDigits(s) && Spells(r, NA_TCP, s)
    ensures TcpLength(|s|) && TcpRun(s) == r
  {
    var tail := match r
                case Host(_) => []
                case HostPort(_, port) => Padded(port, 5)
                case HostPortTset(_, port, tset, extra) => Padded(port, 5) + (Padded(tset, 5) + extra);
    assert s == Triples(r.quad) + tail;
    if !r.Host? {
      PaddedWidth(r.port, 5);
    }
    if r.HostPortTset? {
      PaddedWidth(r.tset, 5);
    }
    TriplesLength(r.quad);
    assert tail == s[12..];
    assert AllDigits(tail);
    TriplesRead(r.quad, tail);
    TailParts(s, tail, r);
  }

  lemma TriplesLength(q: seq<nat>)
    requires Quad(q)
    ensures |Triples(q)| == 12
  {
    PaddedWidth(q[0], 3); PaddedWidth(q[1], 3); PaddedWidth(q[2], 3); PaddedWidth(q[3], 3);
  }

  lemma TailParts(s: string, tail: string, r: Run)
    requires |s| >= 12 && s[12..] == tail && Formed(r) && SyntaxOf(r) == NA_TCP
    requires r.HostPort? ==> tail == Padded(r.port, 5) && |tail| == 5
    requires r.HostPortTset? ==> tail == Padded(r.port, 5) + (Padded(r.tset, 5) + r.extra)
    requires r.HostPortTset? ==> |Padded(r.port, 5)| == |Padded(r.tset, 5)| == 5
    ensures r.HostPort? ==> s[12..17] == Padded(r.port, 5)
    ensures r.HostPortTset? ==> |s| >= 22 && s[12..17] == Padded(r.port, 5) && s[17..22] == Padded(r.tset, 5) && s[22..] == r.extra
  {
    hide Padded;
    assert forall i, j :: 0 <= i <= j <= |tail| ==> s[12 + i..12 + j] == tail[i..j];
    if r.HostPortTset? {
      assert tail[0..5] == Padded(r.port, 5) && tail[5..10] == Padded(r.tset, 5) && tail[10..] == r.extra;
    }
  }

  // ----- X.25 runs -----

  /** The `k`-th group of three digits behind `from` stands for an octet. */
  predicate TripleFits(s: string, from: nat, k: nat)
    requires AllDigits(s)
  {
    from + 3 * k + 3 <= |s| && Value(s[from + 3 * k..from + 3 * k + 3]) <= 255
  }

  /** An indicator above 2; a count that is missing, too great for what follows or for a PID; an octet above 255. */
  predicate X25Malformed(s: string)
    requires AllDigits(s)
  {
    || s == [] || s[0] > '2'
    || (s[0] != '0'
        && (|s| < 2 || |s| < 2 + 3 * Nibble(s[1]) || (s[0] == '1' && Nibble(s[1]) > NPSIZE)
            || exists k: nat :: k < Nibble(s[1]) && !TripleFits(s, 2, k)))
  }

  /** How many digits stand before the DTE. */
  function Lead(s: string): (n: nat)
    requires AllDigits(s) && !X25Malformed(s)
    ensures n <= |s|
  {
    if s[0] == '0' then 1 else 2 + 3 * Nibble(s[1])
  }

  lemma {:induction false} OctetsReadExactly(s: string, n: nat)
    requires AllDigits(s) && 3 * n <= |s|
    ensures ReadOctets(s, n).None? <==> exists k: nat :: k < n && !TripleFits(s, 0, k)
    ensures ReadOctets(s, n).Some? ==> |ReadOctets(s, n).value| == n && OctetDigits(ReadOctets(s, n).value) == s[..3 * n]
    decreases n
  {
    if n > 0 {
      var t := s[3..];
      OctetsReadExactly(t, n - 1);
      forall k: nat | k < n - 1 ensures TripleFits(t, 0, k) == TripleFits(s, 0, k + 1) {
        assert t[3 * k..3 * k + 3] == s[3 * (k + 1)..3 * (k + 1) + 3];
      }
      assert s[0..3] == s[..3];
      ThreeDigits(s[..3]);
      assert TripleFits(s, 0, 0) <==> Value(s[..3]) <= 255;
      if k: nat :| k < n && !TripleFits(s, 0, k) {
        assert k > 0 ==> !TripleFits(t, 0, k - 1);
      }
      if k: nat :| k < n - 1 && !TripleFits(t, 0, k) {
        assert !TripleFits(s, 0, k + 1);
      }
      if ReadOctets(s, n).Some? {
        assert s[..3] + t[..3 * (n - 1)] == s[..3 * n];
      }
    }
  }

  lemma TriplesFitAfter(s: string, k: nat)
    requires AllDigits(s) && |s| >= 2
    ensures TripleFits(s[2..], 0, k) == TripleFits(s, 2, k)
  {
    if 3 * k + 3 <= |s| - 2 {
      assert s[2..][3 * k..3 * k + 3] == s[2 + 3 * k..2 + 3 * k + 3];
    }
  }

  lemma X25ReadExactly(subnet: int, s: string)
    requires AllDigits(s)
    ensures ReadX25(subnet, s).None? <==> X25Malformed(s)
    ensures ReadX25(subnet, s).Some? ==> ReadX25(subnet, s).value.X25? && |ReadX25(subnet, s).value.dte| == |s| - Lead(s)
  {
    if |s| >= 2 && s[0] != '0' && |s| - 2 >= 3 * Nibble(s[1]) {
      var n := Nibble(s[1]);
      OctetsReadExactly(s[2..], n);
      forall k: nat ensures TripleFits(s[2..], 0, k) == TripleFits(s, 2, k) {
        TriplesFitAfter(s, k);
      }
    }
  }

  lemma X25RunExists(subnet: int, s: string) returns (r: Run)
    requires AllDigits(s) && ReadX25(subnet, s).Some?
    ensures Spells(r, NA_X25, s) && ReadX25(subnet, s) == Some(Meant(subnet, r))
  {
    if s[0] == '0' {
      r := Dte(s[1..]);
      assert "0" + s[1..] == s;
    } else {
      var n := Nibble(s[1]);
      OctetsReadExactly(s[2..], n);
      var data, dte := ReadOctets(s[2..], n).value, s[2 + 3 * n..];
      DigitOfNibble(s[1]);
      CountedShape(s[0], data, dte);
      assert [s[0], s[1]] + (s[2..][..3 * n] + dte) == s;
      r := if s[0] == '1' then PidDte(data, dte) else CudfDte(data, dte);
    }
  }

  lemma SpelledX25Reads(subnet: int, r: Run, s: string)
    requires AllDigits(s) && Spells(r, NA_X25, s)
    ensures ReadX25(subnet, s) == Some(Meant(subnet, r))
  {
    match r
    case Dte(dte) =>
      assert s[1..] == dte;
    case PidDte(pid, dte) =>
      DteIsDigits(Counted('1', pid), dte);
      CountedOctetsRead(subnet, '1', pid, dte);
    case CudfDte(cudf, dte) =>
      DteIsDigits(Counted('2', cudf), dte);
      CountedOctetsRead(subnet, '2', cudf, dte);
  }

  lemma DteIsDigits(lead: string, dte: string)
    requires AllDigits(lead + dte)
    ensures AllDigits(dte)
  {
    assert forall i :: 0 <= i < |dte| ==> dte[i] == (lead + dte)[|lead| + i];
  }

  // ----- All runs -----

  /** Too few digits, or as many as end inside a field; or a syntax whose digits are never read. */
  predicate Malformed(syntax: Stack, s: string)
    requires AllDigits(s)
  {
    match syntax
    case NA_X25 => X25Malformed(s)
    case NA_TCP => !TcpLength(|s|)
    case _ => true
  }

  lemma MalformedIsRefused(c: Community, s: string)
    requires AllDigits(s)
    ensures ReadDigits(c, s).None? <==> Malformed(c.syntax, s)
  {
    X25ReadExactly(c.subnet, s);
  }

  /** The reader gives an address exactly when the digits spell a run that means it. */
  lemma DigitsReadExactly(c: Community, s: string, a: Address)
    requires AllDigits(s)
    ensures ReadDigits(c, s) == Some(a) <==> exists r :: Spells(r, c.syntax, s) && Meant(c.subnet, r) == a
  {
    if ReadDigits(c, s) == Some(a) {
      if c.syntax == NA_TCP {
        TcpRunSpells(c.subnet, s);
      } else {
        var r := X25RunExists(c.subnet, s);
      }
    }
    forall r | Spells(r, c.syntax, s) && Meant(c.subnet, r) == a ensures ReadDigits(c, s) == Some(a) {
      if c.syntax == NA_TCP {
        SpelledTcpIs(r, s);
        TcpRunSpells(c.subnet, s);
      } else {
        SpelledX25Reads(c.subnet, r, s);
      }
    }
  }

  // ----- Whole octet strings -----

  /** The octets behind the prefix of the community they are read with. */
  function Behind(c: Community, p: seq<Octet>): seq<Octet>
    requires PrefixOf(c, p)
  {
    p[|c.prefix|..]
  }

  /** The digits behind the prefix, if they all are. */
  function DigitsBehind(c: Community, p: seq<Octet>): (s: string)
    requires PrefixOf(c, p)
    ensures AllDigits(s)
  {
    UnpackGivesDigits(Behind(c, p));
    var digits := Unpack(Behind(c, p));
    if digits.None? then [] else digits.value
  }

  /** What the digit buffer holds of the 8-octet form. */
  function Buffer(digits: string, stale: string): string
    requires |digits| <= |stale|
  {
    digits + stale[|digits|..]
  }

  predicate AllZeros(s: string) {
    forall i :: 0 <= i < |s| ==> s[i] == '0'
  }

  /** The octets are not those of a structured address. */
  predicate StaysRaw(table: seq<Community>, p: seq<Octet>) {
    if LooksLikeX121(p) then HasBadOctet(p[1..])
    else
      var best := Best(table, p);
      best.None? || best.value.syntax == NA_NSAP || HasBadOctet(Behind(best.value, p))
      || Malformed(best.value.syntax, DigitsBehind(best.value, p))
  }

  /** The digits are read, but the DTE among them is longer than its field; or the 8-octet form holds only zeros. */
  predicate Overruns(table: seq<Community>, p: seq<Octet>, stale: string)
    requires |stale| == 14
  {
    !StaysRaw(table, p)
    && if LooksLikeX121(p) then AllZeros(X121Buffer(p, stale))
       else
         var c := Best(table, p).value;
         var s := DigitsBehind(c, p);
         c.syntax == NA_X25 && |s| - Lead(s) > NSAP_DTELEN
  }

  /** What the digit buffer holds once the 8-octet form is unpacked: its digits, and behind them what it held before. */
  function X121Buffer(p: seq<Octet>, stale: string): (s: string)
    requires |stale| == 14 && LooksLikeX121(p) && !HasBadOctet(p[1..])
    ensures |s| == 14
  {
    DigitsUnlessBad(p[1..]);
    UnpackGivesDigits(p[1..]);
    var digits := Unpack(p[1..]).value;
    digits + stale[|digits|..]
  }

  /** The address is what the octets say. */
  ghost predicate Says(table: seq<Community>, p: seq<Octet>, stale: string, a: Address)
    requires |stale| == 14 && !StaysRaw(table, p)
  {
    if LooksLikeX121(p) then
      exists n: nat :: a.X25? && a == X25(SUBNET_INT_X25, a.dte, [], []) && LeadingZeros(n, a.dte, X121Buffer(p, stale))
    else
      var c := Best(table, p).value;
      exists r :: Spells(r, c.syntax, DigitsBehind(c, p)) && Meant(c.subnet, r) == a
  }

  /** `s` is `n` zeros and a number that does not start with one. */
  predicate LeadingZeros(n: nat, dte: string, s: string) {
    dte != [] && dte[0] != '0' && s == Repeat('0', n) + dte
  }

  lemma StrippedIs(n: nat, dte: string, s: string)
    ensures LeadingZeros(n, dte, s) ==> SkipZeros(s) == dte
  {
    if LeadingZeros(n, dte, s) {
      SkipZerosDropsPadding(n, dte);
    }
  }

  lemma StrippedLeaves(s: string)
    requires SkipZeros(s) != []
    ensures |SkipZeros(s)| <= |s| && LeadingZeros(|s| - |SkipZeros(s)|, SkipZeros(s), s)
  {
    SkipZerosShape(s);
    SkippedAreZeros(s);
    var n := |s| - |SkipZeros(s)|;
    assert s == s[..n] + s[n..];
    assert s[..n] == Repeat('0', n);
  }

  lemma {:induction false} SkippedAreZeros(s: string)
    ensures forall i :: 0 <= i < |s| - |SkipZeros(s)| ==> s[i] == '0'
  {
    if s != [] && s[0] == '0' {
      SkippedAreZeros(s[1..]);
      assert forall i :: 0 < i < |s| ==> s[i] == s[1..][i - 1];
    }
  }

  /** The outcome for octets that fit, by what they are. */
  lemma X121Reading(table: seq<Community>, p: seq<Octet>, stale: string)
    requires |p| <= NASIZE && |stale| == 14 && LooksLikeX121(p)
    ensures Norm2na(table, p, stale) ==
            if HasBadOctet(p[1..]) then Read(RawNsap(SUBNET_REALNS, p))
            else if SkipZeros(X121Buffer(p, stale)) == [] then OffBuffer
            else Read(X25(SUBNET_INT_X25, SkipZeros(X121Buffer(p, stale)), [], []))
  {
    DigitsUnlessBad(p[1..]);
  }

  lemma FewDigits(p: seq<Octet>)
    requires |p| <= NASIZE
    ensures Written(p) <= 2 * NASIZE
  {
  }

  lemma DigitsReading(table: seq<Community>, p: seq<Octet>, stale: string)
    requires |p| <= NASIZE && |stale| == 14 && !LooksLikeX121(p)
    requires Best(table, p).Some? && Best(table, p).value.syntax != NA_NSAP
    ensures var c := Best(table, p).value;
            var a := ReadDigits(c, DigitsBehind(c, p));
            Norm2na(table, p, stale) ==
              if HasBadOctet(Behind(c, p)) || a.None? then Read(RawNsap(SUBNET_REALNS, p))
              else if a.value.X25? && |a.value.dte| > NSAP_DTELEN then OffBuffer
              else Read(a.value)
  {
    DigitsUnlessBad(Behind(Best(table, p).value, p));
    FewDigits(Behind(Best(table, p).value, p));
  }

  /**
   Octets that fit are always read.  They are kept raw exactly when they are not
   those of a structured address, and the C code leaves its buffers exactly when a
   DTE is too long or has nothing but zeros.
   */
  lemma ReadingAlwaysAnswers(table: seq<Community>, p: seq<Octet>, stale: string)
    requires |p| <= NASIZE && |stale| == 14
    ensures var r := Norm2na(table, p, stale);
            && (r == OffBuffer <==> Overruns(table, p, stale))
            && (r.Read? && r.a.RawNsap? <==> StaysRaw(table, p))
            && (StaysRaw(table, p) ==> r == Read(RawNsap(RawCommunity(table, p), p)))
            && !r.TooLong?
  {
    if LooksLikeX121(p) {
      X121Reading(table, p, stale);
      if !HasBadOctet(p[1..]) {
        SkipZerosShape(X121Buffer(p, stale));
      }
    } else if Best(table, p).Some? && Best(table, p).value.syntax != NA_NSAP {
      var c := Best(table, p).value;
      DigitsReading(table, p, stale);
      MalformedIsRefused(c, DigitsBehind(c, p));
      X25ReadExactly(c.subnet, DigitsBehind(c, p));
    }
  }

  /** The community raw octets are given: that of a plain community that owns them, or none. */
  function RawCommunity(table: seq<Community>, p: seq<Octet>): int {
    var best := Best(table, p);
    if !LooksLikeX121(p) && best.Some? && best.value.syntax == NA_NSAP then best.value.subnet else SUBNET_REALNS
  }

  /** A structured address is read exactly when it is what the octets say and its DTE fits. */
  lemma StructuredExactly(table: seq<Community>, p: seq<Octet>, stale: string, a: Address)
    requires |p| <= NASIZE && |stale| == 14 && !a.RawNsap?
    ensures Norm2na(table, p, stale) == Read(a) <==>
              !StaysRaw(table, p) && !Overruns(table, p, stale) && Says(table, p, stale, a)
  {
    ReadingAlwaysAnswers(table, p, stale);
    if !StaysRaw(table, p) {
      if LooksLikeX121(p) {
        X121Reading(table, p, stale);
        var s := X121Buffer(p, stale);
        if SkipZeros(s) != [] {
          StrippedLeaves(s);
        }
        forall n: nat | a.X25? { StrippedIs(n, a.dte, s); }
      } else {
        DigitsReading(table, p, stale);
        DigitsReadExactly(Best(table, p).value, DigitsBehind(Best(table, p).value, p), a);
      }
    }
  }

  /** Raw octets come back exactly when they look like no structured address and name the community they are given. */
  lemma RawRoundTripsExactly(table: seq<Community>, resolve: Resolver, a: Address)
    requires a.RawNsap? && Fits(a)
    ensures RoundTrips(table, resolve, a) <==> StaysRaw(table, a.octets) && a.community == RawCommunity(table, a.octets)
  {
    ReadingAlwaysAnswers(table, a.octets, Clean());
    forall stale: string | |stale| == 14 && StaysRaw(table, a.octets)
      ensures Norm2na(table, a.octets, stale) == Read(RawNsap(RawCommunity(table, a.octets), a.octets))
    {
      ReadingAlwaysAnswers(table, a.octets, stale);
    }
  }

  /** What it takes for an address to survive the codec, in every form. */
  predicate Carried(table: seq<Community>, resolve: Resolver, a: Address) {
    var ts := FindSubnet(table, a.community);
    match a
    case RawNsap(c, octets) => StaysRaw(table, octets) && c == RawCommunity(table, octets)
    case Tcp(_, domain, port, tset) =>
      var q := resolve(domain);
      && ts.Some? && ts.value.syntax == NA_TCP
      && q.Some? && |q.value| == 4 && domain == Dotted(q.value) && CarriesTset(port, tset)
      && BelongsTo(table, ts.value, ts.value.prefix + Pack(TcpDigits(q.value, port, tset)))
    case X25(_, dte, pid, cudf) =>
      if UsesX121(a) then ts.Some? && AllDigits(dte) && 1 <= |dte| <= 14
      else
        && ts.Some? && ts.value.syntax == NA_X25
        && AllDigits(dte) && (pid == [] || cudf == []) && |cudf| <= 9
        && BelongsTo(table, ts.value, ts.value.prefix + Pack(X25Digits(dte, pid, cudf)))
    case Other(_) => false
  }

  lemma RoundTripsExactly(table: seq<Community>, resolve: Resolver, a: Address)
    requires Fits(a) && UniqueSubnets(table)
    ensures RoundTrips(table, resolve, a) <==> Carried(table, resolve, a)
  {
    hide Norm2na, Best, Pack, StaysRaw, Fits;
    match a
    case RawNsap(_, _) => RawRoundTripsExactly(table, resolve, a);
    case Tcp(_, _, _, _) => TcpRoundTripsExactly(table, resolve, a);
    case X25(_, _, _, _) =>
      if !UsesX121(a) {
        X25RoundTripsExactly(table, resolve, a);
      } else if FindSubnet(table, a.community).Some? {
        X121RoundTripsExactly(table, resolve, a);
      }
    case Other(_) =>
  }

  /** A semi-octet that is no digit and no low filler sends the octets to the raw form. */
  lemma MalformedDigitsStayRaw(table: seq<Community>, p: seq<Octet>, stale: string, i: nat)
    requires |p| <= NASIZE && |stale| == 14
    requires LooksLikeX121(p) || (Best(table, p).Some? && Best(table, p).value.syntax != NA_NSAP)
    requires (if LooksLikeX121(p) then 1 else |Best(table, p).value.prefix|) <= i < |p| && BadOctet(p[i])
    ensures Norm2na(table, p, stale) == Read(RawNsap(SUBNET_REALNS, p))
  {
    var from := if LooksLikeX121(p) then 1 else |Best(table, p).value.prefix|;
    assert BadOctet(p[from..][i - from]);
    ReadingAlwaysAnswers(table, p, stale);
  }

  // ----- Octets for which the code leaves its buffers -----

  const FORTY_DIGITS: string := Repeat('1', 40)

  /** Twenty-two octets of good digits whose DTE is longer than its field. */
  lemma LongDteOverruns(stale: string)
    requires |stale| == 14
    ensures var c := Community(5, NA_X25, [0x47]);
            var p := [0x47] + Pack("0" + FORTY_DIGITS);
            |p| == 22 && Overruns([c], p, stale) && Norm2na([c], p, stale) == OffBuffer
  {
    var c := Community(5, NA_X25, [0x47]);
    var s := "0" + FORTY_DIGITS;
    PackedDigitsReadBack(s);
    var p := [0x47] + Pack(s);
    assert p[..1] == c.prefix && p[1..] == Pack(s);
    assert [c][..0] == [];
    assert Best([c], p) == Some(c);
    DigitsUnlessBad(Pack(s));
    ReadingAlwaysAnswers([c], p, stale);
  }

  /** The 8-octet form of nothing but zeros. */
  lemma ZerosOverrun(table: seq<Community>, stale: string)
    requires |stale| == 14
    ensures Norm2na(table, Pack("36" + Repeat('0', 14)), stale) == OffBuffer
  {
    X121Read(table, [], stale);
    assert Repeat('0', 14) + [] == Repeat('0', 14);
  }
}
