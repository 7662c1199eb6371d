/**
 When a TCP or X.25 address survives being normalised and read back, exactly.
 */
module NsapTheorems {
  import opened Wrappers
  import opened Nsap

  /** A digit buffer that held nothing but zeros. */
  function Clean(): (s: string)
    ensures |s| == 14 && forall i :: 0 <= i < 14 ==> s[i] == '0'
  {
    Repeat('0', 14)
  }

  // ----- Digits -----

  lemma DigitOfNibble(c: char)
    requires IsDigit(c)
    ensures DigitChar(Nibble(c)) == c
  {
  }

  lemma {:induction false} PackedDigitsReadBack(s: string)
    requires AllDigits(s)
    ensures Unpack(Pack(s)) == Some(s)
    ensures Written(Pack(s)) == |s|
    ensures |Pack(s)| == (|s| + 1) / 2
  {
    if |s| == 1 {
      assert Pack(s)[1..] == [];
      DigitOfNibble(s[0]);
      assert UnpackOctet(Pack(s)[0]).value == s;
      assert Unpack(Pack(s)) == Some(s + []);
      assert s + [] == s;
    } else if |s| > 1 {
      PackedDigitsReadBack(s[2..]);
      assert Pack(s)[1..] == Pack(s[2..]);
      var o := Pack(s)[0];
      assert o / 16 == Nibble(s[0]) && o % 16 == Nibble(s[1]);
      DigitOfNibble(s[0]);
      DigitOfNibble(s[1]);
      assert UnpackOctet(o).value == s[..2];
      assert s == s[..2] + s[2..];
    }
  }

  lemma {:induction false} PackedSuffixReadsBack(s: string, k: nat)
    requires AllDigits(s) && 2 * k <= |s|
    ensures k <= |Pack(s)| && Unpack(Pack(s)[k..]) == Some(s[2 * k..])
    ensures Written(Pack(s)[k..]) == |s| - 2 * k
    decreases k
  {
    if k == 0 {
      PackedDigitsReadBack(s);
      assert Pack(s)[0..] == Pack(s) && s[0..] == s;
    } else {
      PackedSuffixReadsBack(s[2..], k - 1);
      assert Pack(s)[k..] == Pack(s[2..])[k - 1..];
      assert s[2..][2 * (k - 1)..] == s[2 * k..];
    }
  }

  /** A blank packs like a zero, so a `%014s` that pads with blanks encodes the same octets. */
  lemma {:induction false} BlankPadsLikeZero(s: string, width: nat)
    requires AllDigits(s)
    ensures Pack("36" + PadLeft(s, width, ' ')) == Pack("36" + PadLeft(s, width, '0'))
  {
    PadLeftIs(s, width, ' ');
    PadLeftIs(s, width, '0');
    SameNibblesPackAlike("36" + PadLeft(s, width, ' '), "36" + PadLeft(s, width, '0'));
  }

  lemma {:induction false} SameNibblesPackAlike(s: string, t: string)
    requires |s| == |t| && forall i :: 0 <= i < |s| ==> Nibble(s[i]) == Nibble(t[i])
    ensures Pack(s) == Pack(t)
  {
    if |s| > 1 {
      SameNibblesPackAlike(s[2..], t[2..]);
    }
  }

  function Repeat(c: char, n: nat): (s: string)
    ensures |s| == n && forall i :: 0 <= i < n ==> s[i] == c
  {
    seq(n, _ => c)
  }

  lemma {:induction false} PadLeftIs(s: string, width: nat, pad: char)
    ensures PadLeft(s, width, pad) == Repeat(pad, if |s| < width then width - |s| else 0) + s
    decreases width - |s|
  {
    if |s| < width {
      PadLeftIs([pad] + s, width, pad);
      assert Repeat(pad, width - |s|) == Repeat(pad, width - |s| - 1) + [pad];
      assert Repeat(pad, width - |s| - 1) + ([pad] + s) == Repeat(pad, width - |s|) + s;
    }
  }

  function Pow10(n: nat): nat {
    if n == 0 then 1 else 10 * Pow10(n - 1)
  }

  lemma {:induction false} PaddedReadsBack(n: nat, width: nat)
    requires n < Pow10(width)
    ensures |Padded(n, width)| == width && AllDigits(Padded(n, width)) && Value(Padded(n, width)) == n
    decreases width
  {
    if width > 0 {
      PaddedReadsBack(n / 10, width - 1);
      var s := Padded(n, width);
      assert s[..|s| - 1] == Padded(n / 10, width - 1);
    }
  }

  lemma Padded3(n: Octet)
    ensures |Padded(n, 3)| == 3 && AllDigits(Padded(n, 3)) && Value(Padded(n, 3)) == n
  {
    assert Pow10(3) == 1000;
    PaddedReadsBack(n, 3);
  }

  lemma Padded5(n: nat)
    requires n < 0x10000
    ensures |Padded(n, 5)| == 5 && AllDigits(Padded(n, 5)) && Value(Padded(n, 5)) == n
  {
    assert Pow10(5) == 100000;
    PaddedReadsBack(n, 5);
  }

  // ----- TCP -----

  lemma QuadRead(q: seq<Octet>)
    requires |q| == 4
    ensures var s := QuadDigits(q);
            && |s| == 12 && AllDigits(s)
            && Value(s[..3]) == q[0] && Value(s[3..6]) == q[1] && Value(s[6..9]) == q[2] && Value(s[9..12]) == q[3]
  {
    Padded3(q[0]); Padded3(q[1]); Padded3(q[2]); Padded3(q[3]);
    var s := QuadDigits(q);
    assert s[..3] == Padded(q[0], 3) && s[3..6] == Padded(q[1], 3) && s[6..9] == Padded(q[2], 3) && s[9..12] == Padded(q[3], 3);
  }

  lemma TailRead(port: nat, tset: nat)
    requires port < 0x10000 && tset < 0x10000
    ensures var t := PortDigits(port, tset);
            && AllDigits(t) && (|t| == 0 <==> port == 0)
            && (|t| == 0 || |t| == 5 || |t| == 10)
            && (|t| >= 5 ==> Value(t[..5]) == port)
            && (|t| == 10 ==> Value(t[5..10]) == tset)
            && (|t| == 10 <==> port != 0 && tset != 0 && tset != NA_TSET_TCP)
  {
    Padded5(port); Padded5(tset);
    var t := PortDigits(port, tset);
    if port != 0 {
      assert t[..5] == Padded(port, 5);
      if tset != 0 && tset != NA_TSET_TCP {
        assert t[5..10] == Padded(tset, 5);
      }
    }
  }

  /** The fields of a run of TCP digits. */
  predicate TcpFields(s: string, q: seq<nat>, port: nat, tset: nat) {
    && |q| == 4 && AllDigits(s) && |s| >= 12
    && Value(s[..3]) == q[0] && Value(s[3..6]) == q[1] && Value(s[6..9]) == q[2] && Value(s[9..12]) == q[3]
    && (|s| == 12 || |s| == 17 || |s| == 22)
    && (|s| >= 17 ==> Value(s[12..17]) == port < 0x10000)
    && (|s| == 22 ==> Value(s[17..22]) == tset < 0x10000)
  }

  lemma TcpFieldsRead(subnet: int, s: string, q: seq<nat>, port: nat, tset: nat)
    requires TcpFields(s, q, port, tset)
    ensures ReadTcp(subnet, s)
            == Some(Tcp(subnet, Dotted(q), if |s| >= 17 then port else 0, if |s| == 22 then tset else 0))
  {
    assert [Value(s[..3]), Value(s[3..6]), Value(s[6..9]), Value(s[9..12])] == q;
  }

  lemma TcpDigitsHaveFields(q: seq<Octet>, port: nat, tset: nat)
    requires |q| == 4 && port < 0x10000 && tset < 0x10000
    ensures var s := TcpDigits(q, port, tset);
            && TcpFields(s, q, port, tset)
            && (|s| == 12 <==> port == 0)
            && (|s| == 22 <==> port != 0 && tset != 0 && tset != NA_TSET_TCP)
  {
    var a, t := QuadDigits(q), PortDigits(port, tset);
    QuadRead(q);
    TailRead(port, tset);
    SliceLeft(a, t, 0, 3); SliceLeft(a, t, 3, 6); SliceLeft(a, t, 6, 9); SliceLeft(a, t, 9, 12);
    if |t| >= 5 {
      SliceRight(a, t, 0, 5);
    }
    if |t| == 10 {
      SliceRight(a, t, 5, 10);
    }
  }

  lemma SliceLeft(a: string, b: string, i: nat, j: nat)
    requires i <= j <= |a|
    ensures (a + b)[i..j] == a[i..j]
  {
  }

  lemma SliceRight(a: string, b: string, i: nat, j: nat)
    requires i <= j <= |b|
    ensures (a + b)[|a| + i..|a| + j] == b[i..j]
  {
  }

  lemma TcpDigitsRead(subnet: int, q: seq<Octet>, port: nat, tset: nat)
    requires |q| == 4 && port < 0x10000 && tset < 0x10000
    ensures AllDigits(TcpDigits(q, port, tset)) && 12 <= |TcpDigits(q, port, tset)| <= 22
    ensures ReadTcp(subnet, TcpDigits(q, port, tset))
            == Some(Tcp(subnet, Dotted(q), port, if port != 0 && tset != NA_TSET_TCP then tset else 0))
  {
    TcpDigitsHaveFields(q, port, tset);
    TcpFieldsRead(subnet, TcpDigits(q, port, tset), q, port, tset);
  }

  predicate UniqueSubnets(table: seq<Community>) {
    forall i, j :: 0 <= i < j < |table| ==> table[i].subnet != table[j].subnet
  }

  /** Reading back gives `a`, whatever the digit buffer held before. */
  ghost predicate RoundTrips(table: seq<Community>, resolve: Resolver, a: Address) {
    var p := Na2norm(table, resolve, a);
    p.Some? && forall stale: string :: |stale| == 14 ==> Norm2na(table, p.value, stale) == Read(a)
  }

  /** The octets are read as digits of community `c`. */
  predicate BelongsTo(table: seq<Community>, c: Community, p: seq<Octet>) {
    !LooksLikeX121(p) && Best(table, p) == Some(c)
  }

  lemma OwnDigitsRead(table: seq<Community>, c: Community, s: string, stale: string)
    requires AllDigits(s) && |s| <= 2 * NASIZE && |stale| == 14
    requires c.syntax != NA_NSAP && BelongsTo(table, c, c.prefix + Pack(s))
    ensures var a := ReadDigits(c, s);
            Norm2na(table, c.prefix + Pack(s), stale)
            == if a.None? then Raw(SUBNET_REALNS, c.prefix + Pack(s))
               else if a.value.X25? && |a.value.dte| > NSAP_DTELEN then OffBuffer else Read(a.value)
  {
    PackedDigitsReadBack(s);
    assert (c.prefix + Pack(s))[|c.prefix|..] == Pack(s);
  }

  /** A structured answer names the community it was read with. */
  lemma StructuredNamesItsCommunity(table: seq<Community>, p: seq<Octet>, stale: string)
    requires |stale| == 14 && Norm2na(table, p, stale).Read? && !Norm2na(table, p, stale).a.RawNsap?
    requires !LooksLikeX121(p)
    ensures Best(table, p).Some?
    ensures var a := Norm2na(table, p, stale).a;
            var c := Best(table, p).value;
            && a.community == c.subnet
            && (a.Tcp? ==> c.syntax == NA_TCP) && (a.X25? ==> c.syntax == NA_X25)
            && (a.Tcp? || a.X25?)
  {
  }

  lemma SubnetDecides(table: seq<Community>, c: Community, d: Community)
    requires UniqueSubnets(table) && c in table && d in table && c.subnet == d.subnet
    ensures c == d
  {
  }

  /** The transport set is carried: there is none, or it comes with a port and is not the default. */
  predicate CarriesTset(port: nat, tset: nat) {
    tset == 0 || (port != 0 && tset != NA_TSET_TCP)
  }

  /**
   A TCP address survives exactly when its domain is the dotted form of the host
   it resolves to, its transport set is carried, and its octets are read with its
   own TCP community.
   */
  lemma TcpRoundTripsExactly(table: seq<Community>, resolve: Resolver, a: Address)
    requires a.Tcp? && Fits(a) && UniqueSubnets(table)
    ensures RoundTrips(table, resolve, a) <==>
              var ts, q := FindSubnet(table, a.community), resolve(a.domain);
              && ts.Some? && ts.value.syntax == NA_TCP
              && q.Some? && |q.value| == 4 && a.domain == Dotted(q.value)
              && CarriesTset(a.port, a.tset)
              && BelongsTo(table, ts.value, ts.value.prefix + Pack(TcpDigits(q.value, a.port, a.tset)))
  {
    var ts, q := FindSubnet(table, a.community), resolve(a.domain);
    if ts.Some? && q.Some? && |q.value| == 4 {
      TcpRoundTripsWith(table, resolve, a, ts.value, q.value);
    }
  }

  lemma TcpRoundTripsWith(table: seq<Community>, resolve: Resolver, a: Address, c: Community, q: seq<Octet>)
    requires a.Tcp? && Fits(a) && UniqueSubnets(table)
    requires FindSubnet(table, a.community) == Some(c) && resolve(a.domain) == Some(q) && |q| == 4
    ensures RoundTrips(table, resolve, a) <==>
              && c.syntax == NA_TCP && a.domain == Dotted(q) && CarriesTset(a.port, a.tset)
              && BelongsTo(table, c, c.prefix + Pack(TcpDigits(q, a.port, a.tset)))
  {
    var p := c.prefix + Pack(TcpDigits(q, a.port, a.tset));
    var back := Tcp(a.community, Dotted(q), a.port, if a.port != 0 && a.tset != NA_TSET_TCP then a.tset else 0);
    var own := BelongsTo(table, c, p) && c.syntax == NA_TCP;
    if Norm2na(table, p, Clean()) == Read(a) {
      TcpAnswerIsOwn(table, c, p, a);
    }
    if own {
      OwnTcpAlwaysRead(table, c, q, a.port, a.tset);
    }
    RoundTripsWhenOwn(table, resolve, a, p, back, own);
  }

  lemma RoundTripsWhenOwn(table: seq<Community>, resolve: Resolver, a: Address, p: seq<Octet>, back: Address, own: bool)
    requires Na2norm(table, resolve, a) == Some(p)
    requires Norm2na(table, p, Clean()) == Read(a) ==> own
    requires own ==> forall stale: string :: |stale| == 14 ==> Norm2na(table, p, stale) == Read(back)
    ensures RoundTrips(table, resolve, a) <==> own && back == a
  {
    if own {
      assert Norm2na(table, p, Clean()) == Read(back);
    }
  }

  lemma OwnTcpRead(table: seq<Community>, c: Community, q: seq<Octet>, port: nat, tset: nat, stale: string)
    requires |q| == 4 && port < 0x10000 && tset < 0x10000 && |stale| == 14 && c.syntax == NA_TCP
    requires BelongsTo(table, c, c.prefix + Pack(TcpDigits(q, port, tset)))
    ensures Norm2na(table, c.prefix + Pack(TcpDigits(q, port, tset)), stale)
            == Read(Tcp(c.subnet, Dotted(q), port, if port != 0 && tset != NA_TSET_TCP then tset else 0))
  {
    TcpDigitsRead(c.subnet, q, port, tset);
    OwnDigitsRead(table, c, TcpDigits(q, port, tset), stale);
  }

  lemma OwnTcpAlwaysRead(table: seq<Community>, c: Community, q: seq<Octet>, port: nat, tset: nat)
    requires |q| == 4 && port < 0x10000 && tset < 0x10000 && c.syntax == NA_TCP
    requires BelongsTo(table, c, c.prefix + Pack(TcpDigits(q, port, tset)))
    ensures forall stale: string :: |stale| == 14 ==>
              Norm2na(table, c.prefix + Pack(TcpDigits(q, port, tset)), stale)
              == Read(Tcp(c.subnet, Dotted(q), port, if port != 0 && tset != NA_TSET_TCP then tset else 0))
  {
    forall stale: string | |stale| == 14
      ensures Norm2na(table, c.prefix + Pack(TcpDigits(q, port, tset)), stale)
              == Read(Tcp(c.subnet, Dotted(q), port, if port != 0 && tset != NA_TSET_TCP then tset else 0))
    {
      OwnTcpRead(table, c, q, port, tset, stale);
    }
  }

  lemma TcpAnswerIsOwn(table: seq<Community>, c: Community, p: seq<Octet>, a: Address)
    requires UniqueSubnets(table) && c in table && c.subnet == a.community && a.Tcp?
    requires Norm2na(table, p, Clean()) == Read(a)
    ensures BelongsTo(table, c, p) && c.syntax == NA_TCP
  {
    StructuredNamesItsCommunity(table, p, Clean());
    SubnetDecides(table, Best(table, p).value, c);
  }

  // ----- X.25 -----

  /** Three digits more in front. */
  lemma OneMoreOctet(o: Octet, first: string, s: string, tail: seq<Octet>)
    requires |first| == 3 && AllDigits(first) && Value(first) == o
    requires AllDigits(s) && 3 * |tail| <= |s| && ReadOctets(s, |tail|) == Some(tail)
    ensures AllDigits(first + s) && ReadOctets(first + s, |tail| + 1) == Some([o] + tail)
  {
    assert (first + s)[..3] == first && (first + s)[3..] == s;
  }

  lemma {:induction false} OctetDigitsRead(data: seq<Octet>, rest: string)
    requires AllDigits(rest)
    ensures |OctetDigits(data)| == 3 * |data| && AllDigits(OctetDigits(data) + rest)
    ensures ReadOctets(OctetDigits(data) + rest, |data|) == Some(data)
  {
    if data == [] {
      assert OctetDigits(data) + rest == rest;
    } else {
      var first, more := Padded(data[0], 3), OctetDigits(data[1..]);
      OctetDigitsRead(data[1..], rest);
      Padded3(data[0]);
      OneMoreOctet(data[0], first, more + rest, data[1..]);
      Regroup(first, more, rest);
      assert [data[0]] + data[1..] == data;
    }
  }

  lemma Regroup(a: string, b: string, c: string)
    ensures (a + b) + c == a + (b + c)
  {
  }

  lemma ReadCounted(subnet: int, s: string, data: seq<Octet>, dte: string)
    requires AllDigits(s) && |s| == 2 + 3 * |data| + |dte| && Nibble(s[1]) == |data|
    requires s[0] == '1' || s[0] == '2'
    requires s[0] == '1' ==> |data| <= NPSIZE
    requires ReadOctets(s[2..], |data|) == Some(data) && s[2 + 3 * |data|..] == dte
    ensures ReadX25(subnet, s) == Some(if s[0] == '1' then X25(subnet, dte, data, []) else X25(subnet, dte, [], data))
  {
  }

  lemma {:induction false} CountedShape(kind: char, data: seq<Octet>, dte: string)
    requires |data| <= 9
    ensures Counted(kind, data) + dte == [kind, DigitChar(|data|)] + (OctetDigits(data) + dte)
  {
    OneDigit(|data|);
    CountedParts(kind, DigitChar(|data|), OctetDigits(data), dte);
  }

  lemma CountedParts(kind: char, digit: char, octets: string, dte: string)
    ensures (([kind] + [digit]) + octets) + dte == [kind, digit] + (octets + dte)
  {
  }

  lemma DropHead(head: string, digits: string, dte: string)
    ensures (head + (digits + dte))[|head|..] == digits + dte
    ensures (head + (digits + dte))[|head| + |digits|..] == dte
  {
  }

  /** One digit of length and three digits an octet carry up to nine octets. */
  lemma CountedOctetsRead(subnet: int, kind: char, data: seq<Octet>, dte: string)
    requires AllDigits(dte) && |data| <= 9 && (kind == '1' || kind == '2') && (kind == '1' ==> |data| <= NPSIZE)
    ensures var s := Counted(kind, data) + dte;
            && AllDigits(s) && |s| == 2 + 3 * |data| + |dte| && s[0] == kind
            && ReadX25(subnet, s) == Some(if kind == '1' then X25(subnet, dte, data, []) else X25(subnet, dte, [], data))
  {
    OctetDigitsRead(data, dte);
    CountedShape(kind, data, dte);
    var head, digits := [kind, DigitChar(|data|)], OctetDigits(data);
    DropHead(head, digits, dte);
    ReadCounted(subnet, head + (digits + dte), data, dte);
  }

  lemma OneDigit(n: nat)
    requires n < 10
    ensures Decimal(n) == [DigitChar(n)]
  {
  }

  /** What a DTE with a PID or a CUDF is read back as: the PID hides the CUDF. */
  lemma X25DigitsRead(subnet: int, dte: string, pid: seq<Octet>, cudf: seq<Octet>)
    requires AllDigits(dte) && |pid| <= NPSIZE && |cudf| <= 9
    ensures var s := X25Digits(dte, pid, cudf);
            && AllDigits(s) && 0 < |s| <= 29 + |dte|
            && ReadX25(subnet, s) == Some(X25(subnet, dte, pid, if pid == [] then cudf else []))
  {
    if pid != [] {
      CountedOctetsRead(subnet, '1', pid, dte);
    } else if cudf != [] {
      CountedOctetsRead(subnet, '2', cudf, dte);
    } else {
      assert ("0" + dte)[1..] == dte;
    }
  }

  lemma {:induction false} ReadOctetsLength(s: string, n: nat)
    requires AllDigits(s) && 3 * n <= |s|
    ensures ReadOctets(s, n).Some? ==> |ReadOctets(s, n).value| == n
    decreases n
  {
    if n > 0 {
      ReadOctetsLength(s[3..], n - 1);
    }
  }

  /** Whatever X.25 address is read has digits for a DTE, fewer than were there, and not both PID and CUDF. */
  lemma ReadX25Shape(subnet: int, s: string)
    requires AllDigits(s) && ReadX25(subnet, s).Some?
    ensures var a := ReadX25(subnet, s).value;
            a.X25? && AllDigits(a.dte) && |a.dte| < |s| && (a.pid == [] || a.cudf == []) && |a.cudf| <= 9
            && (s[0] == '0' || s[0] == '1' || s[0] == '2')
  {
    if s[0] != '0' {
      ReadOctetsLength(s[2..], Nibble(s[1]));
    }
  }

  lemma {:induction false} SkipZerosShape(s: string)
    ensures |SkipZeros(s)| <= |s| && SkipZeros(s) == s[|s| - |SkipZeros(s)|..]
    ensures SkipZeros(s) == [] || SkipZeros(s)[0] != '0'
    ensures SkipZeros(s) == [] <==> forall i :: 0 <= i < |s| ==> s[i] == '0'
  {
    if s != [] && s[0] == '0' {
      SkipZerosShape(s[1..]);
      assert forall i :: 0 < i < |s| ==> s[i] == s[1..][i - 1];
    }
  }

  lemma {:induction false} SkipZerosDropsPadding(n: nat, s: string)
    requires s != [] && s[0] != '0'
    ensures SkipZeros(Repeat('0', n) + s) == s
  {
    var t := Repeat('0', n) + s;
    if n == 0 {
      assert t == s;
    } else {
      SkipZerosDropsPadding(n - 1, s);
      assert t[1..] == Repeat('0', n - 1) + s;
    }
  }

  lemma X25AnswerComesFromDigits(table: seq<Community>, p: seq<Octet>, stale: string)
    requires |stale| == 14 && !LooksLikeX121(p)
    requires Norm2na(table, p, stale).Read? && Norm2na(table, p, stale).a.X25?
    ensures Best(table, p).Some?
    ensures var c := Best(table, p).value;
            var digits := Unpack(p[|c.prefix|..]);
            digits.Some? && AllDigits(digits.value)
            && ReadX25(c.subnet, digits.value) == Some(Norm2na(table, p, stale).a)
  {
    UnpackGivesDigits(p[|Best(table, p).value.prefix|..]);
  }

  lemma X121Shape(digits: string, stale: string)
    requires AllDigits(digits) && |digits| <= 14 && stale == Clean()
    ensures var dte := SkipZeros(digits + stale[|digits|..]);
            AllDigits(dte) && |dte| <= 14 && (dte == [] || dte[0] != '0')
  {
    var all := digits + stale[|digits|..];
    assert AllDigits(all) && |all| == 14;
    SkipZerosShape(all);
  }

  /** What an X.25 answer looks like when the digit buffer was clean. */
  lemma X25AnswerShape(table: seq<Community>, p: seq<Octet>)
    requires Norm2na(table, p, Clean()).Read? && Norm2na(table, p, Clean()).a.X25?
    ensures var a := Norm2na(table, p, Clean()).a;
            && AllDigits(a.dte) && (a.pid == [] || a.cudf == []) && |a.cudf| <= 9
            && (LooksLikeX121(p) ==> UsesX121(a) && 1 <= |a.dte| <= 14)
  {
    var stale := Clean();
    if LooksLikeX121(p) {
      UnpackGivesDigits(p[1..]);
      var digits := Unpack(p[1..]).value;
      X121Shape(digits, stale);
    } else {
      var rest := p[|Best(table, p).value.prefix|..];
      UnpackGivesDigits(rest);
      ReadX25Shape(Best(table, p).value.subnet, Unpack(rest).value);
    }
  }

  /** The octets of a DTE of at most 14 digits, and the digits read from them. */
  lemma X121Octets(dte: string)
    requires AllDigits(dte) && |dte| <= 14
    ensures var s := Repeat('0', 14 - |dte|) + dte; var p := Pack("36" + s);
            |s| == 14 && AllDigits(s) && LooksLikeX121(p) && Unpack(p[1..]) == Some(s)
  {
    var s := Repeat('0', 14 - |dte|) + dte;
    PackedSuffixReadsBack("36" + s, 1);
    PackedDigitsReadBack("36" + s);
    assert ("36" + s)[2..] == s;
  }

  lemma X121Of(table: seq<Community>, p: seq<Octet>, s: string, stale: string)
    requires LooksLikeX121(p) && Unpack(p[1..]) == Some(s) && |s| == |stale| == 14
    ensures Norm2na(table, p, stale) ==
            if SkipZeros(s) == [] then OffBuffer else Read(X25(SUBNET_INT_X25, SkipZeros(s), [], []))
  {
    assert s + stale[14..] == s;
  }

  lemma X121Padding(dte: string)
    requires |dte| <= 14 && (dte == [] || dte[0] != '0')
    ensures SkipZeros(Repeat('0', 14 - |dte|) + dte) == dte
  {
    if dte == [] {
      SkipZerosShape(Repeat('0', 14 - |dte|) + dte);
    } else {
      SkipZerosDropsPadding(14 - |dte|, dte);
    }
  }

  lemma X121Read(table: seq<Community>, dte: string, stale: string)
    requires AllDigits(dte) && |dte| <= 14 && (dte == [] || dte[0] != '0') && |stale| == 14
    ensures Norm2na(table, Pack("36" + (Repeat('0', 14 - |dte|) + dte)), stale) ==
            if dte == [] then OffBuffer else Read(X25(SUBNET_INT_X25, dte, [], []))
  {
    var s := Repeat('0', 14 - |dte|) + dte;
    X121Octets(dte);
    X121Of(table, Pack("36" + s), s, stale);
    X121Padding(dte);
  }

  /** With no PID, no CUDF and a DTE not starting with 0, the international subnet carries exactly 1 to 14 digits. */
  lemma X121RoundTripsExactly(table: seq<Community>, resolve: Resolver, a: Address)
    requires UsesX121(a) && Fits(a) && FindSubnet(table, a.community).Some?
    ensures RoundTrips(table, resolve, a) <==> AllDigits(a.dte) && 1 <= |a.dte| <= 14
  {
    var clean := Clean();
    var p := Pack("36" + PadLeft(a.dte, 14, '0'));
    assert Na2norm(table, resolve, a) == Some(p);
    PadLeftIs(a.dte, 14, '0');
    if AllDigits(a.dte) && |a.dte| <= 14 {
      X121Read(table, a.dte, clean);
      forall stale: string | |stale| == 14 && a.dte != [] ensures Norm2na(table, p, stale) == Read(a) {
        X121Read(table, a.dte, stale);
      }
    } else if AllDigits(a.dte) {
      LongX121Fails(table, a.dte, clean);
    }
    if Norm2na(table, p, clean) == Read(a) {
      X25AnswerShape(table, p);
    }
  }

  lemma LongX121Fails(table: seq<Community>, dte: string, stale: string)
    requires AllDigits(dte) && |dte| > 14 && |stale| == 14
    ensures Norm2na(table, Pack("36" + dte), stale) != Read(X25(SUBNET_INT_X25, dte, [], []))
  {
    var s := "36" + dte;
    PackedDigitsReadBack(s);
    assert !LooksLikeX121(Pack(s));
    if Norm2na(table, Pack(s), stale) == Read(X25(SUBNET_INT_X25, dte, [], [])) {
      X25AnswerComesFromDigits(table, Pack(s), stale);
      var best := Best(table, Pack(s)).value;
      if 2 * |best.prefix| <= |s| {
        PackedSuffixReadsBack(s, |best.prefix|);
        LongX121Digits(best.subnet, dte, |best.prefix|);
      }
    }
  }

  lemma LongX121Digits(subnet: int, dte: string, k: nat)
    requires AllDigits(dte) && 2 * k <= |dte| + 2
    ensures var s := ("36" + dte)[2 * k..];
            AllDigits(s) && (ReadX25(subnet, s).Some? ==> ReadX25(subnet, s).value.X25? && ReadX25(subnet, s).value.dte != dte)
  {
    var s := ("36" + dte)[2 * k..];
    if ReadX25(subnet, s).Some? {
      ReadX25Shape(subnet, s);
    }
  }

  /**
   Any other X.25 address survives exactly when its DTE is digits, it has at most
   one of PID and CUDF, the CUDF has at most nine octets, and its octets are read
   with its own X.25 community.
   */
  lemma X25RoundTripsExactly(table: seq<Community>, resolve: Resolver, a: Address)
    requires a.X25? && !UsesX121(a) && Fits(a) && UniqueSubnets(table)
    ensures RoundTrips(table, resolve, a) <==>
              var ts := FindSubnet(table, a.community);
              && ts.Some? && ts.value.syntax == NA_X25
              && AllDigits(a.dte) && (a.pid == [] || a.cudf == []) && |a.cudf| <= 9
              && BelongsTo(table, ts.value, ts.value.prefix + Pack(X25Digits(a.dte, a.pid, a.cudf)))
  {
    var ts := FindSubnet(table, a.community);
    if ts.Some? {
      var s := X25Digits(a.dte, a.pid, a.cudf);
      var p := ts.value.prefix + Pack(s);
      var clean := Clean();
      assert Na2norm(table, resolve, a) == Some(p);
      if Norm2na(table, p, clean) == Read(a) {
        X25AnswerShape(table, p);
        StructuredNamesItsCommunity(table, p, clean);
        SubnetDecides(table, Best(table, p).value, ts.value);
      }
      if AllDigits(a.dte) && |a.cudf| <= 9 && BelongsTo(table, ts.value, p) && ts.value.syntax == NA_X25 {
        X25DigitsRead(a.community, a.dte, a.pid, a.cudf);
        forall stale: string | |stale| == 14
          ensures Norm2na(table, p, stale) == Read(X25(a.community, a.dte, a.pid, if a.pid == [] then a.cudf else []))
        {
          OwnDigitsRead(table, ts.value, s, stale);
        }
      }
      assert |clean| == 14;
    }
  }
}
