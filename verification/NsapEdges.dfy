/**
 The edges of the codec: which community reads an address, the form that needs none,
 octet strings of any length, and the digits for ports and transport sets.
 */
module NsapEdges {
  import opened Wrappers
  import opened Nsap
  import opened NsapTheorems
  import opened NsapReading

  // ----- The community -----

  /** The octets go on behind the prefix of the community. */
  predicate Heads(c: Community, p: seq<Octet>) {
    |c.prefix| < |p| && forall i :: 0 <= i < |c.prefix| ==> p[i] == c.prefix[i]
  }

  lemma HeadsIs(c: Community, p: seq<Octet>)
    ensures PrefixOf(c, p) <==> Heads(c, p)
  {
    if Heads(c, p) {
      assert p[..|c.prefix|] == c.prefix;
    }
  }

  lemma BestOfMore(table: seq<Community>, p: seq<Octet>)
    requires table != []
    ensures var last, before := table[|table| - 1], Best(table[..|table| - 1], p);
            Best(table, p) == if Heads(last, p) && (before.None? || |before.value.prefix| < |last.prefix|) then Some(last) else before
  {
    HeadsIs(table[|table| - 1], p);
  }

  lemma BestHeads(table: seq<Community>, p: seq<Octet>) returns (i: nat)
    requires Best(table, p).Some?
    ensures i < |table| && Best(table, p) == Some(table[i]) && Heads(table[i], p)
  {
    i :| 0 <= i < |table| && table[i] == Best(table, p).value;
    HeadsIs(table[i], p);
  }

  /** It is the first of those whose prefix is the longest, and there is none only if no prefix fits. */
  lemma {:induction false} FirstLongest(table: seq<Community>, p: seq<Octet>, k: nat)
    requires k < |table| && Heads(table[k], p)
    requires forall i :: 0 <= i < k && Heads(table[i], p) ==> |table[i].prefix| < |table[k].prefix|
    requires forall i :: k < i < |table| && Heads(table[i], p) ==> |table[i].prefix| <= |table[k].prefix|
    ensures Best(table, p) == Some(table[k])
    decreases |table|
  {
    hide Best, Heads, PrefixOf;
    var n := |table| - 1;
    BestOfMore(table, p);
    if k < n {
      FirstLongest(table[..n], p, k);
    } else if Best(table[..n], p).Some? {
      var i := BestHeads(table[..n], p);
    }
  }

  lemma NoneHeads(table: seq<Community>, p: seq<Octet>)
    ensures Best(table, p).None? <==> forall i :: 0 <= i < |table| ==> !Heads(table[i], p)
  {
    forall i | 0 <= i < |table| ensures PrefixOf(table[i], p) <==> Heads(table[i], p) {
      HeadsIs(table[i], p);
    }
    if Best(table, p).Some? {
      HeadsIs(Best(table, p).value, p);
    }
  }

  // ----- Digits -----

  const TEN := "0123456789"

  /** The digits of an octet come before those of the octets behind it, the higher half first; one with a filler has one digit. */
  lemma DigitsOfOctets(o: Octet, rest: seq<Octet>)
    requires o / 16 < 10 && (o % 16 < 10 || o % 16 == 15) && Unpack(rest).Some?
    ensures Unpack([]) == Some("")
    ensures Unpack([o] + rest) ==
            Some((if o % 16 == 15 then [TEN[o / 16]] else [TEN[o / 16], TEN[o % 16]]) + Unpack(rest).value)
  {
    assert ([o] + rest)[1..] == rest;
    DigitIs(o / 16);
    if o % 16 < 10 {
      DigitIs(o % 16);
    }
  }

  lemma DigitIs(d: nat)
    requires d < 10
    ensures DigitChar(d) == TEN[d]
  {
  }

  // ----- Octets of any number -----

  /** The digits written until an octet is bad are those of the octets before it, and its own first one if that is a digit. */
  lemma {:induction false} WrittenExactly(p: seq<Octet>, k: nat)
    requires k <= |p| && (forall i :: 0 <= i < k ==> !BadOctet(p[i])) && (k < |p| ==> BadOctet(p[k]))
    ensures Unpack(p[..k]).Some?
    ensures Written(p) == |Unpack(p[..k]).value| + if k < |p| && p[k] / 16 <= 9 then 1 else 0
    decreases k
  {
    if k == 0 {
      assert p[..0] == [];
    } else {
      WrittenExactly(p[1..], k - 1);
      assert p[..k][1..] == p[1..][..k - 1] && p[..k][0] == p[0];
    }
  }

  /** Eight octets that hold an international X.25 number are read without a community. */
  predicate International(p: seq<Octet>) {
    |p| == 8 && p[0] in {0x36, 0x37}
  }

  /** The number stands behind the zeros of its buffer. */
  predicate BehindZeros(dte: string, buffer: string) {
    && dte != [] && |dte| <= |buffer| && dte[0] != '0' && buffer[|buffer| - |dte|..] == dte
    && forall i :: 0 <= i < |buffer| - |dte| ==> buffer[i] == '0'
  }

  lemma {:induction false} Skipped(s: string) returns (n: nat)
    ensures n <= |s| && SkipZeros(s) == s[n..] && (forall i :: 0 <= i < n ==> s[i] == '0') && (n < |s| ==> s[n] != '0')
  {
    if s == [] || s[0] != '0' {
      n := 0;
    } else {
      var m := Skipped(s[1..]);
      n := m + 1;
      forall i | 0 <= i < n ensures s[i] == '0' {
        assert i > 0 ==> s[i] == s[1..][i - 1];
      }
    }
  }

  lemma SkippedZeros(s: string)
    ensures if AllZeros(s) then SkipZeros(s) == [] else BehindZeros(SkipZeros(s), s)
  {
    hide SkipZeros;
    var n := Skipped(s);
    assert n == |s| ==> AllZeros(s);
  }

  /**
   Such octets give the number that their 14 digits have behind leading zeros; they are
   kept raw if one has a bad semi-octet, and with nothing but zeros leave the buffer.
   */
  lemma InternationalExactly(table: seq<Community>, p: seq<Octet>, stale: string)
    requires International(p) && |stale| == 14
    ensures var r := Norm2na(table, p, stale);
            if HasBadOctet(p[1..]) then r == Read(RawNsap(-1, p))
            else if AllZeros(X121Buffer(p, stale)) then r == OffBuffer
            else r.Read? && r.a.X25? && r.a.community == 1 && r.a.pid == [] && r.a.cudf == []
                 && BehindZeros(r.a.dte, X121Buffer(p, stale))
  {
    hide SkipZeros, Unpack, AllZeros;
    DigitsUnlessBad(p[1..]);
    if !HasBadOctet(p[1..]) {
      SkippedZeros(X121Buffer(p, stale));
    }
  }

  /** What is kept raw, if it fits an address. */
  function KeptRaw(community: int, p: seq<Octet>): Outcome {
    if |p| > 64 then TooLong else Read(RawNsap(community, p))
  }

  /**
   All other octets are for the community to read: raw without one or in one that has no
   syntax, raw with a bad semi-octet or digits that are no address, and otherwise as the
   digits say, unless more are written than their buffer holds or the DTE is too long.
   */
  lemma ByCommunity(table: seq<Community>, p: seq<Octet>, stale: string)
    requires !International(p) && |stale| == 14
    ensures var r, best := Norm2na(table, p, stale), Best(table, p);
            if best.None? then r == KeptRaw(-1, p)
            else
              var c := best.value;
              if c.syntax == NA_NSAP then r == KeptRaw(c.subnet, p)
              else if Written(Behind(c, p)) > 128 then r == OffBuffer
              else if HasBadOctet(Behind(c, p)) || Malformed(c.syntax, DigitsBehind(c, p)) then r == KeptRaw(-1, p)
              else if c.syntax == NA_X25 && |DigitsBehind(c, p)| - Lead(DigitsBehind(c, p)) > 36 then r == OffBuffer
              else r.Read? && ReadDigits(c, DigitsBehind(c, p)) == Some(r.a)
  {
    hide Written, Unpack, ReadX25, ReadTcp, X25Malformed;
    var best := Best(table, p);
    if best.Some? && best.value.syntax != NA_NSAP {
      var c := best.value;
      DigitsUnlessBad(Behind(c, p));
      MalformedIsRefused(c, DigitsBehind(c, p));
      X25ReadExactly(c.subnet, DigitsBehind(c, p));
      OnlyX25HasDte(c, DigitsBehind(c, p));
    }
  }

  /** A PID has at most four octets, call user data as many as one digit counts. */
  lemma PidIsShort(subnet: int, s: string)
    requires AllDigits(s) && |s| >= 2 && s[0] == '1' && s[1] in "56789"
    ensures ReadX25(subnet, s) == None
  {
  }

  lemma OnlyX25HasDte(c: Community, s: string)
    requires AllDigits(s)
    ensures ReadDigits(c, s).Some? ==> (ReadDigits(c, s).value.X25? <==> c.syntax == NA_X25)
  {
  }

  // ----- Ports -----

  /** No digits for no port, five for a port, and five more for a transport set that is neither 0 nor the usual one, 1. */
  lemma PortWidth(port: nat, tset: nat)
    ensures |PortDigits(port, tset)| == if port == 0 then 0 else if tset == 0 || tset == 1 then 5 else 10
  {
    PaddedWidthAny(port, 5);
    PaddedWidthAny(tset, 5);
  }

  lemma {:induction false} PaddedWidthAny(n: nat, width: nat)
    ensures |Padded(n, width)| == width
    decreases width
  {
    if width > 0 {
      PaddedWidthAny(n / 10, width - 1);
    }
  }
}
