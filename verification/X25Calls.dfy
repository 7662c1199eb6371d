/**
 What goes to the X.25 provider and what is made of what comes from it, case by
 case: prefixes, the international zero, packed digits and call user data.
 */
module X25Calls {
  import opened Wrappers
  import opened Nsap
  import opened X25Addr

  const HEX := "0123456789abcdef"

  // ----- Digits -----

  /** A digit in half an octet: decimal and hexadecimal digits as they count, and anything else as 0. */
  lemma HalvesOfDigits(c: char, n: nat)
    requires n < 16
    ensures CharOf(n) == HEX[n] && DigitOf(HEX[n]) == n
    ensures 'A' <= c <= 'F' ==> DigitOf(c) == DigitOf(c - 'A' + 'a')
    ensures c !in HEX && !('A' <= c <= 'F') ==> DigitOf(c) == 0
  {
    if '0' <= c <= '9' {
      assert HEX[c as int - 48] == c;
    } else if 'a' <= c <= 'f' {
      assert HEX[c as int - 97 + 10] == c;
    }
  }

  /** Two digits to an octet, the first in the high half. */
  lemma {:induction false} OctetsOfDigits(s: string, i: nat)
    requires i < |s|
    ensures |Bcd(s)| == (|s| + 1) / 2
    ensures DigitOf(s[i]) == if i % 2 == 0 then Bcd(s)[i / 2] / 16 else Bcd(s)[i / 2] % 16
    ensures i == |s| - 1 && i % 2 == 0 ==> Bcd(s)[i / 2] % 16 == 0
  {
    BcdSize(s);
    BcdHalves(s, i);
    BcdAt(s, i / 2);
  }

  // ----- Prefixes -----

  predicate Begins(d: string, p: string) {
    |p| <= |d| && forall i :: 0 <= i < |p| ==> d[i] == p[i]
  }

  /** One of the other prefixes, none of those up to it being empty, begins the number. */
  predicate Known(t: Tailor, d: string) {
    exists i :: 1 <= i < |t.prefixes| && Begins(d, t.prefixes[i]) && forall j :: 1 <= j <= i ==> t.prefixes[j] != ""
  }

  predicate HasLocal(t: Tailor) {
    |t.prefixes| > 0 && t.prefixes[0] != ""
  }

  lemma BeginsIs(d: string, p: string)
    ensures Begins(d, p) <==> Starts(d, p)
  {
    if Begins(d, p) {
      assert d[..|p|] == p;
    }
  }

  lemma {:induction false} SecondaryIs(ps: seq<string>, d: string)
    ensures Secondary(ps, d) <==>
            exists i :: 0 <= i < |ps| && Begins(d, ps[i]) && forall j :: 0 <= j <= i ==> ps[j] != ""
  {
    if ps != [] && ps[0] != [] {
      BeginsIs(d, ps[0]);
      SecondaryIs(ps[1..], d);
      if Starts(d, ps[0]) {
        assert Begins(d, ps[0]) && forall j :: 0 <= j <= 0 ==> ps[j] != "";
      } else {
        if Secondary(ps[1..], d) {
          var i :| 0 <= i < |ps[1..]| && Begins(d, ps[1..][i]) && forall j :: 0 <= j <= i ==> ps[1..][j] != "";
          assert Begins(d, ps[i + 1]);
          forall j | 0 <= j <= i + 1 ensures ps[j] != "" {
            assert j > 0 ==> ps[j] == ps[1..][j - 1];
          }
        }
        if i :| 0 <= i < |ps| && Begins(d, ps[i]) && forall j :: 0 <= j <= i ==> ps[j] != "" {
          assert i > 0 && Begins(d, ps[1..][i - 1]);
          assert forall j :: 0 <= j <= i - 1 ==> ps[1..][j] == ps[j + 1];
        }
      }
    }
  }

  lemma KnownIs(t: Tailor, d: string)
    requires HasLocal(t)
    ensures Known(t, d) <==> Secondary(t.prefixes[1..], d)
  {
    var ps := t.prefixes[1..];
    SecondaryIs(ps, d);
    if i :| 0 <= i < |ps| && Begins(d, ps[i]) && forall j :: 0 <= j <= i ==> ps[j] != "" {
      assert Begins(d, t.prefixes[i + 1]);
      forall j | 1 <= j <= i + 1 ensures t.prefixes[j] != "" {
        assert t.prefixes[j] == ps[j - 1];
      }
    }
    if i :| 1 <= i < |t.prefixes| && Begins(d, t.prefixes[i]) && forall j :: 1 <= j <= i ==> t.prefixes[j] != "" {
      assert Begins(d, ps[i - 1]);
      assert forall j :: 0 <= j <= i - 1 ==> ps[j] == t.prefixes[j + 1];
    }
  }

  /**
   The digits for the provider: a local number loses its prefix if prefixes are
   stripped, a foreign one that no other prefix begins gets the international zero, and
   every other number stays as it is.
   */
  lemma OutwardExactly(t: Tailor, d: string)
    ensures HasLocal(t) && Begins(d, t.prefixes[0]) && t.strip ==> t.prefixes[0] + Outward(t, d) == d
    ensures HasLocal(t) && !Begins(d, t.prefixes[0]) && !Known(t, d) && t.intlZero ==> Outward(t, d) == "0" + d
    ensures !HasLocal(t) || (if Begins(d, t.prefixes[0]) then !t.strip else Known(t, d) || !t.intlZero) ==> Outward(t, d) == d
  {
    if HasLocal(t) {
      BeginsIs(d, t.prefixes[0]);
      KnownIs(t, d);
    }
  }

  /**
   The number for the digits of the provider: one international zero is taken off, and
   otherwise fewer than twelve digits are taken for a local number if prefixes are stripped.
   */
  lemma InwardExactly(t: Tailor, d: string)
    ensures HasLocal(t) && t.intlZero && |d| > 0 && d[0] == '0' && (|d| > 1 ==> d[1] != '0') ==> "0" + Inward(t, d) == d
    ensures HasLocal(t) && !(t.intlZero && |d| > 0 && d[0] == '0' && (|d| > 1 ==> d[1] != '0')) && t.strip && |d| < 12 ==>
              Inward(t, d) == t.prefixes[0] + d
    ensures !HasLocal(t) ||
            (!(t.intlZero && |d| > 0 && d[0] == '0' && (|d| > 1 ==> d[1] != '0')) && !(t.strip && |d| < 12)) ==>
              Inward(t, d) == d
  {
  }

  // ----- The provider's structure -----

  /** What is passed: the number of digits, the digits, and a PID in four octets before the call user data, of which as much is left out at the end. */
  lemma {:induction false} PassedExactly(t: Tailor, g: Generic)
    ensures Gen2if(t, g).None? <==> |g.pid| > 4
    ensures |g.pid| <= 4 ==>
              var s, d := Gen2if(t, g).value, Outward(t, g.dte);
              && s.hostlen == |d| && s.host == Bcd(d) && |s.data| == |g.pid| + |g.cudf|
              && forall i :: 0 <= i < |s.data| ==>
                   s.data[i] == if g.pid == [] then g.cudf[i]
                                else if i < |g.pid| then g.pid[i] else if i < 4 then 0 else g.cudf[i - 4]
  {
    if |g.pid| <= 4 {
      var all := g.pid + Zeros(4 - |g.pid|) + g.cudf;
      assert g.pid != [] ==> UserData(g.pid, g.cudf) == all[..|g.pid| + |g.cudf|];
    }
  }

  /** What comes: as many digits as it says, and up to four octets of PID. */
  lemma {:induction false} ComesExactly(t: Tailor, s: Specific)
    requires s.hostlen <= 2 * |s.host|
    ensures var g := If2gen(t, s);
            && (exists d: string :: |d| == s.hostlen && g.dte == Inward(t, d) && forall i :: 0 <= i < |d| ==>
                  d[i] == HEX[if i % 2 == 0 then s.host[i / 2] / 16 else s.host[i / 2] % 16])
            && g.pid + g.cudf == s.data && |g.pid| == if |s.data| > 4 then 4 else |s.data|
  {
    var d := Chars(s.host, s.hostlen);
    forall i | 0 <= i < |d| ensures d[i] == HEX[if i % 2 == 0 then s.host[i / 2] / 16 else s.host[i / 2] % 16] {
      CharsAre(s.host, s.hostlen, i);
      HalvesOfDigits('0', HalfAt(s.host, i));
    }
    assert |d| == s.hostlen && If2gen(t, s).dte == Inward(t, d);
  }
}
