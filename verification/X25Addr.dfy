/**
 DTE translation, compat/x25addr.c as compiled for the Sun provider, with
 compat/char2bcd.c and compat/bcd2char.c: `gen2if` strips a local prefix or adds
 the international zero and packs the digits, `if2gen` undoes it.  It does so for
 some numbers only; here is exactly for which.
 */
module X25Addr {
  import opened Wrappers
  import opened Nsap

  /** What isotailor configures: `prefixes[0]` is the local one. */
  datatype Tailor = Tailor(prefixes: seq<string>, strip: bool, intlZero: bool)

  datatype Generic = Generic(dte: string, pid: seq<Octet>, cudf: seq<Octet>)

  /** The provider's structure: packed digits and their number, and call user data. */
  datatype Specific = Specific(hostlen: nat, host: seq<Octet>, data: seq<Octet>)

  // ----- Packed digits -----

  function DigitOf(c: char): (n: nat)
    ensures n < 16
  {
    if 'a' <= c <= 'f' then c as int - 'a' as int + 10
    else if 'A' <= c <= 'F' then c as int - 'A' as int + 10
    else if '0' <= c <= '9' then c as int - '0' as int
    else 0
  }

  function CharOf(g: nat): char
    requires g < 16
  {
    if g < 10 then '0' + g as char else 'a' + (g - 10) as char
  }

  /** `char2bcd`: two to an octet, the first in the high half; a last odd one leaves the low half empty. */
  function Bcd(s: string): seq<Octet> {
    if s == [] then []
    else if |s| == 1 then [DigitOf(s[0]) * 16]
    else [DigitOf(s[0]) * 16 + DigitOf(s[1])] + Bcd(s[2..])
  }

  /** Half an octet. */
  function HalfAt(b: seq<Octet>, i: nat): (g: nat)
    requires i / 2 < |b|
    ensures g < 16
  {
    if i % 2 == 0 then b[i / 2] / 16 else b[i / 2] % 16
  }

  /** `bcd2char` */
  function Chars(b: seq<Octet>, len: nat): (s: string)
    requires len <= 2 * |b|
    ensures |s| == len
  {
    if len == 0 then [] else Chars(b, len - 1) + [CharOf(HalfAt(b, len - 1))]
  }

  lemma {:induction false} BcdSize(s: string)
    ensures |Bcd(s)| == (|s| + 1) / 2
    decreases |s|
  {
    if |s| > 1 {
      BcdSize(s[2..]);
    }
  }

  lemma {:induction false} BcdHalves(s: string, i: nat)
    requires i < |s|
    ensures i / 2 < |Bcd(s)| && HalfAt(Bcd(s), i) == DigitOf(s[i])
    decreases |s|
  {
    BcdSize(s);
    if i >= 2 {
      BcdSize(s[2..]);
      BcdHalves(s[2..], i - 2);
      assert Bcd(s)[i / 2] == Bcd(s[2..])[(i - 2) / 2];
    }
  }

  lemma {:induction false} CharsAre(b: seq<Octet>, len: nat, i: nat)
    requires i < len <= 2 * |b|
    ensures Chars(b, len)[i] == CharOf(HalfAt(b, i))
  {
    if i < len - 1 {
      CharsAre(b, len - 1, i);
    }
  }

  /** Packing keeps digits, whether their number is even or odd. */
  lemma {:induction false} PackedDigitsReadBack(s: string)
    requires AllDigits(s)
    ensures |s| <= 2 * |Bcd(s)| && Chars(Bcd(s), |s|) == s
  {
    BcdSize(s);
    forall i | 0 <= i < |s| ensures Chars(Bcd(s), |s|)[i] == s[i] {
      BcdHalves(s, i);
      CharsAre(Bcd(s), |s|, i);
      assert IsDigit(s[i]);
    }
  }

  // ----- gen2if and if2gen -----

  predicate Starts(d: string, p: string) {
    |p| <= |d| && d[..|p|] == p
  }

  predicate Local(t: Tailor) {
    t.prefixes != [] && t.prefixes[0] != []
  }

  /** The number belongs to one of the other prefixes; the list ends at an empty one. */
  function Secondary(ps: seq<string>, d: string): bool {
    ps != [] && ps[0] != [] && (Starts(d, ps[0]) || Secondary(ps[1..], d))
  }

  /** The digits `gen2if` passes to the provider. */
  function Outward(t: Tailor, d: string): string {
    if !Local(t) then d
    else if Starts(d, t.prefixes[0]) then (if t.strip then d[|t.prefixes[0]|..] else d)
    else if !Secondary(t.prefixes[1..], d) && t.intlZero then ['0'] + d
    else d
  }

  /** One leading zero, and no second. */
  predicate SingleZero(d: string) {
    d != [] && d[0] == '0' && (|d| == 1 || d[1] != '0')
  }

  const LOCALCALL := 12

  /** The number `if2gen` makes of the provider's digits. */
  function Inward(t: Tailor, d: string): string {
    if !Local(t) then d
    else if t.intlZero && SingleZero(d) then d[1..]
    else if t.strip && |d| < LOCALCALL then t.prefixes[0] + d
    else d
  }

  /** Call user data: a PID is padded to its place before the rest. */
  function UserData(pid: seq<Octet>, cudf: seq<Octet>): (data: seq<Octet>)
    requires |pid| <= NPSIZE
    ensures |data| == |pid| + |cudf|
  {
    if pid == [] then cudf else (pid + Zeros(NPSIZE - |pid|) + cudf)[..|pid| + |cudf|]
  }

  function Zeros(n: nat): (z: seq<Octet>)
    ensures |z| == n && forall i :: 0 <= i < n ==> z[i] == 0
  {
    if n == 0 then [] else Zeros(n - 1) + [0]
  }

  function Gen2if(t: Tailor, g: Generic): Option<Specific> {
    if |g.pid| > NPSIZE then None
    else
      var d := Outward(t, g.dte);
      Some(Specific(|d|, Bcd(d), UserData(g.pid, g.cudf)))
  }

  function If2gen(t: Tailor, s: Specific): Generic
    requires s.hostlen <= 2 * |s.host|
  {
    var d := Inward(t, Chars(s.host, s.hostlen));
    if |s.data| > NPSIZE then Generic(d, s.data[..NPSIZE], s.data[NPSIZE..]) else Generic(d, s.data, [])
  }

  // ----- When a number survives -----

  /** The numbers that come back: a question about the prefixes, two digits and a length. */
  predicate Survives(t: Tailor, d: string) {
    if !Local(t) then true
    else if Starts(d, t.prefixes[0]) then
      var rest := d[|t.prefixes[0]|..];
      if t.strip then |rest| < LOCALCALL && !(t.intlZero && SingleZero(rest))
      else !(t.intlZero && SingleZero(d))
    else if !Secondary(t.prefixes[1..], d) && t.intlZero then d == [] || d[0] != '0'
    else !(t.intlZero && SingleZero(d)) && !(t.strip && |d| < LOCALCALL)
  }

  lemma ThereAndBack(t: Tailor, d: string)
    ensures Inward(t, Outward(t, d)) == d <==> Survives(t, d)
  {
    if Local(t) {
      var p := t.prefixes[0];
      if Starts(d, p) {
        assert d == p + d[|p|..];
      } else if !Secondary(t.prefixes[1..], d) && t.intlZero {
        assert (['0'] + d)[1..] == d;
      }
    }
  }

  lemma OutwardDigits(t: Tailor, d: string)
    requires AllDigits(d)
    ensures AllDigits(Outward(t, d))
  {
  }

  lemma {:induction false} UserDataSplits(pid: seq<Octet>, cudf: seq<Octet>)
    requires |pid| <= NPSIZE
    ensures var data := UserData(pid, cudf);
            (if |data| > NPSIZE then data[..NPSIZE] == pid && data[NPSIZE..] == cudf else data == pid && cudf == [])
            <==> cudf == [] || |pid| == NPSIZE
  {
    var data, all := UserData(pid, cudf), pid + Zeros(NPSIZE - |pid|) + cudf;
    if pid != [] {
      assert all[..|pid|] == pid;
      if |pid| == NPSIZE {
        assert Zeros(0) == [] && all == pid + cudf && data == all;
      } else if cudf == [] {
        assert data == pid;
      }
    }
  }

  /**
   `if2gen` after `gen2if` gives a numeric DTE back, with its PID and call user
   data, exactly when the number survives and the call user data is empty or
   stands behind a full PID.
   */
  lemma {:induction false} RoundTripsExactly(t: Tailor, g: Generic)
    requires AllDigits(g.dte) && |g.pid| <= NPSIZE
    ensures var s := Gen2if(t, g).value;
            s.hostlen <= 2 * |s.host| &&
            (If2gen(t, s) == g <==> Survives(t, g.dte) && (g.cudf == [] || |g.pid| == NPSIZE))
  {
    var d := Outward(t, g.dte);
    OutwardDigits(t, g.dte);
    PackedDigitsReadBack(d);
    ThereAndBack(t, g.dte);
    UserDataSplits(g.pid, g.cudf);
  }

  // ----- In the form of the code -----

  /** `char2bcd`: the digits are written half an octet at a time. */
  method Char2bcd(s: string, d: array<Octet>) returns (i: nat)
    requires (|s| + 1) / 2 <= d.Length
    modifies d
    ensures i == |s| && d[..(|s| + 1) / 2] == Bcd(s)
    ensures d[(|s| + 1) / 2..] == old(d[(|s| + 1) / 2..])
  {
    i := 0;
    while i < |s|
      invariant 0 <= i <= |s|
      invariant forall j :: 0 <= j < i / 2 ==> d[j] == DigitOf(s[2 * j]) * 16 + DigitOf(s[2 * j + 1])
      invariant i % 2 == 1 ==> d[i / 2] == DigitOf(s[i - 1]) * 16
      invariant d[(|s| + 1) / 2..] == old(d[(|s| + 1) / 2..])
    {
      var c := DigitOf(s[i]);
      if i % 2 == 1 {
        d[i / 2] := d[i / 2] + c;
      } else {
        d[i / 2] := c * 16;
      }
      i := i + 1;
    }
    BcdSize(s);
    forall j | 0 <= j < (|s| + 1) / 2 ensures d[j] == Bcd(s)[j] {
      BcdAt(s, j);
    }
  }

  lemma {:induction false} BcdAt(s: string, j: nat)
    requires 2 * j < |s|
    ensures |Bcd(s)| == (|s| + 1) / 2
    ensures Bcd(s)[j] == DigitOf(s[2 * j]) * 16 + if 2 * j + 1 < |s| then DigitOf(s[2 * j + 1]) else 0
    decreases |s|
  {
    BcdSize(s);
    if j > 0 {
      BcdAt(s[2..], j - 1);
    }
  }

  /** `bcd2char` */
  method Bcd2char(s: seq<Octet>, len: nat) returns (d: string)
    requires len <= 2 * |s|
    ensures d == Chars(s, len)
  {
    d := [];
    for i := 0 to len
      invariant d == Chars(s, i)
    {
      var g := s[i / 2];
      if i % 2 == 0 {
        g := g / 16;
      }
      g := g % 16;
      d := d + [CharOf(g)];
    }
  }

  /** The part of `gen2if` that chooses the digits, with its search through the other prefixes. */
  method ChooseDigits(t: Tailor, na_dte: string) returns (dte: string)
    ensures dte == Outward(t, na_dte)
  {
    if t.prefixes == [] || t.prefixes[0] == [] {
      return na_dte;
    }
    var p := t.prefixes[0];
    if |p| <= |na_dte| && na_dte[..|p|] == p {
      dte := if t.strip then na_dte[|p|..] else na_dte;
      return;
    }
    var found, cp := false, 1;
    ghost var rest := t.prefixes[1..];
    while cp < |t.prefixes| && t.prefixes[cp] != []
      invariant 1 <= cp <= |t.prefixes|
      invariant Secondary(rest, na_dte) == (found || Secondary(t.prefixes[cp..], na_dte))
    {
      assert t.prefixes[cp..][1..] == t.prefixes[cp + 1..];
      if Starts(na_dte, t.prefixes[cp]) {
        found := true;
      }
      cp := cp + 1;
    }
    if !found && t.intlZero {
      dte := ['0'] + na_dte;
    } else {
      dte := na_dte;
    }
  }

  /** The part of `if2gen` that restores the number, into a field that starts empty. */
  method RestoreDigits(t: Tailor, dte: string) returns (na_dte: string)
    ensures na_dte == Inward(t, dte)
  {
    na_dte := [];
    if t.prefixes == [] || t.prefixes[0] == [] {
      return dte;
    }
    var i := 0;
    if t.intlZero && |dte| > 0 && dte[0] == '0' && (|dte| == 1 || dte[1] != '0') {
      i := 1;
    } else if t.strip && |dte| < LOCALCALL {
      na_dte := t.prefixes[0];
    }
    na_dte := na_dte + dte[i..];
  }

  // ----- Numbers that do not come back -----

  const TAILORED := Tailor(["2342"], true, true)
  const UNMARKED := Tailor(["2342"], true, false)

  /** A foreign number that starts with 0; a local one with twelve digits behind the prefix; a short foreign one without the international zero. */
  lemma NumbersLost()
    ensures !Survives(TAILORED, "01")
    ensures !Survives(TAILORED, "2342123456789012")
    ensures !Survives(UNMARKED, "31")
  {
    assert "2342123456789012"[..4] == "2342";
    assert "2342123456789012"[4..] == "123456789012";
    assert !Starts("01", "2342") && !Starts("31", "2342");
  }

  /** What becomes of one of them, and of user data behind a short PID. */
  lemma {:induction false} LostOnTheWay()
    ensures var s := Gen2if(TAILORED, Generic("01", [], [])).value;
            s.hostlen <= 2 * |s.host| && If2gen(TAILORED, s) == Generic("2342001", [], [])
    ensures var s := Gen2if(TAILORED, Generic("31", [1], [2])).value;
            s.hostlen <= 2 * |s.host| && If2gen(TAILORED, s).pid == [1, 0] && If2gen(TAILORED, s).cudf == []
  {
    hide Chars, Bcd, Inward, Outward;
    ThroughTheProvider(TAILORED, Generic("01", [], []));
    ThroughTheProvider(TAILORED, Generic("31", [1], [2]));
    LeadingZeroGoesWrong();
    ShortPidGoesWrong();
  }

  lemma {:induction false} ThroughTheProvider(t: Tailor, g: Generic)
    requires AllDigits(g.dte) && |g.pid| <= NPSIZE
    ensures var s := Gen2if(t, g).value;
            s.hostlen <= 2 * |s.host| && If2gen(t, s).dte == Inward(t, Outward(t, g.dte)) && s.data == UserData(g.pid, g.cudf)
  {
    OutwardDigits(t, g.dte);
    PackedDigitsReadBack(Outward(t, g.dte));
  }

  lemma LeadingZeroGoesWrong()
    ensures Inward(TAILORED, Outward(TAILORED, "01")) == "2342001"
  {
    assert !Starts("01", "2342");
    assert ['0'] + "01" == "001";
    assert "2342" + "001" == "2342001";
  }

  lemma ShortPidGoesWrong()
    ensures UserData([1], [2]) == [1, 0]
  {
    var all := [1] + Zeros(3) + [2];
    assert all[..2] == [1, 0];
  }
}
