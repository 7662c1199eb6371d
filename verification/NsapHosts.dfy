/**
 The host `norm2na` gives for a TCP address: four numbers in the order of their
 digits, with dots between them, each written as numbers are.
 */
module NsapHosts {
  import opened Wrappers
  import opened Nsap
  import opened NsapReading

  /** The decimal numeral of `n`: digits without a superfluous 0 before them. */
  predicate Numeral(s: string, n: nat) {
    s != [] && AllDigits(s) && Value(s) == n && (|s| == 1 || s[0] != '0')
  }

  lemma {:induction false} DecimalIsNumeral(n: nat)
    ensures Numeral(Decimal(n), n)
    ensures n >= 1 ==> Decimal(n)[0] != '0'
    decreases n
  {
    var s := Decimal(n);
    if n < 10 {
      assert s[..0] == [];
    } else {
      DecimalIsNumeral(n / 10);
      assert s[..|s| - 1] == Decimal(n / 10);
    }
  }

  /** A 0 before other digits does not count. */
  lemma {:induction false} ZeroInFront(s: string)
    requires AllDigits(s)
    ensures AllDigits("0" + s) && Value("0" + s) == Value(s)
    decreases |s|
  {
    var t := "0" + s;
    if s == [] {
      assert t[..0] == [];
    } else {
      ZeroInFront(s[..|s| - 1]);
      assert t[..|t| - 1] == "0" + s[..|s| - 1];
    }
  }

  /** What lies between the dots. */
  function Pieces(s: string): (ps: seq<string>)
    ensures ps != []
  {
    if s == [] then [[]]
    else
      var rest := Pieces(s[1..]);
      if s[0] == '.' then [[]] + rest else [[s[0]] + rest[0]] + rest[1..]
  }

  lemma {:induction false} PiecesOfOne(a: string)
    requires '.' !in a
    ensures Pieces(a) == [a]
  {
    if a != [] {
      PiecesOfOne(a[1..]);
      assert [a[0]] + a[1..] == a;
    }
  }

  lemma {:induction false} PiecesNext(a: string, rest: string)
    requires '.' !in a
    ensures Pieces(a + "." + rest) == [a] + Pieces(rest)
    decreases |a|
  {
    var s := a + "." + rest;
    if a == [] {
      assert s == "." + rest && s[1..] == rest;
    } else {
      PiecesNext(a[1..], rest);
      assert s[1..] == a[1..] + "." + rest;
      assert [a[0]] + a[1..] == a;
    }
  }

  lemma DigitsHaveNoDot(s: string)
    requires AllDigits(s)
    ensures '.' !in s
  {
  }

  /** The four numbers, in order. */
  lemma {:induction false} DottedPieces(q: seq<nat>)
    requires |q| == 4
    ensures |Pieces(Dotted(q))| == 4 && forall i :: 0 <= i < 4 ==> Numeral(Pieces(Dotted(q))[i], q[i])
  {
    hide Decimal, Numeral;
    forall i | 0 <= i < 4 ensures Numeral(Decimal(q[i]), q[i]) && '.' !in Decimal(q[i]) {
      DecimalIsNumeral(q[i]);
      NumeralHasNoDot(Decimal(q[i]), q[i]);
    }
    var a, b, c, d := Decimal(q[0]), Decimal(q[1]), Decimal(q[2]), Decimal(q[3]);
    PiecesOfOne(d);
    PiecesNext(c, d);
    PiecesNext(b, c + "." + d);
    PiecesNext(a, b + "." + (c + "." + d));
    assert Dotted(q) == a + "." + (b + "." + (c + "." + d));
    assert Pieces(Dotted(q)) == [a] + ([b] + ([c] + [d]));
  }

  lemma NumeralHasNoDot(s: string, n: nat)
    requires Numeral(s, n)
    ensures '.' !in s
  {
    DigitsHaveNoDot(s);
  }

  /** A host of four numbers, each of three of the digits. */
  predicate HostOf(domain: string, s: string)
    requires |s| >= 12 && AllDigits(s)
  {
    |Pieces(domain)| == 4 && forall i :: 0 <= i < 4 ==> Numeral(Pieces(domain)[i], Value(s[3 * i..3 * i + 3]))
  }

  /** Any TCP address that is read has the host, the port and the transport set that its digits give, in this order. */
  lemma {:induction false} HostIsInOrder(table: seq<Community>, p: seq<Octet>, stale: string, a: Address)
    requires |stale| == 14 && Norm2na(table, p, stale) == Read(a) && a.Tcp?
    ensures !LooksLikeX121(p) && Best(table, p).Some?
    ensures var c := Best(table, p).value;
            var s := DigitsBehind(c, p);
            && c.syntax == NA_TCP && a.community == c.subnet && TcpLength(|s|) && HostOf(a.domain, s)
            && a.port == (if |s| >= 17 then Value(s[12..17]) % 0x10000 else 0)
            && a.tset == (if |s| >= 22 then Value(s[17..22]) % 0x10000 else 0)
  {
    hide Dotted, Pieces, Value, Unpack, Best, Numeral, Written;
    var c := Best(table, p).value;
    var s := DigitsBehind(c, p);
    OnlyTcpGivesHosts(c, s);
    var q := [Value(s[..3]), Value(s[3..6]), Value(s[6..9]), Value(s[9..12])];
    DottedPieces(q);
    assert forall i :: 0 <= i < 4 ==> q[i] == Value(s[3 * i..3 * i + 3]);
  }

  lemma OnlyTcpGivesHosts(c: Community, s: string)
    requires AllDigits(s) && ReadDigits(c, s).Some? && ReadDigits(c, s).value.Tcp?
    ensures c.syntax == NA_TCP && TcpLength(|s|)
    ensures var a := ReadDigits(c, s).value;
            && a.community == c.subnet
            && a.domain == Dotted([Value(s[..3]), Value(s[3..6]), Value(s[6..9]), Value(s[9..12])])
            && a.port == (if |s| >= 17 then Value(s[12..17]) % 0x10000 else 0)
            && a.tset == (if |s| >= 22 then Value(s[17..22]) % 0x10000 else 0)
  {
    hide Dotted, Value;
  }
}
