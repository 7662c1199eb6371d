/**
 The octets `na2norm` makes of an address, whether or not they are ever read back to
 the same: which digits, in which order, behind which prefix, and when there are none.
 */
module NsapForms {
  import opened Wrappers
  import opened Nsap
  import opened NsapTheorems
  import opened NsapHosts

  // ----- Semi-octets -----

  /** Half an octet for each character, the first in the higher half, and a filler behind an odd one. */
  predicate Packs(p: seq<Octet>, s: string) {
    && |p| == (|s| + 1) / 2
    && (forall i :: 0 <= i < |s| ==> Half(p, s, i))
    && (|s| % 2 == 1 ==> p[|s| / 2] % 16 == 15)
  }

  predicate Half(p: seq<Octet>, s: string, i: nat)
    requires |p| == (|s| + 1) / 2 && i < |s|
  {
    (if i % 2 == 0 then p[i / 2] / 16 else p[i / 2] % 16) == (s[i] as int - 48) % 16
  }

  lemma {:induction false} PackPacks(s: string)
    ensures Packs(Pack(s), s)
    decreases |s|
  {
    if |s| > 1 {
      var rest, p := s[2..], Pack(s);
      PackPacks(rest);
      forall i | 0 <= i < |s| ensures Half(p, s, i) {
        if i >= 2 {
          assert Half(Pack(rest), rest, i - 2);
          assert p[i / 2] == Pack(rest)[(i - 2) / 2] && s[i] == rest[i - 2];
        }
      }
      assert |s| % 2 == 1 ==> p[|s| / 2] == Pack(rest)[|rest| / 2];
    }
  }

  // ----- The community -----

  /** The first community of the table with this subnet. */
  predicate IsOf(table: seq<Community>, subnet: int, k: nat)
    requires k < |table|
  {
    table[k].subnet == subnet && forall i :: 0 <= i < k ==> table[i].subnet != subnet
  }

  lemma {:induction false} FirstFound(table: seq<Community>, subnet: int, k: nat)
    requires k < |table| && IsOf(table, subnet, k)
    ensures FindSubnet(table, subnet) == Some(table[k])
  {
    if k > 0 {
      assert table[0].subnet != subnet;
      forall i | 0 <= i < k - 1 ensures table[1..][i].subnet != subnet {
        assert table[1..][i] == table[i + 1];
      }
      FirstFound(table[1..], subnet, k - 1);
    }
  }

  // ----- TCP -----

  /** Three digits for each octet of the host, five for a port, and five more for a transport set other than 0 and 1. */
  predicate TcpSpelled(s: string, q: seq<Octet>, port: nat, tset: nat)
    requires |q| == 4
  {
    && AllDigits(s) && |s| == (if port == 0 then 12 else if tset == 0 || tset == 1 then 17 else 22)
    && (forall i :: 0 <= i < 4 ==> Value(s[3 * i..3 * i + 3]) == q[i])
    && (port != 0 ==> Value(s[12..17]) == port)
    && (port != 0 && tset != 0 && tset != 1 ==> Value(s[17..22]) == tset)
  }

  lemma TcpIsSpelled(q: seq<Octet>, port: nat, tset: nat)
    requires |q| == 4 && port < 0x10000 && tset < 0x10000
    ensures TcpSpelled(TcpDigits(q, port, tset), q, port, tset)
  {
    hide Value, TcpDigits;
    TcpDigitsHaveFields(q, port, tset);
    var s := TcpDigits(q, port, tset);
    forall i | 0 <= i < 4 ensures Value(s[3 * i..3 * i + 3]) == q[i] {
      assert s[..3] == s[0..3];
    }
  }

  /**
   A TCP address has octets exactly when its community is in the table and its host is
   known: the prefix of the first such community, and the host, the port and the
   transport set in digits.
   */
  lemma TcpNormalised(table: seq<Community>, resolve: Resolver, subnet: int, domain: string, port: nat, tset: nat, k: nat)
    requires k < |table| && IsOf(table, subnet, k) && port < 0x10000 && tset < 0x10000
    ensures var r, q, pre := Na2norm(table, resolve, Tcp(subnet, domain, port, tset)), resolve(domain), table[k].prefix;
            if q.None? || |q.value| != 4 then r == None
            else
              && r.Some? && pre <= r.value
              && exists s :: TcpSpelled(s, q.value, port, tset) && Packs(r.value[|pre|..], s)
  {
    hide Pack, TcpDigits, TcpSpelled, Packs, FindSubnet;
    FirstFound(table, subnet, k);
    var q := resolve(domain);
    if q.Some? && |q.value| == 4 {
      TcpIsSpelled(q.value, port, tset);
      var s := TcpDigits(q.value, port, tset);
      PackPacks(s);
      Behind(table[k].prefix, Pack(s));
    }
  }

  lemma Behind(pre: seq<Octet>, rest: seq<Octet>)
    ensures pre <= pre + rest && (pre + rest)[|pre|..] == rest
  {
  }

  // ----- X.25 -----

  /** Three digits for each octet. */
  predicate Triples(s: string, data: seq<Octet>) {
    |s| == 3 * |data| && AllDigits(s) && forall i :: 0 <= i < |data| ==> Value(s[3 * i..3 * i + 3]) == data[i]
  }

  lemma {:induction false} OctetsInTriples(data: seq<Octet>)
    ensures Triples(OctetDigits(data), data)
  {
    if data != [] {
      var first, more, s := Padded(data[0], 3), OctetDigits(data[1..]), OctetDigits(data);
      Padded3(data[0]);
      OctetsInTriples(data[1..]);
      assert s == first + more;
      forall i | 0 <= i < |data| ensures Value(s[3 * i..3 * i + 3]) == data[i] {
        if i == 0 {
          assert s[0..3] == first;
        } else {
          assert s[3 * i..3 * i + 3] == more[3 * (i - 1)..3 * (i - 1) + 3] && data[i] == data[1..][i - 1];
        }
      }
    }
  }

  /** An indicator; with data its number of octets and each of them; and the DTE. */
  ghost predicate X25Spelled(s: string, dte: string, pid: seq<Octet>, cudf: seq<Octet>) {
    if pid == [] && cudf == [] then s == "0" + dte
    else
      var data := if pid != [] then pid else cudf;
      exists n, t :: Numeral(n, |data|) && Triples(t, data) && s == (if pid != [] then "1" else "2") + n + t + dte
  }

  lemma X25IsSpelled(dte: string, pid: seq<Octet>, cudf: seq<Octet>)
    ensures X25Spelled(X25Digits(dte, pid, cudf), dte, pid, cudf)
  {
    hide Numeral, Triples, Decimal, OctetDigits;
    if pid != [] || cudf != [] {
      var data := if pid != [] then pid else cudf;
      DecimalIsNumeral(|data|);
      OctetsInTriples(data);
      var n, t := Decimal(|data|), OctetDigits(data);
      assert X25Digits(dte, pid, cudf) == (if pid != [] then "1" else "2") + n + t + dte;
    }
  }

  /** Nothing but a number of the international subnet: 36, and at least 14 digits, with zeros in front. */
  predicate InternationalSpelled(s: string, dte: string) {
    |s| == 2 + (if |dte| < 14 then 14 else |dte|) && s[..2] == "36" && s[|s| - |dte|..] == dte
    && forall i :: 2 <= i < |s| - |dte| ==> s[i] == '0'
  }

  lemma InternationalIsSpelled(dte: string)
    ensures InternationalSpelled("36" + PadLeft(dte, 14, '0'), dte)
  {
    PadLeftIs(dte, 14, '0');
  }

  /**
   So has an X.25 address: behind the prefix its data and number in digits, but for a
   number alone of the international subnet that does not begin with 0, which has a form
   of its own without a prefix.
   */
  lemma X25Normalised(table: seq<Community>, resolve: Resolver, subnet: int, dte: string, pid: seq<Octet>, cudf: seq<Octet>, k: nat)
    requires k < |table| && IsOf(table, subnet, k)
    ensures var r, pre := Na2norm(table, resolve, X25(subnet, dte, pid, cudf)), table[k].prefix;
            && r.Some?
            && if subnet == 1 && pid == [] && cudf == [] && (dte == [] || dte[0] != '0')
               then exists s :: InternationalSpelled(s, dte) && Packs(r.value, s)
               else pre <= r.value && exists s :: X25Spelled(s, dte, pid, cudf) && Packs(r.value[|pre|..], s)
  {
    hide Pack, X25Digits, X25Spelled, InternationalSpelled, PadLeft, Packs, FindSubnet;
    FirstFound(table, subnet, k);
    X25IsSpelled(dte, pid, cudf);
    InternationalIsSpelled(dte);
    PackPacks("36" + PadLeft(dte, 14, '0'));
    PackPacks(X25Digits(dte, pid, cudf));
    Behind(table[k].prefix, Pack(X25Digits(dte, pid, cudf)));
  }

  /** Raw octets are themselves; an address of a subnet that is not in the table, or of another kind, has none. */
  lemma NothingNormalised(table: seq<Community>, resolve: Resolver, a: Address)
    ensures a.RawNsap? ==> Na2norm(table, resolve, a) == Some(a.octets)
    ensures !a.RawNsap? && (forall i :: 0 <= i < |table| ==> table[i].subnet != a.community) ==> Na2norm(table, resolve, a) == None
    ensures a.Other? ==> Na2norm(table, resolve, a) == None
  {
    var c := FindSubnet(table, a.community);
    if c.Some? {
      var i :| 0 <= i < |table| && table[i] == c.value;
    }
  }
}
