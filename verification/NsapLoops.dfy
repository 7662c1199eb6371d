/**
 The loops of compat/na2norm.c and compat/norm2na.c, each proved to compute the
 function of `Nsap` that the round-trip theorems speak of.
 */
module NsapLoops {
  import opened Wrappers
  import opened Nsap

  lemma Neutral<T>(x: seq<T>)
    ensures [] + x == x && x + [] == x
  {
  }

  lemma Regroup<T>(a: seq<T>, b: seq<T>, c: seq<T>)
    ensures a + (b + c) == (a + b) + c
  {
  }

  /** The packing loop at the end of `na2norm`. */
  method PackDigits(prefix: seq<Octet>, s: string) returns (address: seq<Octet>)
    ensures address == prefix + Pack(s)
  {
    address := prefix;
    var cp := 0;
    assert s[0..] == s;
    while cp < |s|
      invariant 0 <= cp <= |s|
      invariant address + Pack(s[cp..]) == prefix + Pack(s)
    {
      ghost var left := s[cp..];
      var high := Nibble(s[cp]) * 16;
      cp := cp + 1;
      if cp < |s| {
        address := address + [high + Nibble(s[cp])];
        cp := cp + 1;
        assert left[2..] == s[cp..];
      } else {
        address := address + [high + 15];
      }
    }
    assert s[cp..] == [];
  }

  /** What has been read so far and what is still to be read make up the whole, or it cannot be read. */
  ghost predicate Extends<T>(whole: Option<seq<T>>, done: seq<T>, rest: Option<seq<T>>) {
    whole == if rest.None? then None else Some(done + rest.value)
  }

  lemma ExtendsMore<T>(whole: Option<seq<T>>, done: seq<T>, more: seq<T>, here: Option<seq<T>>, rest: Option<seq<T>>)
    requires Extends(whole, done, here) && Extends(here, more, rest)
    ensures Extends(whole, done + more, rest)
  {
    if rest.Some? {
      Regroup(done, more, rest.value);
    }
  }

  lemma UnpackNext(p: seq<Octet>, cp: nat)
    requires cp < |p|
    ensures var o := UnpackOctet(p[cp]);
            if o.None? then Unpack(p[cp..]).None? else Extends(Unpack(p[cp..]), o.value, Unpack(p[cp + 1..]))
  {
    assert p[cp..][1..] == p[cp + 1..];
  }

  /** The digit loops of `norm2na`; `ok` is false when it jumps to `concrete`. */
  method UnpackDigits(p: seq<Octet>, from: nat) returns (ok: bool, digits: string)
    requires from <= |p|
    ensures if ok then Unpack(p[from..]) == Some(digits) else Unpack(p[from..]).None?
  {
    digits := [];
    var cp := from;
    StartExtends(Unpack(p[from..]));
    while cp < |p|
      invariant from <= cp <= |p|
      invariant Extends(Unpack(p[from..]), digits, Unpack(p[cp..]))
    {
      hide Unpack;
      UnpackNext(p, cp);
      ghost var before := digits;
      var high, low := p[cp] / 16, p[cp] % 16;
      if high > 9 {
        return false, digits;
      }
      digits := digits + [DigitChar(high)];
      if low > 9 {
        if low != 15 {
          return false, digits;
        }
      } else {
        digits := digits + [DigitChar(low)];
      }
      assert digits == before + UnpackOctet(p[cp]).value;
      ExtendsMore(Unpack(p[from..]), before, UnpackOctet(p[cp]).value, Unpack(p[cp..]), Unpack(p[cp + 1..]));
      cp := cp + 1;
    }
    assert p[cp..] == [];
    Neutral(digits);
    return true, digits;
  }

  lemma StartExtends<T>(whole: Option<seq<T>>)
    ensures Extends(whole, [], whole)
  {
    if whole.Some? {
      Neutral(whole.value);
    }
  }

  /** The table scan that keeps the longest prefix seen so far. */
  method FindBest(table: seq<Community>, p: seq<Octet>) returns (tp: Option<Community>)
    ensures tp == Best(table, p)
  {
    tp := None;
    var ts := 0;
    while ts < |table|
      invariant 0 <= ts <= |table|
      invariant tp == Best(table[..ts], p)
    {
      assert table[..ts + 1][..ts] == table[..ts];
      if |p| > |table[ts].prefix| && (tp.None? || |table[ts].prefix| > |tp.value.prefix|)
         && p[..|table[ts].prefix|] == table[ts].prefix {
        tp := Some(table[ts]);
      }
      ts := ts + 1;
    }
    assert table[..ts] == table;
  }

  /** The PID or CUDF loop of `norm2na`. */
  method ReadTriples(s: string, n: nat) returns (data: Option<seq<Octet>>)
    requires AllDigits(s) && 3 * n <= |s|
    ensures data == ReadOctets(s, n)
  {
    var dp: seq<Octet> := [];
    var cp, rlen := 0, 3 * n;
    ghost var k := n;
    assert s[0..] == s;
    if ReadOctets(s, n).Some? {
      Neutral(ReadOctets(s, n).value);
    }
    while rlen > 0
      invariant 0 <= cp <= |s| && rlen == 3 * k && rlen + cp == 3 * n
      invariant var rest := ReadOctets(s[cp..], k);
                ReadOctets(s, n) == if rest.None? then None else Some(dp + rest.value)
    {
      assert s[cp..][..3] == s[cp..cp + 3] && s[cp..][3..] == s[cp + 3..];
      var i := Value(s[cp..cp + 3]);
      if i > 255 {
        return None;
      }
      ghost var rest := ReadOctets(s[cp + 3..], k - 1);
      if rest.Some? {
        Regroup(dp, [i], rest.value);
      }
      cp := cp + 3;
      rlen := rlen - 3;
      k := k - 1;
      dp := dp + [i];
    }
    Neutral(dp);
    return Some(dp);
  }

  /** The loop over a PID or CUDF in `na2norm`. */
  method WriteTriples(data: seq<Octet>) returns (s: string)
    ensures s == OctetDigits(data)
  {
    s := [];
    var i := 0;
    assert data[0..] == data;
    Neutral(OctetDigits(data));
    while i < |data|
      invariant 0 <= i <= |data|
      invariant s + OctetDigits(data[i..]) == OctetDigits(data)
    {
      assert data[i..][1..] == data[i + 1..];
      var triple := Padded(data[i], 3);
      Regroup(s, triple, OctetDigits(data[i + 1..]));
      s := s + triple;
      i := i + 1;
    }
    assert data[i..] == [];
    Neutral(s);
  }

  /** The loop over leading zeros in the X.121 form. */
  method DropZeros(s: string) returns (dte: string)
    ensures dte == SkipZeros(s)
  {
    var cp := 0;
    assert s[0..] == s;
    while cp < |s| && s[cp] == '0'
      invariant 0 <= cp <= |s|
      invariant SkipZeros(s[cp..]) == SkipZeros(s)
    {
      assert s[cp..][1..] == s[cp + 1..];
      cp := cp + 1;
    }
    dte := s[cp..];
  }

  /** The community scan of `na2norm`. */
  method FindCommunity(table: seq<Community>, subnet: int) returns (ts: Option<Community>)
    ensures ts == FindSubnet(table, subnet)
  {
    var i := 0;
    assert table[0..] == table;
    while i < |table|
      invariant 0 <= i <= |table|
      invariant FindSubnet(table[i..], subnet) == FindSubnet(table, subnet)
    {
      if table[i].subnet == subnet {
        return Some(table[i]);
      }
      assert table[i..][1..] == table[i + 1..];
      i := i + 1;
    }
    return None;
  }

  method Normalise(table: seq<Community>, resolve: Resolver, na: Address) returns (ca: Option<seq<Octet>>)
    ensures ca == Na2norm(table, resolve, na)
  {
    if na.RawNsap? {
      return Some(na.octets);
    }
    var ts := FindCommunity(table, na.community);
    if ts.None? {
      return None;
    }
    var digits: string;
    match na {
      case Tcp(_, domain, port, tset) =>
        var host := resolve(domain);
        if host.None? || |host.value| != 4 {
          return None;
        }
        digits := TcpDigits(host.value, port, tset);
      case X25(_, dte, pid, cudf) =>
        if UsesX121(na) {
          var x121 := PackDigits([], "36" + PadLeft(dte, 14, '0'));
          Neutral(Pack("36" + PadLeft(dte, 14, '0')));
          return Some(x121);
        }
        if pid != [] {
          var octets := WriteTriples(pid);
          digits := "1" + Decimal(|pid|) + octets + dte;
        } else if cudf != [] {
          var octets := WriteTriples(cudf);
          digits := "2" + Decimal(|cudf|) + octets + dte;
        } else {
          digits := "0" + dte;
        }
      case _ => return None;
    }
    var address := PackDigits(ts.value.prefix, digits);
    return Some(address);
  }

  /** The X.25 case of `norm2na`; absent when it jumps to `realNS`. */
  method ParseX25(subnet: int, s: string) returns (na: Option<Address>)
    requires AllDigits(s)
    ensures na == ReadX25(subnet, s)
  {
    if |s| < 1 {
      return None;
    }
    if s[0] == '0' {
      return Some(X25(subnet, s[1..], [], []));
    }
    if s[0] != '1' && s[0] != '2' {
      return None;
    }
    if |s| < 2 {
      return None;
    }
    var ilen := Nibble(s[1]);
    if |s| - 2 < 3 * ilen || (s[0] == '1' && ilen > NPSIZE) {
      return None;
    }
    var data := ReadTriples(s[2..], ilen);
    if data.None? {
      return None;
    }
    if s[0] == '1' {
      return Some(X25(subnet, s[2 + 3 * ilen..], data.value, []));
    }
    return Some(X25(subnet, s[2 + 3 * ilen..], [], data.value));
  }

  method ReadNormal(table: seq<Community>, p: seq<Octet>, stale: string) returns (o: Outcome)
    requires |stale| == 14
    ensures o == Norm2na(table, p, stale)
  {
    if |p| == 8 && (p[0] == 0x36 || p[0] == 0x37) {
      var ok, digits := UnpackDigits(p, 1);
      if !ok {
        return Raw(SUBNET_REALNS, p);
      }
      UnpackGivesDigits(p[1..]);
      var dte := DropZeros(digits + stale[|digits|..]);
      return if dte == [] then OffBuffer else Read(X25(SUBNET_INT_X25, dte, [], []));
    }
    var tp := FindBest(table, p);
    if tp.None? {
      return Raw(SUBNET_REALNS, p);
    }
    if tp.value.syntax == NA_NSAP {
      return Raw(tp.value.subnet, p);
    }
    if Written(p[|tp.value.prefix|..]) > 2 * NASIZE {
      return OffBuffer;
    }
    var ok, digits := UnpackDigits(p, |tp.value.prefix|);
    if !ok {
      return Raw(SUBNET_REALNS, p);
    }
    UnpackGivesDigits(p[|tp.value.prefix|..]);
    var na: Option<Address>;
    if tp.value.syntax == NA_X25 {
      na := ParseX25(tp.value.subnet, digits);
    } else if tp.value.syntax == NA_TCP {
      na := ReadTcp(tp.value.subnet, digits);
    } else {
      na := None;
    }
    if na.None? {
      return Raw(SUBNET_REALNS, p);
    }
    if na.value.X25? && |na.value.dte| > NSAP_DTELEN {
      return OffBuffer;
    }
    return Read(na.value);
  }
}
