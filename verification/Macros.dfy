/**
 The macro table of compat/isoaddrs.c: 128 chains hashed without regard to case,
 the newest definition first.  It answers like a plain list of definitions; and a
 value that was abbreviated by its longest macro expands to itself again, except
 when that macro has since been redefined.

 Names are not empty and of ASCII characters.
 */
module Macros {
  import opened Wrappers
  import opened Nsap
  import opened Paddr
  import opened PaddrTheorems
  import opened PaddrAddresses

  const MBUCKETS := 128

  datatype Macro = Macro(name: string, value: string)

  /** `chrcnv`, with the terminator after the last character. */
  function Converted(nm: string, i: nat): nat {
    if i < |nm| then Fold(nm[i]) as nat else 0
  }

  /** `x & 0x5f`, for a character: bits 5 and 7 go. */
  function Masked(x: nat): (n: nat)
    ensures n <= 95
  {
    x % 32 + x / 64 % 2 * 64
  }

  /** `MHASH` */
  function Hash(nm: string): nat {
    if |nm| > 1 then (Converted(nm, 0) - Converted(nm, 1)) % 32 + Masked(Converted(nm, 2))
    else Converted(nm, 0) % 128
  }

  /** Names that are equal but for case share a bucket, and there is one for every name. */
  lemma EqualNamesShareABucket(s: string, t: string)
    ensures Hash(s) < MBUCKETS
    ensures LexEqual(s, t) ==> Hash(s) == Hash(t)
  {
    if LexEqual(s, t) {
      assert forall i: nat :: Converted(s, i) == Converted(t, i);
    }
  }

  /** A character with only its bits 0 to 4 and 6. */
  predicate FewBits(n: nat, x: nat) {
    n % 32 == x % 32 && n / 32 % 2 == 0 && n / 64 % 2 == x / 64 % 2 && n / 128 == 0
  }

  predicate FiveBits(n: int, x: int) {
    0 <= n < 32 && (x - n) % 32 == 0
  }

  /** A capital, or no letter at all. */
  predicate Capital(c: char, d: char) {
    SameLetter(c, d) && !('a' <= d <= 'z')
  }

  /** Characters count as capitals, and behind the last there is a 0. */
  lemma ConvertedIs(nm: string, i: nat)
    ensures if i < |nm| then Converted(nm, i) < 0x110000 && Capital(nm[i], Converted(nm, i) as char) else Converted(nm, i) == 0
  {
  }

  lemma MaskedIs(x: nat)
    ensures FewBits(Masked(x), x)
  {
  }

  lemma SomeBits(x: int)
    ensures FiveBits(x % 32, x)
  {
  }

  /** The bucket: five bits of the difference of two characters, and six bits of a third; or seven bits of the only one. */
  lemma HashIs(nm: string)
    ensures if |nm| <= 1 then Hash(nm) < 128 && (Converted(nm, 0) - Hash(nm)) % 128 == 0
            else exists m: nat :: FewBits(m, Converted(nm, 2)) && FiveBits(Hash(nm) - m, Converted(nm, 0) - Converted(nm, 1))
  {
    hide Converted, Masked, FewBits, FiveBits;
    if |nm| > 1 {
      MaskedIs(Converted(nm, 2));
      SomeBits(Converted(nm, 0) - Converted(nm, 1));
      assert FiveBits(Hash(nm) - Masked(Converted(nm, 2)), Converted(nm, 0) - Converted(nm, 1));
    }
  }

  // ----- The list the table stands for -----

  /** The latest definition of a name. */
  function Latest(defs: seq<Macro>, name: string): Option<string> {
    if defs == [] then None
    else if LexEqual(defs[|defs| - 1].name, name) then Some(defs[|defs| - 1].value)
    else Latest(defs[..|defs| - 1], name)
  }

  /** The definitions of bucket `b`, the newest first. */
  function Chain(defs: seq<Macro>, b: nat): seq<Macro> {
    if defs == [] then []
    else
      var last, before := defs[|defs| - 1], Chain(defs[..|defs| - 1], b);
      if Hash(last.name) == b then [last] + before else before
  }

  /** The first of a chain with this name. */
  function FirstOf(chain: seq<Macro>, name: string): Option<string> {
    if chain == [] then None
    else if LexEqual(chain[0].name, name) then Some(chain[0].value)
    else FirstOf(chain[1..], name)
  }

  /** Looking along one chain is looking through all definitions, backwards. */
  lemma {:induction false} ChainKnowsTheLatest(defs: seq<Macro>, name: string)
    ensures FirstOf(Chain(defs, Hash(name)), name) == Latest(defs, name)
    decreases |defs|
  {
    if defs != [] {
      var last, before := defs[|defs| - 1], defs[..|defs| - 1];
      ChainKnowsTheLatest(before, name);
      EqualNamesShareABucket(last.name, name);
      if Hash(last.name) == Hash(name) {
        assert ([last] + Chain(before, Hash(name)))[1..] == Chain(before, Hash(name));
      }
    }
  }

  lemma {:induction false} ChainsHoldAll(defs: seq<Macro>, m: Macro, b: nat)
    ensures m in Chain(defs, b) <==> m in defs && Hash(m.name) == b
    decreases |defs|
  {
    if defs != [] {
      var last, before := defs[|defs| - 1], defs[..|defs| - 1];
      ChainsHoldAll(before, m, b);
      assert m in defs <==> m == last || m in before;
    }
  }

  // ----- Abbreviating a value -----

  /** A macro whose value the string starts with, and none is longer. */
  predicate Longest(defs: seq<Macro>, s: string, m: Macro) {
    m in defs && m.value != [] && Starts(s, m.value) &&
    forall o :: o in defs && Starts(s, o.value) ==> |o.value| <= |m.value|
  }

  function Abbreviated(s: string, m: Macro): string
    requires Starts(s, m.value)
  {
    m.name + ['='] + s[|m.value|..]
  }

  /** A name up to its first equals sign: what the parser looks up. */
  function Front(name: string): string {
    name[..Index(name, '=')]
  }

  /** What of an abbreviation stands between the equals sign the parser takes and the rest of the value. */
  function Back(name: string): string {
    var i := Index(name, '=');
    if i == |name| then [] else name[i + 1..] + ['=']
  }

  /** The definition the parser finds puts back the value that was abbreviated. */
  predicate Restores(defs: seq<Macro>, m: Macro) {
    var v := Latest(defs, Front(m.name));
    v.Some? && v.value + Back(m.name) == m.value
  }

  lemma PlainNameIsWhole(name: string)
    requires '=' !in name
    ensures Front(name) == name && Back(name) == []
  {
  }

  /** The abbreviation is split at its first equals sign, which may stand in the name. */
  lemma AbbreviationSplits(name: string, rest: string)
    ensures var s := name + ['='] + rest;
            Index(s, '=') == |Front(name)| < |s| && s[..|Front(name)|] == Front(name) && s[|Front(name)| + 1..] == Back(name) + rest
  {
    var i := Index(name, '=');
    if i == |name| {
      assert name[..i] == name;
      IndexAt(name, '=', rest);
    } else {
      var after := name[i + 1..] + ['='] + rest;
      IndexAt(name[..i], '=', after);
      assert name == name[..i] + ['='] + name[i + 1..];
      assert name + ['='] + rest == name[..i] + ['='] + after;
    }
  }

  /**
   Parsing an abbreviated value expands it to the value it was made from exactly
   when the definition of the name up to its first equals sign restores the value.
   For a name without one that is when it has not been redefined to another value.
   */
  lemma ExpandsBackExactly(defs: seq<Macro>, s: string, m: Macro)
    requires Longest(defs, s, m)
    ensures Expanded(n => Latest(defs, n), Abbreviated(s, m)) == Some(s) <==> Restores(defs, m)
    ensures '=' !in m.name ==> (Restores(defs, m) <==> Latest(defs, m.name) == Some(m.value))
  {
    var rest := s[|m.value|..];
    AbbreviationSplits(m.name, rest);
    var v := Latest(defs, Front(m.name));
    assert s == m.value + rest;
    if v.Some? {
      var w := v.value + Back(m.name);
      assert v.value + (Back(m.name) + rest) == w + rest;
      if w + rest == s {
        assert |w| == |m.value|;
        assert w == (w + rest)[..|w|] == s[..|m.value|];
      }
    }
    if '=' !in m.name {
      PlainNameIsWhole(m.name);
      assert v.Some? ==> v.value + [] == v.value;
    }
  }

  predicate DistinctNames(defs: seq<Macro>) {
    forall i, j :: 0 <= i < j < |defs| ==> !LexEqual(defs[i].name, defs[j].name)
  }

  lemma LexEqualItself(s: string, t: string)
    ensures LexEqual(s, s) && (LexEqual(s, t) <==> LexEqual(t, s))
  {
  }

  lemma {:induction false} DistinctAreLatest(defs: seq<Macro>, i: nat)
    requires DistinctNames(defs) && i < |defs|
    ensures Latest(defs, defs[i].name) == Some(defs[i].value)
    decreases |defs|
  {
    var n := |defs| - 1;
    LexEqualItself(defs[i].name, defs[n].name);
    if i < n {
      DistinctAreLatest(defs[..n], i);
    }
  }

  /** With distinct names every abbreviation expands back whose name has no equals sign; any other, exactly when it is restored. */
  lemma AbbreviationIsUndone(defs: seq<Macro>, s: string, m: Macro)
    requires DistinctNames(defs) && Longest(defs, s, m)
    ensures Expanded(n => Latest(defs, n), Abbreviated(s, m)) == Some(s) <==> '=' !in m.name || Restores(defs, m)
  {
    var i :| 0 <= i < |defs| && defs[i] == m;
    DistinctAreLatest(defs, i);
    ExpandsBackExactly(defs, s, m);
  }

  /** A name with an equals sign in it: the one definition there is abbreviates a value, and the parser knows no such macro. */
  lemma EqualsSignInNameIsLost()
    ensures var defs := [Macro("a=b", "X121+1")];
            && DistinctNames(defs) && Latest(defs, "a=b") == Some("X121+1")
            && Longest(defs, "X121+12", defs[0]) && Abbreviated("X121+12", defs[0]) == "a=b=2"
            && Expanded(n => Latest(defs, n), "a=b=2") == None
  {
    var defs := [Macro("a=b", "X121+1")];
    assert "X121+12"[..6] == "X121+1";
    assert "a=b" + ['='] + "2" == "a=b=2";
    assert "a=b" == "a" + ['='] + "b";
    IndexAt("a", '=', "b");
    AbbreviationSplits("a=b", "2");
    assert !LexEqual("a=b", "a");
    assert defs[..0] == [];
  }

  /** With a name defined twice it need not: the old value is still found, the new one is put back. */
  lemma RedefinedExpandsToAnother()
    ensures var defs := [Macro("Net", "X121+1"), Macro("NET", "T")];
            Longest(defs, "X121+12", defs[0]) && Abbreviated("X121+12", defs[0]) == "Net=2" &&
            Expanded(n => Latest(defs, n), "Net=2") == Some("T2")
  {
    var defs := [Macro("Net", "X121+1"), Macro("NET", "T")];
    assert "X121+12"[..6] == "X121+1";
    assert LexEqual("NET", "Net");
    assert Latest(defs, "Net") == Some("T");
    assert "Net" + ['='] + "2" == "Net=2";
    IndexAt("Net", '=', "2");
    assert "T" + "2" == "T2";
    assert "T"[0] != "X121+12"[0];
  }

  // ----- In the form of the code -----

  class Table {
    const buckets: array<seq<Macro>>
    ghost var defs: seq<Macro>

    ghost predicate Valid()
      reads this, buckets
    {
      buckets.Length == MBUCKETS && forall b :: 0 <= b < MBUCKETS ==> buckets[b] == Chain(defs, b)
    }

    constructor ()
      ensures Valid() && defs == [] && fresh(buckets)
    {
      buckets := new seq<Macro>[MBUCKETS](_ => []);
      defs := [];
    }

    /** `name2macro`: along one chain. */
    method Name2Macro(name: string) returns (value: Option<string>)
      requires Valid()
      ensures value == Latest(defs, name)
    {
      EqualNamesShareABucket(name, name);
      var m := buckets[Hash(name)];
      ChainKnowsTheLatest(defs, name);
      while m != [] && !LexEqual(m[0].name, name)
        invariant FirstOf(m, name) == Latest(defs, name)
        decreases |m|
      {
        m := m[1..];
      }
      value := if m == [] then None else Some(m[0].value);
    }

    /** `value2macro`: every chain of every bucket, keeping the longest value so far. */
    method Value2Macro(value: string) returns (p: Option<Macro>)
      requires Valid()
      ensures p.Some? ==> Longest(defs, value, p.value)
      ensures p.None? ==> forall m :: m in defs && Starts(value, m.value) ==> m.value == []
    {
      p := None;
      var i := 0;
      for b := 0 to MBUCKETS
        invariant i == (if p.Some? then |p.value.value| else 0)
        invariant p.Some? ==> i > 0 && p.value in defs && Starts(value, p.value.value)
        invariant forall m :: m in defs && Hash(m.name) < b && Starts(value, m.value) ==> |m.value| <= i
      {
        var m := buckets[b];
        ghost var seen: seq<Macro> := [];
        forall o ensures o in buckets[b] <==> o in defs && Hash(o.name) == b {
          ChainsHoldAll(defs, o, b);
        }
        while m != []
          invariant seen + m == buckets[b]
          invariant i == (if p.Some? then |p.value.value| else 0)
          invariant p.Some? ==> i > 0 && p.value in defs && Starts(value, p.value.value)
          invariant forall o :: o in defs && Hash(o.name) < b && Starts(value, o.value) ==> |o.value| <= i
          invariant forall o :: o in seen && Starts(value, o.value) ==> |o.value| <= i
          decreases |m|
        {
          assert m[0] in buckets[b];
          var j := |m[0].value|;
          if j <= |value| && j > i && value[..j] == m[0].value {
            p, i := Some(m[0]), j;
          }
          seen := seen + [m[0]];
          m := m[1..];
        }
        assert seen == buckets[b];
      }
      forall m | m in defs ensures Hash(m.name) < MBUCKETS {
        EqualNamesShareABucket(m.name, m.name);
      }
    }

    /** `add_macro`: a value may begin with the name of an earlier macro and an equals sign. */
    method AddMacro(name: string, value: string)
      requires Valid()
      modifies this`defs, buckets
      ensures Valid()
      ensures defs == match Expanded(n => Latest(old(defs), n), value)
                      case None => old(defs)
                      case Some(v) => old(defs) + [Macro(name, v)]
    {
      var v := value;
      var cp := Index(value, '=');
      if cp < |value| {
        var p := Name2Macro(value[..cp]);
        if p == None {
          return;
        }
        v := p.value + value[cp + 1..];
      }
      var i := Hash(name);
      EqualNamesShareABucket(name, name);
      var m := Macro(name, v);
      ghost var before := defs;
      buckets[i] := [m] + buckets[i];
      defs := defs + [m];
      assert defs[..|defs| - 1] == before;
    }
  }
}
