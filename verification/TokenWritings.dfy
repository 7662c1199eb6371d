/**
 Every string there is is some writing of fields, and so the tokenizer's answer to
 every string is what its fields mean, too many of them, or a backslash at the end.
 */
module TokenWritings {
  import opened Wrappers
  import opened Tokens
  import opened TokenEscapes

  // ----- Reading a string as a writing -----

  lemma OctalRun(s: string, i: nat) returns (e: nat)
    requires i <= |s|
    ensures i <= e <= |s| && AllOctal(s[i..e]) && Ends(s, e) && (i < |s| && OctalDigit(s[i]) ==> i < e)
    decreases |s| - i
  {
    e := i;
    if i < |s| && OctalDigit(s[i]) {
      e := OctalRun(s, i + 1);
      assert s[i..e] == [s[i]] + s[i + 1..e];
    }
  }

  lemma BlankRun(s: string, i: nat) returns (e: nat)
    requires i <= |s|
    ensures i <= e <= |s| && Blanks(s[i..e]) && (e < |s| ==> s[e] !in " \t")
    decreases |s| - i
  {
    e := i;
    if i < |s| && s[i] in " \t" {
      e := BlankRun(s, i + 1);
      assert s[i..e] == [s[i]] + s[i + 1..e];
    }
  }

  /** Where the pieces of a field end: with the string, before a delimiter, or before a backslash that ends the string. */
  predicate Stops(s: string, i: nat, quoted: bool, dlm: set<char>)
    requires i <= |s|
  {
    i == |s| || (s[i] in dlm && !quoted) || (s[i] == '\\' && i + 1 == |s|)
  }

  /** The piece at the head of what is left. */
  lemma OnePiece(s: string, i: nat, quoted: bool, dlm: set<char>) returns (p: Piece, n: nat)
    requires i <= |s| && !Stops(s, i, quoted, dlm) && '\"' !in dlm && '\\' !in dlm
    ensures i < n <= |s| && s[i..n] == TextOf(p) && Formed(p)
    ensures p.Char? ==> p.c == s[i] && (p.c in dlm ==> quoted)
    ensures p.Octal? ==> Ends(s, n)
  {
    hide OctalDigit;
    if s[i] == '\"' {
      p, n := Flip, i + 1;
    } else if s[i] != '\\' {
      p, n := Char(s[i]), i + 1;
    } else if OctalDigit(s[i + 1]) {
      n := OctalRun(s, i + 1);
      p := Octal(s[i + 1..n]);
      assert s[i..n] == ['\\'] + s[i + 1..n];
    } else {
      p, n := Named(s[i + 1]), i + 2;
    }
  }

  lemma {:induction false} SomePieces(s: string, i: nat, quoted: bool, dlm: set<char>) returns (ps: seq<Piece>, end: nat)
    requires i <= |s| && '\"' !in dlm && '\\' !in dlm
    ensures i <= end <= |s| && s[i..end] == TextOfAll(ps) && AllFormed(ps) && Fit(ps, quoted, dlm)
    ensures OctalLast(ps) ==> Ends(s, end)
    ensures ps != [] && ps[0].Char? ==> i < |s| && ps[0].c == s[i]
    ensures Stops(s, end, QuotedAfter(ps, quoted), dlm)
    decreases |s| - i
  {
    hide TextOf, Formed, OctalDigit;
    ps, end := [], i;
    if !Stops(s, i, quoted, dlm) {
      var p, n := OnePiece(s, i, quoted, dlm);
      var rest, e := SomePieces(s, n, Flipped(p, quoted), dlm);
      ps, end := [p] + rest, e;
      assert ps[1..] == rest;
      assert s[i..end] == s[i..n] + s[n..end];
    }
  }

  lemma OneField(s: string, i: nat, dlm: set<char>) returns (f: Field, end: nat)
    requires i <= |s| && '\"' !in dlm && '\\' !in dlm
    ensures i <= end <= |s| && s[i..end] == Line(f) && Sound(f, dlm) && Stops(s, end, QuotedAfter(f.pieces, false), dlm)
    ensures end < |s| && !QuotedAfter(f.pieces, false) ==> EndsAt(f, s[end])
  {
    hide TextOf, Formed, OctalDigit, Fit, QuotedAfter, TextOfAll;
    var from := BlankRun(s, i);
    var ps;
    ps, end := SomePieces(s, from, false, dlm);
    f := Field(s[i..from], ps);
    assert s[i..end] == s[i..from] + s[from..end];
    assert ps == [] ==> end == from by {
      NoText(ps);
    }
  }

  lemma NoText(ps: seq<Piece>)
    ensures ps == [] ==> TextOfAll(ps) == []
  {
  }

  lemma OneMore(f: Field, d: char, fs: seq<Field>, ds: string, dlm: set<char>)
    requires |fs| == |ds| + 1 && Separated(fs, ds, dlm) && Sound(f, dlm) && d in dlm && EndsAt(f, d)
    ensures Separated([f] + fs, [d] + ds, dlm) && Written([f] + fs, [d] + ds) == Line(f) + ([d] + Written(fs, ds))
  {
    hide Sound, EndsAt, Line;
    assert ([f] + fs)[1..] == fs && ([d] + ds)[1..] == ds;
  }

  lemma OnlyOne(f: Field, dlm: set<char>)
    requires Sound(f, dlm)
    ensures Separated([f], [], dlm) && Written([f], []) == Line(f)
  {
    hide Sound, Line;
    assert Line(f) + [] == Line(f);
  }

  /** What is left of a string when its last character is a backslash that escapes nothing. */
  function Tail(lost: bool): string {
    if lost then ['\\'] else []
  }

  lemma {:induction false} SomeFields(s: string, i: nat, dlm: set<char>) returns (fs: seq<Field>, ds: string, lost: bool)
    requires i <= |s| && '\"' !in dlm && '\\' !in dlm
    ensures |fs| == |ds| + 1 && Separated(fs, ds, dlm) && s[i..] == Written(fs, ds) + Tail(lost)
    decreases |s| - i
  {
    hide Sound, EndsAt, Line, QuotedAfter, Separated, Written;
    var f, end := OneField(s, i, dlm);
    OnlyOne(f, dlm);
    fs, ds, lost := [f], [], end < |s|;
    if end == |s| {
      assert s[i..] == s[i..end];
    } else if s[end] in dlm {
      fs, ds, lost := SomeFields(s, end + 1, dlm);
      OneMore(f, s[end], fs, ds, dlm);
      assert s[i..] == s[i..end] + ([s[end]] + s[end + 1..]);
      fs, ds := [f] + fs, [s[end]] + ds;
    } else {
      assert s[i..] == s[i..end] + [s[end]];
    }
  }

  // ----- Splitting it -----

  lemma {:induction false} LostFieldReads(s: string, i: nat, f: Field, dlm: set<char>)
    requires i <= |s| && s[i..] == Line(f) + ['\\'] && Sound(f, dlm) && '\"' !in dlm && '\\' !in dlm
    ensures ReadField(s, SkipBlanks(s, i), false, [], dlm).stop == PastEnd
  {
    hide TextOf, MeantBy, Formed, SkipBlanks, Fit, ReadField, OctalDigit, QuotedAfter, MeantByAll, TextOfAll;
    var end := i + |Line(f)|;
    assert Has(s, i, Line(f) + ['\\']);
    HasParts(s, i, Line(f), ['\\']);
    HasFirst(s, end, ['\\']);
    BackslashEnds();
    BlanksEnd(s, i, f, dlm);
    PiecesRead(s, i + |f.blanks|, f.pieces, false, [], dlm);
    BackslashStops(s, end, QuotedAfter(f.pieces, false), [] + MeantByAll(f.pieces), dlm);
  }

  lemma BackslashStops(s: string, i: nat, quoted: bool, text: string, dlm: set<char>)
    requires i + 1 == |s| && s[i] == '\\' && '\\' !in dlm
    ensures ReadField(s, i, quoted, text, dlm).stop == PastEnd
  {
    assert StepAt(s, i, quoted, dlm) == Halt(PastEnd, i);
  }

  lemma BackslashEnds()
    ensures '\\' !in " \t" && !OctalDigit('\\')
  {
    OctalDigitIs('\\');
  }

  lemma {:induction false} FieldsLost(s: string, i: nat, fs: seq<Field>, ds: string, ind: nat, limit: int, dlm: set<char>)
    requires |fs| == |ds| + 1 && Separated(fs, ds, dlm) && '\"' !in dlm && '\\' !in dlm
    requires i <= |s| && s[i..] == Written(fs, ds) + ['\\']
    ensures SplitFrom(s, i, ind, limit, dlm) == if ind + |fs| <= limit then Beyond else TooMany
    decreases |fs|
  {
    hide ReadField, Line, MeantByAll, OctalDigit, SkipBlanks, Sound, SplitFrom;
    var f := fs[0];
    SplitStep(s, i, ind, limit, dlm);
    if |fs| == 1 {
      assert Written(fs, ds) == Line(f) + [] == Line(f);
      LostFieldReads(s, i, f, dlm);
    } else {
      var rest := Written(fs[1..], ds[1..]);
      assert Written(fs, ds) + ['\\'] == Line(f) + ([ds[0]] + (rest + ['\\']));
      TokenEscapes.FirstFieldReads(s, i, f, ds[0], rest + ['\\'], dlm);
      SeparatedNext(fs, ds, dlm);
      FieldsLost(s, i + |Line(f)| + 1, fs[1..], ds[1..], ind + 1, limit, dlm);
    }
  }

  /**
   Every string is a writing of fields, behind which a backslash may be left that escapes
   nothing; it is split into what these mean, or there are too many of them, or C would
   read beyond the backslash.
   */
  lemma {:induction false} EveryStringIsSplit(s: string, maxpf: int, dlm: set<char>) returns (fs: seq<Field>, ds: string, lost: bool)
    requires '\"' !in dlm && '\\' !in dlm
    ensures |fs| == |ds| + 1 && Separated(fs, ds, dlm) && s == Written(fs, ds) + Tail(lost)
    ensures forall i :: 0 <= i < |fs| ==> AllFormed(fs[i].pieces)
    ensures Tokenize(s, maxpf, dlm) ==
            if |fs| > maxpf - 2 then TooMany else if lost then Beyond else Split(Meanings(fs))
  {
    hide Sound, OctalDigit, Written;
    fs, ds, lost := SomeFields(s, 0, dlm);
    assert s[0..] == s;
    SoundIsFormed(fs, dlm);
    if lost {
      FieldsLost(s, 0, fs, ds, 0, maxpf - 2, dlm);
    } else {
      assert s == Written(fs, ds);
      TokenizeMeans(fs, ds, maxpf, dlm);
    }
  }
}
