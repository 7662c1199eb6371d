/**
 Every way to write a field: blanks before it, characters as they are, quotes that
 switch delimiters off and on, and escapes by name or in octal.  What is split are
 the fields that are meant.
 */
module TokenEscapes {
  import opened Wrappers
  import opened Tokens

  /** A character, an escape by name, one in octal, or a quote. */
  datatype Piece = Char(c: char) | Named(c: char) | Octal(digits: string) | Flip

  /** Blanks, and what is written behind them. */
  datatype Field = Field(blanks: string, pieces: seq<Piece>)

  predicate OctalDigit(c: char) {
    c in "01234567"
  }

  predicate AllOctal(s: string) {
    forall i :: 0 <= i < |s| ==> OctalDigit(s[i])
  }

  predicate Blanks(s: string) {
    forall i :: 0 <= i < |s| ==> s[i] in " \t"
  }

  /** The number the digits spell. */
  function InOctal(digits: string): nat
    requires AllOctal(digits)
  {
    if digits == [] then 0
    else InOctal(digits[..|digits| - 1]) * 8 + (digits[|digits| - 1] as int - 48)
  }

  predicate Formed(p: Piece) {
    match p
    case Char(c) => c != '\"' && c != '\\'
    case Named(c) => !OctalDigit(c)
    case Octal(digits) => digits != [] && AllOctal(digits)
    case Flip => true
  }

  function TextOf(p: Piece): string {
    match p
    case Char(c) => [c]
    case Named(c) => ['\\', c]
    case Octal(digits) => ['\\'] + digits
    case Flip => ['\"']
  }

  function TextOfAll(ps: seq<Piece>): string {
    if ps == [] then [] else TextOf(ps[0]) + TextOfAll(ps[1..])
  }

  /** What is meant: backspace, newline, carriage return and tab have names, and octal numbers are cut to eight bits. */
  function MeantBy(p: Piece): string
    requires Formed(p)
  {
    match p
    case Char(c) => [c]
    case Named(c) =>
      [if c == 'b' then 8 as char else if c == 'n' then 10 as char
       else if c == 'r' then 13 as char else if c == 't' then 9 as char else c]
    case Octal(digits) => [(InOctal(digits) % 256) as char]
    case Flip => []
  }

  predicate AllFormed(ps: seq<Piece>) {
    forall i :: 0 <= i < |ps| ==> Formed(ps[i])
  }

  function MeantByAll(ps: seq<Piece>): string
    requires AllFormed(ps)
  {
    if ps == [] then [] else MeantBy(ps[0]) + MeantByAll(ps[1..])
  }

  predicate QuotedAfter(ps: seq<Piece>, quoted: bool) {
    if ps == [] then quoted else QuotedAfter(ps[1..], if ps[0].Flip? then !quoted else quoted)
  }

  /** No delimiter stands outside quotes, and no digit behind an octal number. */
  predicate Fit(ps: seq<Piece>, quoted: bool, dlm: set<char>) {
    ps == [] || (
      && (ps[0].Char? && ps[0].c in dlm ==> quoted)
      && (ps[0].Octal? && |ps| > 1 ==> !(ps[1].Char? && OctalDigit(ps[1].c)))
      && Fit(ps[1..], if ps[0].Flip? then !quoted else quoted, dlm))
  }

  // ----- Octal numbers -----

  lemma OctalDigitIs(c: char)
    ensures OctalDigit(c) <==> IsOctal(c)
    ensures OctalDigit(c) ==> 48 <= c as int < 56
  {
    if IsOctal(c) {
      assert "01234567"[c as int - 48] == c;
    }
  }

  lemma EightBits(n: nat, d: nat)
    ensures (n % 256 * 8 + d) % 256 == (n * 8 + d) % 256
  {
    assert n == n / 256 * 256 + n % 256;
    assert n * 8 + d == 256 * (n / 256 * 8) + (n % 256 * 8 + d);
  }

  /** From the `k`-th digit on. */
  lemma {:induction false} OctalFrom(s: string, i: nat, digits: string, k: nat)
    requires Has(s, i, digits) && AllOctal(digits) && k <= |digits|
    requires i + |digits| == |s| || !OctalDigit(s[i + |digits|])
    ensures OctalEnd(s, i + k) == i + |digits|
    ensures OctalValue(s, i + k, (InOctal(digits[..k]) % 256) as char) == (InOctal(digits) % 256) as char
    decreases |digits| - k
  {
    hide InOctal, OctalDigit;
    if k == |digits| {
      assert digits[..k] == digits;
      if i + k < |s| {
        OctalDigitIs(s[i + k]);
      }
    } else {
      var d := digits[k];
      assert s[i..i + |digits|][k] == s[i + k];
      OctalDigitIs(d);
      NextOctal(digits, k);
      EightBits(InOctal(digits[..k]), d as int - 48);
      OctalFrom(s, i, digits, k + 1);
    }
  }

  lemma NextOctal(digits: string, k: nat)
    requires AllOctal(digits) && k < |digits|
    ensures 48 <= digits[k] as int && InOctal(digits[..k + 1]) == InOctal(digits[..k]) * 8 + (digits[k] as int - 48)
  {
    assert digits[..k + 1][..k] == digits[..k];
    OctalDigitIs(digits[k]);
  }

  // ----- Pieces -----

  predicate Flipped(p: Piece, quoted: bool) {
    if p.Flip? then !quoted else quoted
  }

  /** What an octal number must not be followed by. */
  predicate Ends(s: string, i: nat) {
    i >= |s| || !OctalDigit(s[i])
  }

  lemma {:induction false} PieceReads(s: string, i: nat, p: Piece, quoted: bool, text: string, dlm: set<char>)
    requires Has(s, i, TextOf(p)) && Formed(p) && '\"' !in dlm && '\\' !in dlm
    requires p.Char? && p.c in dlm ==> quoted
    requires p.Octal? ==> Ends(s, i + |TextOf(p)|)
    ensures ReadField(s, i, quoted, text, dlm) ==
            ReadField(s, i + |TextOf(p)|, Flipped(p, quoted), text + MeantBy(p), dlm)
  {
    hide OctalDigit, InOctal;
    HasFirst(s, i, TextOf(p));
    match p
    case Char(_) =>
    case Named(c) =>
      assert s[i..i + 2][1] == s[i + 1];
      OctalDigitIs(c);
    case Octal(digits) => OctalPieceReads(s, i, digits, quoted, dlm);
    case Flip =>
  }

  lemma {:induction false} OctalPieceReads(s: string, i: nat, digits: string, quoted: bool, dlm: set<char>)
    requires Has(s, i, TextOf(Octal(digits))) && Formed(Octal(digits)) && '\\' !in dlm
    requires Ends(s, i + 1 + |digits|)
    ensures StepAt(s, i, quoted, dlm) == Go(MeantBy(Octal(digits)), i + 1 + |digits|, quoted)
  {
    hide OctalDigit, InOctal;
    HasFirst(s, i, TextOf(Octal(digits)));
    HasParts(s, i, ['\\'], digits);
    HasFirst(s, i + 1, digits);
    OctalDigitIs(digits[0]);
    NoOctal(digits);
    OctalFrom(s, i + 1, digits, 0);
    OctalFrom(s, i + 1, digits, 1);
  }

  lemma NoOctal(digits: string)
    requires AllOctal(digits)
    ensures InOctal(digits[..0]) == 0
  {
  }

  /** Whether the last piece is an octal number. */
  predicate OctalLast(ps: seq<Piece>) {
    ps != [] && ps[|ps| - 1].Octal?
  }

  lemma TextHead(p: Piece)
    ensures TextOf(p) != []
    ensures OctalDigit(TextOf(p)[0]) ==> p.Char? && OctalDigit(p.c)
  {
    OctalDigitIs('\\');
    OctalDigitIs('\"');
  }

  lemma TextNext(s: string, i: nat, ps: seq<Piece>)
    requires ps != [] && Has(s, i, TextOfAll(ps)) && AllFormed(ps)
    ensures Has(s, i, TextOf(ps[0])) && Has(s, i + |TextOf(ps[0])|, TextOfAll(ps[1..]))
    ensures |TextOfAll(ps)| == |TextOf(ps[0])| + |TextOfAll(ps[1..])| && AllFormed(ps[1..])
  {
    hide TextOf, Formed;
    HasParts(s, i, TextOf(ps[0]), TextOfAll(ps[1..]));
  }

  lemma NumberEnds(s: string, i: nat, ps: seq<Piece>)
    requires ps != [] && Has(s, i, TextOfAll(ps))
    requires !(ps[0].Char? && OctalDigit(ps[0].c))
    ensures Ends(s, i)
  {
    hide TextOf, OctalDigit;
    TextHead(ps[0]);
    HasParts(s, i, TextOf(ps[0]), TextOfAll(ps[1..]));
    HasFirst(s, i, TextOf(ps[0]));
  }

  /** What is written is read as what it means. */
  lemma {:induction false} PiecesRead(s: string, i: nat, ps: seq<Piece>, quoted: bool, text: string, dlm: set<char>)
    requires Has(s, i, TextOfAll(ps)) && AllFormed(ps) && Fit(ps, quoted, dlm) && '\"' !in dlm && '\\' !in dlm
    requires OctalLast(ps) ==> Ends(s, i + |TextOfAll(ps)|)
    ensures ReadField(s, i, quoted, text, dlm) ==
            ReadField(s, i + |TextOfAll(ps)|, QuotedAfter(ps, quoted), text + MeantByAll(ps), dlm)
    decreases |ps|
  {
    hide ReadField, TextOf, MeantBy, Formed, OctalDigit, Ends;
    if ps == [] {
      assert text + [] == text;
    } else {
      TextNext(s, i, ps);
      var p, rest := ps[0], ps[1..];
      if p.Octal? {
        if |ps| == 1 {
          assert TextOfAll(rest) == [];
        } else {
          NumberEnds(s, i + |TextOf(p)|, rest);
        }
      }
      PieceReads(s, i, p, quoted, text, dlm);
      PiecesRead(s, i + |TextOf(p)|, rest, Flipped(p, quoted), text + MeantBy(p), dlm);
      Regroup(text, MeantBy(p), MeantByAll(rest));
    }
  }

  lemma Regroup(a: string, b: string, c: string)
    ensures a + b + c == a + (b + c)
  {
  }

  // ----- Fields -----

  function Line(f: Field): string {
    f.blanks + TextOfAll(f.pieces)
  }

  /** The blanks are blanks, and what follows does not begin with another. */
  predicate Sound(f: Field, dlm: set<char>) {
    && Blanks(f.blanks) && AllFormed(f.pieces) && Fit(f.pieces, false, dlm)
    && (f.pieces != [] && f.pieces[0].Char? ==> f.pieces[0].c !in " \t")
  }

  lemma {:induction false} BlanksSkipped(s: string, i: nat, blanks: string)
    requires Has(s, i, blanks) && Blanks(blanks)
    requires i + |blanks| == |s| || s[i + |blanks|] !in " \t"
    ensures SkipBlanks(s, i) == i + |blanks|
    decreases |blanks|
  {
    if blanks == [] {
      if i < |s| {
        assert " \t"[0] == ' ' && " \t"[1] == '\t';
      }
    } else {
      HasFirst(s, i, blanks);
      assert blanks == [blanks[0]] + blanks[1..];
      HasParts(s, i, [blanks[0]], blanks[1..]);
      BlanksSkipped(s, i + 1, blanks[1..]);
    }
  }

  lemma TextIsNoBlank(p: Piece)
    requires p.Char? ==> p.c !in " \t"
    ensures TextOf(p) != [] && TextOf(p)[0] !in " \t"
  {
  }

  lemma BlanksEnd(s: string, i: nat, f: Field, dlm: set<char>)
    requires Has(s, i, Line(f)) && Sound(f, dlm)
    requires f.pieces == [] && i + |Line(f)| < |s| ==> s[i + |Line(f)|] !in " \t"
    ensures SkipBlanks(s, i) == i + |f.blanks| && Has(s, i + |f.blanks|, TextOfAll(f.pieces))
  {
    hide TextOf, Fit, QuotedAfter, Formed;
    HasParts(s, i, f.blanks, TextOfAll(f.pieces));
    var from := i + |f.blanks|;
    if f.pieces != [] {
      TextIsNoBlank(f.pieces[0]);
      HasParts(s, from, TextOf(f.pieces[0]), TextOfAll(f.pieces[1..]));
      HasFirst(s, from, TextOf(f.pieces[0]));
    }
    BlanksSkipped(s, i, f.blanks);
  }

  /** The field ends before this character: no quotes are open, and it is neither one more blank nor one more digit. */
  predicate EndsAt(f: Field, d: char) {
    !QuotedAfter(f.pieces, false) && (f.pieces == [] ==> d !in " \t") && (OctalLast(f.pieces) ==> !OctalDigit(d))
  }

  /** A field is read up to the end or to the delimiter behind it. */
  lemma {:induction false} FieldReads(s: string, i: nat, f: Field, dlm: set<char>)
    requires Has(s, i, Line(f)) && Sound(f, dlm) && '\"' !in dlm && '\\' !in dlm
    requires var next := i + |Line(f)|;
             next < |s| ==> s[next] in dlm && EndsAt(f, s[next])
    ensures var next := i + |Line(f)|;
            ReadField(s, SkipBlanks(s, i), false, [], dlm) ==
            if next == |s| then Scan(AtEnd, MeantByAll(f.pieces), |s|)
            else Scan(AtDelimiter, MeantByAll(f.pieces), next + 1)
  {
    hide TextOf, MeantBy, Formed, OctalDigit, SkipBlanks, Fit;
    BlanksEnd(s, i, f, dlm);
    PiecesRead(s, i + |f.blanks|, f.pieces, false, [], dlm);
    assert [] + MeantByAll(f.pieces) == MeantByAll(f.pieces);
  }

  function Written(fs: seq<Field>, ds: string): string
    requires |fs| == |ds| + 1
  {
    Line(fs[0]) + if |fs| == 1 then [] else [ds[0]] + Written(fs[1..], ds[1..])
  }

  function Meanings(fs: seq<Field>): (m: seq<string>)
    requires forall i :: 0 <= i < |fs| ==> AllFormed(fs[i].pieces)
    ensures |m| == |fs| && forall i :: 0 <= i < |fs| ==> m[i] == MeantByAll(fs[i].pieces)
  {
    seq(|fs|, i requires 0 <= i < |fs| => MeantByAll(fs[i].pieces))
  }

  /** Each field is sound, and each delimiter is one and no part of the field before it; quotes may be open at the very end. */
  predicate Separated(fs: seq<Field>, ds: string, dlm: set<char>)
    requires |fs| == |ds| + 1
  {
    && (forall i :: 0 <= i < |fs| ==> Sound(fs[i], dlm))
    && forall i :: 0 <= i < |ds| ==> ds[i] in dlm && EndsAt(fs[i], ds[i])
  }

  lemma SoundIsFormed(fs: seq<Field>, dlm: set<char>)
    requires forall i :: 0 <= i < |fs| ==> Sound(fs[i], dlm)
    ensures forall i :: 0 <= i < |fs| ==> AllFormed(fs[i].pieces)
  {
    hide Fit, QuotedAfter, AllFormed, Blanks;
  }

  lemma {:induction false} LastFieldReads(s: string, i: nat, f: Field, dlm: set<char>)
    requires i <= |s| && s[i..] == Line(f) && Sound(f, dlm) && '\"' !in dlm && '\\' !in dlm
    ensures ReadField(s, SkipBlanks(s, i), false, [], dlm) == Scan(AtEnd, MeantByAll(f.pieces), |s|)
  {
    hide ReadField, Line, MeantByAll, OctalDigit, SkipBlanks, Fit, QuotedAfter, AllFormed;
    assert Has(s, i, Line(f)) && i + |Line(f)| == |s|;
    FieldReads(s, i, f, dlm);
  }

  lemma {:induction false} FirstFieldReads(s: string, i: nat, f: Field, d: char, rest: string, dlm: set<char>)
    requires i <= |s| && s[i..] == Line(f) + ([d] + rest) && Sound(f, dlm) && '\"' !in dlm && '\\' !in dlm
    requires d in dlm && EndsAt(f, d)
    ensures var next := i + |Line(f)| + 1;
            && next <= |s| && s[next..] == rest
            && ReadField(s, SkipBlanks(s, i), false, [], dlm) == Scan(AtDelimiter, MeantByAll(f.pieces), next)
  {
    hide ReadField, Line, MeantByAll, OctalDigit, SkipBlanks, Fit, QuotedAfter, AllFormed;
    var end := i + |Line(f)|;
    assert Has(s, i, Line(f) + ([d] + rest));
    HasParts(s, i, Line(f), [d] + rest);
    HasParts(s, end, [d], rest);
    HasFirst(s, end, [d]);
    FieldReads(s, i, f, dlm);
  }

  lemma MeaningsNext(fs: seq<Field>)
    requires fs != [] && forall i :: 0 <= i < |fs| ==> AllFormed(fs[i].pieces)
    ensures Meanings(fs) == [MeantByAll(fs[0].pieces)] + Meanings(fs[1..])
  {
    hide MeantByAll, AllFormed;
  }

  lemma SeparatedNext(fs: seq<Field>, ds: string, dlm: set<char>)
    requires |fs| == |ds| + 1 && Separated(fs, ds, dlm) && |fs| > 1
    ensures Separated(fs[1..], ds[1..], dlm)
  {
    hide Sound, OctalLast, OctalDigit;
  }

  lemma {:induction false} FieldsSplit(s: string, i: nat, fs: seq<Field>, ds: string, ind: nat, limit: int, dlm: set<char>)
    requires |fs| == |ds| + 1 && Separated(fs, ds, dlm) && '\"' !in dlm && '\\' !in dlm
    requires i <= |s| && s[i..] == Written(fs, ds)
    requires forall j :: 0 <= j < |fs| ==> AllFormed(fs[j].pieces)
    ensures SplitFrom(s, i, ind, limit, dlm) == if ind + |fs| <= limit then Split(Meanings(fs)) else TooMany
    decreases |fs|
  {
    hide ReadField, Line, MeantByAll, OctalDigit, SkipBlanks, Sound, Meanings, AllFormed, SplitFrom;
    var f := fs[0];
    MeaningsNext(fs);
    SplitStep(s, i, ind, limit, dlm);
    if |fs| == 1 {
      assert Written(fs, ds) == Line(f) + [] == Line(f);
      LastFieldReads(s, i, f, dlm);
      assert Meanings(fs[1..]) == [];
    } else {
      FirstFieldReads(s, i, f, ds[0], Written(fs[1..], ds[1..]), dlm);
      SeparatedNext(fs, ds, dlm);
      FieldsSplit(s, i + |Line(f)| + 1, fs[1..], ds[1..], ind + 1, limit, dlm);
    }
  }

  /** Whatever the pieces, blanks and delimiters, what is split is what is meant, exactly when there are places for the fields. */
  lemma TokenizeMeans(fs: seq<Field>, ds: string, maxpf: int, dlm: set<char>)
    requires |fs| == |ds| + 1 && Separated(fs, ds, dlm) && '\"' !in dlm && '\\' !in dlm
    ensures forall i :: 0 <= i < |fs| ==> AllFormed(fs[i].pieces)
    ensures Tokenize(Written(fs, ds), maxpf, dlm) == if |fs| <= maxpf - 2 then Split(Meanings(fs)) else TooMany
  {
    hide Sound, OctalDigit;
    SoundIsFormed(fs, dlm);
    var s := Written(fs, ds);
    assert s[0..] == s;
    FieldsSplit(s, 0, fs, ds, 0, maxpf - 2, dlm);
  }
}
