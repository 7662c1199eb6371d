/**
 The tokenizer of compat/sstr2arg.c, which splits a string into fields in place:
 `argv` points into the very buffer that is being rewritten.  Here it is as a
 function of the original string, with quoting and escapes, and the fields that
 survive being quoted, joined and split again.
 */
module Tokens {
  import opened Wrappers

  /** Why a field ended: at a delimiter, at the end, or with a backslash at the end, beyond which C would read on. */
  datatype Stop = AtDelimiter | AtEnd | PastEnd
  datatype Scan = Scan(stop: Stop, text: string, next: nat)
  datatype Result = Split(fields: seq<string>) | TooMany | Beyond

  predicate IsBlank(c: char) {
    c == ' ' || c == '\t'
  }

  predicate IsOctal(c: char) {
    '0' <= c <= '7'
  }

  function SkipBlanks(s: string, i: nat): (j: nat)
    requires i <= |s|
    ensures i <= j <= |s|
    decreases |s| - i
  {
    if i < |s| && IsBlank(s[i]) then SkipBlanks(s, i + 1) else i
  }

  /** One octal digit more, in an 8-bit character. */
  function OctalStep(c: char, d: char): char
    requires IsOctal(d)
  {
    ((c as int * 8 + (d as int - '0' as int)) % 256) as char
  }

  function OctalEnd(s: string, i: nat): (j: nat)
    requires i <= |s|
    ensures i <= j <= |s|
    decreases |s| - i
  {
    if i < |s| && IsOctal(s[i]) then OctalEnd(s, i + 1) else i
  }

  function OctalValue(s: string, i: nat, c: char): char
    requires i <= |s|
    decreases |s| - i
  {
    if i < |s| && IsOctal(s[i]) then OctalValue(s, i + 1, OctalStep(c, s[i])) else c
  }

  function Escaped(c: char): char {
    match c
    case 'b' => 8 as char
    case 'n' => '\n'
    case 'r' => '\r'
    case 't' => '\t'
    case _ => c
  }

  /** One turn of the loop over a field: it ends, or something is added and reading goes on at `next`. */
  datatype Step = Halt(stop: Stop, next: nat) | Go(add: string, next: nat, quoted: bool)

  function StepAt(s: string, i: nat, quoted: bool, dlm: set<char>): (r: Step)
    requires i <= |s|
    ensures r.Go? ==> i < r.next <= |s|
    ensures r.Halt? ==> i <= r.next <= |s| && (r.stop == AtDelimiter ==> i < r.next)
  {
    if i == |s| then Halt(AtEnd, i)
    else if s[i] in dlm then
      if quoted then Go([s[i]], i + 1, quoted) else Halt(AtDelimiter, i + 1)
    else if s[i] == '\"' then Go([], i + 1, !quoted)
    else if s[i] == '\\' then
      if i + 1 == |s| then Halt(PastEnd, i)
      else if IsOctal(s[i + 1]) then Go([OctalValue(s, i + 1, 0 as char)], OctalEnd(s, i + 2), quoted)
      else Go([Escaped(s[i + 1])], i + 2, quoted)
    else Go([s[i]], i + 1, quoted)
  }

  /** The field read from `i` on, of which `text` has been read. */
  function ReadField(s: string, i: nat, quoted: bool, text: string, dlm: set<char>): (r: Scan)
    requires i <= |s|
    ensures i <= r.next <= |s|
    ensures r.stop == AtDelimiter ==> i < r.next
    decreases |s| - i
  {
    match StepAt(s, i, quoted, dlm)
    case Halt(stop, next) => Scan(stop, text, next)
    case Go(add, next, q) => ReadField(s, next, q, text + add, dlm)
  }

  function Prepend(fields: seq<string>, r: Result): Result {
    if r.Split? then Split(fields + r.fields) else r
  }

  /** The fields from `i` on, of which `ind` have been read and at most `limit` are allowed. */
  function SplitFrom(s: string, i: nat, ind: nat, limit: int, dlm: set<char>): Result
    requires i <= |s|
    decreases |s| - i
  {
    if ind >= limit then TooMany
    else
      var f := ReadField(s, SkipBlanks(s, i), false, [], dlm);
      match f.stop
      case AtEnd => Split([f.text])
      case PastEnd => Beyond
      case AtDelimiter => Prepend([f.text], SplitFrom(s, f.next, ind + 1, limit, dlm))
  }

  /** One field more. */
  lemma SplitStep(s: string, i: nat, ind: nat, limit: int, dlm: set<char>)
    requires i <= |s|
    ensures var f := ReadField(s, SkipBlanks(s, i), false, [], dlm);
            SplitFrom(s, i, ind, limit, dlm) ==
            if ind >= limit then TooMany
            else if f.stop == AtEnd then Split([f.text])
            else if f.stop == PastEnd then Beyond
            else Prepend([f.text], SplitFrom(s, f.next, ind + 1, limit, dlm))
  {
  }

  /** `sstr2arg` with `maxpf` places for pointers, of which two are kept free. */
  function Tokenize(s: string, maxpf: int, dlm: set<char>): Result {
    SplitFrom(s, 0, 0, maxpf - 2, dlm)
  }

  // ----- Quoting undone -----

  function EscapeOne(c: char): string {
    if c == '\"' || c == '\\' then ['\\', c] else [c]
  }

  function Escape(f: string): string {
    if f == [] then []
    else EscapeOne(f[0]) + Escape(f[1..])
  }

  function Quote(f: string): string {
    ['\"'] + Escape(f) + ['\"']
  }

  function Join(fields: seq<string>, d: char): string
    requires fields != []
  {
    if |fields| == 1 then Quote(fields[0]) else Quote(fields[0]) + [d] + Join(fields[1..], d)
  }

  /** `t` stands in `s` at `i`. */
  predicate Has(s: string, i: nat, t: string) {
    i + |t| <= |s| && s[i..i + |t|] == t
  }

  lemma HasParts(s: string, i: nat, a: string, b: string)
    requires Has(s, i, a + b)
    ensures Has(s, i, a) && Has(s, i + |a|, b)
  {
    assert a == (a + b)[..|a|] && b == (a + b)[|a|..];
  }

  lemma HasFirst(s: string, i: nat, t: string)
    requires Has(s, i, t) && t != []
    ensures i < |s| && s[i] == t[0]
  {
    assert s[i..i + |t|][0] == s[i];
  }

  lemma {:induction false} QuoteToggles(s: string, i: nat, quoted: bool, text: string, dlm: set<char>)
    requires i < |s| && s[i] == '\"' && '\"' !in dlm
    ensures ReadField(s, i, quoted, text, dlm) == ReadField(s, i + 1, !quoted, text, dlm)
    ensures SkipBlanks(s, i) == i
  {
    assert text + [] == text;
  }

  lemma {:induction false} EscapedCharReads(s: string, i: nat, c: char, text: string, dlm: set<char>)
    requires Has(s, i, EscapeOne(c)) && '\"' !in dlm && '\\' !in dlm
    ensures ReadField(s, i, true, text, dlm) == ReadField(s, i + |EscapeOne(c)|, true, text + [c], dlm)
  {
    HasFirst(s, i, EscapeOne(c));
    if |EscapeOne(c)| == 2 {
      assert s[i..i + 2][1] == s[i + 1];
    }
  }

  lemma Shift(text: string, f: string)
    requires f != []
    ensures text + [f[0]] + f[1..] == text + f
  {
  }

  /** Inside quotes an escaped field is read as the field, delimiters and all. */
  lemma {:induction false} EscapedReadsBack(s: string, i: nat, f: string, text: string, dlm: set<char>)
    requires Has(s, i, Escape(f)) && '\"' !in dlm && '\\' !in dlm
    ensures ReadField(s, i, true, text, dlm) == ReadField(s, i + |Escape(f)|, true, text + f, dlm)
    decreases |f|
  {
    hide ReadField, EscapeOne;
    if f == [] {
      assert text + f == text;
    } else {
      HasParts(s, i, EscapeOne(f[0]), Escape(f[1..]));
      EscapedCharReads(s, i, f[0], text, dlm);
      var next := i + |EscapeOne(f[0])|;
      EscapedReadsBack(s, next, f[1..], text + [f[0]], dlm);
      assert next + |Escape(f[1..])| == i + |Escape(f)|;
      Shift(text, f);
    }
  }

  /** A quoted field is read whole, up to what follows the closing quote. */
  lemma {:induction false} QuotedReadsBack(s: string, i: nat, f: string, dlm: set<char>)
    requires Has(s, i, Quote(f)) && '\"' !in dlm && '\\' !in dlm
    ensures i + |Quote(f)| <= |s| && SkipBlanks(s, i) == i
    ensures ReadField(s, i, false, [], dlm) == ReadField(s, i + |Quote(f)|, false, f, dlm)
  {
    hide ReadField, Escape, SkipBlanks;
    HasParts(s, i, ['\"'] + Escape(f), ['\"']);
    HasParts(s, i, ['\"'], Escape(f));
    HasFirst(s, i, ['\"']);
    HasFirst(s, i + 1 + |Escape(f)|, ['\"']);
    var inside, close := i + 1, i + 1 + |Escape(f)|;
    QuoteToggles(s, i, false, [], dlm);
    EscapedReadsBack(s, inside, f, [], dlm);
    assert [] + f == f;
    QuoteToggles(s, close, true, f, dlm);
    assert close + 1 == i + |Quote(f)|;
  }

  lemma {:induction false} LastFieldReads(s: string, i: nat, f: string, dlm: set<char>)
    requires i <= |s| && s[i..] == Quote(f) && '\"' !in dlm && '\\' !in dlm
    ensures ReadField(s, SkipBlanks(s, i), false, [], dlm) == Scan(AtEnd, f, |s|)
  {
    assert Has(s, i, Quote(f));
    QuotedReadsBack(s, i, f, dlm);
    assert i + |Quote(f)| == |s|;
  }

  lemma {:induction false} FirstFieldReads(s: string, i: nat, f: string, d: char, rest: string, dlm: set<char>)
    requires i <= |s| && s[i..] == Quote(f) + [d] + rest && d in dlm && '\"' !in dlm && '\\' !in dlm
    ensures var next := i + |Quote(f)| + 1;
            && next <= |s| && s[next..] == rest
            && ReadField(s, SkipBlanks(s, i), false, [], dlm) == Scan(AtDelimiter, f, next)
  {
    var end := i + |Quote(f)|;
    assert Has(s, i, (Quote(f) + [d]) + rest);
    HasParts(s, i, Quote(f) + [d], rest);
    HasParts(s, i, Quote(f), [d]);
    HasFirst(s, end, [d]);
    QuotedReadsBack(s, i, f, dlm);
    assert StepAt(s, end, false, dlm) == Halt(AtDelimiter, end + 1);
  }

  lemma {:induction false} LastSplit(s: string, i: nat, f: string, ind: nat, limit: int, dlm: set<char>)
    requires i <= |s| && s[i..] == Quote(f) && '\"' !in dlm && '\\' !in dlm
    ensures SplitFrom(s, i, ind, limit, dlm) == if ind < limit then Split([f]) else TooMany
  {
    LastFieldReads(s, i, f, dlm);
  }

  lemma {:induction false} FirstSplit(s: string, i: nat, f: string, d: char, rest: string, ind: nat, limit: int, dlm: set<char>)
    requires i <= |s| && s[i..] == Quote(f) + [d] + rest && d in dlm && '\"' !in dlm && '\\' !in dlm
    ensures var next := i + |Quote(f)| + 1;
            next <= |s| && s[next..] == rest &&
            SplitFrom(s, i, ind, limit, dlm) ==
            if ind < limit then Prepend([f], SplitFrom(s, next, ind + 1, limit, dlm)) else TooMany
  {
    FirstFieldReads(s, i, f, d, rest, dlm);
  }

  lemma {:induction false} JoinedSplits(s: string, i: nat, fields: seq<string>, d: char, ind: nat, limit: int, dlm: set<char>)
    requires fields != [] && d in dlm && '\"' !in dlm && '\\' !in dlm
    requires i <= |s| && s[i..] == Join(fields, d)
    ensures SplitFrom(s, i, ind, limit, dlm) == if ind + |fields| <= limit then Split(fields) else TooMany
    decreases |fields|
  {
    hide SplitFrom, Quote;
    if |fields| == 1 {
      LastSplit(s, i, fields[0], ind, limit, dlm);
      assert [fields[0]] == fields;
    } else {
      FirstSplit(s, i, fields[0], d, Join(fields[1..], d), ind, limit, dlm);
      JoinedSplits(s, i + |Quote(fields[0])| + 1, fields[1..], d, ind + 1, limit, dlm);
      assert [fields[0]] + fields[1..] == fields;
    }
  }

  /** Quoted fields joined by any delimiter come back as they were, exactly when there are places for them. */
  lemma TokenizeUndoesJoin(fields: seq<string>, d: char, maxpf: int, dlm: set<char>)
    requires fields != [] && d in dlm && '\"' !in dlm && '\\' !in dlm
    ensures Tokenize(Join(fields, d), maxpf, dlm) == if |fields| <= maxpf - 2 then Split(fields) else TooMany
  {
    assert Join(fields, d)[0..] == Join(fields, d);
    JoinedSplits(Join(fields, d), 0, fields, d, 0, maxpf - 2, dlm);
  }

  // ----- How many fields -----

  /** A successful call returns at least one field and leaves two places free. */
  lemma {:induction false} FieldsFit(s: string, i: nat, ind: nat, limit: int, dlm: set<char>)
    requires i <= |s| && SplitFrom(s, i, ind, limit, dlm).Split?
    ensures 1 <= |SplitFrom(s, i, ind, limit, dlm).fields| <= limit - ind
    decreases |s| - i
  {
    var f := ReadField(s, SkipBlanks(s, i), false, [], dlm);
    if f.stop == AtDelimiter {
      FieldsFit(s, f.next, ind + 1, limit, dlm);
    }
  }
}
