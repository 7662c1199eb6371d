/**
 `sstr2arg` in its own form: it rewrites its input buffer with a write position
 that follows the read position and never passes it, and leaves in `argv` where
 each field begins.  What it leaves in the buffer are the fields `Tokens` finds
 in the original string.
 */
module TokenBuffer {
  import opened Wrappers
  import opened Tokens

  const NOTOK := -1

  /** A field stands at `at`, ended by a null character. */
  ghost predicate FieldAt(b: seq<char>, at: nat, f: string) {
    at + |f| < |b| && b[at..at + |f|] == f && b[at + |f|] == '\0'
  }

  /** From `src` on the buffer still holds the original string and its terminator. */
  ghost predicate Unread(b: seq<char>, s: string, src: nat) {
    |s| < |b| && src <= |s| && b[|s|] == '\0' && forall i :: src <= i < |s| ==> b[i] == s[i]
  }

  ghost predicate Untouched(b: seq<char>, b': seq<char>, low: nat, high: nat) {
    |b| == |b'| && forall i :: 0 <= i < |b| && (i < low || i > high) ==> b'[i] == b[i]
  }

  /** The octal loop: `src` is at the first digit, and the value builds up at `dest`. */
  method ReadOctal(buf: array<char>, ghost s: string, src0: nat, dest: nat) returns (src: nat)
    requires Unread(buf[..], s, src0) && dest < src0 < |s| && IsOctal(s[src0]) && '\0' !in s
    modifies buf
    ensures src == OctalEnd(s, src0 + 1) && src <= |s| && Unread(buf[..], s, src)
    ensures buf[dest] == OctalValue(s, src0, 0 as char)
    ensures forall i :: 0 <= i < buf.Length && i != dest ==> buf[i] == old(buf[i])
  {
    src := src0;
    buf[dest] := 0 as char;
    buf[dest] := OctalStep(buf[dest], buf[src]);
    src := src + 1;
    while IsOctal(buf[src])
      invariant src0 < src <= |s| && Unread(buf[..], s, src)
      invariant OctalEnd(s, src) == OctalEnd(s, src0 + 1)
      invariant OctalValue(s, src, buf[dest]) == OctalValue(s, src0, 0 as char)
      invariant forall i :: 0 <= i < buf.Length && i != dest ==> buf[i] == old(buf[i])
      decreases |s| - src
    {
      buf[dest] := OctalStep(buf[dest], buf[src]);
      src := src + 1;
    }
  }

  /** One turn of the loop: `dest` never passes `src`, so nothing unread is overwritten. */
  method Turn(buf: array<char>, ghost s: string, src: nat, dest: nat, quoted: bool, dlm: set<char>)
    returns (stop: Option<Stop>, src': nat, dest': nat, quoted': bool)
    requires Unread(buf[..], s, src) && dest <= src && '\0' !in s && '\0' !in dlm
    modifies buf
    ensures match StepAt(s, src, quoted, dlm)
            case Halt(why, next) =>
              && stop == Some(why) && src' == next
              && (why != PastEnd ==> dest < buf.Length && buf[dest] == '\0')
              && (why == AtDelimiter ==> Unread(buf[..], s, next))
            case Go(add, next, q) =>
              && stop == None && src' == next && quoted' == q && Unread(buf[..], s, next)
              && dest' == dest + |add| <= next && buf[dest..dest'] == add
    ensures Untouched(old(buf[..]), buf[..], dest, |s|)
  {
    stop, src', dest', quoted' := None, src, dest, quoted;
    if buf[src] in dlm {
      if quoted {
        buf[dest] := buf[src];
        dest', src' := dest + 1, src + 1;
      } else {
        src' := src + 1;
        buf[dest] := '\0';
        stop := Some(AtDelimiter);
      }
    } else if buf[src] == '\"' {
      quoted' := !quoted;
      src' := src + 1;
    } else if buf[src] == '\\' {
      if buf[src + 1] == '\0' {
        stop := Some(PastEnd);
      } else if IsOctal(buf[src + 1]) {
        src' := ReadOctal(buf, s, src + 1, dest);
        dest' := dest + 1;
      } else {
        buf[dest] := Escaped(buf[src + 1]);
        dest', src' := dest + 1, src + 2;
      }
    } else if buf[src] == '\0' {
      buf[dest] := '\0';
      stop := Some(AtEnd);
    } else {
      buf[dest] := buf[src];
      dest', src' := dest + 1, src + 1;
    }
  }

  /** One field, read from and written to the same place in the buffer. */
  method ReadInPlace(buf: array<char>, ghost s: string, src0: nat, dlm: set<char>) returns (stop: Stop, src: nat)
    requires Unread(buf[..], s, src0) && '\0' !in s && '\0' !in dlm
    modifies buf
    ensures var f := ReadField(s, src0, false, [], dlm);
            && stop == f.stop && src == f.next
            && (stop != PastEnd ==> FieldAt(buf[..], src0, f.text))
            && (stop == AtDelimiter ==> Unread(buf[..], s, src) && src0 + |f.text| < src)
    ensures Untouched(old(buf[..]), buf[..], src0, |s|)
  {
    src := src0;
    var dest := src0;
    var quoted := false;
    ghost var text: string := [];
    while true
      invariant src0 <= dest <= src <= |s| && Unread(buf[..], s, src)
      invariant dest == src0 + |text| && buf[src0..dest] == text
      invariant ReadField(s, src, quoted, text, dlm) == ReadField(s, src0, false, [], dlm)
      invariant Untouched(old(buf[..]), buf[..], src0, |s|)
      decreases |s| - src
    {
      ghost var step := StepAt(s, src, quoted, dlm);
      var halted, src', dest', quoted' := Turn(buf, s, src, dest, quoted, dlm);
      if halted.Some? {
        return halted.value, src';
      }
      assert buf[src0..dest'] == buf[src0..dest] + buf[dest..dest'];
      text := text + step.add;
      src, dest, quoted := src', dest', quoted';
    }
  }

  /** Skips leading blanks, as the loop before each field does. */
  method SkipLeading(buf: array<char>, ghost s: string, src0: nat) returns (src: nat)
    requires Unread(buf[..], s, src0)
    ensures src == SkipBlanks(s, src0)
  {
    src := src0;
    while buf[src] == ' ' || buf[src] == '\t'
      invariant src0 <= src <= |s| && SkipBlanks(s, src) == SkipBlanks(s, src0)
      decreases |s| - src
    {
      src := src + 1;
    }
  }

  /** The outcome of the C function: the fields and where they begin, or none. */
  ghost predicate Delivered(b: seq<char>, argv: seq<nat>, fields: seq<string>) {
    |argv| == |fields| && forall k :: 0 <= k < |argv| ==> FieldAt(b, argv[k], fields[k])
  }

  /**
   Splits the string in `buf` in place.  The result and what `argv` points to in
   the rewritten buffer are those of the tokenizer run on the original string;
   nothing behind its terminator is touched.
   */
  method Sstr2arg(buf: array<char>, ghost s: string, maxpf: int, dlm: set<char>) returns (r: int, argv: seq<nat>, beyond: bool)
    requires Unread(buf[..], s, 0) && '\0' !in s && '\0' !in dlm
    modifies buf
    ensures match Tokenize(s, maxpf, dlm)
            case Split(fields) => !beyond && r == |fields| && Delivered(buf[..], argv, fields)
            case TooMany => !beyond && r == NOTOK
            case Beyond => beyond
    ensures Untouched(old(buf[..]), buf[..], 0, |s|)
  {
    var limit := maxpf - 2;
    var src, ind := 0, 0;
    argv := [];
    beyond := false;
    ghost var fields: seq<string> := [];
    hide SplitFrom, ReadField, SkipBlanks;
    PrependMore([], [], SplitFrom(s, 0, 0, limit, dlm));
    while true
      invariant src <= |s| && Unread(buf[..], s, src) && ind == |fields| == |argv|
      invariant Tokenize(s, maxpf, dlm) == Prepend(fields, SplitFrom(s, src, ind, limit, dlm))
      invariant Delivered(buf[..], argv, fields) && forall k :: 0 <= k < ind ==> argv[k] + |fields[k]| < src
      invariant Untouched(old(buf[..]), buf[..], 0, |s|)
      decreases |s| - src
    {
      SplitStep(s, src, ind, limit, dlm);
      if ind >= limit {
        return NOTOK, argv, false;
      }
      var start := SkipLeading(buf, s, src);
      ghost var f := ReadField(s, start, false, [], dlm);
      ghost var before := buf[..];
      var stop, next := ReadInPlace(buf, s, start, dlm);
      StillDelivered(before, buf[..], argv, fields, start, |s|);
      PrependMore(fields, f.text, SplitFrom(s, if stop == AtDelimiter then next else |s|, ind + 1, limit, dlm));
      if stop == PastEnd {
        return NOTOK, argv, true;
      }
      argv := argv + [start];
      fields := fields + [f.text];
      ind := ind + 1;
      if stop == AtEnd {
        return ind, argv, false;
      }
      src := next;
    }
  }

  lemma PrependMore(fields: seq<string>, text: string, r: Result)
    ensures Prepend(fields, Prepend([text], r)) == Prepend(fields + [text], r)
    ensures Prepend(fields, Split([text])) == Split(fields + [text])
    ensures Prepend([], r) == r
  {
    if r.Split? {
      assert fields + ([text] + r.fields) == fields + [text] + r.fields;
      assert [] + r.fields == r.fields;
    }
  }

  /** Fields that end before the place being rewritten stay as they are. */
  lemma StillDelivered(b: seq<char>, b': seq<char>, argv: seq<nat>, fields: seq<string>, low: nat, high: nat)
    requires Delivered(b, argv, fields) && Untouched(b, b', low, high)
    requires forall k :: 0 <= k < |argv| ==> argv[k] + |fields[k]| < low
    ensures Delivered(b', argv, fields)
  {
    forall k | 0 <= k < |argv|
      ensures FieldAt(b', argv[k], fields[k])
    {
      assert FieldAt(b, argv[k], fields[k]);
      assert b'[argv[k]..argv[k] + |fields[k]|] == b[argv[k]..argv[k] + |fields[k]|];
    }
  }
}
