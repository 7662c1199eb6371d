/**
 What the directory streams of dirent/ yield: `readdir` goes through the entries
 one by one, `seekdir` finds every entry by its `d_off`, rewinding at most once,
 and `telldir` gives a position that `seekdir` can use.
 */
module DirTheorems {
  import opened Wrappers
  import opened Directory

  // ----- Buffers, one after the other -----

  lemma {:induction false} FlatConcat(a: seq<Buffer>, b: seq<Buffer>)
    ensures Flat(a + b) == Flat(a) + Flat(b)
  {
    if a == [] {
      assert a + b == b;
    } else {
      FlatConcat(a[1..], b);
      assert (a + b)[1..] == a[1..] + b && (a + b)[0] == a[0];
      JoinLater(a[0], Flat(a[1..]), Flat(b));
    }
  }

  lemma JoinLater(a: Buffer, b: Buffer, c: Buffer)
    ensures a + (b + c) == (a + b) + c
  {
  }

  lemma FlatSplit(bs: seq<Buffer>, i: nat)
    requires i <= |bs|
    ensures Flat(bs) == Flat(bs[..i]) + Flat(bs[i..])
  {
    FlatConcat(bs[..i], bs[i..]);
    assert bs == bs[..i] + bs[i..];
  }

  lemma FlatNext(bs: seq<Buffer>, i: nat)
    requires i < |bs|
    ensures Flat(bs[i..]) == bs[i] + Flat(bs[i + 1..])
  {
    assert bs[i..][1..] == bs[i + 1..];
  }

  ghost predicate Filled(bs: seq<Buffer>) {
    forall i :: 0 <= i < |bs| ==> bs[i] != [] && Size(bs[i]) > 0
  }

  lemma {:induction false} BuffersFilled(dir: seq<Block>, at: nat)
    requires Readable(dir) && at <= |dir|
    ensures Filled(Buffers(dir, at))
    decreases |dir| - at
  {
    var r := Getdents(dir, at);
    if r.0.Entries? {
      GetdentsWithin(dir, at, r.0.es, r.1);
      BuffersFilled(dir, r.1);
    }
  }

  /** A call yields the next buffer, or the end when there is none. */
  lemma GetdentsNext(dir: seq<Block>, at: nat)
    requires Readable(dir) && at <= |dir|
    ensures var (d, next) := Getdents(dir, at);
            && at <= next <= |dir| && !d.Failure?
            && (d.Entries? ==> Buffers(dir, at) == [d.es] + Buffers(dir, next))
            && (d.EndOfFile? ==> Buffers(dir, at) == [] && Buffers(dir, next) == [])
  {
    GetdentsReads(dir, at, Offset(dir, at));
    var r := Getdents(dir, at);
    if r.0.EndOfFile? {
      EndIsTheEnd(dir, at, Offset(dir, at));
    }
  }

  lemma {:induction false} EndIsTheEnd(dir: seq<Block>, at: nat, offset: int)
    requires Readable(dir) && at <= |dir| && GetdentsFrom(dir, at, offset).0.EndOfFile?
    ensures GetdentsFrom(dir, at, offset).1 == |dir|
    decreases |dir| - at
  {
    hide Convert, ConvertedSize;
    if at < |dir| {
      assert dir[at] != [];
      EndIsTheEnd(dir, at + 1, offset);
    }
  }

  /**
   `telldir` at the end of a buffer gives the file offset.  That is the position
   of the next entry exactly when the entry comes first in its block.
   */
  lemma TelldirAtBoundary(dir: seq<Block>, at: nat, es: Buffer, next: nat)
    requires Readable(dir) && at <= |dir| && Getdents(dir, at) == (Entries(es), next)
    ensures es != [] && 0 < next <= |dir| && dir[next - 1] != []
    ensures es[0].off == Offset(dir, at) <==> dir[next - 1][0].ino != 0
  {
    GetdentsConverts(dir, at, es, next);
    FirstConverted(dir[next - 1], Offset(dir, at));
  }

  lemma {:induction false} FirstConverted(b: Block, offset: int)
    requires Sound(b) && b != []
    ensures var es := Convert(b, offset);
            && (b[0].ino != 0 ==> es != [] && es[0].off == offset)
            && (b[0].ino == 0 && es != [] ==> es[0].off > offset)
  {
    var n := |b| - 1;
    if n > 0 {
      FirstConverted(b[..n], offset);
      assert b[..n][0] == b[0];
      assert BlockSize(b[..n]) > 0;
    } else {
      assert b[..0] == [];
    }
  }

  /** `rest` begins at the entry of `all` whose offset is `loc`, if there is one. */
  ghost predicate StartsAt(all: Buffer, loc: int, rest: Buffer) {
    forall p :: 0 <= p < |all| && all[p].off == loc ==> rest == all[p..]
  }

  ghost predicate Occurs(all: Buffer, loc: int) {
    exists p :: 0 <= p < |all| && all[p].off == loc
  }

  /** No entry at `loc` comes before position `from`. */
  ghost predicate NotBefore(all: Buffer, loc: int, from: int) {
    forall p :: 0 <= p < |all| && all[p].off == loc ==> p >= from
  }

  lemma FoundAt(before: Buffer, buf: Buffer, after: Buffer, j: nat, loc: int)
    requires Increasing(before + (buf + after)) && j < |buf| && buf[j].off == loc
    ensures StartsAt(before + (buf + after), loc, buf[j..] + after) && Occurs(before + (buf + after), loc)
  {
    var all := before + (buf + after);
    assert all[|before| + j] == buf[j];
    assert all[|before| + j..] == buf[j..] + after;
  }

  lemma NotFoundFrom(before: Buffer, buf: Buffer, after: Buffer, k: nat, loc: int)
    requires Increasing(before + (buf + after)) && k < |buf| && buf[k].off <= loc
    requires forall i :: k <= i < |buf| ==> buf[i].off != loc
    ensures NotBefore(before + (buf + after), loc, |before| + |buf|)
  {
    var all := before + (buf + after);
    assert all[|before| + k] == buf[k];
    forall p | |before| <= p < |before| + |buf|
      ensures all[p] == buf[p - |before|]
    {
    }
  }

  /** With nothing at `loc` before, and the rest empty or beginning beyond it, nothing is there at all. */
  lemma PassedBy(before: Buffer, rest: Buffer, loc: int)
    requires Increasing(before + rest) && NotBefore(before + rest, loc, |before|)
    requires rest != [] ==> rest[0].off > loc
    ensures !Occurs(before + rest, loc)
  {
    var all := before + rest;
    if rest != [] {
      assert all[|before|] == rest[0];
    }
  }

  // ----- Where a stream is -----

  /** `j` buffers have been filled since the last rewind, and entry `k` of the last one comes next. */
  ghost predicate At(dir: seq<Block>, s: Stream, j: nat, k: nat) {
    var bs := Buffers(dir, 0);
    && s.at <= |dir| && j <= |bs| && Buffers(dir, s.at) == bs[j..]
    && if s.size > 0 then j > 0 && s.buf == bs[j - 1] && InBuffer(s, k) else s.loc == 0
  }

  ghost predicate InBuffer(s: Stream, k: nat) {
    s.size == Size(s.buf) && k <= |s.buf| && s.loc == Start(s.buf, k)
  }

  /** What the stream will still yield. */
  ghost function Rest(dir: seq<Block>, s: Stream, j: nat, k: nat): Buffer
    requires At(dir, s, j, k)
  {
    (if s.size > 0 then s.buf[k..] else []) + Flat(Buffers(dir, 0)[j..])
  }

  lemma OpenedAtStart(dir: seq<Block>, buf: Buffer)
    ensures At(dir, Stream(0, buf, 0, 0), 0, 0) && Rest(dir, Stream(0, buf, 0, 0), 0, 0) == All(dir)
  {
    assert Buffers(dir, 0)[0..] == Buffers(dir, 0);
    assert [] + All(dir) == All(dir);
  }

  /** The byte position is inside the buffer exactly when an entry of it is left, and then names that entry. */
  lemma PositionNames(s: Stream, k: nat)
    requires InBuffer(s, k)
    ensures s.loc < s.size <==> k < |s.buf|
    ensures k < |s.buf| ==> EntryAt(s.buf, s.loc) == Some(s.buf[k])
  {
    StartsIncrease(s.buf, k, |s.buf|);
    if k < |s.buf| {
      EntryAtStart(s.buf, k);
    }
  }

  /** An exhausted stream goes on with the next buffer, or is at its end. */
  lemma RefillContinues(dir: seq<Block>, s: Stream, j: nat, k: nat)
    requires Readable(dir) && At(dir, s, j, k) && s.loc >= s.size
    ensures Rest(dir, s, j, k) == Flat(Buffers(dir, 0)[j..])
    ensures var r := Refill(dir, s);
            if j < |Buffers(dir, 0)| then At(dir, r, j + 1, 0) && r.size > 0 && Rest(dir, r, j + 1, 0) == Rest(dir, s, j, k)
            else At(dir, r, j, 0) && r.size == 0 && Rest(dir, s, j, k) == []
  {
    if s.size > 0 {
      PositionNames(s, k);
    }
    var bs := Buffers(dir, 0);
    GetdentsNext(dir, s.at);
    BuffersFilled(dir, 0);
    assert Rest(dir, s, j, k) == Flat(bs[j..]);
    if j < |bs| {
      FlatNext(bs, j);
      var r := Refill(dir, s);
      assert bs[j..][0] == r.buf && bs[j..][1..] == Buffers(dir, r.at);
      assert bs[j + 1..] == bs[j..][1..];
      assert r.buf[0..] == r.buf;
    }
  }

  /** Inside the buffer the next entry is taken and the position moves behind it. */
  lemma TakeFromBuffer(dir: seq<Block>, s: Stream, j: nat, k: nat)
    requires At(dir, s, j, k) && s.size > 0 && k < |s.buf|
    ensures var (r, dp) := ReadEntry(dir, s);
            && dp == Some(s.buf[k]) && r == s.(loc := s.loc + s.buf[k].reclen)
            && At(dir, r, j, k + 1) && Rest(dir, s, j, k) == [s.buf[k]] + Rest(dir, r, j, k + 1)
  {
    hide Buffers, EntryAt, Size;
    PositionNames(s, k);
    assert s.buf[k..] == [s.buf[k]] + s.buf[k + 1..];
  }

  lemma ReadEntryTakesFirst(dir: seq<Block>, s: Stream, j: nat, k: nat) returns (j': nat, k': nat)
    requires Readable(dir) && At(dir, s, j, k)
    ensures var (r, dp) := ReadEntry(dir, s);
            && At(dir, r, j', k')
            && match dp
               case None => Rest(dir, s, j, k) == [] && Rest(dir, r, j', k') == [] && r.size == 0
               case Some(e) =>
                 && Rest(dir, s, j, k) == [e] + Rest(dir, r, j', k') && r.size > 0
                 && (s.loc >= s.size ==> j' == j + 1 && k' == 1)
  {
    hide Buffers, Refill, EntryAt, Size;
    if s.loc < s.size {
      PositionNames(s, k);
      TakeFromBuffer(dir, s, j, k);
      j', k' := j, k + 1;
    } else {
      RefillContinues(dir, s, j, k);
      var s1 := Refill(dir, s);
      if j < |Buffers(dir, 0)| {
        BuffersFilled(dir, 0);
        assert Buffers(dir, 0)[j] != [];
        PositionNames(s1, 0);
        TakeFromBuffer(dir, s1, j + 1, 0);
        j', k' := j + 1, 1;
      } else {
        j', k' := j, 0;
      }
    }
  }

  /** `readdir` yields the first remaining entry and leaves the others; at the end it yields nothing. */
  lemma ReaddirYieldsNext(dir: seq<Block>, s: Stream, j: nat, k: nat) returns (j': nat, k': nat)
    requires Readable(dir) && At(dir, s, j, k)
    ensures var (r, dp) := Readdir(dir, s);
            && At(dir, r, j', k')
            && match dp
               case None => Rest(dir, s, j, k) == [] && Rest(dir, r, j', k') == [] && r.size == 0
               case Some(e) =>
                 && Rest(dir, s, j, k) == [e] + Rest(dir, r, j', k') && r.size > 0
                 && (s.loc >= s.size ==> j' == j + 1 && k' == 1)
  {
    j', k' := ReadEntryTakesFirst(dir, s, j, k);
    var rest := Rest(dir, s, j, k);
    if rest != [] {
      RestInAll(dir, s, j, k);
      OffsetsIncrease(dir);
      assert rest[0] == All(dir)[|All(dir)| - |rest|];
    }
  }

  /** What remains is a suffix of the directory. */
  lemma RestInAll(dir: seq<Block>, s: Stream, j: nat, k: nat)
    requires At(dir, s, j, k)
    ensures var rest := Rest(dir, s, j, k);
            |rest| <= |All(dir)| && rest == All(dir)[|All(dir)| - |rest|..]
  {
    if s.size > 0 {
      var before, after := Placed(dir, s, j, k);
      Suffix(before, s.buf, after, k);
    } else {
      FlatSplit(Buffers(dir, 0), j);
    }
  }

  lemma Suffix(before: Buffer, buf: Buffer, after: Buffer, k: nat)
    requires k <= |buf|
    ensures var all, rest := before + (buf + after), buf[k..] + after;
            |rest| <= |all| && rest == all[|all| - |rest|..]
  {
  }

  // ----- seekdir -----

  /** Where the current buffer lies in the directory. */
  lemma Placed(dir: seq<Block>, s: Stream, j: nat, k: nat) returns (before: Buffer, after: Buffer)
    requires At(dir, s, j, k) && s.size > 0
    ensures All(dir) == before + (s.buf + after) && after == Flat(Buffers(dir, 0)[j..])
    ensures |before| + |s.buf| == |Flat(Buffers(dir, 0)[..j])|
  {
    var bs := Buffers(dir, 0);
    before, after := Flat(bs[..j - 1]), Flat(bs[j..]);
    FlatSplit(bs, j - 1);
    FlatNext(bs, j - 1);
    FlatConcat(bs[..j - 1], [s.buf]);
    assert bs[..j - 1] + [s.buf] == bs[..j];
    assert [s.buf][1..] == [] && Flat([s.buf]) == s.buf + [];
  }

  lemma {:induction false} ScanFinds(s: Stream, k: nat, target: int) returns (i: nat)
    requires s.size == Size(s.buf) && k <= |s.buf|
    ensures k <= i <= |s.buf|
    ensures forall n :: k <= n < i ==> s.buf[n].off != target
    ensures ScanBuffer(s, Start(s.buf, k), target) == if i < |s.buf| then Some(Start(s.buf, i)) else None
    ensures i < |s.buf| ==> s.buf[i].off == target
    decreases |s.buf| - k
  {
    i := k;
    StartsIncrease(s.buf, k, |s.buf|);
    if k < |s.buf| {
      EntryAtStart(s.buf, k);
      if s.buf[k].off != target {
        i := ScanFinds(s, k + 1, target);
      }
    }
  }

  /** Nothing at `target` lies before the next buffer. */
  ghost predicate Ahead(dir: seq<Block>, j: nat, target: int) {
    j <= |Buffers(dir, 0)| && NotBefore(All(dir), target, |Flat(Buffers(dir, 0)[..j])|)
  }

  /** The result of `seekdir` as its callers see it. */
  ghost predicate Lands(dir: seq<Block>, target: int, r: Sought, j: nat, k: nat) {
    && At(dir, r.s, j, k)
    && (Occurs(All(dir), target) ==> !r.einval && StartsAt(All(dir), target, Rest(dir, r.s, j, k)))
    && (!Occurs(All(dir), target) ==>
          if target == 0 then !r.einval && Rest(dir, r.s, j, k) == All(dir) else r.einval)
  }

  lemma FetchLands(dir: seq<Block>, s: Stream, j: nat, k: nat) returns (j': nat, k': nat)
    requires Readable(dir) && At(dir, s, j, k) && s.loc >= s.size
    ensures var (r, here) := Fetch(dir, s);
            var rest := Flat(Buffers(dir, 0)[j..]);
            && At(dir, r, j', k')
            && if here then r.size > 0 && j' == j + 1 && k' == 0 && r.buf != [] && rest != [] && r.buf[0] == rest[0]
               else rest == []
  {
    RefillContinues(dir, s, j, k);
    j', k' := ReaddirYieldsNext(dir, s, j, k);
    if Readdir(dir, s).1.Some? {
      k' := 0;
      FlatNext(Buffers(dir, 0), j);
      BuffersFilled(dir, 0);
      assert Buffers(dir, 0)[j] != [];
    }
  }

  /** A buffer that may hold the target is searched from the current entry on. */
  lemma SearchBuffer(dir: seq<Block>, s: Stream, j: nat, k: nat, target: int) returns (i: nat)
    requires Readable(dir) && At(dir, s, j, k) && s.size > 0 && k < |s.buf| && s.buf[k].off <= target
    ensures match ScanBuffer(s, s.loc, target)
            case Some(l) =>
              && At(dir, s.(loc := l), j, i) && Occurs(All(dir), target)
              && StartsAt(All(dir), target, Rest(dir, s.(loc := l), j, i))
            case None => At(dir, s.(loc := s.size), j, i) && Ahead(dir, j, target) && target != 0
  {
    var before, after := Placed(dir, s, j, k);
    OffsetsIncrease(dir);
    i := ScanFinds(s, k, target);
    if i < |s.buf| {
      FoundAt(before, s.buf, after, i, target);
    } else {
      NotFoundFrom(before, s.buf, after, k, target);
      BuffersIncrease(dir, 0);
      assert All(dir)[|before| + k] == s.buf[k];
    }
  }

  /** Rewinding lands at the start; when the target is 0, that is where it is, if anywhere. */
  lemma StartIsZero(dir: seq<Block>)
    requires Readable(dir)
    ensures StartsAt(All(dir), 0, All(dir))
  {
    BuffersIncrease(dir, 0);
    var all := All(dir);
    assert all[0..] == all;
    assert forall p :: 0 < p < |all| ==> all[0].off < all[p].off;
  }

  /** No turn of the loop overlooks the target, and only the first can rewind. */
  lemma {:induction false} SeekLoopLands(dir: seq<Block>, s: Stream, j: nat, k: nat, target: int, rewind: bool) returns (j': nat, k': nat)
    requires Readable(dir) && At(dir, s, j, k)
    requires rewind ==> s.loc >= s.size || k == 0 || (k < |s.buf| && s.buf[k].off <= target)
    requires !rewind ==> s.loc >= s.size && Ahead(dir, j, target) && target != 0
    ensures Lands(dir, target, SeekLoop(dir, s, target, rewind), j', k')
    ensures SeekLoop(dir, s, target, rewind).rewinds <= if rewind then 1 else 0
    decreases rewind, |dir| - s.at, if s.loc < s.size then 1 else 0
  {
    var (s1, here) := Fetch(dir, s);
    j', k' := j, k;
    if s.loc >= s.size {
      j', k' := FetchLands(dir, s, j, k);
    }
    if here {
      PositionNames(s1, k');
    }
    if here && s1.buf[k'].off <= target {
      var i := SearchBuffer(dir, s1, j', k', target);
      if ScanBuffer(s1, s1.loc, target).Some? {
        k' := i;
      } else {
        j', k' := SeekLoopLands(dir, s1.(loc := s1.size), j', i, target, false);
      }
    } else if !rewind {
      FlatSplit(Buffers(dir, 0), j);
      OffsetsIncrease(dir);
      PassedBy(Flat(Buffers(dir, 0)[..j]), Flat(Buffers(dir, 0)[j..]), target);
    } else {
      OpenedAtStart(dir, s1.buf);
      j', k' := 0, 0;
      if target == 0 {
        StartIsZero(dir);
      } else {
        assert Buffers(dir, 0)[..0] == [];
        j', k' := SeekLoopLands(dir, s1.(at := 0, loc := 0, size := 0), 0, 0, target, false);
      }
    }
  }

  /**
   From any position of any readable directory: `seekdir` to the offset of an
   entry makes that entry the next to be read, to any other offset it fails (0
   excepted, which is the start), and it rewinds at most once.
   */
  lemma SeekdirFindsEntries(dir: seq<Block>, s: Stream, j: nat, k: nat, target: int) returns (j': nat, k': nat)
    requires Readable(dir) && At(dir, s, j, k)
    ensures Lands(dir, target, Seekdir(dir, s, target), j', k')
    ensures Seekdir(dir, s, target).rewinds <= 1
  {
    if s.size > 0 {
      PositionNames(s, k);
    }
    var keep := s.loc < s.size && EntryAt(s.buf, s.loc).Some? && EntryAt(s.buf, s.loc).value.off <= target;
    if keep {
      j', k' := SeekLoopLands(dir, s, j, k, target, true);
    } else {
      j', k' := SeekLoopLands(dir, s.(loc := 0), j, 0, target, true);
    }
  }

  lemma {:induction false} OnlyOneRewind(dir: seq<Block>, s: Stream, target: int)
    requires s.at <= |dir|
    ensures SeekLoop(dir, s, target, false).rewinds == 0
    decreases |dir| - s.at, if s.loc < s.size then 1 else 0
  {
    var (s1, here) := Fetch(dir, s);
    if here && EntryAt(s1.buf, s1.loc).Some? && EntryAt(s1.buf, s1.loc).value.off <= target {
      OnlyOneRewind(dir, s1.(loc := s1.size), target);
    }
  }

  lemma RewindsUnlessBefore(dir: seq<Block>, s: Stream, target: int)
    requires s.at <= |dir|
    ensures var (s1, here) := Fetch(dir, s);
            SeekLoop(dir, s, target, true).rewinds ==
            if here && EntryAt(s1.buf, s1.loc).Some? && EntryAt(s1.buf, s1.loc).value.off <= target then 0 else 1
  {
    var (s1, here) := Fetch(dir, s);
    OnlyOneRewind(dir, s1.(loc := s1.size), target);
    OnlyOneRewind(dir, s1.(at := 0, loc := 0, size := 0), target);
  }

  /** `seekdir` rewinds exactly when the buffer, or the next one if none is filled, begins beyond the target or there is none. */
  lemma RewindsExactly(dir: seq<Block>, s: Stream, j: nat, k: nat, target: int)
    requires Readable(dir) && At(dir, s, j, k)
    ensures var near := if s.size > 0 then s.buf != [] && s.buf[0].off <= target
                        else Rest(dir, s, j, k) != [] && Rest(dir, s, j, k)[0].off <= target;
            Seekdir(dir, s, target).rewinds == if near then 0 else 1
  {
    hide SeekLoop, Fetch, Readable, Buffers;
    if s.size > 0 {
      PositionNames(s, k);
      RewindsInBuffer(dir, s, j, k, target);
    } else {
      RewindsUnlessBefore(dir, s, target);
      var j', k' := FetchLands(dir, s, j, k);
      var (s1, here) := Fetch(dir, s);
      if here {
        PositionNames(s1, k');
      }
    }
  }

  lemma RewindsInBuffer(dir: seq<Block>, s: Stream, j: nat, k: nat, target: int)
    requires Readable(dir) && At(dir, s, j, k) && s.size > 0
    ensures s.buf != [] && (Seekdir(dir, s, target).rewinds == if s.buf[0].off <= target then 0 else 1)
  {
    hide SeekLoop, Readable, Buffers, EntryAt;
    PositionNames(s, k);
    PositionNames(s.(loc := 0), 0);
    var before, after := Placed(dir, s, j, k);
    OffsetsIncrease(dir);
    if k < |s.buf| {
      assert All(dir)[|before|] == s.buf[0] && All(dir)[|before| + k] == s.buf[k];
    }
    RewindsUnlessBefore(dir, s, target);
    RewindsUnlessBefore(dir, s.(loc := 0), target);
  }

  // ----- telldir -----

  /** `telldir` names the next entry while one is left in the buffer, or when that entry is the first of its block. */
  lemma TelldirNamesNext(dir: seq<Block>, s: Stream, j: nat, k: nat)
    requires Readable(dir) && At(dir, s, j, k) && Rest(dir, s, j, k) != []
    ensures s.loc < s.size ==> Telldir(dir, s) == Rest(dir, s, j, k)[0].off
    ensures s.loc >= s.size ==>
              var next := Getdents(dir, s.at).1;
              && 0 < next <= |dir| && dir[next - 1] != []
              && (Telldir(dir, s) == Rest(dir, s, j, k)[0].off <==> dir[next - 1][0].ino != 0)
  {
    hide Refill, Getdents, Buffers, Readable;
    if s.loc < s.size {
      PositionNames(s, k);
    } else {
      RefillContinues(dir, s, j, k);
      GetdentsNext(dir, s.at);
      FlatNext(Buffers(dir, 0), j);
      var (d, next) := Getdents(dir, s.at);
      assert Buffers(dir, 0)[j..][0] == d.es;
      TelldirAtBoundary(dir, s.at, d.es, next);
    }
  }

  /** A position told while an entry was left in the buffer can be returned to from any later state of the stream. */
  lemma TelldirThenSeekdirRestores(dir: seq<Block>, s: Stream, j: nat, k: nat, later: Stream, j1: nat, k1: nat)
    returns (j': nat, k': nat)
    requires Readable(dir) && At(dir, s, j, k) && At(dir, later, j1, k1)
    requires Rest(dir, s, j, k) != [] && Telldir(dir, s) == Rest(dir, s, j, k)[0].off
    ensures var r := Seekdir(dir, later, Telldir(dir, s));
            At(dir, r.s, j', k') && !r.einval && Rest(dir, r.s, j', k') == Rest(dir, s, j, k)
  {
    j', k' := SeekdirFindsEntries(dir, later, j1, k1, Telldir(dir, s));
    RestInAll(dir, s, j, k);
    var rest := Rest(dir, s, j, k);
    assert All(dir)[|All(dir)| - |rest|] == rest[0];
  }

  // ----- A position that cannot be returned to -----

  /** Two blocks, the second of which begins with an empty entry. */
  const TWO_BLOCKS: seq<Block> := [[Direct(1, 32, "a")], [Direct(0, 16, ""), Direct(2, 32, "b")]]

  lemma {:induction false} FirstBlock()
    ensures BlockSize([Direct(1, 32, "a")]) == 32 && ConvertedSize([Direct(1, 32, "a")]) <= DIRBUF
    ensures Convert([Direct(1, 32, "a")], 0) == [Dirent(1, 0, DirentSize(1), "a")]
  {
    var b := [Direct(1, 32, "a")];
    assert b[..0] == [];
    assert BlockSize([]) == 0 && Convert([], 0) == [] && ConvertedSize([]) == 0;
  }

  lemma {:induction false} SecondBlock()
    ensures var b := [Direct(0, 16, ""), Direct(2, 32, "b")];
            BlockSize(b) == 48 && ConvertedSize(b) <= DIRBUF && Convert(b, 32) == [Dirent(2, 48, DirentSize(1), "b")]
  {
    var b := [Direct(0, 16, ""), Direct(2, 32, "b")];
    var first := [Direct(0, 16, "")];
    assert b[..1] == first && first[..0] == [];
    assert BlockSize([]) == 0 && Convert([], 32) == [] && ConvertedSize([]) == 0;
    assert BlockSize(first) == 16 && Convert(first, 32) == [] && ConvertedSize(first) == 0;
  }

  lemma TwoBuffers()
    ensures Readable(TWO_BLOCKS) && Offset(TWO_BLOCKS, 1) == 32
    ensures Buffers(TWO_BLOCKS, 0) == [[Dirent(1, 0, DirentSize(1), "a")], [Dirent(2, 48, DirentSize(1), "b")]]
    ensures Buffers(TWO_BLOCKS, 1) == [[Dirent(2, 48, DirentSize(1), "b")]]
  {
    hide Convert, BlockSize, ConvertedSize, DirentSize;
    FirstBlock();
    SecondBlock();
    FirstDents();
    assert Getdents(TWO_BLOCKS, 1) == (Entries([Dirent(2, 48, DirentSize(1), "b")]), 2);
    assert Getdents(TWO_BLOCKS, 2) == (EndOfFile, 2);
    assert Buffers(TWO_BLOCKS, 2) == [];
  }

  /** Once the first entry has been read, `telldir` gives the offset of no entry, and `seekdir` refuses it. */
  lemma {:induction false} ToldPositionIsRefused()
    ensures var s := Readdir(TWO_BLOCKS, OPENED).0;
            && Readdir(TWO_BLOCKS, OPENED).1.Some?
            && !Occurs(All(TWO_BLOCKS), Telldir(TWO_BLOCKS, s))
            && Seekdir(TWO_BLOCKS, s, Telldir(TWO_BLOCKS, s)).einval
  {
    hide Readdir, Seekdir, Telldir, Buffers, Flat, Readable;
    TwoEntries();
    OpenedAtStart(TWO_BLOCKS, []);
    var j, k := ReaddirYieldsNext(TWO_BLOCKS, OPENED, 0, 0);
    var s := Readdir(TWO_BLOCKS, OPENED).0;
    ToldAfterOne();
    var j', k' := SeekdirFindsEntries(TWO_BLOCKS, s, j, k, Telldir(TWO_BLOCKS, s));
  }

  lemma TwoEntries()
    ensures Readable(TWO_BLOCKS)
    ensures All(TWO_BLOCKS) == [Dirent(1, 0, DirentSize(1), "a"), Dirent(2, 48, DirentSize(1), "b")]
  {
    hide Buffers, Readable;
    TwoBuffers();
    var a, b := [Dirent(1, 0, DirentSize(1), "a")], [Dirent(2, 48, DirentSize(1), "b")];
    assert [a, b][1..] == [b] && [b][1..] == [];
    assert Flat([b]) == b + [];
  }

  lemma ToldAfterOne()
    ensures Telldir(TWO_BLOCKS, Readdir(TWO_BLOCKS, OPENED).0) == 32 && Readdir(TWO_BLOCKS, OPENED).1.Some?
  {
    hide Getdents, DirentSize, Buffers;
    TwoBuffers();
    FirstDents();
    var buf := [Dirent(1, 0, DirentSize(1), "a")];
    assert buf[..0] == [] && Start(buf, 0) == 0 && Start(buf, 1) == DirentSize(1);
    assert EntryAt(buf, 0) == Some(buf[0]);
  }

  lemma FirstDents()
    ensures Getdents(TWO_BLOCKS, 0) == (Entries([Dirent(1, 0, DirentSize(1), "a")]), 1)
  {
    hide Convert, BlockSize, ConvertedSize, DirentSize;
    FirstBlock();
    assert Offset(TWO_BLOCKS, 0) == 0;
  }
}
