/**
 The directory stream of dirent/ in its own form: an object whose one buffer is
 refilled in place.  Each method is proved to change the object as the function
 of the same name in `Directory` says, so the theorems of `DirTheorems` are about
 these methods.
 */
module DirStream {
  import opened Wrappers
  import opened Directory

  /** The block loop of `getdents`. */
  method FillBuffer(dir: seq<Block>, at: nat) returns (d: Dents, next: nat)
    requires at <= |dir|
    ensures (d, next) == Getdents(dir, at)
  {
    var offset := Offset(dir, at);
    next := at;
    while next < |dir| && BlockSize(dir[next]) > 0
      invariant at <= next <= |dir|
      invariant GetdentsFrom(dir, next, offset) == Getdents(dir, at)
    {
      var ok, es := ConvertBlock(dir[next], offset);
      next := next + 1;
      if !ok {
        return Failure, next;
      }
      if es != [] {
        return Entries(es), next;
      }
    }
    return EndOfFile, next;
  }

  /** The conversion of one block, given up when an entry is corrupt or the buffer is full. */
  method ConvertBlock(b: Block, offset: int) returns (ok: bool, es: Buffer)
    ensures ok <==> Sound(b) && ConvertedSize(b) <= DIRBUF
    ensures ok ==> es == Convert(b, offset)
  {
    es := [];
    var dp, bp, i := 0, 0, 0;
    while i < |b|
      invariant 0 <= i <= |b| && dp == BlockSize(b[..i]) && es == Convert(b[..i], offset)
      invariant bp == ConvertedSize(b[..i]) <= DIRBUF && Sound(b[..i])
    {
      assert b[..i + 1][..i] == b[..i];
      if b[i].reclen <= 0 {
        return false, es;
      }
      if b[i].ino != 0 {
        var reclen := DirentSize(|b[i].name|);
        if bp + reclen > DIRBUF {
          ConvertedSizeGrows(b, i + 1);
          return false, es;
        }
        es := es + [Dirent(b[i].ino, offset + dp, reclen, b[i].name)];
        bp := bp + reclen;
      }
      dp := dp + b[i].reclen;
      i := i + 1;
    }
    assert b[..i] == b;
    return true, es;
  }

  lemma {:induction false} ConvertedSizeGrows(b: Block, n: nat)
    requires n <= |b|
    ensures ConvertedSize(b[..n]) <= ConvertedSize(b)
    decreases |b|
  {
    if n < |b| {
      assert b[..|b| - 1][..n] == b[..n];
      ConvertedSizeGrows(b[..|b| - 1], n);
    } else {
      assert b[..n] == b;
    }
  }

  /** One turn of the loop of `seekdir`. */
  lemma SeekStep(dir: seq<Block>, s: Stream, target: int, rewind: bool)
    requires s.at <= |dir|
    ensures var (s1, here) := Fetch(dir, s);
            SeekLoop(dir, s, target, rewind) ==
            if here && EntryAt(s1.buf, s1.loc).Some? && EntryAt(s1.buf, s1.loc).value.off <= target then
              var found := ScanBuffer(s1, s1.loc, target);
              if found.Some? then Sought(s1.(loc := found.value), false, 0)
              else SeekLoop(dir, s1.(loc := s1.size), target, false)
            else if !rewind then Sought(s1, true, 0)
            else
              var s2 := s1.(at := 0, loc := 0, size := 0);
              if target == 0 then Sought(s2, false, 1)
              else
                var r := SeekLoop(dir, s2, target, false);
                r.(rewinds := r.rewinds + 1)
  {
  }

  class DIR {
    const dir: seq<Block>
    var at: nat      // blocks read so far: the file position
    var ddBuf: Buffer
    var ddLoc: int
    var ddSize: int

    predicate Valid()
      reads this
    {
      at <= |dir|
    }

    function State(): Stream
      reads this
    {
      Stream(at, ddBuf, ddLoc, ddSize)
    }

    /** `opendir` */
    constructor (dir: seq<Block>)
      ensures Valid() && this.dir == dir && State() == OPENED
    {
      this.dir := dir;
      at, ddBuf, ddLoc, ddSize := 0, [], 0, 0;
    }

    method Rewind()
      requires Valid()
      modifies this
      ensures Valid() && State() == old(State()).(at := 0, loc := 0, size := 0)
    {
      ddLoc, ddSize := 0, 0;
      at := 0;
    }

    /** The body of `readdir`'s loop. */
    method Next() returns (dp: Option<Dirent>)
      requires Valid()
      modifies this
      ensures Valid() && (State(), dp) == ReadEntry(dir, old(State()))
    {
      if ddLoc >= ddSize {
        ddLoc, ddSize := 0, 0;
        var d, next := FillBuffer(dir, at);
        at := next;
        match d {
          case Entries(es) => ddBuf, ddSize := es, Size(es);
          case EndOfFile => ddSize := 0;
          case Failure => ddSize := -1;
        }
        if ddSize <= 0 {
          return None;
        }
      }
      dp := EntryAt(ddBuf, ddLoc);
      if dp.Some? {
        ddLoc := ddLoc + dp.value.reclen;
      }
    }

    method Read() returns (dp: Option<Dirent>)
      requires Valid()
      modifies this
      ensures Valid() && (State(), dp) == Readdir(dir, old(State()))
    {
      dp := Next();
      while dp.Some? && dp.value.ino == 0
        invariant Valid()
        invariant (if dp.Some? && dp.value.ino == 0 then Readdir(dir, State()) else (State(), dp)) == Readdir(dir, old(State()))
        decreases |dir| - at, Left(State()), dp.Some?
      {
        dp := Next();
      }
    }

    method Tell() returns (loc: int)
      requires Valid()
      ensures loc == Telldir(dir, State())
    {
      if ddLoc < ddSize {
        var dp := EntryAt(ddBuf, ddLoc);
        if dp.Some? {
          return dp.value.off;
        }
      }
      return Offset(dir, at);
    }

    /** The inner loop of `seekdir`. */
    method Scan(target: int) returns (found: Option<int>)
      ensures found == ScanBuffer(State(), ddLoc, target)
    {
      var dp := ddLoc;
      while dp < ddSize
        invariant ScanBuffer(State(), dp, target) == ScanBuffer(State(), ddLoc, target)
      {
        var e := EntryAt(ddBuf, dp);
        if e.None? {
          return None;
        }
        if e.value.off == target {
          return Some(dp);
        }
        dp := dp + e.value.reclen;
      }
      return None;
    }

    /** Makes sure the buffer holds something to look at, reading the next one if need be. */
    method Current() returns (here: bool)
      requires Valid()
      modifies this
      ensures Valid() && (State(), here) == Fetch(dir, old(State()))
    {
      here := ddLoc < ddSize;
      if !here {
        var dp := Read();
        if dp.Some? {
          ddLoc := 0;
          here := true;
        }
      }
    }

    /** Back to the start of the buffer, unless the entry to be read next is not beyond the target. */
    method BackUp(target: int)
      requires Valid()
      modifies this
      ensures Valid() && Seekdir(dir, old(State()), target) == SeekLoop(dir, State(), target, true)
    {
      if ddLoc >= ddSize || EntryAt(ddBuf, ddLoc).None? || EntryAt(ddBuf, ddLoc).value.off > target {
        ddLoc := 0;
      }
    }

    method Seek(target: int) returns (einval: bool, rewinds: nat)
      requires Valid()
      modifies this
      ensures Valid() && Sought(State(), einval, rewinds) == Seekdir(dir, old(State()), target)
    {
      hide Seekdir, SeekLoop, Fetch, ScanBuffer, EntryAt;
      BackUp(target);
      var rewind := true;
      rewinds := 0;
      ghost var result := SeekLoop(dir, State(), target, true);
      while true
        invariant Valid() && rewinds <= 1 && (rewinds == 1 ==> !rewind)
        invariant var rest := SeekLoop(dir, State(), target, rewind);
                  result == Sought(rest.s, rest.einval, rewinds + rest.rewinds)
        decreases rewind, |dir| - at, if ddLoc < ddSize then 1 else 0
      {
        SeekStep(dir, State(), target, rewind);
        var here := Current();
        if here && EntryAt(ddBuf, ddLoc).Some? && EntryAt(ddBuf, ddLoc).value.off <= target {
          var found := Scan(target);
          if found.Some? {
            ddLoc := found.value;
            return false, rewinds;
          }
          rewind := false;
          ddLoc := ddSize;
        } else if !rewind {
          return true, rewinds;
        } else {
          rewind := false;
          rewinds := rewinds + 1;
          ddLoc, ddSize := 0, 0;
          at := 0;
          if target == 0 {
            return false, rewinds;
          }
        }
      }
    }
  }
}
