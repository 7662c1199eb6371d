/**
 Directory streams as dirent/ emulates them: `getdents` converts one disk block
 into a buffer of entries, inventing each entry's `d_off`; `readdir`, `telldir`
 and `seekdir` work on that one buffer.

 A directory is a sequence of blocks of disk entries and does not change while it
 is read; a read yields one block.  Positions in the buffer are byte positions.
 */
module Directory {
  import opened Wrappers

  const DIRBUF := 8192
  const NAME_OFFSET := 18  // where d_name starts in a struct dirent
  const LONG := 8

  /** An entry on disk; an empty one has inode number 0. */
  datatype Direct = Direct(ino: nat, reclen: int, name: string)
  type Block = seq<Direct>

  /** An entry in the buffer. */
  type Pos = n: nat | n > 0 witness 1
  datatype Dirent = Dirent(ino: nat, off: int, reclen: Pos, name: string)
  type Buffer = seq<Dirent>

  /** `DIRENTSIZ`: room for the name and its terminator, rounded to longs. */
  function DirentSize(namelen: nat): (n: nat)
    ensures n > NAME_OFFSET
  {
    (NAME_OFFSET + LONG + namelen) / LONG * LONG
  }

  // ----- Bytes -----

  predicate Sound(b: Block) {
    forall i :: 0 <= i < |b| ==> b[i].reclen > 0
  }

  function BlockSize(b: Block): (n: int)
    ensures Sound(b) ==> n >= 0 && (b != [] ==> n > 0)
  {
    if b == [] then 0 else BlockSize(b[..|b| - 1]) + b[|b| - 1].reclen
  }

  /** The file offset of block `at`. */
  function Offset(dir: seq<Block>, at: nat): int
    requires at <= |dir|
  {
    if at == 0 then 0 else Offset(dir, at - 1) + BlockSize(dir[at - 1])
  }

  /** The byte position of entry `k`. */
  function Start(buf: Buffer, k: nat): nat
    requires k <= |buf|
  {
    if k == 0 then 0 else Start(buf, k - 1) + buf[k - 1].reclen
  }

  function Size(buf: Buffer): nat {
    Start(buf, |buf|)
  }

  /** The entry whose bytes start at `loc`. */
  function EntryAt(buf: Buffer, loc: int): Option<Dirent> {
    if buf == [] then None
    else if Start(buf, |buf| - 1) == loc then Some(buf[|buf| - 1])
    else EntryAt(buf[..|buf| - 1], loc)
  }

  lemma {:induction false} StartOfPrefix(buf: Buffer, n: nat, k: nat)
    requires k <= n <= |buf|
    ensures Start(buf[..n], k) == Start(buf, k)
  {
    if k > 0 {
      StartOfPrefix(buf, n, k - 1);
    }
  }

  lemma {:induction false} StartsIncrease(buf: Buffer, i: nat, j: nat)
    requires i <= j <= |buf|
    ensures if i < j then Start(buf, i) < Start(buf, j) else Start(buf, i) == Start(buf, j)
    decreases j
  {
    if i < j {
      StartsIncrease(buf, i, j - 1);
    }
  }

  lemma {:induction false} EntryAtStart(buf: Buffer, k: nat)
    requires k < |buf|
    ensures EntryAt(buf, Start(buf, k)) == Some(buf[k])
  {
    var n := |buf| - 1;
    if k < n {
      StartsIncrease(buf, k, n);
      StartOfPrefix(buf, n, k);
      EntryAtStart(buf[..n], k);
    }
  }

  // ----- getdents -----

  datatype Dents = Entries(es: Buffer) | EndOfFile | Failure

  /** The non-empty entries of a block, of which the first lies `pos` bytes into a block at file offset `offset`. */
  function Convert(b: Block, offset: int): Buffer {
    if b == [] then []
    else
      var n := |b| - 1;
      var before := Convert(b[..n], offset);
      if b[n].ino == 0 then before
      else before + [Dirent(b[n].ino, offset + BlockSize(b[..n]), DirentSize(|b[n].name|), b[n].name)]
  }

  /** The bytes the converted entries of a block take. */
  function ConvertedSize(b: Block): nat {
    if b == [] then 0
    else
      var n := |b| - 1;
      ConvertedSize(b[..n]) + if b[n].ino == 0 then 0 else DirentSize(|b[n].name|)
  }

  /**
   Blocks are read until one has a non-empty entry.  `offset` is the file offset
   when the call began and stays what it was when empty blocks are skipped.
   */
  function GetdentsFrom(dir: seq<Block>, at: nat, offset: int): (r: (Dents, nat))
    ensures at <= r.1 <= |dir| || r == (EndOfFile, at)
    decreases |dir| - at
  {
    if at >= |dir| || BlockSize(dir[at]) <= 0 then (EndOfFile, at)
    else if !Sound(dir[at]) || ConvertedSize(dir[at]) > DIRBUF then (Failure, at + 1)
    else
      var es := Convert(dir[at], offset);
      if es == [] then GetdentsFrom(dir, at + 1, offset) else (Entries(es), at + 1)
  }

  function Getdents(dir: seq<Block>, at: nat): (Dents, nat)
    requires at <= |dir|
  {
    GetdentsFrom(dir, at, Offset(dir, at))
  }

  /** Every block is sound, not empty, and fits the buffer once converted. */
  ghost predicate Readable(dir: seq<Block>) {
    forall i :: 0 <= i < |dir| ==>
      dir[i] != [] && Sound(dir[i]) && ConvertedSize(dir[i]) <= DIRBUF
  }

  lemma {:induction false} GetdentsReads(dir: seq<Block>, at: nat, offset: int)
    requires Readable(dir) && at <= |dir|
    ensures var r := GetdentsFrom(dir, at, offset);
            && at <= r.1 <= |dir|
            && match r.0
               case Failure => false
               case EndOfFile => true
               case Entries(es) => es != [] && at < r.1 && es == Convert(dir[r.1 - 1], offset)
    decreases |dir| - at
  {
    hide Convert, ConvertedSize;
    if at < |dir| {
      assert dir[at] != [];
      if Convert(dir[at], offset) == [] {
        GetdentsReads(dir, at + 1, offset);
      }
    }
  }

  // ----- d_off increases -----

  predicate Increasing(buf: Buffer) {
    forall i, j :: 0 <= i < j < |buf| ==> buf[i].off < buf[j].off
  }

  lemma {:induction false} ConvertIncreases(b: Block, offset: int)
    requires Sound(b)
    ensures var es := Convert(b, offset);
            && Increasing(es)
            && (forall i :: 0 <= i < |es| ==> offset <= es[i].off < offset + BlockSize(b) && es[i].ino != 0)
  {
    if b != [] {
      ConvertIncreases(b[..|b| - 1], offset);
    }
  }

  lemma {:induction false} OffsetsGrow(dir: seq<Block>, i: nat, j: nat)
    requires Readable(dir) && i <= j <= |dir|
    ensures Offset(dir, i) <= Offset(dir, j)
    ensures i < j ==> Offset(dir, i) + BlockSize(dir[j - 1]) <= Offset(dir, j)
    decreases j
  {
    if i < j {
      OffsetsGrow(dir, i, j - 1);
    }
  }

  /** The buffers that successive `getdents` calls yield from block `at` on. */
  function Buffers(dir: seq<Block>, at: nat): seq<Buffer>
    requires at <= |dir|
    decreases |dir| - at
  {
    var r := Getdents(dir, at);
    if r.0.Entries? && at < r.1 <= |dir| then [r.0.es] + Buffers(dir, r.1) else []
  }

  function Flat(bs: seq<Buffer>): Buffer {
    if bs == [] then [] else bs[0] + Flat(bs[1..])
  }

  /** Every entry of the directory in order, as `readdir` would yield them from the start. */
  function All(dir: seq<Block>): Buffer {
    Flat(Buffers(dir, 0))
  }

  ghost predicate Within(buf: Buffer, low: int) {
    Increasing(buf) && forall i :: 0 <= i < |buf| ==> low <= buf[i].off && buf[i].ino != 0
  }

  lemma JoinIncreasing(es: Buffer, rest: Buffer, low: int, mid: int)
    requires Within(es, low) && Within(rest, mid) && low <= mid
    requires Below(es, mid)
    ensures Within(es + rest, low)
  {
  }

  lemma ConvertedWithin(b: Block, offset: int, es: Buffer, mid: int)
    requires Sound(b) && offset + BlockSize(b) <= mid && es == Convert(b, offset) && es != []
    ensures Size(es) > 0 && Within(es, offset) && Below(es, mid)
  {
    ConvertIncreases(b, offset);
    StartsIncrease(es, 0, |es|);
  }

  ghost predicate Below(buf: Buffer, mid: int) {
    forall i :: 0 <= i < |buf| ==> buf[i].off < mid
  }

  lemma {:induction false} GetdentsConverts(dir: seq<Block>, at: nat, es: Buffer, next: nat)
    requires Readable(dir) && at <= |dir| && Getdents(dir, at) == (Entries(es), next)
    ensures at < next <= |dir| && es != [] && Sound(dir[next - 1]) && es == Convert(dir[next - 1], Offset(dir, at))
    ensures Offset(dir, at) + BlockSize(dir[next - 1]) <= Offset(dir, next)
  {
    hide Convert, Offset, BlockSize, GetdentsFrom;
    var offset := Offset(dir, at);
    GetdentsReads(dir, at, offset);
    assert GetdentsFrom(dir, at, offset) == (Entries(es), next);
    OffsetsGrow(dir, at, next);
  }

  /** One call's entries lie between the file offsets it began and ended at. */
  lemma GetdentsWithin(dir: seq<Block>, at: nat, es: Buffer, next: nat)
    requires Readable(dir) && at <= |dir| && Getdents(dir, at) == (Entries(es), next)
    ensures at < next <= |dir| && es != [] && Size(es) > 0
    ensures Within(es, Offset(dir, at)) && Offset(dir, at) <= Offset(dir, next) && Below(es, Offset(dir, next))
  {
    GetdentsConverts(dir, at, es, next);
    ConvertedWithin(dir[next - 1], Offset(dir, at), es, Offset(dir, next));
  }

  lemma {:induction false} BuffersIncrease(dir: seq<Block>, at: nat)
    requires Readable(dir) && at <= |dir|
    ensures Within(Flat(Buffers(dir, at)), Offset(dir, at))
    decreases |dir| - at
  {
    var r := Getdents(dir, at);
    if r.0.Entries? {
      GetdentsWithin(dir, at, r.0.es, r.1);
      BuffersIncrease(dir, r.1);
      var bs := Buffers(dir, r.1);
      assert [r.0.es] + bs == Buffers(dir, at) && ([r.0.es] + bs)[1..] == bs;
      JoinIncreasing(r.0.es, Flat(bs), Offset(dir, at), Offset(dir, r.1));
    }
  }

  /** The monotonicity `seekdir` exploits: `d_off` increases strictly over the whole directory, and no entry is empty. */
  lemma OffsetsIncrease(dir: seq<Block>)
    requires Readable(dir)
    ensures Increasing(All(dir)) && forall i :: 0 <= i < |All(dir)| ==> All(dir)[i].ino != 0
  {
    BuffersIncrease(dir, 0);
  }

  // ----- The stream operations on values -----

  /** A stream: `at` blocks have been read; `loc` is a byte position in the `size` bytes of `buf`. */
  datatype Stream = Stream(at: nat, buf: Buffer, loc: int, size: int)

  const OPENED := Stream(0, [], 0, 0)

  function Refill(dir: seq<Block>, s: Stream): (r: Stream)
    requires s.at <= |dir|
    ensures s.at <= r.at <= |dir| && r.loc == 0
    ensures r.size > 0 ==> s.at < r.at
  {
    var (d, next) := Getdents(dir, s.at);
    match d
    case Entries(es) => Stream(next, es, 0, Size(es))
    case EndOfFile => Stream(next, s.buf, 0, 0)
    case Failure => Stream(next, s.buf, 0, -1)
  }

  /** One turn of `readdir`'s loop. */
  function ReadEntry(dir: seq<Block>, s: Stream): (r: (Stream, Option<Dirent>))
    requires s.at <= |dir|
    ensures s.at <= r.0.at <= |dir|
    ensures r.1.Some? ==> s.at < r.0.at || (s.at == r.0.at && s.loc < s.size == r.0.size && s.loc < r.0.loc)
  {
    var s1 := if s.loc >= s.size then Refill(dir, s) else s;
    if s1.loc >= s1.size then (s1, None)
    else
      var e := EntryAt(s1.buf, s1.loc);
      if e.None? then (s1, None) else (s1.(loc := s1.loc + e.value.reclen), e)
  }

  function Left(s: Stream): nat {
    if s.loc < s.size then s.size - s.loc else 0
  }

  function Readdir(dir: seq<Block>, s: Stream): (r: (Stream, Option<Dirent>))
    requires s.at <= |dir|
    ensures s.at <= r.0.at <= |dir|
    ensures r.1.Some? && s.loc >= s.size ==> s.at < r.0.at
    decreases |dir| - s.at, Left(s)
  {
    var (s1, dp) := ReadEntry(dir, s);
    if dp.Some? && dp.value.ino == 0 then Readdir(dir, s1) else (s1, dp)
  }

  function Telldir(dir: seq<Block>, s: Stream): int
    requires s.at <= |dir|
  {
    if s.loc < s.size && EntryAt(s.buf, s.loc).Some? then EntryAt(s.buf, s.loc).value.off else Offset(dir, s.at)
  }

  /** The byte position of the entry with offset `target`, from `loc` on. */
  function ScanBuffer(s: Stream, loc: int, target: int): (r: Option<int>)
    decreases s.size - loc
  {
    if loc >= s.size || EntryAt(s.buf, loc).None? then None
    else if EntryAt(s.buf, loc).value.off == target then Some(loc)
    else ScanBuffer(s, loc + EntryAt(s.buf, loc).value.reclen, target)
  }

  datatype Sought = Sought(s: Stream, einval: bool, rewinds: nat)

  function Seekdir(dir: seq<Block>, s: Stream, target: int): Sought
    requires s.at <= |dir|
  {
    var keep := s.loc < s.size && EntryAt(s.buf, s.loc).Some? && EntryAt(s.buf, s.loc).value.off <= target;
    SeekLoop(dir, if keep then s else s.(loc := 0), target, true)
  }

  /** The current buffer, or the next one from its beginning; false when there is none. */
  function Fetch(dir: seq<Block>, s: Stream): (r: (Stream, bool))
    requires s.at <= |dir|
    ensures s.at <= r.0.at <= |dir|
    ensures s.loc < s.size ==> r == (s, true)
    ensures s.loc >= s.size && r.1 ==> s.at < r.0.at
  {
    if s.loc < s.size then (s, true)
    else
      var (s1, dp) := Readdir(dir, s);
      if dp.Some? then (s1.(loc := 0), true) else (s1, false)
  }

  function SeekLoop(dir: seq<Block>, s: Stream, target: int, rewind: bool): Sought
    requires s.at <= |dir|
    decreases rewind, |dir| - s.at, if s.loc < s.size then 1 else 0
  {
    var (s1, here) := Fetch(dir, s);
    if here && EntryAt(s1.buf, s1.loc).Some? && EntryAt(s1.buf, s1.loc).value.off <= target then
      var found := ScanBuffer(s1, s1.loc, target);
      if found.Some? then Sought(s1.(loc := found.value), false, 0)
      else SeekLoop(dir, s1.(loc := s1.size), target, false)
    else if !rewind then Sought(s1, true, 0)
    else
      var s2 := s1.(at := 0, loc := 0, size := 0);
      if target == 0 then Sought(s2, false, 1)
      else
        var r := SeekLoop(dir, s2, target, false);
        r.(rewinds := r.rewinds + 1)
  }
}
