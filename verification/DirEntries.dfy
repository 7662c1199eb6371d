/**
 The entries a directory has on disk, and that `readdir` gives exactly these: each
 that is not empty, in order, with its name, its number and the room it takes.
 */
module DirEntries {
  import opened Wrappers
  import opened Directory
  import opened DirTheorems

  // ----- What is on disk -----

  function Kept(b: Block): seq<Direct> {
    if b == [] then [] else (if b[0].ino != 0 then [b[0]] else []) + Kept(b[1..])
  }

  /** The entries that are not empty, block after block. */
  function OnDisk(dir: seq<Block>): seq<Direct> {
    if dir == [] then [] else Kept(dir[0]) + OnDisk(dir[1..])
  }

  /** Where they lie in a block that begins at `from`. */
  function Places(b: Block, from: int): seq<int> {
    if b == [] then [] else (if b[0].ino != 0 then [from] else []) + Places(b[1..], from + b[0].reclen)
  }

  function Bytes(b: Block): int {
    if b == [] then 0 else b[0].reclen + Bytes(b[1..])
  }

  /** Where they lie in the directory, its first block at `from`. */
  function DiskPlaces(dir: seq<Block>, from: int): seq<int> {
    if dir == [] then [] else Places(dir[0], from) + DiskPlaces(dir[1..], from + Bytes(dir[0]))
  }

  /**
   The offsets that are invented: a block behind empty ones counts from where these
   began, `base`, although it lies at `from`.
   */
  function Invented(dir: seq<Block>, from: int, base: int): seq<int> {
    if dir == [] then []
    else
      var next := from + Bytes(dir[0]);
      if Kept(dir[0]) == [] then Invented(dir[1..], next, base)
      else Places(dir[0], base) + Invented(dir[1..], next, next)
  }

  /** The smallest number of 8-octet longs that has room for 18 octets, the name and its terminator. */
  predicate Room(reclen: int, name: string) {
    reclen % 8 == 0 && 18 + |name| + 1 <= reclen < 18 + |name| + 1 + 8
  }

  predicate Renders(e: Dirent, d: Direct) {
    e.ino == d.ino && e.name == d.name && Room(e.reclen, d.name)
  }

  predicate Mirrors(es: Buffer, ds: seq<Direct>) {
    |es| == |ds| && forall i :: 0 <= i < |es| ==> Renders(es[i], ds[i])
  }

  function Offs(es: Buffer): (offs: seq<int>)
    ensures |offs| == |es| && forall i :: 0 <= i < |es| ==> offs[i] == es[i].off
  {
    seq(|es|, i requires 0 <= i < |es| => es[i].off)
  }

  // ----- One block -----

  lemma Regroup<T>(a: seq<T>, b: seq<T>, c: seq<T>)
    ensures a + (b + c) == (a + b) + c
  {
  }

  lemma FirstOf(d: Direct, b: Block)
    ensures var s := [d] + b; s != [] && s[0] == d && s[1..] == b
  {
  }

  lemma KeptFirst(d: Direct, b: Block, from: int)
    ensures Kept([d] + b) == (if d.ino != 0 then [d] else []) + Kept(b)
    ensures Bytes([d] + b) == d.reclen + Bytes(b)
    ensures Places([d] + b, from) == (if d.ino != 0 then [from] else []) + Places(b, from + d.reclen)
  {
    hide Kept, Bytes, Places;
    var s := [d] + b;
    FirstOf(d, b);
    KeptStep(s, from);
  }

  lemma KeptStep(s: Block, from: int)
    requires s != []
    ensures Kept(s) == (if s[0].ino != 0 then [s[0]] else []) + Kept(s[1..])
    ensures Bytes(s) == s[0].reclen + Bytes(s[1..])
    ensures Places(s, from) == (if s[0].ino != 0 then [from] else []) + Places(s[1..], from + s[0].reclen)
  {
  }

  /** Two stretches of a block, one after the other. */
  lemma {:induction false} KeptBoth(a: Block, b: Block, from: int)
    ensures Kept(a + b) == Kept(a) + Kept(b)
    ensures Places(a + b, from) == Places(a, from) + Places(b, from + Bytes(a))
    ensures Bytes(a + b) == Bytes(a) + Bytes(b)
    decreases |a|
  {
    hide Kept, Places, Bytes;
    if a == [] {
      assert a + b == b;
      Nothing(b, from);
    } else {
      var d, rest := a[0], a[1..];
      assert a == [d] + rest && a + b == [d] + (rest + b);
      KeptFirst(d, rest, from);
      KeptFirst(d, rest + b, from);
      KeptBoth(rest, b, from + d.reclen);
      Regroup(if d.ino != 0 then [d] else [], Kept(rest), Kept(b));
      Regroup(if d.ino != 0 then [from] else [], Places(rest, from + d.reclen), Places(b, from + Bytes(a)));
    }
  }

  lemma Nothing(b: Block, from: int)
    ensures Kept([]) + Kept(b) == Kept(b) && Places([], from) + Places(b, from) == Places(b, from) && Bytes([]) == 0
  {
  }

  lemma One(d: Direct, from: int)
    ensures Kept([d]) == if d.ino != 0 then [d] else []
    ensures Places([d], from) == if d.ino != 0 then [from] else []
    ensures Bytes([d]) == d.reclen
  {
    assert [d][1..] == [];
  }

  lemma RoomForName(name: string)
    ensures Room(DirentSize(|name|), name)
  {
  }

  lemma MirrorsBoth(a: Buffer, b: Buffer, c: seq<Direct>, d: seq<Direct>)
    requires Mirrors(a, c) && Mirrors(b, d)
    ensures Mirrors(a + b, c + d) && Offs(a + b) == Offs(a) + Offs(b)
  {
  }

  function Converted(d: Direct, off: int): Buffer {
    if d.ino == 0 then [] else [Dirent(d.ino, off, DirentSize(|d.name|), d.name)]
  }

  lemma OneConverted(d: Direct, off: int)
    ensures Mirrors(Converted(d, off), Kept([d])) && Offs(Converted(d, off)) == Places([d], off)
  {
    hide Mirrors, Kept, Places, DirentSize;
    One(d, off);
    if d.ino != 0 {
      OneMirrored(Converted(d, off)[0], d);
    } else {
      NothingMirrors();
    }
  }

  lemma ConvertLast(b: Block, offset: int)
    requires b != []
    ensures var a, d := b[..|b| - 1], b[|b| - 1];
            && BlockSize(b) == BlockSize(a) + d.reclen
            && Convert(b, offset) == Convert(a, offset) + Converted(d, offset + BlockSize(a))
  {
  }

  /** Every entry of a block that is not empty is converted, and no other. */
  lemma {:induction false} BlockIsConverted(b: Block, offset: int)
    ensures BlockSize(b) == Bytes(b)
    ensures Mirrors(Convert(b, offset), Kept(b)) && Offs(Convert(b, offset)) == Places(b, offset)
    decreases |b|
  {
    hide Kept, Places, Bytes, Mirrors, Convert, Converted, BlockSize, Offs;
    if b == [] {
      NothingConverted(offset);
    } else {
      var a, d := b[..|b| - 1], b[|b| - 1];
      assert b == a + [d];
      BlockIsConverted(a, offset);
      ConvertLast(b, offset);
      KeptBoth(a, [d], offset);
      OneConverted(d, offset + Bytes(a));
      One(d, 0);
      MirrorsBoth(Convert(a, offset), Converted(d, offset + Bytes(a)), Kept(a), Kept([d]));
    }
  }

  lemma NothingConverted(offset: int)
    ensures BlockSize([]) == Bytes([]) == 0
    ensures Mirrors(Convert([], offset), Kept([])) && Offs(Convert([], offset)) == Places([], offset)
  {
  }

  lemma OneMirrored(e: Dirent, d: Direct)
    requires e.ino == d.ino && e.name == d.name && e.reclen == DirentSize(|d.name|)
    ensures Mirrors([e], [d]) && Offs([e]) == [e.off]
  {
    RoomForName(d.name);
  }

  // ----- The whole directory -----

  lemma OffsetNext(dir: seq<Block>, at: nat)
    requires at < |dir|
    ensures Offset(dir, at + 1) == Offset(dir, at) + Bytes(dir[at])
  {
    BlockIsConverted(dir[at], 0);
  }

  lemma Suffix(dir: seq<Block>, at: nat)
    requires at < |dir|
    ensures dir[at..] != [] && dir[at..][0] == dir[at] && dir[at..][1..] == dir[at + 1..]
  {
  }

  lemma DirNext(dir: seq<Block>, at: nat, base: int)
    requires at < |dir|
    ensures OnDisk(dir[at..]) == Kept(dir[at]) + OnDisk(dir[at + 1..])
    ensures Invented(dir[at..], Offset(dir, at), base) ==
            if Kept(dir[at]) == [] then Invented(dir[at + 1..], Offset(dir, at + 1), base)
            else Places(dir[at], base) + Invented(dir[at + 1..], Offset(dir, at + 1), Offset(dir, at + 1))
  {
    hide Kept, Places, Bytes;
    Suffix(dir, at);
    OffsetNext(dir, at);
  }

  /** One call gives the next block that is not all empty, or there is none. */
  lemma {:induction false} DentsAreTheNext(dir: seq<Block>, at: nat, base: int)
    requires Readable(dir) && at <= |dir|
    ensures match GetdentsFrom(dir, at, base)
            case (Entries(es), next) =>
              && at < next <= |dir|
              && OnDisk(dir[at..]) == Kept(dir[next - 1]) + OnDisk(dir[next..])
              && Mirrors(es, Kept(dir[next - 1]))
              && Offs(es) == Places(dir[next - 1], base)
              && Invented(dir[at..], Offset(dir, at), base)
                 == Places(dir[next - 1], base) + Invented(dir[next..], Offset(dir, next), Offset(dir, next))
            case (_, next) => OnDisk(dir[at..]) == [] && Invented(dir[at..], Offset(dir, at), base) == []
    decreases |dir| - at
  {
    hide Mirrors, Convert, ConvertedSize, Kept, Places, BlockSize, Bytes, Offset, Offs, Sound, OnDisk, Invented;
    if at < |dir| {
      DirNext(dir, at, base);
      BlockIsConverted(dir[at], base);
      MirrorsNothing(Convert(dir[at], base), Kept(dir[at]));
      BlockHasBytes(dir[at]);
      if Convert(dir[at], base) == [] {
        DentsAreTheNext(dir, at + 1, base);
        assert [] + OnDisk(dir[at + 1..]) == OnDisk(dir[at + 1..]);
      }
    } else {
      assert dir[at..] == [];
      NothingOnDisk(Offset(dir, at), base);
    }
  }

  lemma NothingOnDisk(from: int, base: int)
    ensures OnDisk([]) == [] && Invented([], from, base) == []
  {
  }

  /** A block that is read and passed over: it has bytes, and only empty entries. */
  predicate Passed(b: Block) {
    Bytes(b) > 0 && Kept(b) == [] && forall i :: 0 <= i < |b| ==> b[i].reclen > 0
  }

  lemma {:induction false} ConvertedTakes(b: Block, offset: int)
    ensures ConvertedSize(b) == Size(Convert(b, offset))
  {
    if b != [] {
      var n := |b| - 1;
      ConvertedTakes(b[..n], offset);
      var before := Convert(b[..n], offset);
      if b[n].ino != 0 {
        var es := Convert(b, offset);
        assert es[..|es| - 1] == before;
        StartOfPrefix(es, |es| - 1, |es| - 1);
      }
    }
  }

  /**
   In any directory a call stops at the first block that is not passed over: at the end
   of the file if it has no bytes, with a failure if an entry in it has no length or its
   entries do not fit the 8192 bytes of a buffer, and otherwise with its entries.
   */
  lemma {:induction false} DentsStopAt(dir: seq<Block>, at: nat, base: int, j: nat)
    requires at <= j <= |dir| && forall i :: at <= i < j ==> Passed(dir[i])
    requires j < |dir| ==> !Passed(dir[j])
    ensures GetdentsFrom(dir, at, base) ==
            if j == |dir| || Bytes(dir[j]) <= 0 then (EndOfFile, j)
            else if (exists i :: 0 <= i < |dir[j]| && dir[j][i].reclen <= 0) || Size(Convert(dir[j], base)) > 8192 then (Failure, j + 1)
            else (Entries(Convert(dir[j], base)), j + 1)
    decreases j - at
  {
    hide Mirrors, Convert, ConvertedSize, Kept, Bytes, BlockSize;
    if at < |dir| {
      BlockIsConverted(dir[at], base);
      MirrorsNothing(Convert(dir[at], base), Kept(dir[at]));
      ConvertedTakes(dir[at], base);
      if at < j {
        assert Passed(dir[at]);
        DentsStopAt(dir, at + 1, base, j);
      }
    }
  }

  lemma MirrorsNothing(es: Buffer, ds: seq<Direct>)
    requires Mirrors(es, ds)
    ensures es == [] <==> ds == []
  {
  }

  lemma BlockHasBytes(b: Block)
    ensures b != [] && Sound(b) ==> BlockSize(b) > 0
  {
  }

  lemma {:induction false} BuffersMirror(dir: seq<Block>, at: nat)
    requires Readable(dir) && at <= |dir|
    ensures Mirrors(Flat(Buffers(dir, at)), OnDisk(dir[at..]))
    ensures Offs(Flat(Buffers(dir, at))) == Invented(dir[at..], Offset(dir, at), Offset(dir, at))
    decreases |dir| - at
  {
    hide Mirrors, Kept, Places, Offset, GetdentsFrom, Readable, Invented, OnDisk;
    DentsAreTheNext(dir, at, Offset(dir, at));
    GetdentsReads(dir, at, Offset(dir, at));
    var (d, next) := Getdents(dir, at);
    if d.Entries? {
      BuffersMirror(dir, next);
      var rest := Flat(Buffers(dir, next));
      MirrorsBoth(d.es, rest, Kept(dir[next - 1]), OnDisk(dir[next..]));
      assert Buffers(dir, at) == [d.es] + Buffers(dir, next);
      assert ([d.es] + Buffers(dir, next))[1..] == Buffers(dir, next);
    } else {
      NothingMirrors();
    }
  }

  lemma NothingMirrors()
    ensures Mirrors([], []) && Offs([]) == []
  {
  }

  /** The entries of a readable directory are those on disk that are not empty, with the offsets as they are invented. */
  lemma {:induction false} EveryEntryIsThere(dir: seq<Block>)
    requires Readable(dir)
    ensures Mirrors(All(dir), OnDisk(dir)) && Offs(All(dir)) == Invented(dir, 0, 0)
  {
    BuffersMirror(dir, 0);
    assert dir[0..] == dir;
  }

  /** With an entry in every block the offsets are the places on disk. */
  lemma {:induction false} InventedAsPlaced(dir: seq<Block>, from: int)
    requires forall i :: 0 <= i < |dir| ==> Kept(dir[i]) != []
    ensures Invented(dir, from, from) == DiskPlaces(dir, from)
    decreases |dir|
  {
    if dir != [] {
      assert forall i :: 0 <= i < |dir[1..]| ==> dir[1..][i] == dir[i + 1];
      InventedAsPlaced(dir[1..], from + Bytes(dir[0]));
    }
  }

  lemma OffsetsArePlaces(dir: seq<Block>)
    requires Readable(dir) && forall i :: 0 <= i < |dir| ==> Kept(dir[i]) != []
    ensures Offs(All(dir)) == DiskPlaces(dir, 0)
  {
    EveryEntryIsThere(dir);
    InventedAsPlaced(dir, 0);
  }

  // ----- Reading from the start -----

  /** The answers to `n` calls of `readdir`. */
  function Answers(dir: seq<Block>, s: Stream, n: nat): (r: seq<Option<Dirent>>)
    requires s.at <= |dir|
    ensures |r| == n
    decreases n
  {
    if n == 0 then [] else [Readdir(dir, s).1] + Answers(dir, Readdir(dir, s).0, n - 1)
  }

  lemma {:induction false} AnswersAreTheRest(dir: seq<Block>, s: Stream, j: nat, k: nat, n: nat)
    requires Readable(dir) && At(dir, s, j, k)
    ensures var rest := Rest(dir, s, j, k);
            forall i :: 0 <= i < n ==> Answers(dir, s, n)[i] == if i < |rest| then Some(rest[i]) else None
    decreases n
  {
    hide At, Rest, Readdir;
    if n > 0 {
      AtIsInside(dir, s, j, k);
      var j', k' := ReaddirYieldsNext(dir, s, j, k);
      AnswersAreTheRest(dir, Readdir(dir, s).0, j', k', n - 1);
    }
  }

  lemma AtIsInside(dir: seq<Block>, s: Stream, j: nat, k: nat)
    requires At(dir, s, j, k)
    ensures s.at <= |dir|
  {
  }

  /** From the start, `readdir` gives the entries on disk one after the other, and then nothing. */
  lemma {:induction false} ReaddirGivesTheDirectory(dir: seq<Block>, n: nat)
    requires Readable(dir)
    ensures var r, ds := Answers(dir, OPENED, n), OnDisk(dir);
            forall i :: 0 <= i < n ==>
              if i < |ds| then r[i].Some? && Renders(r[i].value, ds[i]) else r[i].None?
  {
    OpenedAtStart(dir, []);
    AnswersAreTheRest(dir, OPENED, 0, 0, n);
    EveryEntryIsThere(dir);
  }

  /** At the end, or when a block cannot be converted, `readdir` gives nothing, and goes on behind it when it is called again. */
  lemma ReaddirEnds(dir: seq<Block>, s: Stream)
    requires s.at <= |dir| && s.loc >= s.size && !Getdents(dir, s.at).0.Entries?
    ensures var (r, e) := Readdir(dir, s);
            e == None && r.at == Getdents(dir, s.at).1 && r.buf == s.buf && r.loc == 0 >= r.size
  {
    hide Getdents;
  }
}
