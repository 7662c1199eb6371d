/**
 dirent/getcwd.c: the path of the current directory, found by climbing from parent
 to parent and looking for the directory just left, written backwards into the
 caller's buffer and turned round at the end.

 The file system is a parameter: what opening and examining the directory `i`
 levels up yields, and what `stat` says of its entries.
 */
module GetCwd {
  import opened Wrappers

  const SECTIONS := 26  // "/.." sections in `dotdots`

  datatype Errno = EINVAL | ENOENT | ENOMEM | ERANGE | FromKernel(code: int)

  datatype Id = Id(dev: int, ino: int)

  /** An entry; `stat` may fail on it. */
  datatype Entry = Entry(ino: int, name: string, stat: Option<Id>)

  datatype Dir = Opened(id: Id, entries: seq<Entry>) | Unopened(code: int)

  /** `here` is what `stat` says of "."; `up(i)` is the directory `i` levels up. */
  datatype Tree = Tree(here: Option<Id>, code: int, up: nat -> Dir)

  datatype Outcome = Done(path: string) | Failed(errno: Errno)

  // ----- Climbing -----

  /** The entry is the directory just left: by inode, or across a mount point by `stat`. */
  predicate Matches(e: Entry, d: Id, dd: Id) {
    if d.dev == dd.dev then e.ino == d.ino else e.stat == Some(d)
  }

  function Find(es: seq<Entry>, d: Id, dd: Id): Option<Entry> {
    if es == [] then None else if Matches(es[0], d, dd) then Some(es[0]) else Find(es[1..], d, dd)
  }

  function Reverse(s: string): (r: string)
    ensures |r| == |s|
  {
    if s == [] then [] else Reverse(s[1..]) + [s[0]]
  }

  /** The slash before a name, left out only before the first. */
  function Slashed(acc: string, name: string): string {
    if acc != [] || name == [] then acc + ['/'] else acc
  }

  /** From directory `d`, `i` levels up, with `acc` written so far. */
  function Climb(t: Tree, size: nat, d: Id, i: nat, acc: string): Outcome
    requires i <= SECTIONS
    decreases SECTIONS - i
  {
    if i == SECTIONS then Failed(ENOMEM)
    else
      match t.up(i + 1)
      case Unopened(code) => Failed(FromKernel(code))
      case Opened(dd, es) =>
        if d == dd then
          if |Slashed(acc, [])| >= size then Failed(ERANGE) else Done(Reverse(Slashed(acc, [])))
        else
          var e := Find(es, d, dd);
          if e.None? then Failed(ENOENT)
          else
            var name := e.value.name;
            var acc' := Slashed(acc, name) + Reverse(name);
            if |acc'| >= size then Failed(ERANGE)
            else if name == [] then Done(Reverse(acc'))
            else Climb(t, size, dd, i + 1, acc')
  }

  function Getcwd(t: Tree, size: nat): Outcome {
    if size == 0 then Failed(EINVAL)
    else match t.here
         case None => Failed(FromKernel(t.code))
         case Some(d) => Climb(t, size, d, 0, [])
  }

  // ----- Where the directory is -----

  /** The directory and its ancestors, the root last; `names[i]` is what the directory `i` levels up is called in its parent. */
  ghost predicate Stands(t: Tree, ids: seq<Id>, names: seq<string>) {
    |ids| == |names| + 1 && t.here == Some(ids[0]) &&
    (forall i :: 0 < i < |ids| ==> t.up(i).Opened? && t.up(i).id == ids[i]) &&
    t.up(|ids|).Opened? && t.up(|ids|).id == ids[|names|] &&
    (forall i :: 0 <= i < |names| ==> ids[i] != ids[i + 1] && Called(t.up(i + 1).entries, ids[i], ids[i + 1], names[i]))
  }

  /**
   Exactly the entries called `name` are the directory `d`: on the device of the parent
   `dd` those with its inode, and on another, where an entry has the inode of the mount
   point, those that `stat` knows as `d`.
   */
  ghost predicate Called(es: seq<Entry>, d: Id, dd: Id, name: string) {
    && name != []
    && (d.dev == dd.dev ==> (exists e :: e in es && e.ino == d.ino) && forall e :: e in es && e.ino == d.ino ==> e.name == name)
    && (d.dev != dd.dev ==> (exists e :: e in es && e.stat == Some(d)) && forall e :: e in es && e.stat == Some(d) ==> e.name == name)
  }

  /** The names from level `i` down, joined: `names[i - 1]` first. */
  function Below(names: seq<string>, i: nat): string
    requires i <= |names|
  {
    if i == 0 then [] else if i == 1 then names[0] else names[i - 1] + ['/'] + Below(names, i - 1)
  }

  function Path(names: seq<string>): string {
    ['/'] + Below(names, |names|)
  }

  lemma {:induction false} ReverseBoth(a: string, b: string)
    ensures Reverse(a + b) == Reverse(b) + Reverse(a)
  {
    if a == [] {
      assert a + b == b && Reverse(b) + [] == Reverse(b);
    } else {
      assert (a + b)[0] == a[0] && (a + b)[1..] == a[1..] + b;
      ReverseBoth(a[1..], b);
      assert Reverse(b) + Reverse(a[1..]) + [a[0]] == Reverse(b) + (Reverse(a[1..]) + [a[0]]);
    }
  }

  lemma {:induction false} ReverseTwice(a: string)
    ensures Reverse(Reverse(a)) == a
  {
    if a != [] {
      ReverseBoth(Reverse(a[1..]), [a[0]]);
      ReverseTwice(a[1..]);
      assert Reverse([a[0]]) == [a[0]];
      assert [a[0]] + a[1..] == a;
    }
  }

  lemma {:induction false} FindsCalled(es: seq<Entry>, d: Id, dd: Id, name: string)
    requires Called(es, d, dd, name)
    ensures Find(es, d, dd).Some? && Find(es, d, dd).value.name == name
  {
    if !Matches(es[0], d, dd) {
      assert forall e :: e in es <==> e == es[0] || e in es[1..];
      FindsCalled(es[1..], d, dd, name);
    } else {
      assert es[0] in es;
    }
  }

  /** What has been written when `i` names have been found, and what one more adds. */
  lemma {:induction false} OneMoreName(names: seq<string>, i: nat)
    requires i < |names| && forall k :: 0 <= k < |names| ==> names[k] != []
    ensures Slashed(Reverse(Below(names, i)), names[i]) + Reverse(names[i]) == Reverse(Below(names, i + 1))
    ensures |Below(names, i)| < |Below(names, i + 1)|
  {
    var below, name := Below(names, i), names[i];
    if i == 0 {
      assert Reverse([]) == [];
      assert [] + Reverse(name) == Reverse(name);
    } else {
      NamesWritten(names, i);
      ReverseBoth(name, ['/'] + below);
      ReverseBoth(['/'], below);
      assert Reverse(['/']) == ['/'];
      assert name + (['/'] + below) == name + ['/'] + below;
    }
  }

  lemma {:induction false} NamesWritten(names: seq<string>, i: nat)
    requires i <= |names| && forall k :: 0 <= k < |names| ==> names[k] != []
    ensures Below(names, i) == [] <==> i == 0
    ensures |Below(names, i)| <= |Below(names, |names|)|
    decreases |names| - i
  {
    if i < |names| {
      NamesWritten(names, i + 1);
    }
  }

  lemma RootWritten(below: string)
    ensures Reverse(Slashed(Reverse(below), [])) == ['/'] + below
    ensures |Slashed(Reverse(below), [])| == 1 + |below|
  {
    ReverseBoth(Reverse(below), ['/']);
    ReverseTwice(below);
    assert Reverse(['/']) == ['/'];
  }

  lemma {:induction false} ClimbFrom(t: Tree, size: nat, ids: seq<Id>, names: seq<string>, i: nat)
    requires Stands(t, ids, names) && i <= |names| && i <= SECTIONS
    ensures Climb(t, size, ids[i], i, Reverse(Below(names, i))) == Done(Path(names))
            <==> |names| < SECTIONS && |Path(names)| < size
    ensures Climb(t, size, ids[i], i, Reverse(Below(names, i))).Done? ==>
            Climb(t, size, ids[i], i, Reverse(Below(names, i))) == Done(Path(names))
    ensures |names| < SECTIONS && |Path(names)| >= size ==>
            Climb(t, size, ids[i], i, Reverse(Below(names, i))) == Failed(ERANGE)
    decreases |names| - i
  {
    var acc := Reverse(Below(names, i));
    if i < SECTIONS {
      if i == |names| {
        RootWritten(Below(names, i));
      } else {
        forall k | 0 <= k < |names| ensures names[k] != [] {
          assert Called(t.up(k + 1).entries, ids[k], ids[k + 1], names[k]);
        }
        FindsCalled(t.up(i + 1).entries, ids[i], ids[i + 1], names[i]);
        OneMoreName(names, i);
        NamesWritten(names, i + 1);
        ClimbFrom(t, size, ids, names, i + 1);
      }
    }
  }

  /**
   Wherever the directory stands, on one file system or several, the path is the
   names from the root joined by slashes; it is found exactly when there are fewer
   than 26 of them and it fits the buffer with its terminator.
   */
  lemma {:induction false} PathIsFoundExactly(t: Tree, size: nat, ids: seq<Id>, names: seq<string>)
    requires Stands(t, ids, names)
    ensures Getcwd(t, size) == Done(Path(names)) <==> |names| < SECTIONS && |Path(names)| < size
    ensures Getcwd(t, size).Done? ==> Getcwd(t, size) == Done(Path(names))
    ensures 0 < size <= |Path(names)| && |names| < SECTIONS ==> Getcwd(t, size) == Failed(ERANGE)
  {
    if size > 0 {
      assert Reverse(Below(names, 0)) == [];
      ClimbFrom(t, size, ids, names, 0);
    }
  }

  // ----- In the form of the code -----

  /** The search through one parent. */
  method SearchParent(es: seq<Entry>, d: Id, dd: Id) returns (found: Option<Entry>)
    ensures found == Find(es, d, dd)
  {
    var i := 0;
    assert es[0..] == es;
    while i < |es|
      invariant 0 <= i <= |es| && Find(es, d, dd) == Find(es[i..], d, dd)
    {
      assert es[i..][1..] == es[i + 1..];
      if d.dev == dd.dev {
        if es[i].ino == d.ino {
          return Some(es[i]);
        }
      } else if es[i].stat == Some(d) {
        return Some(es[i]);
      }
      i := i + 1;
    }
    found := None;
  }

  /** A slash where one is due, and the name backwards, if they fit; `endp` is where to go on. */
  method Append(buffer: array<char>, size: nat, endp: nat, name: string) returns (end': nat, fits: bool)
    requires endp < size <= buffer.Length
    modifies buffer
    ensures var acc := Slashed(old(buffer[..endp]), name) + Reverse(name);
            fits == (|acc| < size) && (fits ==> end' == |acc| && buffer[..end'] == acc)
    ensures buffer[size..] == old(buffer[size..])
  {
    ghost var before, after := buffer[..endp], buffer[size..];
    end' := endp;
    if endp != 0 || name == [] {
      buffer[end'] := '/';
      end' := end' + 1;
    }
    ghost var acc := Slashed(before, name);
    assert buffer[..end'] == acc;
    if |name| >= size - end' {
      return end', false;
    }
    var app := |name|;
    assert name[app..] == [];
    while app > 0
      invariant 0 <= app <= |name| && end' == |acc| + |name| - app && |acc| + |name| < size
      invariant buffer[..end'] == acc + Reverse(name[app..])
      invariant buffer[size..] == after
    {
      assert name[app - 1..][1..] == name[app..];
      assert acc + Reverse(name[app - 1..]) == acc + Reverse(name[app..]) + [name[app - 1]];
      app := app - 1;
      buffer[end'] := name[app];
      end' := end' + 1;
    }
    assert name[0..] == name;
    fits := true;
  }

  lemma {:induction false} ReverseAt(s: string, k: nat)
    requires k < |s|
    ensures Reverse(s)[k] == s[|s| - 1 - k]
  {
    if k < |s| - 1 {
      ReverseAt(s[1..], k);
    }
  }

  /** The name is straightened out in place, from both ends inwards. */
  method Straighten(buffer: array<char>, endp: nat)
    requires endp < buffer.Length
    modifies buffer
    ensures buffer[..endp] == Reverse(old(buffer[..endp])) && buffer[endp..] == old(buffer[endp..])
  {
    ghost var was := buffer[..endp];
    var startp, last := 0, endp as int - 1;
    while last > startp
      invariant 0 <= startp <= endp && last == endp - 1 - startp && (startp <= last + 1 || endp == 0)
      invariant forall k :: 0 <= k < startp ==> buffer[k] == was[endp - 1 - k] && buffer[endp - 1 - k] == was[k]
      invariant forall k :: startp <= k <= last ==> buffer[k] == was[k]
      invariant buffer[endp..] == old(buffer[endp..])
    {
      buffer[last], buffer[startp] := buffer[startp], buffer[last];
      startp, last := startp + 1, last - 1;
    }
    forall k | 0 <= k < endp ensures buffer[k] == Reverse(was)[k] {
      ReverseAt(was, k);
    }
  }

  lemma {:induction false} ClimbStep(t: Tree, size: nat, d: Id, i: nat, acc: string, name: string)
    requires i < SECTIONS && t.up(i + 1).Opened?
    requires var dd, es := t.up(i + 1).id, t.up(i + 1).entries;
             if d == dd then name == [] else Find(es, d, dd).Some? && name == Find(es, d, dd).value.name
    ensures var acc' := Slashed(acc, name) + Reverse(name);
            Climb(t, size, d, i, acc) ==
            if |acc'| >= size then Failed(ERANGE)
            else if name == [] then Done(Reverse(acc'))
            else Climb(t, size, t.up(i + 1).id, i + 1, acc')
  {
    assert Slashed(acc, []) + [] == Slashed(acc, []);
  }

  lemma ClimbStops(t: Tree, size: nat, d: Id, i: nat, acc: string)
    requires i <= SECTIONS
    ensures i == SECTIONS ==> Climb(t, size, d, i, acc) == Failed(ENOMEM)
    ensures i < SECTIONS && t.up(i + 1).Unopened? ==> Climb(t, size, d, i, acc) == Failed(FromKernel(t.up(i + 1).code))
    ensures i < SECTIONS && t.up(i + 1).Opened? && d != t.up(i + 1).id && Find(t.up(i + 1).entries, d, t.up(i + 1).id) == None ==>
            Climb(t, size, d, i, acc) == Failed(ENOENT)
  {
  }

  /** The terminator is planted and the name straightened out. */
  method Finish(buffer: array<char>, size: nat, endp: nat)
    requires endp < size <= buffer.Length
    modifies buffer
    ensures buffer[..endp] == Reverse(old(buffer[..endp])) && buffer[endp] == '\0'
    ensures buffer[size..] == old(buffer[size..])
  {
    buffer[endp] := '\0';
    ghost var rest := buffer[endp..];
    Straighten(buffer, endp);
    assert buffer[endp..] == rest;
    assert buffer[endp] == buffer[endp..][0] && buffer[size..] == buffer[endp..][size - endp..];
  }

  /** The name to append for one parent: empty at the root. */
  method NextName(up: Dir, d: Id) returns (name: string, missing: bool)
    requires up.Opened?
    ensures if d == up.id then !missing && name == []
            else missing == Find(up.entries, d, up.id).None? && (!missing ==> name == Find(up.entries, d, up.id).value.name)
  {
    name, missing := [], false;
    if d != up.id {
      var e := SearchParent(up.entries, d, up.id);
      if e == None {
        missing := true;
      } else {
        name := e.value.name;
      }
    }
  }

  /**
   `getcwd` into the caller's buffer of `size` characters.  Nothing is written at
   or beyond `size`, and `errno` comes back as it was when the path was found.
   */
  method GetcwdInto(t: Tree, buffer: array<char>, size: nat, errno: int) returns (found: bool, errno': Errno)
    requires size <= buffer.Length
    modifies buffer
    ensures match Getcwd(t, size)
            case Done(path) =>
              found && errno' == FromKernel(errno) &&
              |path| < size && buffer[..|path|] == path && buffer[|path|] == '\0'
            case Failed(e) => !found && errno' == e
    ensures buffer[size..] == old(buffer[size..])
  {
    if size == 0 {
      return false, EINVAL;
    }
    if t.here == None {
      return false, FromKernel(t.code);
    }
    hide Climb, Find, Reverse, Slashed;
    var d := t.here.value;
    var endp: nat, i: nat := 0, 0;
    assert buffer[..0] == [];
    while i < SECTIONS
      invariant 0 <= i <= SECTIONS && endp < size
      invariant Getcwd(t, size) == Climb(t, size, d, i, buffer[..endp])
      invariant buffer[size..] == old(buffer[size..])
    {
      var up := t.up(i + 1);
      ClimbStops(t, size, d, i, buffer[..endp]);
      if up.Unopened? {
        return false, FromKernel(up.code);
      }
      var name, missing := NextName(up, d);
      if missing {
        return false, ENOENT;
      }
      ClimbStep(t, size, d, i, buffer[..endp], name);
      var fits;
      endp, fits := Append(buffer, size, endp, name);
      if !fits {
        return false, ERANGE;
      }
      if name == [] {
        Finish(buffer, size, endp);
        return true, FromKernel(errno);
      }
      d := up.id;
      i := i + 1;
    }
    ClimbStops(t, size, d, i, buffer[..endp]);
    return false, ENOMEM;
  }
}
