/**
 When the path of the current directory is not found: the climb ends at the first
 parent that does not open or does not list the directory below it, after 26 parents,
 or when the names found no longer fit; and each of these has its own error.
 */
module GetCwdFailures {
  import opened Wrappers
  import opened GetCwd

  /** The first parents, as far as the names go; the last of them need not be the root. */
  ghost predicate Climbed(t: Tree, ids: seq<Id>, names: seq<string>) {
    && |ids| == |names| + 1 && t.here == Some(ids[0])
    && forall i :: 0 <= i < |names| ==> Above(t, ids, names, i)
  }

  /** The parent of directory `i` is another directory and lists it. */
  ghost predicate Above(t: Tree, ids: seq<Id>, names: seq<string>, i: nat)
    requires i < |names| && |ids| == |names| + 1
  {
    t.up(i + 1).Opened? && t.up(i + 1).id == ids[i + 1] != ids[i] && Called(t.up(i + 1).entries, ids[i], ids[i + 1], names[i])
  }

  /** No entry of the parent is the directory `d`. */
  ghost predicate Missing(es: seq<Entry>, d: Id, dd: Id) {
    forall e :: e in es ==> if d.dev == dd.dev then e.ino != d.ino else e.stat != Some(d)
  }

  lemma {:induction false} MissingIsNotFound(es: seq<Entry>, d: Id, dd: Id)
    ensures Find(es, d, dd).None? <==> Missing(es, d, dd)
  {
    if es != [] {
      MissingIsNotFound(es[1..], d, dd);
      assert forall e :: e in es <==> e == es[0] || e in es[1..];
      assert Missing(es, d, dd) <==> !Matches(es[0], d, dd) && Missing(es[1..], d, dd);
    }
  }

  lemma ClimbOne(t: Tree, size: nat, ids: seq<Id>, names: seq<string>, i: nat)
    requires Climbed(t, ids, names) && i < |names| && i < SECTIONS
    ensures Climb(t, size, ids[i], i, Reverse(Below(names, i))) ==
            if |Below(names, i + 1)| >= size then Failed(ERANGE)
            else Climb(t, size, ids[i + 1], i + 1, Reverse(Below(names, i + 1)))
  {
    hide Climb, Find, Reverse, Slashed, Below, Called;
    assert Above(t, ids, names, i);
    NamesAreThere(t, ids, names);
    FindsCalled(t.up(i + 1).entries, ids[i], ids[i + 1], names[i]);
    OneMoreName(names, i);
    ClimbStep(t, size, ids[i], i, Reverse(Below(names, i)), names[i]);
  }

  lemma NamesAreThere(t: Tree, ids: seq<Id>, names: seq<string>)
    requires Climbed(t, ids, names)
    ensures forall k :: 0 <= k < |names| ==> names[k] != []
  {
    forall k | 0 <= k < |names| ensures names[k] != [] {
      assert Above(t, ids, names, k);
    }
  }

  /** Of several entries that are the directory the first counts. */
  lemma {:induction false} FirstEntryFound(es: seq<Entry>, d: Id, dd: Id, k: nat)
    requires k < |es| && Missing(es[..k], d, dd) && !Missing([es[k]], d, dd)
    ensures Find(es, d, dd) == Some(es[k])
  {
    assert es[k] in [es[k]];
    if k > 0 {
      assert es[0] in es[..k] && es[1..][..k - 1] == es[..k][1..] && es[1..][k - 1] == es[k];
      assert forall e :: e in es[..k][1..] ==> e in es[..k];
      FirstEntryFound(es[1..], d, dd, k - 1);
    }
  }

  /** The climb through the parents that list what is below them. */
  lemma {:induction false} ClimbsOn(t: Tree, size: nat, ids: seq<Id>, names: seq<string>, i: nat)
    requires Climbed(t, ids, names) && i <= |names| <= SECTIONS
    ensures |Below(names, |names|)| < size ==>
              Climb(t, size, ids[i], i, Reverse(Below(names, i))) ==
              Climb(t, size, ids[|names|], |names|, Reverse(Below(names, |names|)))
    ensures |Below(names, |names|)| >= size && i < |names| ==>
              Climb(t, size, ids[i], i, Reverse(Below(names, i))) == Failed(ERANGE)
    decreases |names| - i
  {
    hide Climb, Reverse, Below, Called;
    if i < |names| {
      NamesAreThere(t, ids, names);
      ClimbOne(t, size, ids, names, i);
      NamesWritten(names, i + 1);
      ClimbsOn(t, size, ids, names, i + 1);
    }
  }

  /**
   Behind the parents that list what is below them the climb fails with the error of
   opening the next, with ENOENT if the next does not list the directory, with ENOMEM
   after 26, and before any of that with ERANGE once the names do not fit.
   */
  lemma {:induction false} FailsAsFound(t: Tree, size: nat, ids: seq<Id>, names: seq<string>)
    requires size > 0 && Climbed(t, ids, names) && |names| <= 26
    ensures var n := |names|;
            if |Below(names, n)| >= size then Getcwd(t, size) == Failed(ERANGE)
            else if n == 26 then Getcwd(t, size) == Failed(ENOMEM)
            else if t.up(n + 1).Unopened? then Getcwd(t, size) == Failed(FromKernel(t.up(n + 1).code))
            else t.up(n + 1).id != ids[n] && Missing(t.up(n + 1).entries, ids[n], t.up(n + 1).id) ==>
                   Getcwd(t, size) == Failed(ENOENT)
  {
    assert Reverse(Below(names, 0)) == [];
    ClimbsOn(t, size, ids, names, 0);
    if |names| < SECTIONS && t.up(|names| + 1).Opened? {
      MissingIsNotFound(t.up(|names| + 1).entries, ids[|names|], t.up(|names| + 1).id);
    }
  }

  /** Nothing is found with an empty buffer, or when the directory itself cannot be examined. */
  lemma NothingToStartFrom(t: Tree, size: nat)
    ensures Getcwd(t, size) == Failed(EINVAL) <==> size == 0
    ensures size > 0 && t.here.None? ==> Getcwd(t, size) == Failed(FromKernel(t.code))
  {
    if size > 0 && t.here.Some? {
      NeverInvalid(t, size, t.here.value, 0, []);
    }
  }

  lemma {:induction false} NeverInvalid(t: Tree, size: nat, d: Id, i: nat, acc: string)
    requires i <= SECTIONS
    ensures Climb(t, size, d, i, acc) != Failed(EINVAL)
    decreases SECTIONS - i
  {
    if i < SECTIONS && t.up(i + 1).Opened? && d != t.up(i + 1).id {
      var e := Find(t.up(i + 1).entries, d, t.up(i + 1).id);
      if e.Some? {
        NeverInvalid(t, size, t.up(i + 1).id, i + 1, Slashed(acc, e.value.name) + Reverse(e.value.name));
      }
    }
  }
}
