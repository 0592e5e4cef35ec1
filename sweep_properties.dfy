/** What the two deleting sweeps of cleanup-photo-library.py promise:
    `remove_dot_files` reports exactly the `._*` files below the project and
    deletes them unless this is a dry run; `remove_edit_files` empties
    `1_EDIT` and touches nothing outside it. */
module SweepProperties {

  import opened Wrappers
  import opened Text
  import opened FileSystem
  import opened Cleanup

  // ---------------------------------------------------------------- dot files

  lemma {:induction false} DotFilesInDistinct(ps: seq<Path>, project: Path)
    requires Distinct(ps)
    ensures Distinct(DotFilesIn(ps, project))
  {
    if ps != [] {
      assert forall p :: p in ps[1..] ==> p in ps;
      DotFilesInDistinct(ps[1..], project);
      var rest := DotFilesIn(ps[1..], project);
      assert ps[0] !in ps[1..];
      assert ps[0] !in rest;
    }
  }

  /** Each reported path is reported once. */
  lemma DotFilesDistinct(s: Snapshot, project: Path)
    requires Valid(s)
    ensures Distinct(DotFiles(s, project))
  {
    DotFilesInDistinct(s.order, project);
  }

  /** A dry run changes nothing and reports every path. */
  lemma {:induction false} UnlinkEachDry(s: Snapshot, ps: seq<Path>)
    ensures UnlinkEach(s, ps, true) == Step(s, Removings(ps), None)
    decreases |ps|
  {
    if ps != [] { UnlinkEachDry(s, ps[1..]); }
  }

  /** A run that completes reports every path, as a dry run does. */
  lemma {:induction false} UnlinkEachReports(s: Snapshot, ps: seq<Path>, dryRun: bool)
    requires UnlinkEach(s, ps, dryRun).failure.None?
    ensures UnlinkEach(s, ps, dryRun).log == Removings(ps)
    decreases |ps|
  {
    if ps != [] {
      UnlinkEachReports(UnlinkOne(s, ps[0], dryRun).after, ps[1..], dryRun);
    }
  }

  /** Only the listed paths can disappear. */
  lemma {:induction false} UnlinkEachFrame(s: Snapshot, ps: seq<Path>, dryRun: bool, p: Path)
    requires p !in ps
    ensures Keeps(s, UnlinkEach(s, ps, dryRun).after, p)
    decreases |ps|
  {
    if ps != [] {
      var t := UnlinkOne(s, ps[0], dryRun);
      if t.failure.None? {
        UnlinkEachFrame(t.after, ps[1..], dryRun, p);
      }
    }
  }

  /** Without a dry run, distinct existing non-directories are all removed
      and nothing else is. */
  lemma {:induction false} UnlinkEachRemoves(s: Snapshot, ps: seq<Path>)
    requires Distinct(ps)
    requires forall k :: 0 <= k < |ps| ==> ps[k] in s.entries && s.entries[ps[k]] != Directory
    ensures UnlinkEach(s, ps, false).failure.None?
    ensures forall q :: q in UnlinkEach(s, ps, false).after.entries <==> q in s.entries && q !in ps
    decreases |ps|
  {
    if ps != [] {
      var t := UnlinkOne(s, ps[0], false);
      assert t.after.entries == s.entries - {ps[0]};
      forall k | 0 <= k < |ps[1..]|
        ensures ps[1..][k] in t.after.entries && t.after.entries[ps[1..][k]] != Directory
      {
        assert ps[1..][k] == ps[k + 1] && ps[k + 1] != ps[0];
      }
      assert Distinct(ps[1..]) by {
        forall i, j | 0 <= i < j < |ps[1..]| ensures ps[1..][i] != ps[1..][j] {
          assert ps[1..][i] == ps[i + 1] && ps[1..][j] == ps[j + 1];
        }
      }
      UnlinkEachRemoves(t.after, ps[1..]);
    }
  }

  lemma {:induction false} UnlinkEachKeepsValid(s: Snapshot, ps: seq<Path>, dryRun: bool)
    requires Valid(s)
    ensures Valid(UnlinkEach(s, ps, dryRun).after)
    decreases |ps|
  {
    if ps != [] {
      var t := UnlinkOne(s, ps[0], dryRun);
      if !dryRun && AfterUnlink(s, ps[0]).Some? { UnlinkKeepsValid(s, ps[0]); }
      if t.failure.None? { UnlinkEachKeepsValid(t.after, ps[1..], dryRun); }
    }
  }

  /** `remove_dot_files` reports the dot files in listing order in both modes;
      a dry run changes nothing, and a run that completes reports the same. */
  lemma DotSweepReports(s: Snapshot, project: Path, dryRun: bool)
    ensures dryRun ==> RemoveDotFilesSpec(s, project, dryRun) == Step(s, Removings(DotFiles(s, project)), None)
    ensures RemoveDotFilesSpec(s, project, dryRun).failure.None? ==>
      RemoveDotFilesSpec(s, project, dryRun).log == Removings(DotFiles(s, project))
  {
    UnlinkEachDry(s, DotFiles(s, project));
    if RemoveDotFilesSpec(s, project, dryRun).failure.None? {
      UnlinkEachReports(s, DotFiles(s, project), dryRun);
    }
  }

  /** Without a dry run, and when no `._*` entry is a directory (unlinking one
      would raise), every dot file below the project goes and nothing else
      changes. */
  lemma DotSweepRemoves(s: Snapshot, project: Path)
    requires Valid(s)
    requires forall p :: p in s.entries && IsDotFile(project, p) ==> s.entries[p] != Directory
    ensures RemoveDotFilesSpec(s, project, false).failure.None?
    ensures forall q :: q in RemoveDotFilesSpec(s, project, false).after.entries <==>
      q in s.entries && !IsDotFile(project, q)
    ensures forall q :: !IsDotFile(project, q) ==> Keeps(s, RemoveDotFilesSpec(s, project, false).after, q)
    ensures Valid(RemoveDotFilesSpec(s, project, false).after)
  {
    var ps := DotFiles(s, project);
    DotFilesDistinct(s, project);
    forall k | 0 <= k < |ps| ensures ps[k] in s.entries && s.entries[ps[k]] != Directory {
      assert ps[k] in ps;
    }
    UnlinkEachRemoves(s, ps);
    forall q | !IsDotFile(project, q) ensures Keeps(s, RemoveDotFilesSpec(s, project, false).after, q) {
      UnlinkEachFrame(s, ps, false, q);
    }
    UnlinkEachKeepsValid(s, ps, false);
  }

  // ---------------------------------------------------------------- edit files

  /** `ps` holds no path that is a prefix of another. */
  predicate Siblings(ps: seq<Path>)
  {
    forall i, j :: 0 <= i < |ps| && 0 <= j < |ps| && i != j ==> !IsPrefix(ps[i], ps[j])
  }

  lemma SiblingsTail(ps: seq<Path>)
    requires ps != [] && Siblings(ps)
    ensures Siblings(ps[1..])
    ensures forall q :: q in ps[1..] ==> !IsPrefix(ps[0], q)
  {
    forall i, j | 0 <= i < |ps[1..]| && 0 <= j < |ps[1..]| && i != j
      ensures !IsPrefix(ps[1..][i], ps[1..][j])
    {
      assert ps[1..][i] == ps[i + 1] && ps[1..][j] == ps[j + 1];
    }
    forall q | q in ps[1..] ensures !IsPrefix(ps[0], q) {
      var k :| 0 <= k < |ps[1..]| && ps[1..][k] == q;
      assert q == ps[k + 1];
    }
  }

  /** One entry's removal touches nothing outside that entry's subtree. */
  lemma ClearOneFrame(s: Snapshot, c: Path, dryRun: bool, p: Path)
    requires !IsPrefix(c, p)
    ensures Keeps(s, ClearOne(s, c, dryRun).after, p)
  {
  }

  lemma {:induction false} ClearEachFrame(s: Snapshot, cs: seq<Path>, dryRun: bool, p: Path)
    requires forall c :: c in cs ==> !IsPrefix(c, p)
    ensures Keeps(s, ClearEach(s, cs, dryRun).after, p)
    decreases |cs|
  {
    if cs != [] {
      var t := ClearOne(s, cs[0], dryRun);
      ClearOneFrame(s, cs[0], dryRun, p);
      if t.failure.None? {
        assert forall c :: c in cs[1..] ==> c in cs;
        ClearEachFrame(t.after, cs[1..], dryRun, p);
      }
    }
  }

  /** The sweep only removes entries; it never adds or changes one. */
  lemma {:induction false} ClearEachShrinks(s: Snapshot, cs: seq<Path>, dryRun: bool, q: Path)
    requires q in ClearEach(s, cs, dryRun).after.entries
    ensures q in s.entries && ClearEach(s, cs, dryRun).after.entries[q] == s.entries[q]
    decreases |cs|
  {
    if cs != [] {
      var t := ClearOne(s, cs[0], dryRun);
      if t.failure.None? {
        ClearEachShrinks(t.after, cs[1..], dryRun, q);
      }
    }
  }

  lemma {:induction false} ClearEachKeepsValid(s: Snapshot, cs: seq<Path>, dryRun: bool)
    requires Valid(s)
    ensures Valid(ClearEach(s, cs, dryRun).after)
    decreases |cs|
  {
    if cs != [] {
      var t := ClearOne(s, cs[0], dryRun);
      if !dryRun && IsFile(s, cs[0]) && AfterUnlink(s, cs[0]).Some? {
        UnlinkKeepsValid(s, cs[0]);
      } else if !dryRun && !IsFile(s, cs[0]) && IsDir(s, cs[0]) && AfterRemoveTree(s, cs[0]).Some? {
        RemoveTreeKeepsValid(s, cs[0]);
      }
      if t.failure.None? { ClearEachKeepsValid(t.after, cs[1..], dryRun); }
    }
  }

  /** A run that completes reports what a dry run in a state that agrees on
      the listed entries reports: removing one sibling does not change what
      the next one is. */
  lemma {:induction false} ClearEachReports(s: Snapshot, t: Snapshot, cs: seq<Path>)
    requires Siblings(cs)
    requires forall c :: c in cs ==> Keeps(s, t, c)
    requires ClearEach(s, cs, false).failure.None?
    ensures ClearEach(s, cs, false).log == ClearEach(t, cs, true).log
    decreases |cs|
  {
    if cs != [] {
      var c := cs[0];
      assert Keeps(s, t, c);
      assert FileInode(s, c) == FileInode(t, c);
      var u := ClearOne(s, c, false);
      SiblingsTail(cs);
      forall d | d in cs[1..] ensures Keeps(u.after, t, d) {
        ClearOneFrame(s, c, false, d);
        assert d in cs;
      }
      ClearEachReports(u.after, t, cs[1..]);
    }
  }

  /** Without a dry run, on a valid snapshot, an entry that is not a link to
      a directory (which `shutil.rmtree` refuses) is cleared: a file is
      unlinked, a directory goes with everything below it, and only a
      dangling link is left where it was. */
  lemma ClearOneClears(s: Snapshot, c: Path)
    requires Valid(s) && c in s.entries && s.entries[c] != Symlink(ToDirectory)
    ensures ClearOne(s, c, false).failure.None?
    ensures Valid(ClearOne(s, c, false).after)
    ensures forall q :: q in ClearOne(s, c, false).after.entries && IsPrefix(c, q) ==>
      q == c && s.entries[c] == Symlink(Dangling)
  {
    ClearEachKeepsValid(s, [c], false);
    var u := ClearOne(s, c, false);
    assert [c][1..] == [];
    assert ClearEach(s, [c], false).after == u.after;
    forall q | q in u.after.entries && IsPrefix(c, q)
      ensures q == c && s.entries[c] == Symlink(Dangling)
    {
      ClearEachShrinks(s, [c], false, q);
      if s.entries[c] != Directory {
        NothingBelowNonDirectory(s, c, q);
      }
    }
  }

  /** `ClearOneClears` for a list of siblings. */
  lemma {:induction false} ClearEachClears(s: Snapshot, cs: seq<Path>)
    requires Valid(s) && Siblings(cs)
    requires forall c :: c in cs ==> c in s.entries && s.entries[c] != Symlink(ToDirectory)
    ensures ClearEach(s, cs, false).failure.None?
    ensures forall c, q :: c in cs && q in ClearEach(s, cs, false).after.entries && IsPrefix(c, q) ==>
      q == c && s.entries[c] == Symlink(Dangling)
    decreases |cs|
  {
    if cs != [] {
      var c := cs[0];
      ClearOneClears(s, c);
      var u := ClearOne(s, c, false);
      SiblingsTail(cs);
      forall d | d in cs[1..] ensures d in u.after.entries && u.after.entries[d] == s.entries[d] {
        ClearOneFrame(s, c, false, d);
        assert d in cs;
      }
      ClearEachClears(u.after, cs[1..]);
      var r := ClearEach(u.after, cs[1..], false);
      forall d, q | d in cs && q in r.after.entries && IsPrefix(d, q)
        ensures q == d && s.entries[d] == Symlink(Dangling)
      {
        if d == c {
          ClearEachShrinks(u.after, cs[1..], false, q);
        } else {
          assert d in cs[1..];
        }
      }
    }
  }

  /** `remove_edit_files` changes nothing outside `1_EDIT`; `1_EDIT` itself
      stays. */
  lemma EditSweepFrame(s: Snapshot, project: Path, dryRun: bool, p: Path)
    requires !IsBelow(EditDir(project), p)
    ensures Keeps(s, RemoveEditFilesSpec(s, project, dryRun).after, p)
  {
    var dir := EditDir(project);
    if IsDir(s, dir) {
      forall c | c in Children(s, dir) ensures !IsPrefix(c, p) {
        assert IsChild(dir, c);
      }
      ClearEachFrame(s, Children(s, dir), dryRun, p);
    }
  }

  /** Without `1_EDIT` the sweep does nothing; a dry run changes nothing; a
      run that completes reports what the dry run reports. */
  lemma EditSweepReports(s: Snapshot, project: Path)
    requires Valid(s)
    ensures !IsDir(s, EditDir(project)) ==> RemoveEditFilesSpec(s, project, false) == Step(s, [], None)
    ensures RemoveEditFilesSpec(s, project, true).after == s && RemoveEditFilesSpec(s, project, true).failure.None?
    ensures RemoveEditFilesSpec(s, project, false).failure.None? ==>
      RemoveEditFilesSpec(s, project, false).log == RemoveEditFilesSpec(s, project, true).log
  {
    var dir := EditDir(project);
    if IsDir(s, dir) && RemoveEditFilesSpec(s, project, false).failure.None? {
      ChildrenAreSiblings(s, dir);
      ClearEachReports(s, s, Children(s, dir));
    }
  }

  /** In a valid snapshot, whatever lies below `dir` lies in the subtree of
      one of its listed entries. */
  lemma UnderSomeChild(s: Snapshot, dir: Path, q: Path)
    requires Valid(s) && q in s.entries && IsBelow(dir, q)
    ensures q[..|dir| + 1] in Children(s, dir) && IsPrefix(q[..|dir| + 1], q)
  {
    var c := q[..|dir| + 1];
    if |q| > |dir| + 1 { AncestorIsDirectory(s, q, |dir| + 1); } else { assert c == q; }
    assert c[..|dir|] == dir;
    assert c in s.order && IsChild(dir, c);
  }

  /** Without a dry run, when `1_EDIT` is a directory none of whose entries is
      a link to a directory, the sweep completes and leaves nothing below
      `1_EDIT` but dangling links directly inside it. */
  lemma EditSweepClears(s: Snapshot, project: Path)
    requires Valid(s) && IsDir(s, EditDir(project))
    requires forall c :: c in s.entries && IsChild(EditDir(project), c) ==> s.entries[c] != Symlink(ToDirectory)
    ensures RemoveEditFilesSpec(s, project, false).failure.None?
    ensures Valid(RemoveEditFilesSpec(s, project, false).after)
    ensures forall q :: q in RemoveEditFilesSpec(s, project, false).after.entries && IsBelow(EditDir(project), q) ==>
      IsChild(EditDir(project), q) && q in s.entries && s.entries[q] == Symlink(Dangling)
  {
    var dir := EditDir(project);
    var cs := Children(s, dir);
    ChildrenAreSiblings(s, dir);
    ClearEachClears(s, cs);
    ClearEachKeepsValid(s, cs, false);
    var r := ClearEach(s, cs, false);
    forall q | q in r.after.entries && IsBelow(dir, q)
      ensures IsChild(dir, q) && q in s.entries && s.entries[q] == Symlink(Dangling)
    {
      ClearEachShrinks(s, cs, false, q);
      UnderSomeChild(s, dir, q);
    }
  }

  /** The dot-file sweep prints "removing" lines only. */
  lemma {:induction false} UnlinkEachEvents(s: Snapshot, ps: seq<Path>, dryRun: bool)
    ensures forall e :: e in UnlinkEach(s, ps, dryRun).log ==> e.Removing?
    decreases |ps|
  {
    if ps != [] { UnlinkEachEvents(UnlinkOne(s, ps[0], dryRun).after, ps[1..], dryRun); }
  }

  /** The edit sweep prints "removing" lines only, for files and folders. */
  lemma {:induction false} ClearEachEvents(s: Snapshot, cs: seq<Path>, dryRun: bool)
    ensures forall e :: e in ClearEach(s, cs, dryRun).log ==> e.Removing? || e.RemovingDir?
    decreases |cs|
  {
    if cs != [] { ClearEachEvents(ClearOne(s, cs[0], dryRun).after, cs[1..], dryRun); }
  }
}
