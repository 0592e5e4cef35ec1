/** Properties of whole runs of cleanup-photo-library.py: what one project's
    cleanup may touch, that raw originals survive, the order in which
    projects are reported, dry runs, and consistency of the volume. */
module RunProperties {

  import opened Wrappers
  import opened FileSystem
  import opened Cleanup
  import PL = ProjectLocator
  import opened SweepProperties
  import opened LinkProperties

  // ---------------------------------------------------------------- frames

  /** A project's cleanup touches only its dot files, what lies below its
      `1_EDIT` folder and its selects (immediate entries). */
  lemma CleanupProjectTouches(s: Snapshot, project: Path, opts: Options, hardlink: bool, hash: Bytes -> Digest, p: Path)
    requires !IsDotFile(project, p) && !IsBelow(EditDir(project), p) && !IsChild(project, p)
    ensures Keeps(s, CleanupProjectSpec(s, project, opts, hardlink, hash).after, p)
  {
    var dot := if opts.removeDotFiles then RemoveDotFilesSpec(s, project, opts.dryRun) else Step(s, [], None);
    UnlinkEachFrame(s, DotFiles(s, project), opts.dryRun, p);
    EditSweepFrame(dot.after, project, opts.dryRun, p);
    var edits := if opts.removeEdits then RemoveEditFilesSpec(dot.after, project, opts.dryRun) else Step(dot.after, [], None);
    HardlinkFrame(edits.after, project, hash, opts.dryRun, p);
  }

  /** Nothing outside the project folder is touched. */
  lemma CleanupProjectFrame(s: Snapshot, project: Path, opts: Options, hardlink: bool, hash: Bytes -> Digest, p: Path)
    requires !IsBelow(project, p)
    ensures Keeps(s, CleanupProjectSpec(s, project, opts, hardlink, hash).after, p)
  {
    BelowChild(project, PL.EditSubdir, p);
    CleanupProjectTouches(s, project, opts, hardlink, hash, p);
  }

  /** Raw originals survive a project's cleanup: every entry below `0_RAW`
      other than the `._` files the dot-file sweep matches is as it was. */
  lemma RawOriginalsKept(s: Snapshot, project: Path, opts: Options, hardlink: bool, hash: Bytes -> Digest, p: Path)
    requires IsBelow(RawDir(project), p) && !IsDotFile(project, p)
    ensures Keeps(s, CleanupProjectSpec(s, project, opts, hardlink, hash).after, p)
  {
    BelowChild(project, PL.RawSubdir, p);
    BelowChild(project, PL.EditSubdir, p);
    CleanupProjectTouches(s, project, opts, hardlink, hash, p);
  }

  /** What lies below a child of `a` lies below `a`, under that child's name. */
  lemma BelowChild(a: Path, n: Name, p: Path)
    ensures IsBelow(a + [n], p) ==> IsBelow(a, p) && p[|a|] == n
  {
    if IsBelow(a + [n], p) {
      assert p[..|a|] == p[..|a| + 1][..|a|];
      assert p[|a|] == p[..|a| + 1][|a|];
    }
  }

  /** Two ancestors of one path are ancestors one of the other. */
  lemma PrefixesComparable(a: Path, b: Path, p: Path)
    ensures IsPrefix(a, p) && IsPrefix(b, p) ==> IsPrefix(a, b) || IsPrefix(b, a)
  {
    if IsPrefix(a, p) && IsPrefix(b, p) && |a| <= |b| { assert b[..|a|] == p[..|b|][..|a|]; } else if IsPrefix(a, p) && IsPrefix(b, p) { assert a[..|b|] == p[..|a|][..|b|]; }
  }

  lemma AntichainTail(ps: seq<Path>)
    requires ps != [] && PL.Antichain(ps)
    ensures PL.Antichain(ps[1..])
  {
    forall i, j | 0 <= i < |ps[1..]| && 0 <= j < |ps[1..]| && i != j
      ensures !IsPrefix(ps[1..][i], ps[1..][j])
    {
      assert ps[1..][i] == ps[i + 1] && ps[1..][j] == ps[j + 1];
    }
  }

  /** A path below none of the projects is untouched by the loop over them. */
  lemma {:induction false} CleanupProjectsFrame(s: Snapshot, projects: seq<Path>, opts: Options, hardlink: bool,
                                                hash: Bytes -> Digest, p: Path)
    requires forall k :: 0 <= k < |projects| ==> !IsBelow(projects[k], p)
    ensures Keeps(s, CleanupProjects(s, projects, opts, hardlink, hash).after, p)
    decreases |projects|
  {
    if projects != [] {
      CleanupProjectFrame(s, projects[0], opts, hardlink, hash, p);
      var first := CleanupProjectSpec(s, projects[0], opts, hardlink, hash);
      forall k | 0 <= k < |projects[1..]| ensures !IsBelow(projects[1..][k], p) {
        assert projects[1..][k] == projects[k + 1];
      }
      CleanupProjectsFrame(first.after, projects[1..], opts, hardlink, hash, p);
    }
  }

  /** Over projects none of which contains another, the raw originals of
      each survive the whole loop: no other project's cleanup reaches them. */
  lemma {:induction false} CleanupProjectsKeepRaw(s: Snapshot, projects: seq<Path>, opts: Options, hardlink: bool,
                                                  hash: Bytes -> Digest, k: nat, p: Path)
    requires PL.Antichain(projects) && k < |projects|
    requires IsBelow(RawDir(projects[k]), p) && !IsDotFile(projects[k], p)
    ensures Keeps(s, CleanupProjects(s, projects, opts, hardlink, hash).after, p)
    decreases |projects|
  {
    var q := projects[k];
    assert IsPrefix(q, p) by { assert p[..|q|] == p[..|q| + 1][..|q|]; }
    var first := CleanupProjectSpec(s, projects[0], opts, hardlink, hash);
    AntichainTail(projects);
    if k == 0 {
      RawOriginalsKept(s, q, opts, hardlink, hash, p);
      forall j | 0 <= j < |projects[1..]| ensures !IsBelow(projects[1..][j], p) {
        assert projects[1..][j] == projects[j + 1];
        PrefixesComparable(q, projects[j + 1], p);
      }
      CleanupProjectsFrame(first.after, projects[1..], opts, hardlink, hash, p);
    } else {
      PrefixesComparable(q, projects[0], p);
      CleanupProjectFrame(s, projects[0], opts, hardlink, hash, p);
      assert projects[1..][k - 1] == q;
      CleanupProjectsKeepRaw(first.after, projects[1..], opts, hardlink, hash, k - 1, p);
    }
  }

  /** A whole run keeps every raw original of every project it finds (sibling
      folders have distinct names, as on any file system), and everything
      that lies in no project. */
  lemma CleanupLibraryKeepsRaw(s: Snapshot, library: Path, tree: PL.Dir, opts: Options, supported: bool,
                               hash: Bytes -> Digest, project: Path, p: Path)
    requires PL.UniqueNames(tree) && project in PL.FindProjects(tree, library)
    requires IsBelow(RawDir(project), p) && !IsDotFile(project, p)
    ensures Keeps(s, CleanupLibrary(s, library, tree, opts, supported, hash).after, p)
  {
    var ps := PL.FindProjects(tree, library);
    PL.ProjectsAntichain(tree, library);
    var k :| 0 <= k < |ps| && ps[k] == project;
    CleanupProjectsKeepRaw(s, ps, opts, opts.hardlinkSelects && supported, hash, k, p);
  }

  lemma CleanupLibraryFrame(s: Snapshot, library: Path, tree: PL.Dir, opts: Options, supported: bool,
                            hash: Bytes -> Digest, p: Path)
    requires forall q :: q in PL.FindProjects(tree, library) ==> !IsBelow(q, p)
    ensures Keeps(s, CleanupLibrary(s, library, tree, opts, supported, hash).after, p)
  {
    var ps := PL.FindProjects(tree, library);
    forall k | 0 <= k < |ps| ensures !IsBelow(ps[k], p) { assert ps[k] in ps; }
    CleanupProjectsFrame(s, ps, opts, opts.hardlinkSelects && supported, hash, p);
  }

  // ---------------------------------------------------------------- what is printed

  /** The projects a log announces ("Cleaning …"), in order. */
  function Announced(log: seq<Event>): (r: seq<Path>)
    ensures forall p :: p in r <==> Cleaning(p) in log
    decreases |log|
  {
    if log == [] then []
    else (if log[0].Cleaning? then [log[0].project] else []) + Announced(log[1..])
  }

  lemma {:induction false} AnnouncedAppend(a: seq<Event>, b: seq<Event>)
    ensures Announced(a + b) == Announced(a) + Announced(b)
    decreases |a|
  {
    if a == [] {
      assert a + b == b;
    } else {
      assert (a + b)[1..] == a[1..] + b;
      AnnouncedAppend(a[1..], b);
    }
  }

  /** The events after the announcement are the sweeps' and the hard-link
      loop's, in that order. */
  lemma CleanupProjectLog(s: Snapshot, project: Path, opts: Options, hardlink: bool, hash: Bytes -> Digest)
    ensures CleanupProjectSpec(s, project, opts, hardlink, hash).log != []
    ensures CleanupProjectSpec(s, project, opts, hardlink, hash).log[0] == Cleaning(project)
    ensures forall e :: e in CleanupProjectSpec(s, project, opts, hardlink, hash).log[1..] ==>
      (opts.removeDotFiles && e.Removing?) || (opts.removeEdits && (e.Removing? || e.RemovingDir?)) ||
      (hardlink && (e.Linking? || e.Mismatch?))
  {
    var r := CleanupProjectSpec(s, project, opts, hardlink, hash);
    var dot := if opts.removeDotFiles then RemoveDotFilesSpec(s, project, opts.dryRun) else Step(s, [], None);
    UnlinkEachEvents(s, DotFiles(s, project), opts.dryRun);
    var edits := if opts.removeEdits then RemoveEditFilesSpec(dot.after, project, opts.dryRun) else Step(dot.after, [], None);
    if IsDir(dot.after, EditDir(project)) {
      ClearEachEvents(dot.after, Children(dot.after, EditDir(project)), opts.dryRun);
    }
    var links := if hardlink then HardlinkSelectsSpec(edits.after, project, hash, opts.dryRun) else Step(edits.after, [], None);
    LinkEachEvents(edits.after, project, SelectFiles(edits.after, project), hash, opts.dryRun);
    if dot.failure.Some? {
      assert r.log == [Cleaning(project)] + dot.log;
    } else if edits.failure.Some? {
      assert r.log == [Cleaning(project)] + (dot.log + edits.log);
    } else {
      assert r.log == [Cleaning(project)] + (dot.log + edits.log + links.log);
    }
  }

  /** A log without announcements announces nothing. */
  lemma {:induction false} AnnouncedNone(log: seq<Event>)
    ensures (forall e :: e in log ==> !e.Cleaning?) ==> Announced(log) == []
    decreases |log|
  {
    if log != [] {
      assert forall e :: e in log[1..] ==> e in log;
      AnnouncedNone(log[1..]);
    }
  }

  lemma AnnouncedOne(project: Path, log: seq<Event>)
    requires log != [] && log[0] == Cleaning(project)
    requires forall e :: e in log[1..] ==> !e.Cleaning?
    ensures Announced(log) == [project]
  {
    assert log == [log[0]] + log[1..];
    AnnouncedAppend([log[0]], log[1..]);
    AnnouncedNone(log[1..]);
    assert Announced([log[0]]) == [project] + Announced([]);
  }

  /** A project's cleanup announces the project first and nothing else; the
      hard-link lines appear only when hard-linking is on, and the removal
      lines only when a sweep is on. */
  lemma CleanupProjectAnnounced(s: Snapshot, project: Path, opts: Options, hardlink: bool, hash: Bytes -> Digest)
    ensures Announced(CleanupProjectSpec(s, project, opts, hardlink, hash).log) == [project]
  {
    var log := CleanupProjectSpec(s, project, opts, hardlink, hash).log;
    CleanupProjectLog(s, project, opts, hardlink, hash);
    AnnouncedOne(project, log);
  }

  lemma CleanupProjectEvents(s: Snapshot, project: Path, opts: Options, hardlink: bool, hash: Bytes -> Digest)
    ensures Announced(CleanupProjectSpec(s, project, opts, hardlink, hash).log) == [project]
    ensures !hardlink ==> forall e :: e in CleanupProjectSpec(s, project, opts, hardlink, hash).log ==>
      !e.Linking? && !e.Mismatch?
    ensures !opts.removeDotFiles && !opts.removeEdits ==>
      forall e :: e in CleanupProjectSpec(s, project, opts, hardlink, hash).log ==> !e.Removing? && !e.RemovingDir?
  {
    var log := CleanupProjectSpec(s, project, opts, hardlink, hash).log;
    CleanupProjectLog(s, project, opts, hardlink, hash);
    AnnouncedOne(project, log);
    assert log == [log[0]] + log[1..];
  }

  /** A log that announces `projects[0]` followed by one announcing a
      prefix of the other projects announces a prefix of `projects`. */
  lemma AnnouncedCons(projects: seq<Path>, a: seq<Event>, b: seq<Event>, n: nat)
    requires projects != [] && Announced(a) == [projects[0]]
    requires n < |projects| && Announced(b) == projects[1..][..n]
    ensures Announced(a + b) == projects[..n + 1]
  {
    AnnouncedAppend(a, b);
    assert projects[..n + 1] == [projects[0]] + projects[1..][..n];
  }

  /** The order property of a run over `projects`, as one predicate. */
  predicate AnnouncesInOrder(r: Step, projects: seq<Path>)
  {
    (r.failure.None? ==> Announced(r.log) == projects) &&
    (r.failure.Some? ==> 0 < |Announced(r.log)| <= |projects| && Announced(r.log) == projects[..|Announced(r.log)|])
  }

  /** One step of the loop keeps the order property: a first project that
      announces itself, then either its failure or the rest of the run. */
  lemma AnnouncesInOrderStep(projects: seq<Path>, first: Step, rest: Step, r: Step)
    requires projects != [] && Announced(first.log) == [projects[0]]
    requires r == if first.failure.Some? then first else Prepend(first.log, rest)
    requires first.failure.None? ==> AnnouncesInOrder(rest, projects[1..])
    ensures AnnouncesInOrder(r, projects)
  {
    if first.failure.None? {
      var n := |Announced(rest.log)|;
      assert projects[1..][..|projects| - 1] == projects[1..];
      AnnouncedCons(projects, first.log, rest.log, n);
    } else {
      assert projects[..1] == [projects[0]];
    }
  }

  /** The loop announces the projects in the order found, each once; when
      an exception stops it, what was announced is a non-empty leading part
      of the list (the failing project was announced before it failed). */
  lemma {:induction false} CleanupProjectsOrder(s: Snapshot, projects: seq<Path>, opts: Options, hardlink: bool,
                                                hash: Bytes -> Digest)
    ensures AnnouncesInOrder(CleanupProjects(s, projects, opts, hardlink, hash), projects)
    decreases |projects|
  {
    if projects != [] {
      var first := CleanupProjectSpec(s, projects[0], opts, hardlink, hash);
      var rest := CleanupProjects(first.after, projects[1..], opts, hardlink, hash);
      CleanupProjectAnnounced(s, projects[0], opts, hardlink, hash);
      CleanupProjectsOrder(first.after, projects[1..], opts, hardlink, hash);
      AnnouncesInOrderStep(projects, first, rest, CleanupProjects(s, projects, opts, hardlink, hash));
    }
  }

  /** Without the hard-link switch no project's run links or compares. */
  lemma {:induction false} CleanupProjectsNoLinks(s: Snapshot, projects: seq<Path>, opts: Options, hardlink: bool,
                                                  hash: Bytes -> Digest)
    ensures !hardlink ==> forall e :: e in CleanupProjects(s, projects, opts, hardlink, hash).log ==>
      !e.Linking? && !e.Mismatch?
    decreases |projects|
  {
    if projects != [] {
      var first := CleanupProjectSpec(s, projects[0], opts, hardlink, hash);
      CleanupProjectEvents(s, projects[0], opts, hardlink, hash);
      if first.failure.None? {
        CleanupProjectsNoLinks(first.after, projects[1..], opts, hardlink, hash);
      }
    }
  }

  /** A run on an existing library announces exactly the projects
      `find_projects` returns, in its order, when nothing fails. Without
      both the switch and hard-link support nothing is linked or compared. */
  lemma CleanupLibraryOrder(s: Snapshot, library: Path, tree: PL.Dir, opts: Options, supported: bool,
                            hash: Bytes -> Digest)
    requires IsDir(s, library)
    ensures CleanupLibrary(s, library, tree, opts, supported, hash).failure.None? ==>
      Announced(CleanupLibrary(s, library, tree, opts, supported, hash).log) == PL.FindProjects(tree, library)
    ensures !(opts.hardlinkSelects && supported) ==>
      forall e :: e in CleanupLibrary(s, library, tree, opts, supported, hash).log ==> !e.Linking? && !e.Mismatch?
  {
    CleanupProjectsOrder(s, PL.FindProjects(tree, library), opts, opts.hardlinkSelects && supported, hash);
    CleanupProjectsNoLinks(s, PL.FindProjects(tree, library), opts, opts.hardlinkSelects && supported, hash);
  }

  // ---------------------------------------------------------------- dry runs

  /** A dry run changes nothing; it can stop only on a file it could not
      read while comparing digests. */
  lemma CleanupProjectDry(s: Snapshot, project: Path, opts: Options, hardlink: bool, hash: Bytes -> Digest)
    requires opts.dryRun
    ensures CleanupProjectSpec(s, project, opts, hardlink, hash).after == s
    ensures CleanupProjectSpec(s, project, opts, hardlink, hash).failure.Some? ==>
      CleanupProjectSpec(s, project, opts, hardlink, hash).failure.value.ReadFailed?
  {
    UnlinkEachDry(s, DotFiles(s, project));
    LinkEachDry(s, project, SelectFiles(s, project), hash);
    LinkEachEvents(s, project, SelectFiles(s, project), hash, true);
  }

  lemma {:induction false} CleanupProjectsDry(s: Snapshot, projects: seq<Path>, opts: Options, hardlink: bool,
                                              hash: Bytes -> Digest)
    requires opts.dryRun
    ensures CleanupProjects(s, projects, opts, hardlink, hash).after == s
    ensures CleanupProjects(s, projects, opts, hardlink, hash).failure.Some? ==>
      CleanupProjects(s, projects, opts, hardlink, hash).failure.value.ReadFailed?
    decreases |projects|
  {
    if projects != [] {
      CleanupProjectDry(s, projects[0], opts, hardlink, hash);
      CleanupProjectsDry(s, projects[1..], opts, hardlink, hash);
    }
  }

  lemma CleanupLibraryDry(s: Snapshot, library: Path, tree: PL.Dir, opts: Options, supported: bool,
                          hash: Bytes -> Digest)
    requires opts.dryRun
    ensures CleanupLibrary(s, library, tree, opts, supported, hash).after == s
    ensures CleanupLibrary(s, library, tree, opts, supported, hash).failure.Some? ==>
      CleanupLibrary(s, library, tree, opts, supported, hash).failure.value.ReadFailed? ||
      CleanupLibrary(s, library, tree, opts, supported, hash).failure.value == LibraryNotFound(library)
  {
    CleanupProjectsDry(s, PL.FindProjects(tree, library), opts, opts.hardlinkSelects && supported, hash);
  }

  // ---------------------------------------------------------------- consistency

  /** Every step keeps the volume consistent, also the step an exception
      interrupts. */
  lemma CleanupProjectKeepsValid(s: Snapshot, project: Path, opts: Options, hardlink: bool, hash: Bytes -> Digest)
    requires Valid(s)
    ensures Valid(CleanupProjectSpec(s, project, opts, hardlink, hash).after)
  {
    var dot := if opts.removeDotFiles then RemoveDotFilesSpec(s, project, opts.dryRun) else Step(s, [], None);
    UnlinkEachKeepsValid(s, DotFiles(s, project), opts.dryRun);
    var edits := if opts.removeEdits then RemoveEditFilesSpec(dot.after, project, opts.dryRun) else Step(dot.after, [], None);
    if IsDir(dot.after, EditDir(project)) {
      ClearEachKeepsValid(dot.after, Children(dot.after, EditDir(project)), opts.dryRun);
    }
    LinkEachKeepsValid(edits.after, project, SelectFiles(edits.after, project), hash, opts.dryRun);
  }

  lemma {:induction false} CleanupProjectsKeepValid(s: Snapshot, projects: seq<Path>, opts: Options, hardlink: bool,
                                                    hash: Bytes -> Digest)
    requires Valid(s)
    ensures Valid(CleanupProjects(s, projects, opts, hardlink, hash).after)
    decreases |projects|
  {
    if projects != [] {
      CleanupProjectKeepsValid(s, projects[0], opts, hardlink, hash);
      CleanupProjectsKeepValid(CleanupProjectSpec(s, projects[0], opts, hardlink, hash).after, projects[1..],
                               opts, hardlink, hash);
    }
  }

  lemma CleanupLibraryKeepsValid(s: Snapshot, library: Path, tree: PL.Dir, opts: Options, supported: bool,
                                 hash: Bytes -> Digest)
    requires Valid(s)
    ensures Valid(CleanupLibrary(s, library, tree, opts, supported, hash).after)
  {
    CleanupProjectsKeepValid(s, PL.FindProjects(tree, library), opts, opts.hardlinkSelects && supported, hash);
  }
}
