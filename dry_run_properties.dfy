/** What a dry run of cleanup-photo-library.py tells about the real run ("show
    what would be done without doing it"): a real run that completes names
    the same paths as the dry run on the same volume, and the lines of one
    project come stage by stage, the removals before the hard links. The
    sequence of lines can differ: a `._` file inside `1_EDIT` is named by
    both sweeps in a dry run, but only by the first in a real run, which
    has already deleted it when the edit sweep looks. */
module DryRunProperties {

  import opened Wrappers
  import opened Text
  import opened FileSystem
  import opened Cleanup
  import PL = ProjectLocator
  import opened SweepProperties
  import opened LinkProperties
  import opened RunProperties

  /** The path a printed line is about. */
  function EventPath(e: Event): Path
  {
    match e
    case Cleaning(p) => p
    case Removing(p) => p
    case RemovingDir(p) => p
    case Linking(p) => p
    case Mismatch(p, _, _) => p
  }

  /** The paths a log names. */
  function Mentioned(log: seq<Event>): set<Path>
  {
    set e | e in log :: EventPath(e)
  }

  lemma MentionedAppend(a: seq<Event>, b: seq<Event>)
    ensures Mentioned(a + b) == Mentioned(a) + Mentioned(b)
  {
    forall p | p in Mentioned(a + b) ensures p in Mentioned(a) + Mentioned(b) {
      var e :| e in a + b && EventPath(e) == p;
    }
  }

  lemma MentionedShort(log: seq<Event>)
    requires |log| <= 1
    ensures Mentioned(log) == if log == [] then {} else {EventPath(log[0])}
  {
    if log != [] { assert forall e :: e in log ==> e == log[0]; }
  }

  // ---------------------------------------------------------------- one stage at a time

  /** The dot-file sweep names the dot files. */
  lemma RemovingsMention(ps: seq<Path>)
    ensures Mentioned(Removings(ps)) == set p | p in ps
  {
    var r := Removings(ps);
    forall p | p in ps ensures p in Mentioned(r) {
      var i :| 0 <= i < |ps| && ps[i] == p;
      assert EventPath(r[i]) == p;
    }
    forall p | p in Mentioned(r) ensures p in ps {
      var e :| e in r && EventPath(e) == p;
      var i :| 0 <= i < |r| && r[i] == e;
      assert p == ps[i];
    }
  }

  lemma ClearOneDryMentions(t: Snapshot, c: Path)
    ensures ClearOne(t, c, true).after == t && ClearOne(t, c, true).failure.None?
    ensures Mentioned(ClearOne(t, c, true).log) == if IsFile(t, c) || IsDir(t, c) then {c} else {}
  {
    MentionedShort(ClearOne(t, c, true).log);
  }

  /** A dry run of the edit sweep names exactly the listed entries that are
      files or folders (following links). */
  lemma {:induction false} ClearEachDryMentions(t: Snapshot, cs: seq<Path>)
    ensures Mentioned(ClearEach(t, cs, true).log) == set c | c in cs && (IsFile(t, c) || IsDir(t, c))
    decreases |cs|
  {
    if cs != [] {
      var u := ClearOne(t, cs[0], true);
      ClearOneDryMentions(t, cs[0]);
      var rest := ClearEach(t, cs[1..], true);
      ClearEachDryMentions(t, cs[1..]);
      MentionedAppend(u.log, rest.log);
      forall c ensures c in cs <==> c == cs[0] || c in cs[1..] {
        assert cs == [cs[0]] + cs[1..];
      }
    }
  }

  /** A dry run of the hard-link loop stops exactly when a select or its raw
      candidate cannot be read. */
  lemma {:induction false} LinkEachDryStops(t: Snapshot, project: Path, cs: seq<Path>, hash: Bytes -> Digest)
    ensures LinkEach(t, project, cs, hash, true).failure.None? <==>
      forall c :: c in cs ==> !Decide(t, project, c, hash).Unreadable?
    decreases |cs|
  {
    if cs != [] {
      assert LinkOne(t, project, cs[0], hash, true).after == t;
      LinkEachDryStops(t, project, cs[1..], hash);
      forall c ensures c in cs <==> c == cs[0] || c in cs[1..] {
        assert cs == [cs[0]] + cs[1..];
      }
    }
  }

  lemma LinkOneDryMentions(t: Snapshot, project: Path, c: Path, hash: Bytes -> Digest)
    ensures LinkOne(t, project, c, hash, true).after == t
    ensures Mentioned(LinkOne(t, project, c, hash, true).log) ==
      if Decide(t, project, c, hash) == Link || Decide(t, project, c, hash).Differ? then {c} else {}
  {
    MentionedShort(LinkOne(t, project, c, hash, true).log);
  }

  /** When it does not stop, it names the selects that would be linked and
      those whose content differs. */
  lemma {:induction false} LinkEachDryMentions(t: Snapshot, project: Path, cs: seq<Path>, hash: Bytes -> Digest)
    requires LinkEach(t, project, cs, hash, true).failure.None?
    ensures Mentioned(LinkEach(t, project, cs, hash, true).log) ==
      set c | c in cs && (Decide(t, project, c, hash) == Link || Decide(t, project, c, hash).Differ?)
    decreases |cs|
  {
    if cs != [] {
      var u := LinkOne(t, project, cs[0], hash, true);
      LinkOneDryMentions(t, project, cs[0], hash);
      var rest := LinkEach(t, project, cs[1..], hash, true);
      LinkEachDryMentions(t, project, cs[1..], hash);
      forall c ensures c in cs <==> c == cs[0] || c in cs[1..] {
        assert cs == [cs[0]] + cs[1..];
      }
      MentionedAppend(u.log, rest.log);
    }
  }

  /** Two lists with the same elements give dry runs of the hard-link loop
      that both stop or both name the same selects. */
  lemma LinkEachDrySameSet(t: Snapshot, project: Path, cs: seq<Path>, ds: seq<Path>, hash: Bytes -> Digest)
    requires forall c :: c in cs <==> c in ds
    requires LinkEach(t, project, cs, hash, true).failure.None?
    ensures LinkEach(t, project, ds, hash, true).failure.None?
    ensures Mentioned(LinkEach(t, project, cs, hash, true).log) == Mentioned(LinkEach(t, project, ds, hash, true).log)
  {
    LinkEachDryStops(t, project, cs, hash);
    LinkEachDryStops(t, project, ds, hash);
    LinkEachDryMentions(t, project, cs, hash);
    LinkEachDryMentions(t, project, ds, hash);
  }

  /** The entries of a folder that are files or folders, in two valid
      volumes that agree on its entries outside `gone`, agree outside `gone`. */
  lemma EditEntriesAgree(s: Snapshot, s1: Snapshot, dir: Path, gone: set<Path>)
    requires Valid(s) && Valid(s1)
    requires forall p :: IsChild(dir, p) && p !in gone ==> Keeps(s, s1, p)
    ensures forall c :: c !in gone ==>
      ((c in Children(s1, dir) && (IsFile(s1, c) || IsDir(s1, c))) <==> (c in Children(s, dir) && (IsFile(s, c) || IsDir(s, c))))
  {
    forall c | c !in gone
      ensures (c in Children(s1, dir) && (IsFile(s1, c) || IsDir(s1, c))) <==> (c in Children(s, dir) && (IsFile(s, c) || IsDir(s, c)))
    {
      if IsChild(dir, c) {
        assert Keeps(s, s1, c);
        assert FileInode(s, c) == FileInode(s1, c);
      }
    }
  }

  lemma UnionAgrees(x: set<Path>, y: set<Path>, gone: set<Path>)
    requires forall c :: c !in gone ==> (c in x <==> c in y)
    ensures x + gone == y + gone
  {
  }

  /** The edit sweep of a real run that completes, after the dot files `gone`
      have been deleted, names what the dry run's edit sweep names, up to
      those dot files. */
  lemma EditSweepDryMentions(s: Snapshot, s1: Snapshot, project: Path, gone: set<Path>)
    requires Valid(s) && Valid(s1)
    requires forall p :: p !in gone ==> Keeps(s, s1, p)
    requires EditDir(project) !in gone
    requires RemoveEditFilesSpec(s1, project, false).failure.None?
    ensures Mentioned(RemoveEditFilesSpec(s1, project, false).log) + gone ==
            Mentioned(RemoveEditFilesSpec(s, project, true).log) + gone
  {
    var dir := EditDir(project);
    EditSweepReports(s1, project);
    assert Keeps(s, s1, dir);
    if IsDir(s, dir) {
      var c1 := Children(s1, dir);
      var c0 := Children(s, dir);
      ClearEachDryMentions(s1, c1);
      ClearEachDryMentions(s, c0);
      EditEntriesAgree(s, s1, dir, gone);
      UnionAgrees(Mentioned(ClearEach(s1, c1, true).log), Mentioned(ClearEach(s, c0, true).log), gone);
    }
  }

  /** A select-like entry (an immediate entry whose name does not start
      with `.`) and its raw candidate are neither dot files nor below
      `1_EDIT`. */
  lemma SelectUnaffected(project: Path, p: Path)
    requires IsChild(project, p) && !StartsWith(Last(p), ".")
    ensures !IsDotFile(project, p) && !IsBelow(EditDir(project), p)
    ensures !IsDotFile(project, RawCandidate(project, p)) && !IsBelow(EditDir(project), RawCandidate(project, p))
  {
    var q := RawCandidate(project, p);
    assert q[..|project|] == project && q[|project|] == PL.RawSubdir && Last(q) == Last(p);
  }

  /** Neither is `0_RAW`. */
  lemma RawDirUnaffected(project: Path)
    ensures !IsDotFile(project, RawDir(project)) && !IsBelow(EditDir(project), RawDir(project))
  {
    assert Last(RawDir(project)) == PL.RawSubdir && PL.RawSubdir[..2] == "0_";
  }

  /** What the hard-link loop looks at is unaffected by the sweeps. */
  lemma SweepsKeepSelects(s: Snapshot, s2: Snapshot, project: Path, gone: set<Path>)
    requires forall p :: p in gone ==> IsDotFile(project, p)
    requires forall p :: p !in gone && !IsBelow(EditDir(project), p) ==> Keeps(s, s2, p)
    ensures Keeps(s, s2, RawDir(project))
    ensures forall p :: IsChild(project, p) && !StartsWith(Last(p), ".") ==>
      Keeps(s, s2, p) && Keeps(s, s2, RawCandidate(project, p))
  {
    RawDirUnaffected(project);
    forall p | IsChild(project, p) && !StartsWith(Last(p), ".")
      ensures Keeps(s, s2, p) && Keeps(s, s2, RawCandidate(project, p))
    {
      SelectUnaffected(project, p);
    }
  }

  /** Two valid volumes that agree on `0_RAW` and on the select-like entries
      list the same selects. */
  lemma SelectFilesAgree(s: Snapshot, s2: Snapshot, project: Path)
    requires Valid(s) && Valid(s2) && Keeps(s, s2, RawDir(project))
    requires forall p :: IsChild(project, p) && !StartsWith(Last(p), ".") ==> Keeps(s, s2, p)
    ensures forall c :: c in SelectFiles(s2, project) <==> c in SelectFiles(s, project)
  {
    forall c | IsSelect(s2, project, c) || IsSelect(s, project, c) ensures Keeps(s, s2, c) {
    }
  }

  /** The hard-link loop of a real run that completes, on a volume that
      differs from `s` only in dot files and below `1_EDIT`, names what the
      dry run on `s` names, and that dry run completes. */
  lemma HardlinkDryMentions(s: Snapshot, s2: Snapshot, project: Path, gone: set<Path>, hash: Bytes -> Digest)
    requires Valid(s) && Valid(s2) && s.data == s2.data
    requires forall p :: p in gone ==> IsDotFile(project, p)
    requires forall p :: p !in gone && !IsBelow(EditDir(project), p) ==> Keeps(s, s2, p)
    requires HardlinkSelectsSpec(s2, project, hash, false).failure.None?
    ensures HardlinkSelectsSpec(s, project, hash, true).failure.None?
    ensures Mentioned(HardlinkSelectsSpec(s2, project, hash, false).log) ==
            Mentioned(HardlinkSelectsSpec(s, project, hash, true).log)
  {
    var cs2 := SelectFiles(s2, project);
    var cs := SelectFiles(s, project);
    SweepsKeepSelects(s, s2, project, gone);
    SelectFilesAgree(s, s2, project);
    SelectFilesList(s2, project);
    LinkEachReports(s2, s, project, cs2, hash);
    LinkEachDrySameSet(s, project, cs2, cs, hash);
  }

  // ---------------------------------------------------------------- one project

  /** The three stages of `cleanup_project`, each behind its switch. */
  function DotStage(s: Snapshot, project: Path, opts: Options): Step
  {
    if opts.removeDotFiles then RemoveDotFilesSpec(s, project, opts.dryRun) else Step(s, [], None)
  }

  function EditStage(s: Snapshot, project: Path, opts: Options): Step
  {
    if opts.removeEdits then RemoveEditFilesSpec(s, project, opts.dryRun) else Step(s, [], None)
  }

  function LinkStage(s: Snapshot, project: Path, hardlink: bool, hash: Bytes -> Digest, dryRun: bool): Step
  {
    if hardlink then HardlinkSelectsSpec(s, project, hash, dryRun) else Step(s, [], None)
  }

  /** A project's cleanup completes when each stage does, and then prints the
      announcement and the three stages' lines in turn. */
  lemma ProjectStages(s: Snapshot, project: Path, opts: Options, hardlink: bool, hash: Bytes -> Digest)
    ensures
      var r := CleanupProjectSpec(s, project, opts, hardlink, hash);
      var a := DotStage(s, project, opts);
      var b := EditStage(a.after, project, opts);
      var c := LinkStage(b.after, project, hardlink, hash, opts.dryRun);
      && (r.failure.None? <==> a.failure.None? && b.failure.None? && c.failure.None?)
      && (r.failure.None? ==> r.log == [Cleaning(project)] + (a.log + b.log + c.log))
      && r.log == [Cleaning(project)] + (a.log + (if a.failure.None? then b.log else []) +
                                         (if a.failure.None? && b.failure.None? then c.log else []))
  {
  }

  /** The paths of a project's log, stage by stage. */
  lemma MentionedStages(project: Path, a: seq<Event>, b: seq<Event>, c: seq<Event>)
    ensures Mentioned([Cleaning(project)] + (a + b + c)) == {project} + Mentioned(a) + Mentioned(b) + Mentioned(c)
  {
    MentionedAppend([Cleaning(project)], a + b + c);
    MentionedAppend(a + b, c);
    MentionedAppend(a, b);
    MentionedShort([Cleaning(project)]);
  }

  /** The dot files a real run deletes. */
  function Gone(s: Snapshot, project: Path, opts: Options): set<Path>
  {
    if opts.removeDotFiles then set p | p in DotFiles(s, project) else {}
  }

  /** The first stage: both modes name the dot files; the real one leaves a
      valid volume that differs only in them. */
  lemma DotStageMentions(s: Snapshot, project: Path, opts: Options)
    requires Valid(s)
    requires DotStage(s, project, opts.(dryRun := false)).failure.None?
    ensures Valid(DotStage(s, project, opts.(dryRun := false)).after)
    ensures forall p :: p in Gone(s, project, opts) ==> IsDotFile(project, p)
    ensures forall p :: p !in Gone(s, project, opts) ==> Keeps(s, DotStage(s, project, opts.(dryRun := false)).after, p)
    ensures Mentioned(DotStage(s, project, opts.(dryRun := false)).log) == Gone(s, project, opts)
    ensures DotStage(s, project, opts.(dryRun := true)) == Step(s, DotStage(s, project, opts.(dryRun := true)).log, None)
    ensures Mentioned(DotStage(s, project, opts.(dryRun := true)).log) == Gone(s, project, opts)
  {
    var ds := DotFiles(s, project);
    DotSweepReports(s, project, false);
    DotSweepReports(s, project, true);
    RemovingsMention(ds);
    UnlinkEachKeepsValid(s, ds, false);
    forall p | p !in Gone(s, project, opts) ensures Keeps(s, DotStage(s, project, opts.(dryRun := false)).after, p) {
      if opts.removeDotFiles { UnlinkEachFrame(s, ds, false, p); }
    }
  }

  /** The second stage: the real one, run after the dot files `gone` went,
      names what the dry one names up to those files, and leaves a valid
      volume that differs from `s` only in them and below `1_EDIT`. */
  lemma EditStageMentions(s: Snapshot, s1: Snapshot, project: Path, opts: Options, gone: set<Path>)
    requires Valid(s) && Valid(s1)
    requires forall p :: p in gone ==> IsDotFile(project, p)
    requires forall p :: p !in gone ==> Keeps(s, s1, p)
    requires EditStage(s1, project, opts.(dryRun := false)).failure.None?
    ensures Valid(EditStage(s1, project, opts.(dryRun := false)).after)
    ensures forall p :: p !in gone && !IsBelow(EditDir(project), p) ==>
      Keeps(s, EditStage(s1, project, opts.(dryRun := false)).after, p)
    ensures EditStage(s, project, opts.(dryRun := true)) == Step(s, EditStage(s, project, opts.(dryRun := true)).log, None)
    ensures Mentioned(EditStage(s1, project, opts.(dryRun := false)).log) + gone ==
            Mentioned(EditStage(s, project, opts.(dryRun := true)).log) + gone
  {
    var dir := EditDir(project);
    assert dir !in gone by {
      assert Last(dir) == PL.EditSubdir && PL.EditSubdir[..2] == "1_";
    }
    if IsDir(s1, dir) {
      ClearEachKeepsValid(s1, Children(s1, dir), false);
    }
    if opts.removeEdits {
      EditSweepDryMentions(s, s1, project, gone);
    }
    forall p | p !in gone && !IsBelow(dir, p) ensures Keeps(s, EditStage(s1, project, opts.(dryRun := false)).after, p) {
      EditSweepFrame(s1, project, false, p);
    }
  }

  /** When a project's cleanup completes for real, the dry run on the same
      volume completes too, and both name the same set of paths: a dry run
      shows what a real run would delete and link. */
  lemma DryRunNamesSamePaths(s: Snapshot, project: Path, opts: Options, hardlink: bool, hash: Bytes -> Digest)
    requires Valid(s)
    requires CleanupProjectSpec(s, project, opts.(dryRun := false), hardlink, hash).failure.None?
    ensures CleanupProjectSpec(s, project, opts.(dryRun := true), hardlink, hash).failure.None?
    ensures Mentioned(CleanupProjectSpec(s, project, opts.(dryRun := false), hardlink, hash).log) ==
            Mentioned(CleanupProjectSpec(s, project, opts.(dryRun := true), hardlink, hash).log)
  {
    var realOpts, dryOpts := opts.(dryRun := false), opts.(dryRun := true);
    var gone := Gone(s, project, opts);
    ProjectStages(s, project, realOpts, hardlink, hash);
    ProjectStages(s, project, dryOpts, hardlink, hash);
    var a := DotStage(s, project, realOpts);
    DotStageMentions(s, project, opts);
    var b := EditStage(a.after, project, realOpts);
    EditStageMentions(s, a.after, project, opts, gone);
    var c := LinkStage(b.after, project, hardlink, hash, false);
    if hardlink {
      HardlinkDryMentions(s, b.after, project, gone, hash);
    }
    var da := DotStage(s, project, dryOpts);
    var db := EditStage(s, project, dryOpts);
    var dc := LinkStage(s, project, hardlink, hash, true);
    MentionedStages(project, a.log, b.log, c.log);
    MentionedStages(project, da.log, db.log, dc.log);
    StagesAgree(project, gone, Mentioned(a.log), Mentioned(b.log), Mentioned(c.log),
                Mentioned(da.log), Mentioned(db.log), Mentioned(dc.log));
  }

  lemma StagesAgree(project: Path, gone: set<Path>, a: set<Path>, b: set<Path>, c: set<Path>,
                    da: set<Path>, db: set<Path>, dc: set<Path>)
    requires a == gone && da == gone && b + gone == db + gone && c == dc
    ensures {project} + a + b + c == {project} + da + db + dc
  {
  }

  // ---------------------------------------------------------------- order of the stages

  /** No removal is printed after a hard-link line. */
  predicate RemovalsFirst(log: seq<Event>)
  {
    forall i, j :: 0 <= i < j < |log| && (log[i].Linking? || log[i].Mismatch?) ==>
      !log[j].Removing? && !log[j].RemovingDir?
  }

  /** An announcement, dot-file removals, edit removals, then hard-link lines. */
  lemma StagesInOrder(project: Path, a: seq<Event>, b: seq<Event>, c: seq<Event>)
    requires forall e :: e in a ==> e.Removing?
    requires forall e :: e in b ==> e.Removing? || e.RemovingDir?
    requires forall e :: e in c ==> e.Linking? || e.Mismatch?
    ensures RemovalsFirst([Cleaning(project)] + (a + b + c))
  {
    var pre := [Cleaning(project)] + (a + b);
    var log := [Cleaning(project)] + (a + b + c);
    assert log == pre + c;
    forall k | 0 < k < |pre| ensures !pre[k].Linking? && !pre[k].Mismatch? {
      assert pre[k] == (a + b)[k - 1] && (a + b)[k - 1] in a + b;
    }
    forall i, j | 0 <= i < j < |log| && (log[i].Linking? || log[i].Mismatch?)
      ensures !log[j].Removing? && !log[j].RemovingDir?
    {
      assert log[j] == c[j - |pre|] && log[j] in c;
    }
  }

  /** What each stage prints. */
  lemma StageEvents(s: Snapshot, project: Path, opts: Options, hardlink: bool, hash: Bytes -> Digest)
    ensures forall e :: e in DotStage(s, project, opts).log ==> e.Removing?
    ensures forall e :: e in EditStage(DotStage(s, project, opts).after, project, opts).log ==>
      e.Removing? || e.RemovingDir?
    ensures forall e :: e in LinkStage(EditStage(DotStage(s, project, opts).after, project, opts).after,
                                       project, hardlink, hash, opts.dryRun).log ==>
      e.Linking? || e.Mismatch?
  {
    var a := DotStage(s, project, opts);
    var b := EditStage(a.after, project, opts);
    UnlinkEachEvents(s, DotFiles(s, project), opts.dryRun);
    if IsDir(a.after, EditDir(project)) {
      ClearEachEvents(a.after, Children(a.after, EditDir(project)), opts.dryRun);
    }
    LinkEachEvents(b.after, project, SelectFiles(b.after, project), hash, opts.dryRun);
  }

  /** `cleanup_project` runs its stages one after the other: whatever the
      switches and whether or not an exception ends it, every removal line
      of a project comes before its first hard-link line. */
  lemma CleanupProjectStageOrder(s: Snapshot, project: Path, opts: Options, hardlink: bool, hash: Bytes -> Digest)
    ensures RemovalsFirst(CleanupProjectSpec(s, project, opts, hardlink, hash).log)
  {
    var a := DotStage(s, project, opts);
    var b := EditStage(a.after, project, opts);
    var c := LinkStage(b.after, project, hardlink, hash, opts.dryRun);
    ProjectStages(s, project, opts, hardlink, hash);
    StageEvents(s, project, opts, hardlink, hash);
    var bs := if a.failure.None? then b.log else [];
    var cs := if a.failure.None? && b.failure.None? then c.log else [];
    StagesInOrder(project, a.log, bs, cs);
  }

  // ---------------------------------------------------------------- the sequence can differ

  /** A project `p` whose `1_EDIT` folder holds one `._x` file. */
  function EditDotFileVolume(): Snapshot
  {
    Snapshot(map[[] := Directory, ["p"] := Directory, ["p", "1_EDIT"] := Directory, ["p", "1_EDIT", "._x"] := Regular(0)],
             [[], ["p"], ["p", "1_EDIT"], ["p", "1_EDIT", "._x"]],
             map[0 := []])
  }

  lemma EditDotFileShape()
    ensures EditDotFileVolume().entries.Keys == {[], ["p"], ["p", "1_EDIT"], ["p", "1_EDIT", "._x"]}
    ensures Distinct(EditDotFileVolume().order)
    ensures Parent(["p"]) == [] && Parent(["p", "1_EDIT"]) == ["p"] && Parent(["p", "1_EDIT", "._x"]) == ["p", "1_EDIT"]
  {
  }

  lemma EditDotFileValid()
    ensures Valid(EditDotFileVolume())
  {
    var s := EditDotFileVolume();
    EditDotFileShape();
    assert InDirectory(s, []) && InDirectory(s, ["p"]) && InDirectory(s, ["p", "1_EDIT"]) && InDirectory(s, ["p", "1_EDIT", "._x"]);
  }

  lemma EditDotFileDotFiles()
    ensures DotFiles(EditDotFileVolume(), ["p"]) == [["p", "1_EDIT", "._x"]]
  {
    var p, e, x := ["p"], ["p", "1_EDIT"], ["p", "1_EDIT", "._x"];
    assert IsDotFile(p, x) by {
      assert x[..1] == p && Last(x)[..2] == "._" && x[1][..1] == "1";
    }
    assert !IsDotFile(p, e) by { assert Last(e)[..2] == "1_"; }
    assert DotFilesIn([x], p) == [x];
    assert DotFilesIn([e, x], p) == [x] by { assert [e, x][1..] == [x]; }
    assert DotFilesIn([p, e, x], p) == [x] by { assert [p, e, x][1..] == [e, x]; }
    assert EditDotFileVolume().order[1..] == [p, e, x];
  }

  lemma EditDotFileChildren()
    ensures Children(EditDotFileVolume(), ["p", "1_EDIT"]) == [["p", "1_EDIT", "._x"]]
  {
    var p, e, x := ["p"], ["p", "1_EDIT"], ["p", "1_EDIT", "._x"];
    assert ChildrenIn([x], e) == [x];
    assert ChildrenIn([e, x], e) == [x] by { assert [e, x][1..] == [x]; }
    assert ChildrenIn([p, e, x], e) == [x] by { assert [p, e, x][1..] == [e, x]; }
    assert EditDotFileVolume().order[1..] == [p, e, x];
  }

  lemma NoChildren(ps: seq<Path>, dir: Path)
    requires forall c :: c in ps ==> !IsChild(dir, c)
    ensures ChildrenIn(ps, dir) == []
  {
  }

  lemma UnlinkEachSingle(s: Snapshot, x: Path, dryRun: bool)
    ensures UnlinkEach(s, [x], dryRun) == UnlinkOne(s, x, dryRun)
  {
    assert [x][1..] == [];
    assert UnlinkOne(s, x, dryRun).log + [] == UnlinkOne(s, x, dryRun).log;
  }

  lemma ClearEachSingle(s: Snapshot, x: Path, dryRun: bool)
    ensures ClearEach(s, [x], dryRun) == ClearOne(s, x, dryRun)
  {
    assert [x][1..] == [];
    assert ClearOne(s, x, dryRun).log + [] == ClearOne(s, x, dryRun).log;
  }

  /** With both sweeps on and hard-linking off, a project whose only dot
      file `x` is also the only entry of `1_EDIT` is named twice by a dry
      run, once per sweep. */
  lemma DryRunNamesEditDotFileTwice(s: Snapshot, project: Path, x: Path, hash: Bytes -> Digest)
    requires DotFiles(s, project) == [x] && IsDir(s, EditDir(project)) && Children(s, EditDir(project)) == [x]
    requires IsFile(s, x)
    ensures CleanupProjectSpec(s, project, Options(true, true, false, true), false, hash) ==
      Step(s, [Cleaning(project), Removing(x), Removing(x)], None)
  {
    var dryOpts := Options(true, true, false, true);
    ProjectStages(s, project, dryOpts, false, hash);
    UnlinkEachSingle(s, x, true);
    ClearEachSingle(s, x, true);
  }

  /** The real run deletes `x` in the first sweep, so the edit sweep no
      longer sees it and it is named once. */
  lemma RealRunNamesEditDotFileOnce(s: Snapshot, project: Path, x: Path, hash: Bytes -> Digest)
    requires Valid(s) && DotFiles(s, project) == [x] && IsChild(EditDir(project), x)
    requires x in s.entries && s.entries[x].Regular?
    requires IsDir(s, EditDir(project)) && forall c :: c in s.entries && IsChild(EditDir(project), c) ==> c == x
    ensures CleanupProjectSpec(s, project, Options(true, true, false, false), false, hash) ==
      Step(AfterUnlink(s, x).value, [Cleaning(project), Removing(x)], None)
    ensures AfterUnlink(s, x).value.entries == s.entries - {x}
  {
    var dir := EditDir(project);
    var t := AfterUnlink(s, x).value;
    UnlinkKeepsValid(s, x);
    NoChildren(t.order, dir);
    assert IsDir(t, dir) by { assert dir != x; }
    var realOpts := Options(true, true, false, false);
    ProjectStages(s, project, realOpts, false, hash);
    UnlinkEachSingle(s, x, false);
    assert DotStage(s, project, realOpts) == Step(t, [Removing(x)], None);
    assert EditStage(t, project, realOpts) == Step(t, [], None);
  }

  /** The one-file volume meets what both lemmas above ask for. */
  lemma EditDotFileFacts()
    ensures Valid(EditDotFileVolume())
    ensures DotFiles(EditDotFileVolume(), ["p"]) == [["p", "1_EDIT", "._x"]]
    ensures EditDir(["p"]) == ["p", "1_EDIT"] && IsChild(["p", "1_EDIT"], ["p", "1_EDIT", "._x"])
    ensures IsDir(EditDotFileVolume(), ["p", "1_EDIT"])
    ensures Children(EditDotFileVolume(), ["p", "1_EDIT"]) == [["p", "1_EDIT", "._x"]]
    ensures ["p", "1_EDIT", "._x"] in EditDotFileVolume().entries && EditDotFileVolume().entries[["p", "1_EDIT", "._x"]].Regular?
    ensures forall c :: c in EditDotFileVolume().entries && IsChild(["p", "1_EDIT"], c) ==> c == ["p", "1_EDIT", "._x"]
  {
    EditDotFileValid();
    EditDotFileDotFiles();
    EditDotFileChildren();
  }

  /** The two runs on the one-file volume: the dry run prints
      `p/1_EDIT/._x` twice, the real run once. The sets of paths agree, as
      `DryRunNamesSamePaths` says; the sequences of lines do not. */
  lemma DryRunRepeatsEditDotFile(s: Snapshot, hash: Bytes -> Digest)
    requires s == EditDotFileVolume()
    ensures Valid(s)
    ensures CleanupProjectSpec(s, ["p"], Options(true, true, false, true), false, hash).log ==
      [Cleaning(["p"]), Removing(["p", "1_EDIT", "._x"]), Removing(["p", "1_EDIT", "._x"])]
    ensures CleanupProjectSpec(s, ["p"], Options(true, true, false, false), false, hash).log ==
      [Cleaning(["p"]), Removing(["p", "1_EDIT", "._x"])]
  {
    EditDotFileFacts();
    DryRunNamesEditDotFileTwice(s, ["p"], ["p", "1_EDIT", "._x"], hash);
    RealRunNamesEditDotFileOnce(s, ["p"], ["p", "1_EDIT", "._x"], hash);
  }

  // ---------------------------------------------------------------- a whole library

  /** Two valid volumes with the same contents that agree below `project`. */
  ghost predicate AgreeBelow(s: Snapshot, t: Snapshot, project: Path)
  {
    Valid(s) && Valid(t) && s.data == t.data && forall p :: IsBelow(project, p) ==> Keeps(s, t, p)
  }

  /** Volumes that agree below a project agree on `1_EDIT` and its entries. */
  lemma EditInputsAgree(s: Snapshot, t: Snapshot, project: Path)
    requires AgreeBelow(s, t, project)
    ensures Keeps(s, t, EditDir(project))
    ensures forall p :: IsChild(EditDir(project), p) ==> Keeps(s, t, p)
  {
    assert IsBelow(project, EditDir(project));
    forall p | IsChild(EditDir(project), p) ensures Keeps(s, t, p) {
      BelowChild(project, PL.EditSubdir, p);
    }
  }

  /** They agree on `0_RAW`, the immediate entries and their raw candidates. */
  lemma LinkInputsAgree(s: Snapshot, t: Snapshot, project: Path)
    requires AgreeBelow(s, t, project)
    ensures Keeps(s, t, RawDir(project))
    ensures forall p :: IsChild(project, p) ==> Keeps(s, t, p) && Keeps(s, t, RawCandidate(project, p))
  {
    assert IsBelow(project, RawDir(project));
    forall p | IsChild(project, p)
      ensures Keeps(s, t, p) && Keeps(s, t, RawCandidate(project, p))
    {
      var q := RawCandidate(project, p);
      assert q[..|project|] == q[..|project| + 1][..|project|];
    }
  }

  /** The dot files a dry run lists depend only on what lies below the project. */
  lemma DryDotLocal(s: Snapshot, t: Snapshot, project: Path, opts: Options)
    requires AgreeBelow(s, t, project)
    ensures DotStage(s, project, opts.(dryRun := true)).after == s
    ensures DotStage(s, project, opts.(dryRun := true)).failure.None?
    ensures Mentioned(DotStage(s, project, opts.(dryRun := true)).log) == Mentioned(DotStage(t, project, opts.(dryRun := true)).log)
  {
    DotSweepReports(s, project, true);
    DotSweepReports(t, project, true);
    RemovingsMention(DotFiles(s, project));
    RemovingsMention(DotFiles(t, project));
    forall p | IsDotFile(project, p) ensures p in s.order <==> p in t.order {
      assert Keeps(s, t, p);
    }
  }

  /** So does what its edit sweep names. */
  lemma DryEditLocal(s: Snapshot, t: Snapshot, project: Path, opts: Options)
    requires AgreeBelow(s, t, project)
    ensures EditStage(s, project, opts.(dryRun := true)).after == s
    ensures EditStage(s, project, opts.(dryRun := true)).failure.None?
    ensures Mentioned(EditStage(s, project, opts.(dryRun := true)).log) == Mentioned(EditStage(t, project, opts.(dryRun := true)).log)
  {
    if opts.removeEdits {
      EditSweepDryLocal(s, t, project);
    }
  }

  /** Two listings that hold the same files and directories name the same set. */
  lemma EntrySetsAgree(s: Snapshot, t: Snapshot, cs: seq<Path>, ct: seq<Path>)
    requires forall c :: (c in ct && (IsFile(t, c) || IsDir(t, c))) <==> (c in cs && (IsFile(s, c) || IsDir(s, c)))
    ensures (set c | c in cs && (IsFile(s, c) || IsDir(s, c))) == (set c | c in ct && (IsFile(t, c) || IsDir(t, c)))
  {
  }

  /** The dry `1_EDIT` sweep names the same paths on both volumes. */
  lemma EditSweepDryLocal(s: Snapshot, t: Snapshot, project: Path)
    requires AgreeBelow(s, t, project)
    ensures Mentioned(RemoveEditFilesSpec(s, project, true).log) == Mentioned(RemoveEditFilesSpec(t, project, true).log)
  {
    var dir := EditDir(project);
    EditInputsAgree(s, t, project);
    if IsDir(s, dir) {
      var cs, ct := Children(s, dir), Children(t, dir);
      ClearEachDryMentions(s, cs);
      ClearEachDryMentions(t, ct);
      EditEntriesAgree(s, t, dir, {});
      EntrySetsAgree(s, t, cs, ct);
    }
  }

  /** And so do whether its hard-link loop stops and what it names. */
  lemma DryLinkLocal(s: Snapshot, t: Snapshot, project: Path, hardlink: bool, hash: Bytes -> Digest)
    requires AgreeBelow(s, t, project)
    ensures LinkStage(s, project, hardlink, hash, true).after == s
    ensures LinkStage(s, project, hardlink, hash, true).failure.None? <==> LinkStage(t, project, hardlink, hash, true).failure.None?
    ensures LinkStage(s, project, hardlink, hash, true).failure.None? ==>
      Mentioned(LinkStage(s, project, hardlink, hash, true).log) == Mentioned(LinkStage(t, project, hardlink, hash, true).log)
  {
    if hardlink {
      var cs, ds := SelectFiles(s, project), SelectFiles(t, project);
      LinkEachDry(s, project, cs, hash);
      LinkInputsAgree(s, t, project);
      SelectFilesAgree(s, t, project);
      forall c | c in cs ensures Decide(s, project, c, hash) == Decide(t, project, c, hash) {
        DecideStable(s, t, project, c, hash);
      }
      LinkEachDryAgree(s, t, project, cs, ds, hash);
    }
  }

  /** Two dry hard-link loops over the same selects, which are decided alike,
      stop alike and name the same paths. */
  lemma LinkEachDryAgree(s: Snapshot, t: Snapshot, project: Path, cs: seq<Path>, ds: seq<Path>, hash: Bytes -> Digest)
    requires forall c :: c in cs <==> c in ds
    requires forall c :: c in cs ==> Decide(s, project, c, hash) == Decide(t, project, c, hash)
    ensures LinkEach(s, project, cs, hash, true).failure.None? <==> LinkEach(t, project, ds, hash, true).failure.None?
    ensures LinkEach(s, project, cs, hash, true).failure.None? ==>
      Mentioned(LinkEach(s, project, cs, hash, true).log) == Mentioned(LinkEach(t, project, ds, hash, true).log)
  {
    LinkEachDryStops(s, project, cs, hash);
    LinkEachDryStops(t, project, ds, hash);
    if LinkEach(s, project, cs, hash, true).failure.None? {
      LinkEachDryMentions(s, project, cs, hash);
      LinkEachDryMentions(t, project, ds, hash);
    }
  }

  /** A dry run of one project depends only on what lies below it: whether
      it stops, and, when it does not, which paths it names. */
  lemma DryProjectLocal(s: Snapshot, t: Snapshot, project: Path, opts: Options, hardlink: bool, hash: Bytes -> Digest)
    requires AgreeBelow(s, t, project)
    ensures CleanupProjectSpec(s, project, opts.(dryRun := true), hardlink, hash).failure.None? <==>
            CleanupProjectSpec(t, project, opts.(dryRun := true), hardlink, hash).failure.None?
    ensures CleanupProjectSpec(s, project, opts.(dryRun := true), hardlink, hash).failure.None? ==>
            Mentioned(CleanupProjectSpec(s, project, opts.(dryRun := true), hardlink, hash).log) ==
            Mentioned(CleanupProjectSpec(t, project, opts.(dryRun := true), hardlink, hash).log)
  {
    var dryOpts := opts.(dryRun := true);
    assert AgreeBelow(t, s, project);
    ProjectStages(s, project, dryOpts, hardlink, hash);
    ProjectStages(t, project, dryOpts, hardlink, hash);
    DryDotLocal(s, t, project, opts);
    DryDotLocal(t, s, project, opts);
    DryEditLocal(s, t, project, opts);
    DryEditLocal(t, s, project, opts);
    DryLinkLocal(s, t, project, hardlink, hash);
    DryLinkLocal(t, s, project, hardlink, hash);
    var a, b, c := DotStage(s, project, dryOpts), EditStage(s, project, dryOpts), LinkStage(s, project, hardlink, hash, true);
    var ta, tb, tc := DotStage(t, project, dryOpts), EditStage(t, project, dryOpts), LinkStage(t, project, hardlink, hash, true);
    if c.failure.None? {
      MentionedStages(project, a.log, b.log, c.log);
      MentionedStages(project, ta.log, tb.log, tc.log);
    }
  }

  /** A volume agrees with `s` below each of `projects`. */
  ghost predicate AgreeBelowAll(r: Snapshot, s: Snapshot, projects: seq<Path>)
  {
    Valid(r) && Valid(s) && r.data == s.data &&
    forall k, p :: 0 <= k < |projects| && IsBelow(projects[k], p) ==> Keeps(r, s, p)
  }

  /** Cleaning the first of an antichain of projects leaves the agreement
      below the others in place. */
  lemma AgreeBelowRest(r: Snapshot, r1: Snapshot, s: Snapshot, projects: seq<Path>)
    requires projects != [] && PL.Antichain(projects)
    requires AgreeBelowAll(r, s, projects)
    requires Valid(r1) && r1.data == r.data
    requires forall p :: !IsBelow(projects[0], p) ==> Keeps(r, r1, p)
    ensures AgreeBelowAll(r1, s, projects[1..])
  {
    AntichainTail(projects);
    forall k, p | 0 <= k < |projects[1..]| && IsBelow(projects[1..][k], p) ensures Keeps(r1, s, p) {
      var q := projects[k + 1];
      assert projects[1..][k] == q;
      assert Keeps(r, s, p);
      PrefixesComparable(projects[0], q, p);
      assert !IsPrefix(projects[0], q) && !IsPrefix(q, projects[0]);
      assert !IsBelow(projects[0], p);
      assert Keeps(r, r1, p);
    }
  }

  /** Over a whole run: a real run over an antichain of projects that
      completes names the same paths as the dry run over the same projects
      on a volume that agrees below each of them; that dry run completes. */
  lemma {:induction false} CleanupProjectsDryNamesSamePaths(r: Snapshot, s: Snapshot, projects: seq<Path>, opts: Options,
                                                           hardlink: bool, hash: Bytes -> Digest)
    requires PL.Antichain(projects) && AgreeBelowAll(r, s, projects)
    requires CleanupProjects(r, projects, opts.(dryRun := false), hardlink, hash).failure.None?
    ensures CleanupProjects(s, projects, opts.(dryRun := true), hardlink, hash).failure.None?
    ensures Mentioned(CleanupProjects(r, projects, opts.(dryRun := false), hardlink, hash).log) ==
            Mentioned(CleanupProjects(s, projects, opts.(dryRun := true), hardlink, hash).log)
    decreases |projects|
  {
    if projects != [] {
      var realOpts, dryOpts := opts.(dryRun := false), opts.(dryRun := true);
      var project := projects[0];
      var first := CleanupProjectSpec(r, project, realOpts, hardlink, hash);
      assert first.failure.None?;
      DryRunNamesSamePaths(r, project, opts, hardlink, hash);
      assert AgreeBelow(r, s, project);
      DryProjectLocal(r, s, project, opts, hardlink, hash);
      CleanupProjectDry(s, project, dryOpts, hardlink, hash);
      CleanupProjectKeepsValid(r, project, realOpts, hardlink, hash);
      forall p | !IsBelow(project, p) ensures Keeps(r, first.after, p) {
        CleanupProjectFrame(r, project, realOpts, hardlink, hash, p);
      }
      AgreeBelowRest(r, first.after, s, projects);
      CleanupProjectsDryNamesSamePaths(first.after, s, projects[1..], opts, hardlink, hash);
      MentionedAppend(first.log, CleanupProjects(first.after, projects[1..], realOpts, hardlink, hash).log);
      MentionedAppend(CleanupProjectSpec(s, project, dryOpts, hardlink, hash).log,
                      CleanupProjects(s, projects[1..], dryOpts, hardlink, hash).log);
    }
  }

  /** The same for a whole library: a real run that completes names the same
      paths as a dry run on the same volume, and that dry run completes. */
  lemma CleanupLibraryDryNamesSamePaths(s: Snapshot, library: Path, tree: PL.Dir, opts: Options, supported: bool,
                                        hash: Bytes -> Digest)
    requires Valid(s) && PL.UniqueNames(tree)
    requires CleanupLibrary(s, library, tree, opts.(dryRun := false), supported, hash).failure.None?
    ensures CleanupLibrary(s, library, tree, opts.(dryRun := true), supported, hash).failure.None?
    ensures Mentioned(CleanupLibrary(s, library, tree, opts.(dryRun := false), supported, hash).log) ==
            Mentioned(CleanupLibrary(s, library, tree, opts.(dryRun := true), supported, hash).log)
  {
    var ps := PL.FindProjects(tree, library);
    PL.ProjectsAntichain(tree, library);
    CleanupProjectsDryNamesSamePaths(s, s, ps, opts, opts.hardlinkSelects && supported, hash);
  }
}
