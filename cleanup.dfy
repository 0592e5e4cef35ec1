/** The cleanup engine of cleanup-photo-library.py: the dot-file sweep, the
    edit sweep, hard-linking of select files and the per-project and
    per-library orchestration.

    Each operation is given twice: as a function from a snapshot to a `Step`
    (the state afterwards, the lines the script prints, and the exception
    that stopped it, if any), and as a method on the live `Volume` that is
    proved to do what the function says. The MD5 digest is the parameter
    `hash`, a function of the file's bytes. */
module Cleanup {

  import opened Wrappers
  import opened Text
  import opened FileSystem
  import PL = ProjectLocator

  type Digest = string

  /** The command-line switches of the script. */
  datatype Options = Options(removeDotFiles: bool, removeEdits: bool, hardlinkSelects: bool, dryRun: bool)

  /** What the script prints about each affected path. */
  datatype Event =
    | Cleaning(project: Path)
    | Removing(path: Path)
    | RemovingDir(path: Path)
    | Linking(select: Path)
    | Mismatch(select: Path, selectDigest: Digest, rawDigest: Digest)

  /** The exception that ends a run. */
  datatype Failure =
    | LibraryNotFound(library: Path)
    | UnlinkFailed(path: Path)
    | RemoveTreeFailed(path: Path)
    | ReadFailed(path: Path)
    | LinkFailed(path: Path)

  datatype Step = Step(after: Snapshot, log: seq<Event>, failure: Option<Failure>)

  function Prepend(events: seq<Event>, r: Step): Step
  {
    Step(r.after, events + r.log, r.failure)
  }

  lemma PrependTwice(a: seq<Event>, b: seq<Event>, r: Step)
    ensures Prepend(a, Prepend(b, r)) == Prepend(a + b, r)
  {
    assert a + (b + r.log) == (a + b) + r.log;
  }

  // ---------------------------------------------------------------- dot files

  /** A path `glob("{project}/**/._*", recursive=True)` returns: strictly
      below the project, named `._…`, and reached without passing a hidden
      directory (`**` does not enter those). */
  predicate IsDotFile(project: Path, p: Path)
  {
    IsBelow(project, p) && StartsWith(Last(p), "._") &&
    forall k :: |project| <= k < |p| - 1 ==> !StartsWith(p[k], ".")
  }

  function DotFilesIn(ps: seq<Path>, project: Path): (r: seq<Path>)
    ensures forall p :: p in r <==> p in ps && IsDotFile(project, p)
  {
    if ps == [] then []
    else if IsDotFile(project, ps[0]) then [ps[0]] + DotFilesIn(ps[1..], project)
    else DotFilesIn(ps[1..], project)
  }

  /** The glob's matches, in listing order. */
  function DotFiles(s: Snapshot, project: Path): (r: seq<Path>)
    ensures forall p :: p in r <==> p in s.order && IsDotFile(project, p)
  {
    DotFilesIn(s.order, project)
  }

  function Removings(ps: seq<Path>): (r: seq<Event>)
    ensures |r| == |ps| && forall i :: 0 <= i < |ps| ==> r[i] == Removing(ps[i])
  {
    if ps == [] then [] else [Removing(ps[0])] + Removings(ps[1..])
  }

  /** One pass of the loop of `remove_dot_files`: print the path, unlink it
      unless this is a dry run. */
  function UnlinkOne(s: Snapshot, p: Path, dryRun: bool): (r: Step)
    ensures r.after.data == s.data && r.log == [Removing(p)]
    ensures dryRun ==> r == Step(s, [Removing(p)], None)
  {
    if dryRun then Step(s, [Removing(p)], None)
    else
      var next := AfterUnlink(s, p);
      if next.None? then Step(s, [Removing(p)], Some(UnlinkFailed(p)))
      else
        Step(next.value, [Removing(p)], None)
  }

  /** Runs `one` over `ps`, stopping at the first failure. */
  function UnlinkEach(s: Snapshot, ps: seq<Path>, dryRun: bool): (r: Step)
    ensures r.after.data == s.data
    ensures r.failure.Some? ==> !dryRun && r.failure.value.UnlinkFailed?
    ensures r.failure.None? ==> |r.log| == |ps|
    decreases |ps|
  {
    if ps == [] then Step(s, [], None)
    else
      var t := UnlinkOne(s, ps[0], dryRun);
      if t.failure.Some? then t
      else Prepend(t.log, UnlinkEach(t.after, ps[1..], dryRun))
  }

  function RemoveDotFilesSpec(s: Snapshot, project: Path, dryRun: bool): (r: Step)
    ensures r.after.data == s.data
    ensures r.failure.Some? ==> !dryRun && r.failure.value.UnlinkFailed?
    ensures r.failure.None? ==> |r.log| == |DotFiles(s, project)|
  {
    UnlinkEach(s, DotFiles(s, project), dryRun)
  }

  // ---------------------------------------------------------------- edit files

  function EditDir(project: Path): Path
  {
    project + [PL.EditSubdir]
  }

  /** The loop of `remove_edit_files`: a file (or a link to one) is unlinked,
      a directory (or a link to one) is deleted with `shutil.rmtree`, any
      other entry is passed over. */
  function ClearOne(s: Snapshot, c: Path, dryRun: bool): (r: Step)
    ensures r.after.data == s.data
    ensures dryRun ==> r.after == s && r.failure.None?
  {
    if IsFile(s, c) then
      if dryRun then Step(s, [Removing(c)], None)
      else
        var next := AfterUnlink(s, c);
        if next.None? then Step(s, [Removing(c)], Some(UnlinkFailed(c)))
        else
          Step(next.value, [Removing(c)], None)
    else if IsDir(s, c) then
      if dryRun then Step(s, [RemovingDir(c)], None)
      else
        var next := AfterRemoveTree(s, c);
        if next.None? then Step(s, [RemovingDir(c)], Some(RemoveTreeFailed(c)))
        else
          Step(next.value, [RemovingDir(c)], None)
    else Step(s, [], None)
  }

  function ClearEach(s: Snapshot, cs: seq<Path>, dryRun: bool): (r: Step)
    ensures r.after.data == s.data
    ensures dryRun ==> r.after == s && r.failure.None?
    ensures r.failure.Some? ==> r.failure.value.UnlinkFailed? || r.failure.value.RemoveTreeFailed?
    decreases |cs|
  {
    if cs == [] then Step(s, [], None)
    else
      var t := ClearOne(s, cs[0], dryRun);
      if t.failure.Some? then t
      else Prepend(t.log, ClearEach(t.after, cs[1..], dryRun))
  }

  function RemoveEditFilesSpec(s: Snapshot, project: Path, dryRun: bool): (r: Step)
    ensures r.after.data == s.data
    ensures dryRun ==> r.after == s && r.failure.None?
    ensures !IsDir(s, EditDir(project)) ==> r == Step(s, [], None)
    ensures r.failure.Some? ==> r.failure.value.UnlinkFailed? || r.failure.value.RemoveTreeFailed?
  {
    if IsDir(s, EditDir(project)) then ClearEach(s, Children(s, EditDir(project)), dryRun)
    else Step(s, [], None)
  }

  // ---------------------------------------------------------------- hard links

  function RawDir(project: Path): Path
  {
    project + [PL.RawSubdir]
  }

  /** `os.path.join(raw_dir, file_name)`. */
  function RawCandidate(project: Path, select: Path): Path
  {
    RawDir(project) + [BaseName(select)]
  }

  /** An entry of the project directory `hardlink_select_files` considers: a
      regular file (not a link or junction) whose name does not start with `.`. */
  predicate IsSelect(s: Snapshot, project: Path, p: Path)
    ensures IsSelect(s, project, p) ==> IsFile(s, p) && !IsDir(s, p) && p != RawCandidate(project, p)
  {
    IsChild(project, p) && p in s.entries && s.entries[p].Regular? && !StartsWith(Last(p), ".")
  }

  function SelectsIn(s: Snapshot, project: Path, ps: seq<Path>): (r: seq<Path>)
    ensures forall p :: p in r <==> p in ps && IsSelect(s, project, p)
  {
    if ps == [] then []
    else if IsSelect(s, project, ps[0]) then [ps[0]] + SelectsIn(s, project, ps[1..])
    else SelectsIn(s, project, ps[1..])
  }

  /** The select files, in listing order; none when `0_RAW` is not a directory. */
  function SelectFiles(s: Snapshot, project: Path): (r: seq<Path>)
    ensures forall p :: p in r <==> IsDir(s, RawDir(project)) && p in s.order && IsSelect(s, project, p)
  {
    if IsDir(s, RawDir(project)) then SelectsIn(s, project, Children(s, project)) else []
  }

  /** What the script does about one select file. */
  datatype Decision = Skip | Link | Differ(selectDigest: Digest, rawDigest: Digest) | Unreadable(path: Path)

  /** No same-named raw file, or the same file already: skip. Otherwise both
      files are hashed (reading a directory fails); equal digests mean link,
      different digests mean warn. */
  function Decide(s: Snapshot, project: Path, c: Path, hash: Bytes -> Digest): (r: Decision)
    ensures r.Link? || r.Differ? ==>
      Exists(s, RawCandidate(project, c)) && IsFile(s, c) && IsFile(s, RawCandidate(project, c)) &&
      FileInode(s, c) != FileInode(s, RawCandidate(project, c))
    ensures r.Differ? ==> r.selectDigest != r.rawDigest
    ensures r.Unreadable? ==> r.path == c || r.path == RawCandidate(project, c)
  {
    var raw := RawCandidate(project, c);
    if !Exists(s, raw) then Skip
    else if FileInode(s, c).None? then Unreadable(c)
    else if FileInode(s, raw) == FileInode(s, c) then Skip
    else if FileInode(s, raw).None? then Unreadable(raw)
    else
      var selectDigest := hash(Contents(s, FileInode(s, c).value));
      var rawDigest := hash(Contents(s, FileInode(s, raw).value));
      if selectDigest == rawDigest then Link else Differ(selectDigest, rawDigest)
  }

  lemma RemoveThenSet(m: map<Path, Kind>, k: Path, v: Kind)
    ensures (m - {k})[k := v] == m[k := v]
  {
  }

  /** `Path.unlink(select)` followed by `os.link(raw, select)`. */
  function Relink(s: Snapshot, project: Path, c: Path): (r: Step)
    requires RawCandidate(project, c) != c
    ensures r.after.data == s.data && r.log == []
    ensures r.failure.None? ==> IsFile(s, RawCandidate(project, c))
    ensures r.failure.None? ==> r.after.entries == s.entries[c := Regular(FileInode(s, RawCandidate(project, c)).value)]
  {
    var raw := RawCandidate(project, c);
    var u := AfterUnlink(s, c);
    if u.None? then Step(s, [], Some(UnlinkFailed(c)))
    else
      assert FileInode(u.value, raw) == FileInode(s, raw);
      var l := AfterLink(u.value, raw, c);
      if l.None? then Step(u.value, [], Some(LinkFailed(c)))
      else
        RemoveThenSet(s.entries, c, Regular(FileInode(s, raw).value));
        Step(l.value, [], None)
  }

  /** One pass of the loop of `hardlink_select_files`. */
  function LinkOne(s: Snapshot, project: Path, c: Path, hash: Bytes -> Digest, dryRun: bool): (r: Step)
    ensures r.after.data == s.data
    ensures |r.log| <= 1
    ensures r.failure.Some? && !r.failure.value.ReadFailed? ==> !dryRun && Decide(s, project, c, hash) == Link
  {
    match Decide(s, project, c, hash)
    case Skip => Step(s, [], None)
    case Unreadable(p) => Step(s, [], Some(ReadFailed(p)))
    case Differ(a, b) => Step(s, [Mismatch(c, a, b)], None)
    case Link =>
      if dryRun then Step(s, [Linking(c)], None)
      else Prepend([Linking(c)], Relink(s, project, c))
  }

  /** The loop of `hardlink_select_files`. */
  function LinkEach(s: Snapshot, project: Path, cs: seq<Path>, hash: Bytes -> Digest, dryRun: bool): (r: Step)
    ensures r.after.data == s.data
    ensures |r.log| <= |cs|
    decreases |cs|
  {
    if cs == [] then Step(s, [], None)
    else
      var t := LinkOne(s, project, cs[0], hash, dryRun);
      if t.failure.Some? then t
      else Prepend(t.log, LinkEach(t.after, project, cs[1..], hash, dryRun))
  }

  function HardlinkSelectsSpec(s: Snapshot, project: Path, hash: Bytes -> Digest, dryRun: bool): (r: Step)
    ensures r.after.data == s.data
    ensures !IsDir(s, RawDir(project)) ==> r == Step(s, [], None)
    ensures |r.log| <= |SelectFiles(s, project)|
  {
    LinkEach(s, project, SelectFiles(s, project), hash, dryRun)
  }

  // ---------------------------------------------------------------- orchestration

  /** `cleanup_project`: dot files, then edits, then hard links, each behind
      its own switch; the first exception ends the project (and the run). */
  function CleanupProjectSpec(s: Snapshot, project: Path, opts: Options, hardlink: bool, hash: Bytes -> Digest): (r: Step)
    ensures r.after.data == s.data
    ensures r.log != [] && r.log[0] == Cleaning(project)
  {
    var dot := if opts.removeDotFiles then RemoveDotFilesSpec(s, project, opts.dryRun) else Step(s, [], None);
    var rest :=
      if dot.failure.Some? then dot
      else
        var edits := if opts.removeEdits then RemoveEditFilesSpec(dot.after, project, opts.dryRun) else Step(dot.after, [], None);
        if edits.failure.Some? then Prepend(dot.log, edits)
        else
          var links := if hardlink then HardlinkSelectsSpec(edits.after, project, hash, opts.dryRun) else Step(edits.after, [], None);
          Prepend(dot.log + edits.log, links);
    Prepend([Cleaning(project)], rest)
  }

  /** The loop over `find_projects(library_path)`. */
  function CleanupProjects(s: Snapshot, projects: seq<Path>, opts: Options, hardlink: bool, hash: Bytes -> Digest): (r: Step)
    ensures r.after.data == s.data
    ensures projects == [] ==> r == Step(s, [], None)
    ensures r.failure.None? ==> |r.log| >= |projects|
    decreases |projects|
  {
    if projects == [] then Step(s, [], None)
    else
      var first := CleanupProjectSpec(s, projects[0], opts, hardlink, hash);
      if first.failure.Some? then first
      else Prepend(first.log, CleanupProjects(first.after, projects[1..], opts, hardlink, hash))
  }

  /** The whole run: the library must be a directory; hard-linking is on
      only when both asked for and supported (the probe's answer). `tree` is
      the directory structure `find_projects` lists. */
  function CleanupLibrary(s: Snapshot, library: Path, tree: PL.Dir, opts: Options,
                          hardlinksSupported: bool, hash: Bytes -> Digest): (r: Step)
    ensures r.after.data == s.data
    ensures !IsDir(s, library) ==> r == Step(s, [], Some(LibraryNotFound(library)))
  {
    if !IsDir(s, library) then Step(s, [], Some(LibraryNotFound(library)))
    else CleanupProjects(s, PL.FindProjects(tree, library), opts, opts.hardlinkSelects && hardlinksSupported, hash)
  }

  // ---------------------------------------------------------------- the methods

  /** One pass of the dot-file loop on the live volume. */
  method UnlinkStep(v: Volume, p: Path, dryRun: bool) returns (log: seq<Event>, failure: Option<Failure>)
    modifies v
    ensures Step(v.State(), log, failure) == UnlinkOne(old(v.State()), p, dryRun)
  {
    log, failure := [Removing(p)], None;
    if !dryRun {
      var ok := v.Unlink(p);
      if !ok {
        failure := Some(UnlinkFailed(p));
      }
    }
  }

  /** `remove_dot_files`. */
  method RemoveDotFiles(v: Volume, project: Path, dryRun: bool) returns (log: seq<Event>, failure: Option<Failure>)
    modifies v
    ensures Step(v.State(), log, failure) == RemoveDotFilesSpec(old(v.State()), project, dryRun)
  {
    ghost var s0 := v.State();
    var ps := DotFiles(v.State(), project);
    log, failure := [], None;
    var i := 0;
    while i < |ps|
      invariant 0 <= i <= |ps| && failure.None?
      invariant UnlinkEach(s0, ps, dryRun) == Prepend(log, UnlinkEach(v.State(), ps[i..], dryRun))
    {
      ghost var before := v.State();
      assert ps[i..][1..] == ps[i + 1..];
      var more;
      more, failure := UnlinkStep(v, ps[i], dryRun);
      assert UnlinkEach(before, ps[i..], dryRun) ==
        if failure.Some? then Step(v.State(), more, failure) else Prepend(more, UnlinkEach(v.State(), ps[i + 1..], dryRun));
      PrependTwice(log, more, UnlinkEach(v.State(), ps[i + 1..], dryRun));
      log := log + more;
      if failure.Some? { return; }
      i := i + 1;
    }
  }

  /** One pass of the edit loop on the live volume. */
  method ClearStep(v: Volume, c: Path, dryRun: bool) returns (log: seq<Event>, failure: Option<Failure>)
    modifies v
    ensures Step(v.State(), log, failure) == ClearOne(old(v.State()), c, dryRun)
  {
    log, failure := [], None;
    if IsFile(v.State(), c) {
      log := [Removing(c)];
      if !dryRun {
        var ok := v.Unlink(c);
        if !ok {
          failure := Some(UnlinkFailed(c));
        }
      }
    } else if IsDir(v.State(), c) {
      log := [RemovingDir(c)];
      if !dryRun {
        var ok := v.RemoveTree(c);
        if !ok {
          failure := Some(RemoveTreeFailed(c));
        }
      }
    }
  }

  /** `remove_edit_files`. */
  method RemoveEditFiles(v: Volume, project: Path, dryRun: bool) returns (log: seq<Event>, failure: Option<Failure>)
    modifies v
    ensures Step(v.State(), log, failure) == RemoveEditFilesSpec(old(v.State()), project, dryRun)
  {
    ghost var s0 := v.State();
    log, failure := [], None;
    var dir := EditDir(project);
    if IsDir(v.State(), dir) {
      var cs := Children(v.State(), dir);
      var i := 0;
      while i < |cs|
        invariant 0 <= i <= |cs| && failure.None?
          invariant ClearEach(s0, cs, dryRun) == Prepend(log, ClearEach(v.State(), cs[i..], dryRun))
      {
        ghost var before := v.State();
        assert cs[i..][1..] == cs[i + 1..];
        var more;
        more, failure := ClearStep(v, cs[i], dryRun);
        assert ClearEach(before, cs[i..], dryRun) ==
          if failure.Some? then Step(v.State(), more, failure) else Prepend(more, ClearEach(v.State(), cs[i + 1..], dryRun));
        PrependTwice(log, more, ClearEach(v.State(), cs[i + 1..], dryRun));
        log := log + more;
        if failure.Some? { return; }
        i := i + 1;
      }
    }
  }

  /** One pass of the hard-link loop on the live volume: `samefile`, the two
      digests, then `unlink` and `os.link`. */
  method LinkStep(v: Volume, project: Path, c: Path, hash: Bytes -> Digest, dryRun: bool)
    returns (log: seq<Event>, failure: Option<Failure>)
    modifies v
    ensures Step(v.State(), log, failure) == LinkOne(old(v.State()), project, c, hash, dryRun)
  {
    log, failure := [], None;
    var raw := RawCandidate(project, c);
    var st := v.State();
    if !Exists(st, raw) {
      return;
    }
    var selectInode, rawInode := FileInode(st, c), FileInode(st, raw);
    if selectInode.None? {
      failure := Some(ReadFailed(c));
      return;
    }
    if rawInode == selectInode {
      return;
    }
    if rawInode.None? {
      failure := Some(ReadFailed(raw));
      return;
    }
    var selectDigest := hash(Contents(st, selectInode.value));
    var rawDigest := hash(Contents(st, rawInode.value));
    if selectDigest != rawDigest {
      log := [Mismatch(c, selectDigest, rawDigest)];
      return;
    }
    log := [Linking(c)];
    if !dryRun {
      var ok := v.Unlink(c);
      if !ok {
        failure := Some(UnlinkFailed(c));
        return;
      }
      ghost var mid := v.State();
      assert FileInode(mid, raw) == FileInode(st, raw);
      ok := v.Link(raw, c);
      if !ok {
        failure := Some(LinkFailed(c));
        return;
      }
      RemoveThenSet(st.entries, c, Regular(rawInode.value));
    }
  }

  /** `hardlink_select_files`. */
  method HardlinkSelectFiles(v: Volume, project: Path, hash: Bytes -> Digest, dryRun: bool)
    returns (log: seq<Event>, failure: Option<Failure>)
    modifies v
    ensures Step(v.State(), log, failure) == HardlinkSelectsSpec(old(v.State()), project, hash, dryRun)
  {
    ghost var s0 := v.State();
    log, failure := [], None;
    if IsDir(v.State(), RawDir(project)) {
      var cs := SelectsIn(v.State(), project, Children(v.State(), project));
      var i := 0;
      while i < |cs|
        invariant 0 <= i <= |cs| && failure.None?
        invariant LinkEach(s0, project, cs, hash, dryRun) == Prepend(log, LinkEach(v.State(), project, cs[i..], hash, dryRun))
      {
        ghost var before := v.State();
        assert cs[i..][1..] == cs[i + 1..];
        var more;
        more, failure := LinkStep(v, project, cs[i], hash, dryRun);
        assert LinkEach(before, project, cs[i..], hash, dryRun) ==
          if failure.Some? then Step(v.State(), more, failure) else Prepend(more, LinkEach(v.State(), project, cs[i + 1..], hash, dryRun));
        PrependTwice(log, more, LinkEach(v.State(), project, cs[i + 1..], hash, dryRun));
        log := log + more;
        if failure.Some? { return; }
        i := i + 1;
      }
    }
  }

  /** `cleanup_project`. */
  method CleanupProject(v: Volume, project: Path, opts: Options, hardlink: bool, hash: Bytes -> Digest)
    returns (log: seq<Event>, failure: Option<Failure>)
    modifies v
    ensures Step(v.State(), log, failure) == CleanupProjectSpec(old(v.State()), project, opts, hardlink, hash)
  {
    failure := None;
    var dot: seq<Event> := [];
    if opts.removeDotFiles {
      dot, failure := RemoveDotFiles(v, project, opts.dryRun);
    }
    if failure.Some? {
      log := [Cleaning(project)] + dot;
      return;
    }
    var edits: seq<Event> := [];
    if opts.removeEdits {
      edits, failure := RemoveEditFiles(v, project, opts.dryRun);
    }
    if failure.Some? {
      log := [Cleaning(project)] + (dot + edits);
      return;
    }
    var links: seq<Event> := [];
    if hardlink {
      links, failure := HardlinkSelectFiles(v, project, hash, opts.dryRun);
    }
    log := [Cleaning(project)] + ((dot + edits) + links);
  }

  /** One project's run, then the rest. */
  lemma CleanupProjectsFrom(s: Snapshot, projects: seq<Path>, i: nat, opts: Options, hardlink: bool,
                            hash: Bytes -> Digest, t: Step)
    requires i < |projects| && t == CleanupProjectSpec(s, projects[i], opts, hardlink, hash)
    ensures CleanupProjects(s, projects[i..], opts, hardlink, hash) ==
      if t.failure.Some? then t else Prepend(t.log, CleanupProjects(t.after, projects[i + 1..], opts, hardlink, hash))
  {
    assert projects[i..][1..] == projects[i + 1..];
  }

  /** The loop of `cleanup_photo_library` over the projects found. */
  method CleanupEach(v: Volume, projects: seq<Path>, opts: Options, hardlink: bool, hash: Bytes -> Digest)
    returns (log: seq<Event>, failure: Option<Failure>)
    modifies v
    ensures Step(v.State(), log, failure) == CleanupProjects(old(v.State()), projects, opts, hardlink, hash)
  {
    ghost var s0 := v.State();
    log, failure := [], None;
    var i := 0;
    while i < |projects|
      invariant 0 <= i <= |projects| && failure.None?
      invariant CleanupProjects(s0, projects, opts, hardlink, hash) ==
        Prepend(log, CleanupProjects(v.State(), projects[i..], opts, hardlink, hash))
    {
      ghost var before := v.State();
      var more;
      more, failure := CleanupProject(v, projects[i], opts, hardlink, hash);
      CleanupProjectsFrom(before, projects, i, opts, hardlink, hash, Step(v.State(), more, failure));
      PrependTwice(log, more, CleanupProjects(v.State(), projects[i + 1..], opts, hardlink, hash));
      log := log + more;
      if failure.Some? { return; }
      i := i + 1;
    }
  }

  /** `cleanup_photo_library`, with the library check of the script's entry
      point in front and the hard-link probe's answer as a parameter. */
  method CleanupPhotoLibrary(v: Volume, library: Path, tree: PL.Dir, opts: Options,
                             hardlinksSupported: bool, hash: Bytes -> Digest)
    returns (log: seq<Event>, failure: Option<Failure>)
    modifies v
    ensures Step(v.State(), log, failure) == CleanupLibrary(old(v.State()), library, tree, opts, hardlinksSupported, hash)
  {
    if !IsDir(v.State(), library) {
      return [], Some(LibraryNotFound(library));
    }
    log, failure := CleanupEach(v, PL.FindProjects(tree, library), opts, opts.hardlinkSelects && hardlinksSupported, hash);
  }
}
