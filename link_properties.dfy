/** What `hardlink_select_files` of cleanup-photo-library.py promises: a
    select file whose content equals that of the same-named file in `0_RAW`
    ends up as a hard link to it, the raw file is never touched, a
    different content only gives a warning, and a second run links nothing. */
module LinkProperties {

  import opened Wrappers
  import opened FileSystem
  import opened Cleanup

  /** Both paths of a select and its raw candidate name files. */
  lemma {:induction false} DecideCases(s: Snapshot, project: Path, c: Path, hash: Bytes -> Digest)
    ensures Decide(s, project, c, hash) == Skip <==>
      !Exists(s, RawCandidate(project, c)) ||
      (IsFile(s, c) && FileInode(s, RawCandidate(project, c)) == FileInode(s, c))
    ensures Decide(s, project, c, hash) == Link <==>
      Exists(s, RawCandidate(project, c)) && IsFile(s, c) && IsFile(s, RawCandidate(project, c)) &&
      FileInode(s, RawCandidate(project, c)) != FileInode(s, c) &&
      hash(Contents(s, FileInode(s, c).value)) == hash(Contents(s, FileInode(s, RawCandidate(project, c)).value))
    ensures Decide(s, project, c, hash).Differ? ==>
      Decide(s, project, c, hash).selectDigest != Decide(s, project, c, hash).rawDigest &&
      Decide(s, project, c, hash).selectDigest == hash(Contents(s, FileInode(s, c).value)) &&
      Decide(s, project, c, hash).rawDigest == hash(Contents(s, FileInode(s, RawCandidate(project, c)).value))
  {
  }

  /** The decision about a select depends only on the select, its raw
      candidate and the file contents. */
  lemma DecideStable(s: Snapshot, t: Snapshot, project: Path, c: Path, hash: Bytes -> Digest)
    requires Keeps(s, t, c) && Keeps(s, t, RawCandidate(project, c)) && s.data == t.data
    ensures Decide(s, project, c, hash) == Decide(t, project, c, hash)
  {
    assert FileInode(s, c) == FileInode(t, c);
    assert FileInode(s, RawCandidate(project, c)) == FileInode(t, RawCandidate(project, c));
  }

  /** Handling one select changes no other path. */
  lemma LinkOneFrame(s: Snapshot, project: Path, c: Path, hash: Bytes -> Digest, dryRun: bool, p: Path)
    ensures p != c ==> Keeps(s, LinkOne(s, project, c, hash, dryRun).after, p)
  {
  }

  lemma {:induction false} LinkEachFrame(s: Snapshot, project: Path, cs: seq<Path>, hash: Bytes -> Digest,
                                         dryRun: bool, p: Path)
    ensures p !in cs ==> Keeps(s, LinkEach(s, project, cs, hash, dryRun).after, p)
    decreases |cs|
  {
    if cs != [] {
      var t := LinkOne(s, project, cs[0], hash, dryRun);
      LinkOneFrame(s, project, cs[0], hash, dryRun, p);
      if t.failure.None? {
        LinkEachFrame(t.after, project, cs[1..], hash, dryRun, p);
      }
    }
  }

  /** A dry run changes nothing. */
  lemma {:induction false} LinkEachDry(s: Snapshot, project: Path, cs: seq<Path>, hash: Bytes -> Digest)
    ensures LinkEach(s, project, cs, hash, true).after == s
    decreases |cs|
  {
    if cs != [] { LinkEachDry(s, project, cs[1..], hash); }
  }

  /** Equal digests, no dry run: the select is unlinked and re-created as a
      hard link to the raw file, which stays as it was; on a valid snapshot
      neither step can fail. */
  lemma LinkOutcome(s: Snapshot, project: Path, c: Path, hash: Bytes -> Digest)
    requires Valid(s) && IsSelect(s, project, c) && Decide(s, project, c, hash) == Link
    ensures LinkOne(s, project, c, hash, false).failure.None?
    ensures LinkOne(s, project, c, hash, false).log == [Linking(c)]
    ensures LinkOne(s, project, c, hash, false).after.entries ==
      s.entries[c := Regular(FileInode(s, RawCandidate(project, c)).value)]
    ensures FileInode(LinkOne(s, project, c, hash, false).after, c) == FileInode(s, RawCandidate(project, c))
    ensures Keeps(s, LinkOne(s, project, c, hash, false).after, RawCandidate(project, c))
    ensures LinkOne(s, project, c, hash, false).after.data == s.data
    ensures Valid(LinkOne(s, project, c, hash, false).after)
  {
    var raw := RawCandidate(project, c);
    assert InDirectory(s, c);
    var u := AfterUnlink(s, c).value;
    UnlinkKeepsValid(s, c);
    assert FileInode(u, raw) == FileInode(s, raw);
    assert Parent(c) in u.entries;
    LinkKeepsValid(u, raw, c);
  }

  /** Different digests: nothing changes and one warning names both digests. */
  lemma MismatchOutcome(s: Snapshot, project: Path, c: Path, hash: Bytes -> Digest, dryRun: bool)
    requires Decide(s, project, c, hash).Differ?
    ensures LinkOne(s, project, c, hash, dryRun) ==
      Step(s, [Mismatch(c, hash(Contents(s, FileInode(s, c).value)),
                           hash(Contents(s, FileInode(s, RawCandidate(project, c)).value)))], None)
  {
    DecideCases(s, project, c, hash);
  }

  /** `ps` are distinct entries of `project` that are selects in `s`. */
  predicate SelectList(s: Snapshot, project: Path, cs: seq<Path>)
  {
    Distinct(cs) && forall c :: c in cs ==> IsSelect(s, project, c)
  }

  lemma SelectListTail(s: Snapshot, t: Snapshot, project: Path, cs: seq<Path>)
    requires cs != [] && SelectList(s, project, cs)
    requires forall d :: d in cs[1..] ==> Keeps(s, t, d)
    ensures SelectList(t, project, cs[1..]) && cs[0] !in cs[1..]
  {
    forall i, j | 0 <= i < j < |cs[1..]| ensures cs[1..][i] != cs[1..][j] {
      assert cs[1..][i] == cs[i + 1] && cs[1..][j] == cs[j + 1];
    }
    forall d | d in cs[1..] ensures IsSelect(t, project, d) {
      assert d in cs;
    }
  }

  /** One select without a dry run, when it completes: only a "link"
      decision changes the entries, and then only the select's own entry;
      no raw candidate was unreadable and a mismatch is reported. */
  lemma LinkOneEntries(s: Snapshot, project: Path, c: Path, hash: Bytes -> Digest)
    requires LinkOne(s, project, c, hash, false).failure.None?
    ensures LinkOne(s, project, c, hash, false).after.entries ==
      if Decide(s, project, c, hash) == Link then s.entries[c := Regular(FileInode(s, RawCandidate(project, c)).value)]
      else s.entries
    ensures !Decide(s, project, c, hash).Unreadable?
    ensures Decide(s, project, c, hash).Differ? ==>
      Mismatch(c, Decide(s, project, c, hash).selectDigest, Decide(s, project, c, hash).rawDigest)
        in LinkOne(s, project, c, hash, false).log
  {
  }

  /** What the first select's handling leaves the rest of the loop: a
      select list on the new state, decided as before. */
  lemma LinkEachStep(s: Snapshot, project: Path, cs: seq<Path>, hash: Bytes -> Digest)
    requires SelectList(s, project, cs) && cs != []
    ensures var t := LinkOne(s, project, cs[0], hash, false);
      SelectList(t.after, project, cs[1..]) && cs[0] !in cs[1..] &&
      forall d :: d in cs[1..] ==>
        Decide(t.after, project, d, hash) == Decide(s, project, d, hash) &&
        Keeps(s, t.after, d) && Keeps(s, t.after, RawCandidate(project, d))
  {
    var c := cs[0];
    var t := LinkOne(s, project, c, hash, false);
    SelectListTail(s, s, project, cs);
    forall d | d in cs[1..] ensures Keeps(s, t.after, d) && Keeps(s, t.after, RawCandidate(project, d)) {
      LinkOneFrame(s, project, c, hash, false, d);
      LinkOneFrame(s, project, c, hash, false, RawCandidate(project, d));
    }
    SelectListTail(s, t.after, project, cs);
    forall d | d in cs[1..] ensures Decide(t.after, project, d, hash) == Decide(s, project, d, hash) {
      DecideStable(s, t.after, project, d, hash);
    }
  }

  /** The whole loop without a dry run, when it completes: every select
      whose decision was "link" now names its raw file's inode and every
      other select is as it was (decisions taken in the state the loop
      started from). */
  lemma {:induction false} LinkEachEntries(s: Snapshot, project: Path, cs: seq<Path>, hash: Bytes -> Digest)
    requires SelectList(s, project, cs)
    requires LinkEach(s, project, cs, hash, false).failure.None?
    ensures var r := LinkEach(s, project, cs, hash, false);
      forall c :: c in cs ==>
        c in r.after.entries &&
        r.after.entries[c] ==
          (if Decide(s, project, c, hash) == Link then Regular(FileInode(s, RawCandidate(project, c)).value)
           else s.entries[c])
    decreases |cs|
  {
    if cs != [] {
      var c := cs[0];
      assert c in cs;
      var t := LinkOne(s, project, c, hash, false);
      var r := LinkEach(t.after, project, cs[1..], hash, false);
      assert LinkEach(s, project, cs, hash, false) == Prepend(t.log, r);
      LinkOneEntries(s, project, c, hash);
      LinkEachStep(s, project, cs, hash);
      LinkEachEntries(t.after, project, cs[1..], hash);
      LinkEachFrame(t.after, project, cs[1..], hash, false, c);
      forall d | d in cs
        ensures d in r.after.entries && r.after.entries[d] ==
          (if Decide(s, project, d, hash) == Link then Regular(FileInode(s, RawCandidate(project, d)).value)
           else s.entries[d])
      {
        if d != c {
          assert d in cs[1..];
          assert FileInode(t.after, RawCandidate(project, d)) == FileInode(s, RawCandidate(project, d));
        }
      }
    }
  }

  /** The whole loop without a dry run, when it completes, keeps the
      snapshot consistent and sets each select's entry as `LinkEachEntries`
      says. */
  lemma LinkEachEffect(s: Snapshot, project: Path, cs: seq<Path>, hash: Bytes -> Digest)
    requires Valid(s) && SelectList(s, project, cs)
    requires LinkEach(s, project, cs, hash, false).failure.None?
    ensures var r := LinkEach(s, project, cs, hash, false);
      Valid(r.after) &&
      forall c :: c in cs ==>
        c in r.after.entries &&
        r.after.entries[c] ==
          (if Decide(s, project, c, hash) == Link then Regular(FileInode(s, RawCandidate(project, c)).value)
           else s.entries[c])
  {
    LinkEachKeepsValid(s, project, cs, hash, false);
    LinkEachEntries(s, project, cs, hash);
  }

  /** A completed loop met no unreadable raw candidate and reported every
      mismatch. */
  lemma {:induction false} LinkEachWarnings(s: Snapshot, project: Path, cs: seq<Path>, hash: Bytes -> Digest)
    requires SelectList(s, project, cs)
    requires LinkEach(s, project, cs, hash, false).failure.None?
    ensures forall c :: c in cs ==> !Decide(s, project, c, hash).Unreadable?
    ensures forall c :: c in cs && Decide(s, project, c, hash).Differ? ==>
      Mismatch(c, Decide(s, project, c, hash).selectDigest, Decide(s, project, c, hash).rawDigest)
        in LinkEach(s, project, cs, hash, false).log
    decreases |cs|
  {
    if cs != [] {
      var c := cs[0];
      var t := LinkOne(s, project, c, hash, false);
      var r := LinkEach(t.after, project, cs[1..], hash, false);
      assert LinkEach(s, project, cs, hash, false) == Prepend(t.log, r);
      LinkOneEntries(s, project, c, hash);
      LinkEachStep(s, project, cs, hash);
      LinkEachWarnings(t.after, project, cs[1..], hash);
    }
  }



  /** A loop in which no select is to be linked or is unreadable changes
      nothing and only warns. */
  lemma {:induction false} LinkEachNoLinks(t: Snapshot, project: Path, cs: seq<Path>, hash: Bytes -> Digest,
                                           dryRun: bool)
    requires forall c :: c in cs ==> Decide(t, project, c, hash).Skip? || Decide(t, project, c, hash).Differ?
    ensures LinkEach(t, project, cs, hash, dryRun).after == t
    ensures LinkEach(t, project, cs, hash, dryRun).failure.None?
    ensures forall e :: e in LinkEach(t, project, cs, hash, dryRun).log ==>
      e.Mismatch? && e.select in cs &&
      Decide(t, project, e.select, hash) == Differ(e.selectDigest, e.rawDigest)
    decreases |cs|
  {
    if cs != [] {
      assert cs[0] in cs;
      assert forall c :: c in cs[1..] ==> c in cs;
      LinkEachNoLinks(t, project, cs[1..], hash, dryRun);
    }
  }

  lemma {:induction false} LinkEachKeepsLinked(s: Snapshot, project: Path, cs: seq<Path>, hash: Bytes -> Digest)
    requires Valid(s) && SelectList(s, project, cs)
    requires LinkEach(s, project, cs, hash, false).failure.None?
    ensures forall c :: c in cs ==>
      Decide(LinkEach(s, project, cs, hash, false).after, project, c, hash) ==
        (if Decide(s, project, c, hash) == Link then Skip else Decide(s, project, c, hash))
  {
    var r := LinkEach(s, project, cs, hash, false);
    LinkEachEffect(s, project, cs, hash);
    forall c | c in cs
      ensures Decide(r.after, project, c, hash) ==
        (if Decide(s, project, c, hash) == Link then Skip else Decide(s, project, c, hash))
    {
      var raw := RawCandidate(project, c);
      assert raw !in cs by {
        assert forall d :: d in cs ==> IsChild(project, d);
      }
      LinkEachFrame(s, project, cs, hash, false, raw);
      if Decide(s, project, c, hash) != Link {
        DecideStable(s, r.after, project, c, hash);
      } else {
        DecideCases(s, project, c, hash);
        assert FileInode(r.after, c) == FileInode(s, raw) == FileInode(r.after, raw);
        DecideCases(r.after, project, c, hash);
      }
    }
  }

  lemma {:induction false} SelectsInDistinct(s: Snapshot, project: Path, ps: seq<Path>)
    requires Distinct(ps)
    ensures Distinct(SelectsIn(s, project, ps))
  {
    if ps != [] {
      assert forall p :: p in ps[1..] ==> p in ps;
      assert ps[0] !in ps[1..];
      SelectsInDistinct(s, project, ps[1..]);
    }
  }

  /** The selects `hardlink_select_files` walks through. */
  lemma SelectFilesList(s: Snapshot, project: Path)
    requires Valid(s)
    ensures SelectList(s, project, SelectFiles(s, project))
  {
    SelectsInDistinct(s, project, Children(s, project));
  }

  /** A run that completes reports what a dry run reports, in a state that
      agrees on the selects, their raw candidates and the contents: linking
      one select does not change the decision about the next. That dry run
      completes too. */
  lemma {:induction false} LinkEachReports(s: Snapshot, t: Snapshot, project: Path, cs: seq<Path>, hash: Bytes -> Digest)
    requires Distinct(cs) && forall c :: c in cs ==> IsChild(project, c)
    requires forall c :: c in cs ==> Keeps(s, t, c) && Keeps(s, t, RawCandidate(project, c))
    requires s.data == t.data
    requires LinkEach(s, project, cs, hash, false).failure.None?
    ensures LinkEach(s, project, cs, hash, false).log == LinkEach(t, project, cs, hash, true).log
    ensures LinkEach(t, project, cs, hash, true).failure.None?
    decreases |cs|
  {
    if cs != [] {
      var c := cs[0];
      assert c in cs;
      var u := LinkOne(s, project, c, hash, false);
      LinkOneReports(s, t, project, c, hash);
      LinkOneKeepsRest(s, t, project, cs, hash);
      LinkEachReports(u.after, t, project, cs[1..], hash);
    }
  }

  /** One select handled for real, when that completes, prints what a dry
      run prints in an agreeing state, and that dry run completes without
      changing anything. */
  lemma LinkOneReports(s: Snapshot, t: Snapshot, project: Path, c: Path, hash: Bytes -> Digest)
    requires Keeps(s, t, c) && Keeps(s, t, RawCandidate(project, c)) && s.data == t.data
    requires LinkOne(s, project, c, hash, false).failure.None?
    ensures LinkOne(s, project, c, hash, false).log == LinkOne(t, project, c, hash, true).log
    ensures LinkOne(t, project, c, hash, true) == Step(t, LinkOne(t, project, c, hash, true).log, None)
  {
    DecideStable(s, t, project, c, hash);
  }

  /** After the first select of a distinct list is handled, the state still
      agrees with `t` on the remaining selects and their raw candidates. */
  lemma LinkOneKeepsRest(s: Snapshot, t: Snapshot, project: Path, cs: seq<Path>, hash: Bytes -> Digest)
    requires cs != [] && Distinct(cs) && forall c :: c in cs ==> IsChild(project, c)
    requires forall c :: c in cs ==> Keeps(s, t, c) && Keeps(s, t, RawCandidate(project, c))
    ensures Distinct(cs[1..])
    ensures forall d :: d in cs[1..] ==>
      Keeps(LinkOne(s, project, cs[0], hash, false).after, t, d) &&
      Keeps(LinkOne(s, project, cs[0], hash, false).after, t, RawCandidate(project, d))
  {
    var c := cs[0];
    var u := LinkOne(s, project, c, hash, false);
    assert c !in cs[1..];
    assert Distinct(cs[1..]) by {
      forall i, j | 0 <= i < j < |cs[1..]| ensures cs[1..][i] != cs[1..][j] {
        assert cs[1..][i] == cs[i + 1] && cs[1..][j] == cs[j + 1];
      }
    }
    forall d | d in cs[1..] ensures Keeps(u.after, t, d) && Keeps(u.after, t, RawCandidate(project, d)) {
      assert d in cs;
      LinkOneFrame(s, project, c, hash, false, d);
      LinkOneFrame(s, project, c, hash, false, RawCandidate(project, d));
    }
  }

  /** `hardlink_select_files`: a dry run changes nothing, and a run that
      completes reports what the dry run reports. */
  lemma HardlinkReports(s: Snapshot, project: Path, hash: Bytes -> Digest)
    requires Valid(s)
    ensures HardlinkSelectsSpec(s, project, hash, true).after == s
    ensures HardlinkSelectsSpec(s, project, hash, false).failure.None? ==>
      HardlinkSelectsSpec(s, project, hash, false).log == HardlinkSelectsSpec(s, project, hash, true).log
  {
    var cs := SelectFiles(s, project);
    LinkEachDry(s, project, cs, hash);
    SelectFilesList(s, project);
    if HardlinkSelectsSpec(s, project, hash, false).failure.None? {
      LinkEachReports(s, s, project, cs, hash);
    }
  }

  /** Hard-linking touches nothing but the selects: not `0_RAW` and nothing
      in it, and no file content. */
  lemma HardlinkFrame(s: Snapshot, project: Path, hash: Bytes -> Digest, dryRun: bool, p: Path)
    requires !IsChild(project, p)
    ensures Keeps(s, HardlinkSelectsSpec(s, project, hash, dryRun).after, p)
    ensures HardlinkSelectsSpec(s, project, hash, dryRun).after.data == s.data
  {
    LinkEachFrame(s, project, SelectFiles(s, project), hash, dryRun, p);
  }

  /** Re-running `hardlink_select_files` after a run that completed changes
      nothing and links nothing: every select linked the first time is now
      the same file as its raw candidate, and the only output is the
      warnings the first run gave already. */
  lemma HardlinkIdempotent(s: Snapshot, project: Path, hash: Bytes -> Digest)
    requires Valid(s)
    requires HardlinkSelectsSpec(s, project, hash, false).failure.None?
    ensures HardlinkSelectsSpec(HardlinkSelectsSpec(s, project, hash, false).after, project, hash, false).after ==
      HardlinkSelectsSpec(s, project, hash, false).after
    ensures HardlinkSelectsSpec(HardlinkSelectsSpec(s, project, hash, false).after, project, hash, false).failure.None?
    ensures forall e :: e in HardlinkSelectsSpec(HardlinkSelectsSpec(s, project, hash, false).after, project, hash, false).log ==>
      e.Mismatch? && e in HardlinkSelectsSpec(s, project, hash, false).log
  {
    var cs := SelectFiles(s, project);
    var r := LinkEach(s, project, cs, hash, false);
    SelectFilesList(s, project);
    LinkEachWarnings(s, project, cs, hash);
    LinkEachKeepsLinked(s, project, cs, hash);
    RelinkSameSelects(s, project, hash);
    var cs2 := SelectFiles(r.after, project);
    forall d | d in cs2 ensures Decide(r.after, project, d, hash).Skip? || Decide(r.after, project, d, hash).Differ? {
    }
    LinkEachNoLinks(r.after, project, cs2, hash, false);
  }

  /** The selects a second pass walks through are among those of the first. */
  lemma RelinkSameSelects(s: Snapshot, project: Path, hash: Bytes -> Digest)
    requires Valid(s)
    requires HardlinkSelectsSpec(s, project, hash, false).failure.None?
    ensures forall d :: d in SelectFiles(HardlinkSelectsSpec(s, project, hash, false).after, project) ==>
      d in SelectFiles(s, project)
  {
    var cs := SelectFiles(s, project);
    var r := LinkEach(s, project, cs, hash, false);
    SelectFilesList(s, project);
    LinkEachEffect(s, project, cs, hash);
    var raw := RawDir(project);
    LinkEachFrame(s, project, cs, hash, false, raw);
    assert IsDir(r.after, raw) == IsDir(s, raw);
    forall d | d in SelectFiles(r.after, project) ensures d in cs {
      LinkEachFrame(s, project, cs, hash, false, d);
    }
  }

  /** Handling one select keeps the snapshot consistent, whether or not it
      completes. */
  lemma LinkOneKeepsValid(s: Snapshot, project: Path, c: Path, hash: Bytes -> Digest, dryRun: bool)
    requires Valid(s)
    ensures Valid(LinkOne(s, project, c, hash, dryRun).after)
  {
    if Decide(s, project, c, hash) == Link && !dryRun {
      var u := AfterUnlink(s, c);
      if u.Some? {
        UnlinkKeepsValid(s, c);
        if AfterLink(u.value, RawCandidate(project, c), c).Some? {
          LinkKeepsValid(u.value, RawCandidate(project, c), c);
        }
      }
    }
  }

  lemma {:induction false} LinkEachKeepsValid(s: Snapshot, project: Path, cs: seq<Path>, hash: Bytes -> Digest,
                                              dryRun: bool)
    requires Valid(s)
    ensures Valid(LinkEach(s, project, cs, hash, dryRun).after)
    decreases |cs|
  {
    if cs != [] {
      LinkOneKeepsValid(s, project, cs[0], hash, dryRun);
      LinkEachKeepsValid(LinkOne(s, project, cs[0], hash, dryRun).after, project, cs[1..], hash, dryRun);
    }
  }

  /** What the hard-link loop prints is "linking" and "differ" lines only,
      and a dry run can stop only on a file it could not read. */
  lemma {:induction false} LinkEachEvents(s: Snapshot, project: Path, cs: seq<Path>, hash: Bytes -> Digest,
                                          dryRun: bool)
    ensures forall e :: e in LinkEach(s, project, cs, hash, dryRun).log ==> e.Linking? || e.Mismatch?
    ensures dryRun && LinkEach(s, project, cs, hash, dryRun).failure.Some? ==>
      LinkEach(s, project, cs, hash, dryRun).failure.value.ReadFailed?
    decreases |cs|
  {
    if cs != [] {
      LinkEachEvents(LinkOne(s, project, cs[0], hash, dryRun).after, project, cs[1..], hash, dryRun);
    }
  }
}
