/** Project discovery of cleanup-photo-library.py (`find_projects`).

    A directory is a project when one of its immediate subdirectories is
    named `0_RAW`, `1_EDIT` or `2_EXPORT`; the walk then stops. Otherwise the
    projects of every subdirectory are collected, in listing order. The
    directory structure is a tree of `Dir` values: only subdirectories are
    kept, since `find_projects` looks at nothing else. */
module ProjectLocator {

  import opened Wrappers
  import opened FileSystem

  const RawSubdir: Name := "0_RAW"
  const EditSubdir: Name := "1_EDIT"
  const ExportSubdir: Name := "2_EXPORT"

  predicate IsStageName(n: Name)
  {
    n == RawSubdir || n == EditSubdir || n == ExportSubdir
  }

  /** A directory and its subdirectories, in listing order. */
  datatype Dir = Dir(name: Name, subdirs: seq<Dir>)

  predicate HasStageChild(t: Dir)
  {
    exists i :: 0 <= i < |t.subdirs| && IsStageName(t.subdirs[i].name)
  }

  /** `find_projects(path)` for the directory `t` found at `path`. */
  function FindProjects(t: Dir, path: Path): (r: seq<Path>)
    ensures HasStageChild(t) ==> r == [path]
    ensures forall p :: p in r ==> |path| <= |p|
    ensures !HasStageChild(t) ==> path !in r
    decreases t
  {
    if HasStageChild(t) then [path] else FindInSubdirs(t.subdirs, path)
  }

  /** The `for x in subdirs: result.extend(find_projects(x.path))` loop. */
  function FindInSubdirs(ts: seq<Dir>, path: Path): (r: seq<Path>)
    ensures forall p :: p in r ==> |path| < |p|
    ensures ts == [] ==> r == []
    decreases ts
  {
    if ts == [] then []
    else FindProjects(ts[0], path + [ts[0].name]) + FindInSubdirs(ts[1..], path)
  }

  /** No path of `ps` is a prefix of (an ancestor of, or equal to) another. */
  predicate Antichain(ps: seq<Path>)
  {
    forall i, j :: 0 <= i < |ps| && 0 <= j < |ps| && i != j ==> !IsPrefix(ps[i], ps[j])
  }

  /** Sibling directories have distinct names, at every level. */
  predicate UniqueNames(t: Dir)
    decreases t
  {
    (forall i, j :: 0 <= i < j < |t.subdirs| ==> t.subdirs[i].name != t.subdirs[j].name) &&
    forall i :: 0 <= i < |t.subdirs| ==> UniqueNames(t.subdirs[i])
  }

  /** `rel` leads from `t` to a directory with a stage child, and no directory
      passed on the way (`t` included) has a stage child. */
  predicate IsTopProject(t: Dir, rel: Path)
    decreases t
  {
    if HasStageChild(t) then rel == []
    else
      rel != [] &&
      exists i :: 0 <= i < |t.subdirs| && t.subdirs[i].name == rel[0] && IsTopProject(t.subdirs[i], rel[1..])
  }

  /** The directory reached from `t` by following `rel`, if any. */
  function Lookup(t: Dir, rel: Path): Option<Dir>
    decreases |rel|
  {
    if rel == [] then Some(t)
    else
      var i := FirstNamed(t.subdirs, rel[0]);
      if i == |t.subdirs| then None else Lookup(t.subdirs[i], rel[1..])
  }

  function FirstNamed(ts: seq<Dir>, n: Name): (i: nat)
    ensures i <= |ts|
    ensures i < |ts| ==> ts[i].name == n
    ensures forall k :: 0 <= k < i ==> ts[k].name != n
  {
    if ts == [] then 0 else if ts[0].name == n then 0 else 1 + FirstNamed(ts[1..], n)
  }

  /** Every result of `find_projects` lies below the starting path. */
  lemma {:induction false} ResultsBelow(t: Dir, path: Path)
    ensures forall p :: p in FindProjects(t, path) ==> IsPrefix(path, p)
    decreases t, 1
  {
    if !HasStageChild(t) { ResultsBelowAll(t.subdirs, path); }
  }

  lemma {:induction false} ResultsBelowAll(ts: seq<Dir>, path: Path)
    ensures forall p :: p in FindInSubdirs(ts, path) ==>
      |p| > |path| && p[..|path|] == path && exists i :: 0 <= i < |ts| && p[|path|] == ts[i].name
    decreases ts, 0
  {
    if ts != [] {
      ResultsBelow(ts[0], path + [ts[0].name]);
      ResultsBelowAll(ts[1..], path);
      forall p | p in FindInSubdirs(ts, path)
        ensures |p| > |path| && p[..|path|] == path && exists i :: 0 <= i < |ts| && p[|path|] == ts[i].name
      {
        if p in FindProjects(ts[0], path + [ts[0].name]) {
          assert IsPrefix(path + [ts[0].name], p);
          assert p[..|path| + 1][..|path|] == p[..|path|];
          assert p[|path|] == (path + [ts[0].name])[|path|];
        } else {
          assert p in FindInSubdirs(ts[1..], path);
          var i :| 0 <= i < |ts[1..]| && p[|path|] == ts[1..][i].name;
          assert p[|path|] == ts[i + 1].name;
        }
      }
    }
  }

  /** `find_projects` returns exactly the paths of the top-most projects:
      a path is returned iff it names a directory with a stage child none of
      whose ancestors below the start has one. */
  lemma {:induction false} FindProjectsExact(t: Dir, path: Path, p: Path)
    ensures p in FindProjects(t, path) <==> IsPrefix(path, p) && IsTopProject(t, p[|path|..])
    decreases t, 1
  {
    if HasStageChild(t) {
      assert p == path ==> p[|path|..] == [];
      assert IsPrefix(path, p) && p[|path|..] == [] ==> p == path;
    } else {
      FindInSubdirsExact(t.subdirs, path, p);
      DescendTop(t, path, p);
    }
  }

  /** Below a directory without a stage child, a top-most project is one
      of some subdirectory, one level further down. */
  lemma DescendTop(t: Dir, path: Path, p: Path)
    requires !HasStageChild(t)
    ensures IsPrefix(path, p) && IsTopProject(t, p[|path|..]) <==>
      exists i :: 0 <= i < |t.subdirs| && IsPrefix(path + [t.subdirs[i].name], p) &&
        IsTopProject(t.subdirs[i], p[|path| + 1..])
  {
    if IsPrefix(path, p) && IsTopProject(t, p[|path|..]) {
      var rel := p[|path|..];
      var i :| 0 <= i < |t.subdirs| && t.subdirs[i].name == rel[0] && IsTopProject(t.subdirs[i], rel[1..]);
      OneLevelDown(path, p, t.subdirs[i].name);
    }
    if exists i :: 0 <= i < |t.subdirs| && IsPrefix(path + [t.subdirs[i].name], p) &&
        IsTopProject(t.subdirs[i], p[|path| + 1..]) {
      var i :| 0 <= i < |t.subdirs| && IsPrefix(path + [t.subdirs[i].name], p) &&
        IsTopProject(t.subdirs[i], p[|path| + 1..]);
      OneLevelDown(path, p, t.subdirs[i].name);
    }
  }

  /** `p` lies below `path + [n]` exactly when it lies below `path` and
      the rest of it starts with `n`. */
  lemma OneLevelDown(path: Path, p: Path, n: Name)
    ensures IsPrefix(path + [n], p) <==> IsPrefix(path, p) && p[|path|..] != [] && p[|path|..][0] == n
    ensures IsPrefix(path, p) && p[|path|..] != [] ==> p[|path|..][1..] == p[|path| + 1..]
  {
    if IsPrefix(path, p) && p[|path|..] != [] && p[|path|..][0] == n {
      assert p[..|path| + 1] == p[..|path|] + [p[|path|]];
    }
    if IsPrefix(path + [n], p) {
      assert p[..|path|] == (path + [n])[..|path|];
    }
  }

  lemma {:induction false} FindInSubdirsExact(ts: seq<Dir>, path: Path, p: Path)
    ensures p in FindInSubdirs(ts, path) <==>
      exists i :: 0 <= i < |ts| && IsPrefix(path + [ts[i].name], p) && IsTopProject(ts[i], p[|path| + 1..])
    decreases ts, 0
  {
    if ts != [] {
      var q := path + [ts[0].name];
      FindProjectsExact(ts[0], q, p);
      FindInSubdirsExact(ts[1..], path, p);
      assert |q| == |path| + 1;
      assert p in FindInSubdirs(ts, path) <==> p in FindProjects(ts[0], q) || p in FindInSubdirs(ts[1..], path);
      if exists i :: 0 <= i < |ts| && IsPrefix(path + [ts[i].name], p) && IsTopProject(ts[i], p[|path| + 1..]) {
        var i :| 0 <= i < |ts| && IsPrefix(path + [ts[i].name], p) && IsTopProject(ts[i], p[|path| + 1..]);
        if i > 0 {
          assert ts[1..][i - 1] == ts[i];
        }
      }
      if p in FindInSubdirs(ts[1..], path) {
        var i :| 0 <= i < |ts[1..]| && IsPrefix(path + [ts[1..][i].name], p) && IsTopProject(ts[1..][i], p[|path| + 1..]);
        assert ts[i + 1] == ts[1..][i];
      }
    }
  }

  /** A top-most project path leads to a directory that has a stage child. */
  lemma {:induction false} TopProjectHasStageChild(t: Dir, rel: Path)
    requires UniqueNames(t)
    requires IsTopProject(t, rel)
    ensures Lookup(t, rel).Some? && HasStageChild(Lookup(t, rel).value)
    decreases t
  {
    if !HasStageChild(t) {
      var i :| 0 <= i < |t.subdirs| && t.subdirs[i].name == rel[0] && IsTopProject(t.subdirs[i], rel[1..]);
      var f := FirstNamed(t.subdirs, rel[0]);
      assert f == i;
      TopProjectHasStageChild(t.subdirs[i], rel[1..]);
    }
  }

  /** Every directory `find_projects` returns has an immediate subdirectory
      named after a stage. */
  lemma ProjectsHaveStageChild(t: Dir, path: Path, p: Path)
    requires UniqueNames(t)
    requires p in FindProjects(t, path)
    ensures IsPrefix(path, p)
    ensures Lookup(t, p[|path|..]).Some? && HasStageChild(Lookup(t, p[|path|..]).value)
  {
    FindProjectsExact(t, path, p);
    TopProjectHasStageChild(t, p[|path|..]);
  }

  /** No returned path is an ancestor of, or equal to, another returned path. */
  lemma {:induction false} ProjectsAntichain(t: Dir, path: Path)
    requires UniqueNames(t)
    ensures Antichain(FindProjects(t, path))
    decreases t, 1
  {
    if !HasStageChild(t) { SubdirProjectsAntichain(t.subdirs, path); }
  }

  lemma {:induction false} SubdirProjectsAntichain(ts: seq<Dir>, path: Path)
    requires forall i, j :: 0 <= i < j < |ts| ==> ts[i].name != ts[j].name
    requires forall i :: 0 <= i < |ts| ==> UniqueNames(ts[i])
    ensures Antichain(FindInSubdirs(ts, path))
    decreases ts, 0
  {
    if ts != [] {
      var q := path + [ts[0].name];
      var a := FindProjects(ts[0], q);
      var b := FindInSubdirs(ts[1..], path);
      ProjectsAntichain(ts[0], q);
      SubdirProjectsAntichain(ts[1..], path);
      ResultsBelow(ts[0], q);
      ResultsBelowAll(ts[1..], path);
      var r := a + b;
      forall i, j | 0 <= i < |r| && 0 <= j < |r| && i != j
        ensures !IsPrefix(r[i], r[j])
      {
        if i < |a| && j >= |a| {
          Separated(a[i], b[j - |a|], q, ts[1..], path, ts[0].name);
        } else if i >= |a| && j < |a| {
          Separated(a[j], b[i - |a|], q, ts[1..], path, ts[0].name);
        } else if i >= |a| {
          assert r[i] == b[i - |a|] && r[j] == b[j - |a|];
        }
      }
    }
  }

  /** A path below the first sibling cannot be a prefix of, or have as a
      prefix, a path below a later sibling. */
  lemma Separated(x: Path, y: Path, q: Path, rest: seq<Dir>, path: Path, n: Name)
    requires q == path + [n] && IsPrefix(q, x)
    requires |y| > |path| && y[..|path|] == path
    requires exists i :: 0 <= i < |rest| && y[|path|] == rest[i].name
    requires forall i :: 0 <= i < |rest| ==> rest[i].name != n
    ensures !IsPrefix(x, y) && !IsPrefix(y, x)
  {
    assert x[|path|] == q[|path|] == n;
    assert y[|path|] != n;
  }
}
