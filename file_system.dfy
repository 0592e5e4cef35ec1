/** The filesystem that cleanup-photo-library.py works on.

    A snapshot maps every path to the kind of entry found there and every
    inode to its bytes; a regular file names an inode, and two paths naming
    the same inode are hard links to one file. `order` is the order in which
    directory listings and globs return entries. The operations the script
    calls (`Path.unlink`, `shutil.rmtree`, `os.link`) are given as functions
    on snapshots, and as methods of the `Volume` class that holds the live
    state. Paths are sequences of names; `[]` is the filesystem root. */
module FileSystem {

  import opened Wrappers
  import opened Text

  type Name = string
  type Path = seq<Name>
  type Inode = nat
  type Bytes = seq<bv8>

  /** Where a symbolic link (or a Windows junction) points. The entries
      inside a linked directory are not part of the model. */
  datatype Target = ToFile(inode: Inode) | ToDirectory | Dangling

  datatype Kind = Directory | Regular(inode: Inode) | Symlink(target: Target)

  datatype Snapshot = Snapshot(entries: map<Path, Kind>, order: seq<Path>, data: map<Inode, Bytes>)

  function Parent(p: Path): Path
    requires p != []
  {
    p[..|p| - 1]
  }

  function Last(p: Path): Name
    requires p != []
  {
    p[|p| - 1]
  }

  /** `PurePath.name`: the last component, empty for the root. */
  function BaseName(p: Path): (r: Name)
    ensures p != [] ==> r == Last(p)
  {
    if p == [] then "" else p[|p| - 1]
  }

  /** `q` is `p` or lies below it. */
  predicate IsPrefix(p: Path, q: Path)
  {
    |p| <= |q| && q[..|p|] == p
  }

  /** `q` lies strictly below `p`. */
  predicate IsBelow(p: Path, q: Path)
  {
    |p| < |q| && q[..|p|] == p
  }

  /** `q` is an immediate entry of directory `p`. */
  predicate IsChild(p: Path, q: Path)
  {
    |q| == |p| + 1 && q[..|p|] == p
  }

  predicate Distinct(ps: seq<Path>)
  {
    forall i, j :: 0 <= i < j < |ps| ==> ps[i] != ps[j]
  }

  /** A well-formed snapshot: the listing order holds every entry once, every
      file's inode has content, and every entry sits inside a directory. */
  predicate Valid(s: Snapshot)
  {
    && Distinct(s.order)
    && (forall p :: p in s.order ==> p in s.entries)
    && (forall p :: p in s.entries ==> p in s.order)
    && (forall p :: p in s.entries && s.entries[p].Regular? ==> s.entries[p].inode in s.data)
    && (forall p :: p in s.entries && s.entries[p].Symlink? && s.entries[p].target.ToFile? ==>
          s.entries[p].target.inode in s.data)
    && (forall p {:trigger InDirectory(s, p)} :: p in s.entries ==> InDirectory(s, p))
  }

  /** `p` is the root or sits inside a directory of `s`. */
  predicate InDirectory(s: Snapshot, p: Path)
  {
    p != [] ==> Parent(p) in s.entries && s.entries[Parent(p)] == Directory
  }

  /** The inode a path names once symbolic links are followed, if it names a file. */
  function FileInode(s: Snapshot, p: Path): Option<Inode>
  {
    if p !in s.entries then None
    else match s.entries[p]
      case Regular(i) => Some(i)
      case Symlink(ToFile(i)) => Some(i)
      case _ => None
  }

  /** The bytes of inode `i`; every file of a valid snapshot has them. */
  function Contents(s: Snapshot, i: Inode): (r: Bytes)
    ensures i in s.data ==> r == s.data[i]
  {
    if i in s.data then s.data[i] else []
  }

  /** `os.path.isdir` / `DirEntry.is_dir()`: follows symbolic links. */
  predicate IsDir(s: Snapshot, p: Path)
  {
    p in s.entries && (s.entries[p] == Directory || s.entries[p] == Symlink(ToDirectory))
  }

  /** `DirEntry.is_file()` / `os.path.isfile`: follows symbolic links. */
  predicate IsFile(s: Snapshot, p: Path)
  {
    FileInode(s, p).Some?
  }

  /** `os.path.exists`: follows symbolic links, so a dangling link does not exist. */
  predicate Exists(s: Snapshot, p: Path)
  {
    p in s.entries && s.entries[p] != Symlink(Dangling)
  }

  /** The paths of `ps` that are immediate entries of `dir`, in order. */
  function ChildrenIn(ps: seq<Path>, dir: Path): (r: seq<Path>)
    ensures forall q :: q in r <==> q in ps && IsChild(dir, q)
    ensures Distinct(ps) ==> Distinct(r)
  {
    if ps == [] then []
    else if IsChild(dir, ps[0]) then [ps[0]] + ChildrenIn(ps[1..], dir)
    else ChildrenIn(ps[1..], dir)
  }

  /** `os.scandir(dir)`: the immediate entries of `dir` in listing order. */
  function Children(s: Snapshot, dir: Path): seq<Path>
  {
    ChildrenIn(s.order, dir)
  }

  /** `ps` without the paths in `gone`, order kept. */
  function Without(ps: seq<Path>, gone: set<Path>): (r: seq<Path>)
    ensures forall q :: q in r <==> q in ps && q !in gone
    ensures Distinct(ps) ==> Distinct(r)
  {
    if ps == [] then []
    else if ps[0] in gone then Without(ps[1..], gone)
    else [ps[0]] + Without(ps[1..], gone)
  }

  function Remove(s: Snapshot, gone: set<Path>): Snapshot
  {
    Snapshot(s.entries - gone, Without(s.order, gone), s.data)
  }

  /** `p` and every entry below it. */
  function Subtree(s: Snapshot, p: Path): set<Path>
  {
    set q | q in s.entries && IsPrefix(p, q)
  }

  /** `Path.unlink(p)`: removes one entry that is not a directory; fails on a
      missing path and on a directory. */
  function AfterUnlink(s: Snapshot, p: Path): (r: Option<Snapshot>)
    ensures r.Some? <==> p in s.entries && s.entries[p] != Directory
    ensures r.Some? ==> r.value.entries == s.entries - {p} && r.value.data == s.data
  {
    if p in s.entries && s.entries[p] != Directory then Some(Remove(s, {p})) else None
  }

  /** `shutil.rmtree(p)`: removes a directory with everything below it; fails
      on a missing path, on a symbolic link and on a file. */
  function AfterRemoveTree(s: Snapshot, p: Path): (r: Option<Snapshot>)
    ensures r.Some? <==> p in s.entries && s.entries[p] == Directory
    ensures r.Some? ==> r.value.data == s.data
    ensures r.Some? ==> forall q :: q in r.value.entries <==> q in s.entries && !IsPrefix(p, q)
    ensures r.Some? ==> forall q :: q in r.value.entries ==> r.value.entries[q] == s.entries[q]
  {
    if p in s.entries && s.entries[p] == Directory then Some(Remove(s, Subtree(s, p))) else None
  }

  /** `os.link(src, dst)`: a new entry `dst` naming the inode `src` resolves
      to; fails unless `src` names a file, `dst` is free and the directory
      that is to hold `dst` exists. The new entry is listed last. */
  function AfterLink(s: Snapshot, src: Path, dst: Path): (r: Option<Snapshot>)
    ensures r.Some? <==>
      IsFile(s, src) && dst !in s.entries && dst != [] && Parent(dst) in s.entries && s.entries[Parent(dst)] == Directory
    ensures r.Some? ==> r.value.data == s.data && r.value.entries == s.entries[dst := Regular(FileInode(s, src).value)]
  {
    if IsFile(s, src) && dst !in s.entries && dst != [] && Parent(dst) in s.entries && s.entries[Parent(dst)] == Directory
    then Some(Snapshot(s.entries[dst := Regular(FileInode(s, src).value)], s.order + [dst], s.data))
    else None
  }

  /** `p` is present in `t` exactly when in `s`, as the same kind of entry. */
  predicate Keeps(s: Snapshot, t: Snapshot, p: Path)
  {
    (p in s.entries <==> p in t.entries) && (p in s.entries ==> s.entries[p] == t.entries[p])
  }

  /** Every proper ancestor of an entry of a valid snapshot is a directory. */
  lemma {:induction false} AncestorIsDirectory(s: Snapshot, q: Path, n: nat)
    requires Valid(s) && q in s.entries && n < |q|
    ensures q[..n] in s.entries && s.entries[q[..n]] == Directory
    decreases |q| - n
  {
    assert InDirectory(s, q);
    var parent := Parent(q);
    if n < |q| - 1 {
      AncestorIsDirectory(s, parent, n);
      assert parent[..n] == q[..n];
    }
  }

  /** Nothing lies below an entry of a valid snapshot that is not a directory. */
  lemma NothingBelowNonDirectory(s: Snapshot, p: Path, q: Path)
    requires Valid(s) && p in s.entries && s.entries[p] != Directory && q in s.entries
    ensures !IsBelow(p, q)
  {
    if |p| < |q| { AncestorIsDirectory(s, q, |p|); }
  }

  /** The entries of one directory are an antichain: none is a prefix of another. */
  lemma ChildrenAreSiblings(s: Snapshot, dir: Path)
    requires Valid(s)
    ensures forall i, j :: 0 <= i < |Children(s, dir)| && 0 <= j < |Children(s, dir)| && i != j ==>
      !IsPrefix(Children(s, dir)[i], Children(s, dir)[j])
  {
    var cs := Children(s, dir);
    forall i, j | 0 <= i < |cs| && 0 <= j < |cs| && i != j
      ensures !IsPrefix(cs[i], cs[j])
    {
      assert cs[i] in cs && cs[j] in cs;
      if i < j { assert cs[i] != cs[j]; } else { assert cs[j] != cs[i]; }
    }
  }

  lemma UnlinkKeepsValid(s: Snapshot, p: Path)
    requires Valid(s) && AfterUnlink(s, p).Some?
    ensures Valid(AfterUnlink(s, p).value)
  {
    var r := AfterUnlink(s, p).value;
    forall q | q in r.entries
      ensures InDirectory(r, q)
    {
      assert InDirectory(s, q);
    }
  }

  lemma RemoveTreeKeepsValid(s: Snapshot, p: Path)
    requires Valid(s) && AfterRemoveTree(s, p).Some?
    ensures Valid(AfterRemoveTree(s, p).value)
  {
    var r := AfterRemoveTree(s, p).value;
    forall q | q in r.entries
      ensures InDirectory(r, q)
    {
      assert InDirectory(s, q);
    }
  }

  lemma LinkKeepsValid(s: Snapshot, src: Path, dst: Path)
    requires Valid(s) && AfterLink(s, src, dst).Some?
    ensures Valid(AfterLink(s, src, dst).value)
  {
    var r := AfterLink(s, src, dst).value;
    assert dst !in s.order;
    forall i, j | 0 <= i < j < |r.order| ensures r.order[i] != r.order[j] {
      if j == |s.order| { assert r.order[i] in s.order; }
    }
    forall q | q in r.entries ensures InDirectory(r, q) {
      if q != dst { assert InDirectory(s, q); }
    }
  }

  /** The live filesystem: its fields are the parts of a snapshot. */
  class Volume {
    var entries: map<Path, Kind>
    var order: seq<Path>
    var data: map<Inode, Bytes>

    function State(): Snapshot
      reads this
    {
      Snapshot(entries, order, data)
    }

    constructor (s: Snapshot)
      ensures State() == s
    {
      entries, order, data := s.entries, s.order, s.data;
    }

    /** `Path.unlink(p)`. */
    method Unlink(p: Path) returns (ok: bool)
      modifies this
      ensures ok == AfterUnlink(old(State()), p).Some?
      ensures State() == if ok then AfterUnlink(old(State()), p).value else old(State())
    {
      ok := p in entries && entries[p] != Directory;
      if ok {
        entries, order := entries - {p}, Without(order, {p});
      }
    }

    /** `shutil.rmtree(p)`. */
    method RemoveTree(p: Path) returns (ok: bool)
      modifies this
      ensures ok == AfterRemoveTree(old(State()), p).Some?
      ensures State() == if ok then AfterRemoveTree(old(State()), p).value else old(State())
    {
      ok := p in entries && entries[p] == Directory;
      if ok {
        var gone := set q | q in entries && IsPrefix(p, q);
        entries, order := entries - gone, Without(order, gone);
      }
    }

    /** `os.link(src, dst)`. */
    method Link(src: Path, dst: Path) returns (ok: bool)
      modifies this
      ensures ok == AfterLink(old(State()), src, dst).Some?
      ensures State() == if ok then AfterLink(old(State()), src, dst).value else old(State())
    {
      var inode := FileInode(State(), src);
      ok := inode.Some? && dst !in entries && dst != [] && Parent(dst) in entries && entries[Parent(dst)] == Directory;
      if ok {
        entries, order := entries[dst := Regular(inode.value)], order + [dst];
      }
    }
  }
}
