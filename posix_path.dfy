/** The pieces of `os.path` and `pathlib` the export and rename scripts use
    on POSIX: joining a directory and a name, and splitting a file name into
    stem and suffix. */
module PosixPath {

  import opened Wrappers
  import opened Text

  /** `os.path.join(dir, name)`: a name starting with `/` replaces the
      directory; otherwise a `/` is put between the two unless the directory
      is empty or already ends with one. */
  function Join(dir: string, name: string): (r: string)
    ensures EndsWith(r, name)
    ensures !StartsWith(name, "/") ==> StartsWith(r, dir)
    ensures !StartsWith(name, "/") && dir != [] && !EndsWith(dir, "/") ==> r == dir + "/" + name
  {
    if StartsWith(name, "/") then name
    else if dir == [] || EndsWith(dir, "/") then dir + name
    else dir + "/" + name
  }

  /** The position of the last `c` in `s`. */
  function LastIndexOf(s: string, c: char): (r: Option<nat>)
    ensures r.Some? ==> r.value < |s| && s[r.value] == c && forall k :: r.value < k < |s| ==> s[k] != c
    ensures r.None? ==> forall k :: 0 <= k < |s| ==> s[k] != c
  {
    if s == [] then None
    else if s[|s| - 1] == c then Some(|s| - 1)
    else LastIndexOf(s[..|s| - 1], c)
  }

  /** Where `pathlib` cuts a name: at its last dot, unless that dot is the
      first or the last character. */
  function SuffixStart(name: string): (r: nat)
    ensures r <= |name|
    ensures r < |name| ==> 0 < r < |name| - 1 && name[r] == '.' && forall k :: r < k < |name| ==> name[k] != '.'
  {
    var i := LastIndexOf(name, '.');
    if i.Some? && 0 < i.value < |name| - 1 then i.value else |name|
  }

  /** `PurePath.suffix`. */
  function Suffix(name: string): (r: string)
    ensures r == [] || (r[0] == '.' && forall k :: 0 < k < |r| ==> r[k] != '.')
    ensures EndsWith(name, r)
  {
    name[SuffixStart(name)..]
  }

  /** `PurePath.stem`. */
  function Stem(name: string): (r: string)
    ensures StartsWith(name, r)
  {
    name[..SuffixStart(name)]
  }

  /** Stem and suffix together give back the name; a name with a suffix has
      a non-empty stem, so a hidden name such as `.nef` has no suffix. */
  lemma StemSuffix(name: string)
    ensures Stem(name) + Suffix(name) == name
    ensures Suffix(name) != [] ==> Stem(name) != [] && Suffix(name) != "."
  {
    assert name == name[..SuffixStart(name)] + name[SuffixStart(name)..];
  }

  /** A name that ends in `.` followed by `ext` (a dot-free, non-empty
      extension) and does not start with a dot has `.ext` as its suffix. */
  lemma StemOfExtension(name: string, ext: string)
    requires ext != [] && forall k :: 0 <= k < |ext| ==> ext[k] != '.'
    requires EndsWith(name, "." + ext) && !StartsWith(name, ".")
    ensures Suffix(name) == "." + ext
    ensures Stem(name) == name[..|name| - |ext| - 1]
  {
    var p := |name| - |ext| - 1;
    assert name[p] == ("." + ext)[0] == '.';
    forall k | p < k < |name| ensures name[k] != '.' {
      assert name[k] == ("." + ext)[k - p] == ext[k - p - 1];
    }
    assert name[..1] == [name[0]];
    var i := LastIndexOf(name, '.');
    assert i == Some(p);
  }
}
