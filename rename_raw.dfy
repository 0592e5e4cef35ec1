/** rename-raw-photos.py: every raw file of `0_RAW` is renamed to
    `YYYYMMDD_hhmm_NNNN` (date and minute the photo was taken, the last four
    characters of its old name) with its extension in lower case. The
    timestamp is read from exiv2's output, which is a parameter here: the
    function `exiv2` gives the output for a file's path. */
module RenameRaw {

  import opened Wrappers
  import opened Text
  import opened PosixPath

  const DateTimeOriginalKey: string := "Exif.Photo.DateTimeOriginal"

  /** The two literals of the pattern, in the lower-case form `LiteralAt`
      compares with: `"set " + DateTimeOriginalKey`, which the output must
      start with, and the optional type `Ascii`. */
  const KeywordFolded: string := "set exif.photo.datetimeoriginal"
  const AsciiFolded: string := "ascii"

  datatype Timestamp = Timestamp(year: string, month: string, day: string, hour: string, minute: string, second: string)

  datatype RenameError =
    | RawDirNotFound(dir: string)
    | NoFiles(dir: string)
    | NoCameraNumber(path: string)
    | NoTimestamp(path: string)
    | RenameFailed(source: string)

  // ---------------------------------------------------------------- the timestamp line

  /** The literal whose lower-case form is `folded` at position `i`,
      ignoring ASCII case (re.IGNORECASE), compared character by character. */
  predicate LiteralAt(s: string, i: nat, folded: string)
  {
    i + |folded| <= |s| && forall k :: 0 <= k < |folded| ==> LowerChar(s[i + k]) == folded[k]
  }

  /** Whitespace (`\s`) from `a` up to `b`. */
  predicate SpacesBetween(s: string, a: nat, b: nat)
  {
    a <= b <= |s| && forall k :: a <= k < b ==> IsSpace(s[k])
  }

  /** Groups of the right widths, all digits. */
  predicate WellFormed(t: Timestamp)
  {
    |t.year| == 4 && |t.month| == 2 && |t.day| == 2 && |t.hour| == 2 && |t.minute| == 2 && |t.second| == 2 &&
    AllDigits(t.year) && AllDigits(t.month) && AllDigits(t.day) &&
    AllDigits(t.hour) && AllDigits(t.minute) && AllDigits(t.second)
  }

  /** `\d{4}:\d{2}:\d{2} \d{2}:\d{2}:\d{2}` at position `c`, with its groups. */
  predicate DateTimeAt(s: string, c: nat, t: Timestamp)
  {
    c + 19 <= |s| &&
    t.year == s[c..c + 4] && s[c + 4] == ':' && t.month == s[c + 5..c + 7] && s[c + 7] == ':' &&
    t.day == s[c + 8..c + 10] && s[c + 10] == ' ' &&
    t.hour == s[c + 11..c + 13] && s[c + 13] == ':' && t.minute == s[c + 14..c + 16] && s[c + 16] == ':' &&
    t.second == s[c + 17..c + 19] && WellFormed(t)
  }

  /** `exiv2_datetime_re.match(output)` succeeds with groups `t`: from the
      start, the keyword, optional whitespace, an optional `Ascii`, at least
      one whitespace character, then the date and time; anything may follow. */
  ghost predicate TimestampMatch(output: string, t: Timestamp)
  {
    LiteralAt(output, 0, KeywordFolded) &&
    exists a: nat, b: nat, c: nat ::
      b < c && SpacesBetween(output, |KeywordFolded|, a) && (b == a || (b == a + 5 && LiteralAt(output, a, AsciiFolded))) &&
      SpacesBetween(output, b, c) && DateTimeAt(output, c, t)
  }

  /** The end of the whitespace run starting at `i`. */
  function SkipSpaces(s: string, i: nat): (r: nat)
    requires i <= |s|
    ensures SpacesBetween(s, i, r) && (r < |s| ==> !IsSpace(s[r]))
    decreases |s| - i
  {
    if i < |s| && IsSpace(s[i]) then SkipSpaces(s, i + 1) else i
  }

  lemma {:induction false} SkipSpacesUnique(s: string, i: nat, c: nat)
    requires SpacesBetween(s, i, c) && c < |s| && !IsSpace(s[c])
    ensures SkipSpaces(s, i) == c
    decreases c - i
  {
    if i < c { SkipSpacesUnique(s, i + 1, c); }
  }

  function ReadDateTime(s: string, c: nat): (r: Option<Timestamp>)
    ensures r.Some? ==> DateTimeAt(s, c, r.value) && WellFormed(r.value)
  {
    if c + 19 <= |s| && DateTimeAt(s, c, Timestamp(s[c..c + 4], s[c + 5..c + 7], s[c + 8..c + 10],
                                                   s[c + 11..c + 13], s[c + 14..c + 16], s[c + 17..c + 19]))
    then Some(Timestamp(s[c..c + 4], s[c + 5..c + 7], s[c + 8..c + 10], s[c + 11..c + 13], s[c + 14..c + 16],
                        s[c + 17..c + 19]))
    else None
  }

  /** The groups are fixed by where the date starts. */
  lemma ReadDateTimeComplete(s: string, c: nat, t: Timestamp)
    requires DateTimeAt(s, c, t)
    ensures ReadDateTime(s, c) == Some(t)
  {
  }

  /** A deterministic reading of the pattern: skip the whitespace after the
      keyword; take `Ascii` when whitespace follows it; the date starts after
      the next whitespace run. */
  function ParseTimestamp(output: string): (r: Option<Timestamp>)
    ensures r.Some? ==> WellFormed(r.value)
  {
    if !LiteralAt(output, 0, KeywordFolded) then None
    else
      var a := SkipSpaces(output, |KeywordFolded|);
      if LiteralAt(output, a, AsciiFolded) && a + 5 < |output| && IsSpace(output[a + 5]) then
        ReadDateTime(output, SkipSpaces(output, a + 5))
      else if a > |KeywordFolded| then ReadDateTime(output, a)
      else None
  }

  /** A character that reads as `a` in any case is no whitespace and no digit. */
  lemma AsciiStart(s: string, a: nat)
    requires LiteralAt(s, a, AsciiFolded)
    ensures !IsSpace(s[a]) && !IsDigit(s[a])
  {
    assert LowerChar(s[a + 0]) == AsciiFolded[0] == 'a';
  }

  /** What the reading finds, the pattern matches. */
  lemma ParseTimestampSound(output: string, t: Timestamp)
    requires ParseTimestamp(output) == Some(t)
    ensures TimestampMatch(output, t)
  {
    var K := |KeywordFolded|;
    var a := SkipSpaces(output, K);
    if LiteralAt(output, a, AsciiFolded) && a + 5 < |output| && IsSpace(output[a + 5]) {
      var c := SkipSpaces(output, a + 5);
      assert SpacesBetween(output, a + 5, c) && DateTimeAt(output, c, t);
    } else {
      assert SpacesBetween(output, K, K) && DateTimeAt(output, a, t);
    }
  }

  /** Where the pattern matches, the reading finds the same groups:
      backtracking adds nothing. */
  lemma ParseTimestampComplete(output: string, t: Timestamp, a: nat, b: nat, c: nat)
    requires LiteralAt(output, 0, KeywordFolded)
    requires b < c && SpacesBetween(output, |KeywordFolded|, a) && (b == a || (b == a + 5 && LiteralAt(output, a, AsciiFolded)))
    requires SpacesBetween(output, b, c) && DateTimeAt(output, c, t)
    ensures ParseTimestamp(output) == Some(t)
  {
    var K := |KeywordFolded|;
    assert output[c..c + 4][0] == output[c];
    assert IsDigit(output[c]) && !IsSpace(output[c]);
    var a0 := SkipSpaces(output, K);
    if b == a {
      assert SpacesBetween(output, K, c);
      SkipSpacesUnique(output, K, c);
      assert !LiteralAt(output, a0, AsciiFolded) by {
        if LiteralAt(output, a0, AsciiFolded) { AsciiStart(output, a0); }
      }
      assert ParseTimestamp(output) == ReadDateTime(output, c);
      ReadDateTimeComplete(output, c, t);
    } else {
      AsciiStart(output, a);
      SkipSpacesUnique(output, K, a);
      SkipSpacesUnique(output, a + 5, c);
      assert ParseTimestamp(output) == ReadDateTime(output, c);
      ReadDateTimeComplete(output, c, t);
    }
  }

  /** The reading is exact: it succeeds with `t` exactly when the pattern
      matches with groups `t`. */
  lemma ParseTimestampCorrect(output: string, t: Timestamp)
    ensures ParseTimestamp(output) == Some(t) <==> TimestampMatch(output, t)
  {
    if ParseTimestamp(output) == Some(t) {
      ParseTimestampSound(output, t);
    }
    if TimestampMatch(output, t) {
      var a: nat, b: nat, c: nat :| b < c && SpacesBetween(output, |KeywordFolded|, a) &&
        (b == a || (b == a + 5 && LiteralAt(output, a, AsciiFolded))) &&
        SpacesBetween(output, b, c) && DateTimeAt(output, c, t);
      ParseTimestampComplete(output, t, a, b, c);
    }
  }

  // ---------------------------------------------------------------- the new name

  /** `raw_file[-4:]`: the last four characters, or all of a shorter stem. */
  function CameraNumber(stem: string): (r: string)
    ensures |r| == if |stem| < 4 then |stem| else 4
    ensures EndsWith(stem, r)
  {
    if |stem| < 4 then stem else stem[|stem| - 4..]
  }

  /** The exiv2 command that prints the timestamp. */
  function TimestampCommand(rawDir: string, stem: string, ext: string): seq<string>
  {
    ["exiv2", "-PVk", "-K", DateTimeOriginalKey, Join(rawDir, stem + ext)]
  }

  /** `{year}{month}{day}_{hour}{minute}_{camera}` */
  function NewStem(t: Timestamp, camera: string): string
  {
    t.year + t.month + t.day + "_" + t.hour + t.minute + "_" + camera
  }

  /** Where each part of the timestamp sits in the new stem: eight digits of
      date, `_`, four digits of hour and minute, `_`, the camera number. */
  lemma NewStemLayout(t: Timestamp, camera: string)
    requires WellFormed(t)
    ensures var r := NewStem(t, camera);
      |r| == 14 + |camera| && r[..4] == t.year && r[4..6] == t.month && r[6..8] == t.day &&
      r[8] == '_' && r[9..11] == t.hour && r[11..13] == t.minute && r[13] == '_' && r[14..] == camera
  {
    var r := NewStem(t, camera);
    assert r[..4] == t.year && r[4..6] == t.month && r[6..8] == t.day;
    assert r[9..11] == t.hour && r[11..13] == t.minute && r[14..] == camera;
  }

  /** `construct_new_raw_filename`, given what exiv2 prints for the file:
      the new stem and the lower-cased extension. An empty stem fails before
      exiv2 runs; empty or unmatched output fails too. */
  function NewRawName(rawDir: string, stem: string, ext: string, output: string): (r: Result<(string, string), RenameError>)
    ensures r.Success? <==> stem != [] && ParseTimestamp(output).Some?
    ensures stem != [] && r.Failure? ==> r.error == NoTimestamp(Join(rawDir, stem + ext))
    ensures forall t :: ParseTimestamp(output) == Some(t) && stem != [] ==> r == Success((NewStem(t, CameraNumber(stem)), Lower(ext)))
  {
    var camera := CameraNumber(stem);
    if camera == [] then Failure(NoCameraNumber(rawDir + "/" + stem + ext))
    else if output == [] then Failure(NoTimestamp(Join(rawDir, stem + ext)))
    else
      var m := ParseTimestamp(output);
      if m.None? then Failure(NoTimestamp(Join(rawDir, stem + ext)))
      else
        Success((NewStem(m.value, camera), Lower(ext)))
  }

  /** An empty stem fails first, before exiv2 is asked. */
  lemma NoCameraNumberFirst(rawDir: string, stem: string, ext: string, output: string)
    ensures stem == [] ==> NewRawName(rawDir, stem, ext, output) == Failure(NoCameraNumber(rawDir + "/" + stem + ext))
  {
  }

  /** The new name of a file whose exiv2 output matches with groups `t`: the
      date, the hour and minute (seconds are dropped), and the camera number,
      which keeps its case; the name has only digits where the timestamp is. */
  lemma NewRawNameOfMatch(rawDir: string, stem: string, ext: string, output: string, t: Timestamp)
    requires stem != [] && TimestampMatch(output, t)
    ensures WellFormed(t)
    ensures NewRawName(rawDir, stem, ext, output) == Success((NewStem(t, CameraNumber(stem)), Lower(ext)))
  {
    ParseTimestampCorrect(output, t);
  }

  // ---------------------------------------------------------------- the listing

  /** A name `glob(os.path.join(raw_dir, "*.*"))` lists: it holds a dot and is
      not hidden. */
  predicate IsRawName(entry: string)
  {
    (exists k :: 0 <= k < |entry| && entry[k] == '.') && !StartsWith(entry, ".")
  }

  type RawFile = (string, string)

  function RawFilesIn(listing: seq<string>): (r: seq<RawFile>)
    ensures forall f :: f in r <==> exists k :: 0 <= k < |listing| && IsRawName(listing[k]) && f == (Stem(listing[k]), Suffix(listing[k]))
    decreases |listing|
  {
    if listing == [] then []
    else
      var rest := RawFilesIn(listing[1..]);
      assert forall k :: 1 <= k < |listing| ==> listing[1..][k - 1] == listing[k];
      if IsRawName(listing[0]) then [(Stem(listing[0]), Suffix(listing[0]))] + rest else rest
  }

  /** The key `sorted` uses: `f"{stem}.{suffix}"`. */
  function SortKey(f: RawFile): string
  {
    f.0 + "." + f.1
  }

  /** Python's string order: by code point, a prefix first. */
  predicate LessEq(a: string, b: string)
    decreases |a|
  {
    a == [] || (b != [] && (a[0] < b[0] || (a[0] == b[0] && LessEq(a[1..], b[1..]))))
  }

  lemma {:induction false} LessEqTotal(a: string, b: string)
    ensures LessEq(a, b) || LessEq(b, a)
    decreases |a|
  {
    if a != [] && b != [] && a[0] == b[0] { LessEqTotal(a[1..], b[1..]); }
  }

  lemma {:induction false} LessEqTransitive(a: string, b: string, c: string)
    requires LessEq(a, b) && LessEq(b, c)
    ensures LessEq(a, c)
    decreases |a|
  {
    if a != [] && b != [] && c != [] && a[0] == b[0] && b[0] == c[0] {
      LessEqTransitive(a[1..], b[1..], c[1..]);
    }
  }

  predicate Sorted(fs: seq<RawFile>)
  {
    forall i, j :: 0 <= i < j < |fs| ==> LessEq(SortKey(fs[i]), SortKey(fs[j]))
  }

  /** `x` goes before the first element whose key is not smaller, so that
      of equal keys the earlier comes first (Python's sort is stable). */
  function Insert(x: RawFile, fs: seq<RawFile>): (r: seq<RawFile>)
    ensures multiset(r) == multiset(fs) + multiset{x}
    ensures |r| == |fs| + 1
  {
    if fs == [] then [x]
    else if LessEq(SortKey(x), SortKey(fs[0])) then [x] + fs
    else
      assert fs == [fs[0]] + fs[1..];
      [fs[0]] + Insert(x, fs[1..])
  }

  lemma {:induction false} InsertSorted(x: RawFile, fs: seq<RawFile>)
    requires Sorted(fs)
    ensures Sorted(Insert(x, fs))
    decreases |fs|
  {
    if fs != [] && !LessEq(SortKey(x), SortKey(fs[0])) {
      LessEqTotal(SortKey(x), SortKey(fs[0]));
      assert Sorted(fs[1..]) by {
        forall i, j | 0 <= i < j < |fs[1..]| ensures LessEq(SortKey(fs[1..][i]), SortKey(fs[1..][j])) {
          assert fs[1..][i] == fs[i + 1] && fs[1..][j] == fs[j + 1];
        }
      }
      InsertSorted(x, fs[1..]);
      var r := Insert(x, fs);
      var tail := Insert(x, fs[1..]);
      forall j | 0 < j < |r| ensures LessEq(SortKey(fs[0]), SortKey(r[j])) {
        assert r[j] == tail[j - 1];
        assert r[j] in multiset(fs[1..]) + multiset{x};
        if r[j] != x {
          assert r[j] in fs[1..];
          var k :| 0 <= k < |fs[1..]| && fs[1..][k] == r[j];
          assert fs[k + 1] == r[j];
        }
      }
    } else if fs != [] {
      var r := Insert(x, fs);
      forall i, j | 0 <= i < j < |r| ensures LessEq(SortKey(r[i]), SortKey(r[j])) {
        if i == 0 {
          assert r[j] == fs[j - 1];
          if j > 1 { LessEqTransitive(SortKey(x), SortKey(fs[0]), SortKey(fs[j - 1])); }
        } else {
          assert r[i] == fs[i - 1] && r[j] == fs[j - 1];
        }
      }
    }
  }

  /** `sorted(files, key=...)`, as an insertion sort. */
  function SortRawFiles(fs: seq<RawFile>): (r: seq<RawFile>)
    ensures multiset(r) == multiset(fs)
    ensures |r| == |fs|
  {
    if fs == [] then []
    else
      assert fs == [fs[0]] + fs[1..];
      Insert(fs[0], SortRawFiles(fs[1..]))
  }

  lemma {:induction false} SortRawFilesSorted(fs: seq<RawFile>)
    ensures Sorted(SortRawFiles(fs))
    decreases |fs|
  {
    if fs != [] {
      SortRawFilesSorted(fs[1..]);
      InsertSorted(fs[0], SortRawFiles(fs[1..]));
    }
  }

  /** `get_raw_files`: the (stem, suffix) pairs of the listed raw files,
      sorted by key; an empty listing is an error. */
  function GetRawFiles(rawDir: string, listing: seq<string>): (r: Result<seq<RawFile>, RenameError>)
    ensures r.Failure? <==> forall k :: 0 <= k < |listing| ==> !IsRawName(listing[k])
    ensures r.Failure? ==> r.error == NoFiles(rawDir)
    ensures r.Success? ==> multiset(r.value) == multiset(RawFilesIn(listing)) && r.value != []
  {
    var files := RawFilesIn(listing);
    assert forall k :: 0 <= k < |listing| && IsRawName(listing[k]) ==> (Stem(listing[k]), Suffix(listing[k])) in files;
    if files == [] then Failure(NoFiles(rawDir))
    else
      assert files[0] in files;
      Success(SortRawFiles(files))
  }

  /** The listing comes out sorted, and every file's pair is the name cut in
      two. */
  lemma GetRawFilesSorted(rawDir: string, listing: seq<string>)
    requires GetRawFiles(rawDir, listing).Success?
    ensures Sorted(GetRawFiles(rawDir, listing).value)
    ensures forall f :: f in GetRawFiles(rawDir, listing).value ==> f.0 + f.1 in listing && IsRawName(f.0 + f.1)
  {
    SortRawFilesSorted(RawFilesIn(listing));
    forall f | f in GetRawFiles(rawDir, listing).value ensures f.0 + f.1 in listing && IsRawName(f.0 + f.1) {
      assert f in multiset(RawFilesIn(listing));
      assert f in RawFilesIn(listing);
      var k :| 0 <= k < |listing| && IsRawName(listing[k]) && f == (Stem(listing[k]), Suffix(listing[k]));
      StemSuffix(listing[k]);
    }
  }

  // ---------------------------------------------------------------- renaming

  /** The raw folder: each name maps to the file it names. */
  type Folder = map<string, nat>

  /** `os.rename` inside the folder: fails when the source is missing;
      replaces an existing destination. */
  function AfterRename(files: Folder, src: string, dst: string): (r: Option<Folder>)
    ensures r.Some? <==> src in files
    ensures r.Some? ==> dst in r.value && r.value[dst] == files[src]
    ensures r.Some? ==> forall n :: n != src && n != dst ==> (n in r.value <==> n in files) && (n in files ==> r.value[n] == files[n])
    ensures r.Some? && src != dst ==> src !in r.value
  {
    if src !in files then None else Some((files - {src})[dst := files[src]])
  }

  datatype Run = Run(after: Folder, log: seq<(string, string)>, error: Option<RenameError>)

  function Prepend(log: seq<(string, string)>, r: Run): Run
  {
    Run(r.after, log + r.log, r.error)
  }

  lemma PrependTwice(a: seq<(string, string)>, b: seq<(string, string)>, r: Run)
    ensures Prepend(a, Prepend(b, r)) == Prepend(a + b, r)
  {
    assert a + (b + r.log) == (a + b) + r.log;
  }

  type Naming = RawFile -> Result<(string, string), RenameError>

  /** `construct_new_raw_filename` for every file of `rawDir`, with the
      timestamp exiv2 prints for it. */
  function Namer(rawDir: string, exiv2: string -> string): Naming
  {
    (f: RawFile) => NewRawName(rawDir, f.0, f.1, exiv2(Join(rawDir, f.0 + f.1)))
  }

  /** One pass of the loop of `rename_all_raw_files`: build the new name,
      print `old -> new`, rename. */
  function RenameOne(files: Folder, rawDir: string, f: RawFile, naming: Naming): (r: Run)
    ensures |r.log| <= 1
    ensures r.log != [] ==> r.log[0].0 == f.0 + f.1
    ensures r.log != [] ==> naming(f).Success? && r.log[0].1 == naming(f).value.0 + naming(f).value.1
    ensures r.error.None? ==> |r.log| == 1 && AfterRename(files, r.log[0].0, r.log[0].1) == Some(r.after)
    ensures r.error.Some? ==> r.after == files
  {
    var n := naming(f);
    if n.Failure? then Run(files, [], Some(n.error))
    else
      var src := f.0 + f.1;
      var dst := n.value.0 + n.value.1;
      var next := AfterRename(files, src, dst);
      if next.None? then Run(files, [(src, dst)], Some(RenameFailed(Join(rawDir, src))))
      else Run(next.value, [(src, dst)], None)
  }

  function RenameEach(files: Folder, rawDir: string, fs: seq<RawFile>, naming: Naming): (r: Run)
    ensures |r.log| <= |fs|
    decreases |fs|
  {
    if fs == [] then Run(files, [], None)
    else
      var first := RenameOne(files, rawDir, fs[0], naming);
      if first.error.Some? then first
      else Prepend(first.log, RenameEach(first.after, rawDir, fs[1..], naming))
  }

  /** `rename_all_raw_files`: the folder must exist; its listing is sorted
      and every file renamed in that order. */
  function RenameAllSpec(files: Folder, rawDirExists: bool, rawDir: string, listing: seq<string>,
                         exiv2: string -> string): (r: Run)
    ensures !rawDirExists ==> r == Run(files, [], Some(RawDirNotFound(rawDir)))
    ensures rawDirExists && (forall k :: 0 <= k < |listing| ==> !IsRawName(listing[k])) ==>
      r == Run(files, [], Some(NoFiles(rawDir)))
  {
    if !rawDirExists then Run(files, [], Some(RawDirNotFound(rawDir)))
    else
      var fs := GetRawFiles(rawDir, listing);
      if fs.Failure? then Run(files, [], Some(fs.error))
      else RenameEach(files, rawDir, fs.value, Namer(rawDir, exiv2))
  }

  /** The live raw folder. */
  class RawFolder {
    var files: Folder

    constructor(files: Folder)
      ensures this.files == files
    {
      this.files := files;
    }

    method Rename(src: string, dst: string) returns (ok: bool)
      modifies this
      ensures ok == AfterRename(old(files), src, dst).Some?
      ensures files == if ok then AfterRename(old(files), src, dst).value else old(files)
    {
      if src !in files {
        return false;
      }
      files := (files - {src})[dst := files[src]];
      ok := true;
    }

    method RenameStep(rawDir: string, f: RawFile, naming: Naming)
      returns (log: seq<(string, string)>, error: Option<RenameError>)
      modifies this
      ensures Run(files, log, error) == RenameOne(old(files), rawDir, f, naming)
    {
      var n := naming(f);
      if n.Failure? {
        return [], Some(n.error);
      }
      var src := f.0 + f.1;
      var dst := n.value.0 + n.value.1;
      log := [(src, dst)];
      var ok := Rename(src, dst);
      error := if ok then None else Some(RenameFailed(Join(rawDir, src)));
    }

    /** The loop of `rename_all_raw_files`. */
    method RenameEachRawFile(rawDir: string, fs: seq<RawFile>, naming: Naming)
      returns (log: seq<(string, string)>, error: Option<RenameError>)
      modifies this
      ensures Run(files, log, error) == RenameEach(old(files), rawDir, fs, naming)
    {
      ghost var s0 := files;
      log, error := [], None;
      var i := 0;
      while i < |fs|
        invariant 0 <= i <= |fs| && error.None?
        invariant RenameEach(s0, rawDir, fs, naming) == Prepend(log, RenameEach(files, rawDir, fs[i..], naming))
      {
        ghost var before := files;
        assert fs[i..][1..] == fs[i + 1..];
        var more;
        more, error := RenameStep(rawDir, fs[i], naming);
        assert RenameEach(before, rawDir, fs[i..], naming) ==
          if error.Some? then Run(files, more, error) else Prepend(more, RenameEach(files, rawDir, fs[i + 1..], naming));
        PrependTwice(log, more, RenameEach(files, rawDir, fs[i + 1..], naming));
        log := log + more;
        if error.Some? { return; }
        i := i + 1;
      }
    }

    method RenameAllRawFiles(rawDirExists: bool, rawDir: string, listing: seq<string>, exiv2: string -> string)
      returns (log: seq<(string, string)>, error: Option<RenameError>)
      modifies this
      ensures Run(files, log, error) == RenameAllSpec(old(files), rawDirExists, rawDir, listing, exiv2)
    {
      if !rawDirExists {
        return [], Some(RawDirNotFound(rawDir));
      }
      var fs := GetRawFiles(rawDir, listing);
      if fs.Failure? {
        return [], Some(fs.error);
      }
      log, error := RenameEachRawFile(rawDir, fs.value, Namer(rawDir, exiv2));
    }
  }
}
