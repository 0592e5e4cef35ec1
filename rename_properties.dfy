/** What renaming the raw folder does to it: which names it touches, in what
    order, and where every file ends up. */
module RenameProperties {

  import opened Wrappers
  import opened Text
  import opened PosixPath
  import opened RenameRaw

  /** `n` names the same file before and after, or is absent from both. */
  predicate Keeps(files: Folder, after: Folder, n: string)
  {
    (n in after <==> n in files) && (n in files ==> after[n] == files[n])
  }

  /** A name that is neither the old nor the new name of a logged rename is
      left alone, even when the run stops on an error. */
  lemma {:induction false} RenameEachFrame(files: Folder, rawDir: string, fs: seq<RawFile>, naming: Naming, n: string)
    ensures var r := RenameEach(files, rawDir, fs, naming);
      (forall k :: 0 <= k < |r.log| ==> r.log[k].0 != n && r.log[k].1 != n) ==> Keeps(files, r.after, n)
    decreases |fs|
  {
    if fs != [] {
      var t := RenameOne(files, rawDir, fs[0], naming);
      if t.error.None? {
        var rest := RenameEach(t.after, rawDir, fs[1..], naming);
        RenameEachFrame(t.after, rawDir, fs[1..], naming, n);
        var r := RenameEach(files, rawDir, fs, naming);
        assert r.log == t.log + rest.log;
        if forall k :: 0 <= k < |r.log| ==> r.log[k].0 != n && r.log[k].1 != n {
          assert r.log[0] == t.log[0];
          assert forall k :: 0 <= k < |rest.log| ==> rest.log[k] == r.log[k + 1];
        }
      }
    }
  }

  /** The log follows the sorted listing: entry `k` is file `k`; a run
      without error logs every file. */
  lemma {:induction false} RenameEachOrder(files: Folder, rawDir: string, fs: seq<RawFile>, naming: Naming)
    ensures var r := RenameEach(files, rawDir, fs, naming);
      (r.error.None? ==> |r.log| == |fs|) && forall k :: 0 <= k < |r.log| ==> r.log[k].0 == fs[k].0 + fs[k].1
    decreases |fs|
  {
    if fs != [] {
      var t := RenameOne(files, rawDir, fs[0], naming);
      if t.error.None? {
        RenameEachOrder(t.after, rawDir, fs[1..], naming);
        var rest := RenameEach(t.after, rawDir, fs[1..], naming);
        var r := RenameEach(files, rawDir, fs, naming);
        assert r.log == t.log + rest.log;
        forall k | 1 <= k < |r.log| ensures r.log[k] == rest.log[k - 1] && fs[k] == fs[1..][k - 1] { }
      }
    }
  }

  /** The new name logged for file `k` is the one `naming` gives it. */
  lemma {:induction false} RenameEachNames(files: Folder, rawDir: string, fs: seq<RawFile>, naming: Naming)
    ensures var r := RenameEach(files, rawDir, fs, naming);
      forall k :: 0 <= k < |r.log| ==> naming(fs[k]).Success? && r.log[k].1 == naming(fs[k]).value.0 + naming(fs[k]).value.1
    decreases |fs|
  {
    if fs != [] {
      var t := RenameOne(files, rawDir, fs[0], naming);
      if t.error.None? {
        RenameEachNames(t.after, rawDir, fs[1..], naming);
        var rest := RenameEach(t.after, rawDir, fs[1..], naming);
        var r := RenameEach(files, rawDir, fs, naming);
        assert r.log == t.log + rest.log;
        forall k | 1 <= k < |r.log| ensures r.log[k] == rest.log[k - 1] && fs[k] == fs[1..][k - 1] { }
      }
    }
  }

  /** Without collisions (no new name is the old or new name of a later
      file) a run without error moves every file to its new name intact. */
  lemma {:induction false} RenameEachMoves(files: Folder, rawDir: string, fs: seq<RawFile>, naming: Naming)
    requires RenameEach(files, rawDir, fs, naming).error.None?
    requires var log := RenameEach(files, rawDir, fs, naming).log;
      forall i, j :: 0 <= i < j < |log| ==> log[i].1 != log[j].0 && log[i].1 != log[j].1
    ensures var r := RenameEach(files, rawDir, fs, naming);
      forall k :: 0 <= k < |r.log| ==>
        r.log[k].0 in files && r.log[k].1 in r.after && r.after[r.log[k].1] == files[r.log[k].0]
    decreases |fs|
  {
    if fs != [] {
      var t := RenameOne(files, rawDir, fs[0], naming);
      var rest := RenameEach(t.after, rawDir, fs[1..], naming);
      var r := RenameEach(files, rawDir, fs, naming);
      assert r.log == t.log + rest.log;
      var s0, d0 := t.log[0].0, t.log[0].1;
      assert rest.log == r.log[1..];
      RenameEachMoves(t.after, rawDir, fs[1..], naming);
      RenameEachFrame(t.after, rawDir, fs[1..], naming, d0);
      forall k | 0 <= k < |r.log|
        ensures r.log[k].0 in files && r.log[k].1 in r.after && r.after[r.log[k].1] == files[r.log[k].0]
      {
        if k > 0 {
          var sk := rest.log[k - 1].0;
          assert r.log[k] == rest.log[k - 1];
          assert sk != d0 && sk in t.after;
          assert sk != s0;
        }
      }
    }
  }

  /** Every listed file has a non-empty stem, so `NoCameraNumber` never
      arises from a listing. */
  lemma RawFilesHaveStems(rawDir: string, listing: seq<string>)
    requires GetRawFiles(rawDir, listing).Success?
    ensures forall f :: f in GetRawFiles(rawDir, listing).value ==> f.0 != []
  {
    forall f | f in GetRawFiles(rawDir, listing).value ensures f.0 != [] {
      assert f in multiset(RawFilesIn(listing));
      assert f in RawFilesIn(listing);
      var k :| 0 <= k < |listing| && IsRawName(listing[k]) && f == (Stem(listing[k]), Suffix(listing[k]));
      var name := listing[k];
      var j :| 0 <= j < |name| && name[j] == '.';
      assert |Stem(name)| == SuffixStart(name);
    }
  }

  /** Two raw files from different cameras whose stems end in the same four
      characters and that were taken in the same minute get the same new
      name. */
  lemma SameMinuteSameName(rawDir: string, stem0: string, stem1: string, ext: string, out0: string, out1: string)
    requires stem0 != [] && stem1 != [] && CameraNumber(stem0) == CameraNumber(stem1)
    requires ParseTimestamp(out0).Some? && ParseTimestamp(out1).Some?
    requires var t0, t1 := ParseTimestamp(out0).value, ParseTimestamp(out1).value;
      t0.year == t1.year && t0.month == t1.month && t0.day == t1.day && t0.hour == t1.hour && t0.minute == t1.minute
    ensures NewRawName(rawDir, stem0, ext, out0) == NewRawName(rawDir, stem1, ext, out1)
  {
    var t0, t1 := ParseTimestamp(out0).value, ParseTimestamp(out1).value;
    assert NewStem(t0, CameraNumber(stem0)) == NewStem(t1, CameraNumber(stem1));
  }

  /** `os.rename` replaces an existing file: when two files get the same new
      name, the second rename overwrites the first, and the first file's
      contents are gone from the folder. */
  lemma CollisionOverwrites(files: Folder, rawDir: string, f0: RawFile, f1: RawFile, naming: Naming, d: string)
    requires f0.0 + f0.1 != f1.0 + f1.1 && f0.0 + f0.1 in files && f1.0 + f1.1 in files
    requires naming(f0).Success? && naming(f0).value.0 + naming(f0).value.1 == d
    requires naming(f1).Success? && naming(f1).value.0 + naming(f1).value.1 == d
    requires d != f0.0 + f0.1 && d != f1.0 + f1.1
    ensures var r := RenameEach(files, rawDir, [f0, f1], naming);
      r.error.None? && r.after == (files - {f0.0 + f0.1, f1.0 + f1.1})[d := files[f1.0 + f1.1]]
    ensures var s0 := f0.0 + f0.1;
      (forall n :: n in files && n != s0 ==> files[n] != files[s0]) ==>
      files[s0] !in RenameEach(files, rawDir, [f0, f1], naming).after.Values
  {
    var s0, s1 := f0.0 + f0.1, f1.0 + f1.1;
    var t := RenameOne(files, rawDir, f0, naming);
    assert t.after == (files - {s0})[d := files[s0]];
    assert [f0, f1][1..] == [f1];
    var u := RenameOne(t.after, rawDir, f1, naming);
    assert u.after == (t.after - {s1})[d := files[s1]];
    assert [f1][1..] == [];
    assert RenameEach(t.after, rawDir, [f1], naming) == Prepend(u.log, RenameEach(u.after, rawDir, [], naming));
    assert RenameEach(files, rawDir, [f0, f1], naming) == Prepend(t.log, RenameEach(t.after, rawDir, [f1], naming));
    var after := RenameEach(files, rawDir, [f0, f1], naming).after;
    assert after == u.after;
    assert after == (files - {s0, s1})[d := files[s1]];
  }

  /** A whole run renames the listed raw files one by one in the order of
      their sort keys, stopping at the first error. */
  lemma RenameAllOrder(files: Folder, rawDir: string, listing: seq<string>, exiv2: string -> string)
    requires GetRawFiles(rawDir, listing).Success?
    ensures var r := RenameAllSpec(files, true, rawDir, listing, exiv2);
      exists fs: seq<RawFile> :: Sorted(fs) && multiset(fs) == multiset(RawFilesIn(listing)) &&
        (r.error.None? ==> |r.log| == |fs|) && |r.log| <= |fs| &&
        forall k :: 0 <= k < |r.log| ==> r.log[k].0 == fs[k].0 + fs[k].1
  {
    var fs := GetRawFiles(rawDir, listing).value;
    GetRawFilesSorted(rawDir, listing);
    RenameEachOrder(files, rawDir, fs, Namer(rawDir, exiv2));
  }
}
