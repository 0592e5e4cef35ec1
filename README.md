# photo-scripts in Dafny

A model of the three scripts of the photo-scripts repository, with proofs
about the model.

- **Library cleanup** (`cleanup-photo-library.py`). Project discovery
  (`find_projects`), the dot-file sweep (`remove_dot_files`), the edit sweep
  (`remove_edit_files`), hard-linking of select files to their raw originals
  (`hardlink_select_files`) and the per-project and per-library loops. The
  file system is a `Volume` class whose state is a snapshot: path → entry
  kind, listing order, inode → bytes. Each operation is a function from a
  snapshot to a `Step` (the new snapshot, the lines printed, the exception
  that ended the run). It is also a method on the `Volume` that is proved
  to do what the function says. The MD5 digest is a function parameter
  `hash` over the bytes, and the hard-link probe's answer is a boolean.
  A dry run is proved to name the same set of paths as a real run that
  completes, for a project and for a whole library.
- **Export planning** (`process-photos-for-export.py`). The size table,
  `pluralize`, the JSON mapping of override rules, `rule_match`,
  `append_metadata_overrides`, the export and metadata-source names, the
  `magick` and `exiv2` argument vectors, the metadata-source fallback,
  `copy_metadata` with the three exiv2 runs as inputs, and
  `get_edited_files`.
- **Raw renamer** (`rename-raw-photos.py`). The `exiv2_datetime_re` line
  format as a deterministic parser proved equivalent to the pattern, the new
  name, the sorted raw listing, and the rename loop over a `RawFolder`
  class whose state is a map from names to files.

Modules:

| module | file | what it holds |
|---|---|---|
| `Wrappers` | wrappers.dfy | `Option`, `Result` |
| `Text` | text.dfy | prefixes, ASCII case, `str.strip`, `str.splitlines`, decimal formatting |
| `PosixPath` | posix_path.dfy | `os.path.join`, `PurePath.stem` and `suffix` |
| `FileSystem` | file_system.dfy | snapshots, `unlink`, `rmtree`, `link`, the `Volume` class |
| `ProjectLocator` | project_locator.dfy | `find_projects` over a directory tree |
| `Cleanup` | cleanup.dfy | the sweeps, hard-linking and orchestration, as functions and methods |
| `SweepProperties` | sweep_properties.dfy | properties of the two sweeps |
| `LinkProperties` | link_properties.dfy | properties of hard-linking |
| `RunProperties` | runs_properties.dfy | properties of a project's and the library's run |
| `DryRunProperties` | dry_run_properties.dfy | what a dry run tells about the real run: the same paths, the stage order, and where the lines differ |
| `ExifOverrides` | exif_overrides.dfy | rule JSON mapping, rule matching, override directives |
| `Export` | export.dfy | sizes, names, command lines, metadata source, `copy_metadata` |
| `RenameRaw` | rename_raw.dfy | timestamp parsing, new names, the raw listing, the rename loop |
| `RenameProperties` | rename_properties.dfy | properties of the rename loop |

What the code does, and so what the model does:
- The scripts set no permissions.
- The first failing `unlink`, `rmtree`, `open` or `link` ends the whole run
  (`Failure` in a `Step`).
- The select is unlinked and then linked (cleanup-photo-library.py:144-145).
- Projects are processed one after another.

## Model

| member | source | states |
|---|---|---|
| Text.StartsWith | cleanup-photo-library.py:128 | definition, no contract: `str.startswith`, as in `x.name.startswith(".")` |
| Text.RemoveSuffix | process-photos-for-export.py:326 | one trailing copy of the suffix is removed when present; otherwise the string is unchanged |
| Text.Lower | rename-raw-photos.py:141 | same length; every character is lower-cased (ASCII) |
| Text.IsSpace | process-photos-for-export.py:404 | definition, no contract: the characters `str.isspace` accepts, which `str.strip` removes and the `\s` class of `re` matches (rename-raw-photos.py:65) |
| Text.IsLineBoundary | process-photos-for-export.py:404 | definition, no contract: the characters at which `str.splitlines` ends a line |
| Text.IsDigit | rename-raw-photos.py:65 | definition, no contract: the ASCII digits `\d` matches |
| Text.StripLeft | process-photos-for-export.py:404 | drops exactly the leading run of whitespace |
| Text.StripRight | process-photos-for-export.py:404 | drops exactly the trailing run of whitespace |
| Text.Strip | process-photos-for-export.py:404 | the result is the input with a leading and a trailing run of whitespace cut off, and no whitespace is left at either end |
| Text.SplitLines | process-photos-for-export.py:404 | no line holds a line boundary; the empty text and only it gives no lines (the round trip is SplitLinesRoundTrip) |
| Text.JoinLines | process-photos-for-export.py:407 | definition, no contract |
| Text.SplitLinesRoundTrip | process-photos-for-export.py:404 | the lines, each followed by the break that ended it, give back the text; one break per line |
| Text.BreaksAreBoundaries | process-photos-for-export.py:404 | every break is a line boundary (`\r\n` as one), except an empty one after an unterminated last line |
| Text.NatToDecimal | process-photos-for-export.py:355-357 | `f"{n}"` is non-empty, all digits, and has no leading zero |
| Text.NatToDecimalRoundTrip | process-photos-for-export.py:355-357 | reading the decimal form back gives the number |
| PosixPath.Join | process-photos-for-export.py:328-331 | `os.path.join`: ends with the name, starts with the directory, and has one `/` between them when needed |
| PosixPath.LastIndexOf | rename-raw-photos.py:86 | the position of the last occurrence of the character, or none |
| PosixPath.SuffixStart | rename-raw-photos.py:86 | a cut falls on a dot that is neither the first nor the last character, with no dot after it |
| PosixPath.Suffix | rename-raw-photos.py:86 | empty, or a dot followed by no further dot, at the end of the name |
| PosixPath.Stem | rename-raw-photos.py:86 | `PurePath.stem`: a prefix of the name, the part before the suffix (the stem of each `.tif` at process-photos-for-export.py:317 too) |
| PosixPath.StemSuffix | rename-raw-photos.py:86 | stem and suffix together give back the name; a suffix implies a non-empty stem |
| PosixPath.StemOfExtension | process-photos-for-export.py:316-317 | a non-hidden `X.tif` has suffix `.tif` and stem `X` |
| FileSystem.FileInode | cleanup-photo-library.py:134-135 | definition, no contract: the inode a path names once symbolic links are followed, as `os.path.samefile` and `os.link` (145) follow them; none for a directory, a directory link or a dangling link |
| FileSystem.IsDir | cleanup-photo-library.py:87 | definition, no contract: `os.path.isdir` and `DirEntry.is_dir()`, true for a directory or a link to one (also lines 64, 93, 123, 230) |
| FileSystem.IsFile | cleanup-photo-library.py:89 | definition, no contract: `DirEntry.is_file()`, true for a file or a link to one (also line 127) |
| FileSystem.Exists | cleanup-photo-library.py:134 | definition, no contract: `os.path.exists`, false for a dangling link |
| FileSystem.AfterUnlink | cleanup-photo-library.py:82 | `Path.unlink` succeeds exactly on an existing non-directory and removes only that entry |
| FileSystem.AfterRemoveTree | cleanup-photo-library.py:96 | `shutil.rmtree` succeeds exactly on a real directory and removes it with everything below it |
| FileSystem.AfterLink | cleanup-photo-library.py:145 | `os.link` succeeds exactly when the source is a file and the destination is free in an existing directory; it adds the destination naming the source's inode |
| FileSystem.Children | cleanup-photo-library.py:88 | definition, no contract: `os.scandir` of a folder, its immediate entries in listing order (also lines 64 and 126) |
| FileSystem.ChildrenIn | cleanup-photo-library.py:88 | `os.scandir`: exactly the immediate entries, kept distinct |
| FileSystem.ChildrenAreSiblings | cleanup-photo-library.py:88 | no entry of a directory listing is a prefix of another |
| FileSystem.UnlinkKeepsValid | cleanup-photo-library.py:82 | unlinking keeps the snapshot consistent |
| FileSystem.RemoveTreeKeepsValid | cleanup-photo-library.py:96 | removing a tree keeps the snapshot consistent |
| FileSystem.LinkKeepsValid | cleanup-photo-library.py:145 | linking keeps the snapshot consistent |
| FileSystem.Volume.Unlink | cleanup-photo-library.py:82 | the volume's new state is `AfterUnlink` of the old one on success and unchanged on failure |
| FileSystem.Volume.RemoveTree | cleanup-photo-library.py:96 | the same for `AfterRemoveTree` |
| FileSystem.Volume.Link | cleanup-photo-library.py:145 | the same for `AfterLink` |
| ProjectLocator.IsStageName | cleanup-photo-library.py:66-68 | definition, no contract: the name is `0_RAW`, `1_EDIT` or `2_EXPORT` |
| ProjectLocator.HasStageChild | cleanup-photo-library.py:65-69 | definition, no contract: the `any(...)` test, some subdirectory has a stage name |
| ProjectLocator.FindProjects | cleanup-photo-library.py:62-75 | a folder with a stage child gives itself alone; otherwise it is not among the results, which all lie at or below it (exactness is FindProjectsExact) |
| ProjectLocator.FindInSubdirs | cleanup-photo-library.py:73-74 | the results of the subdirectory loop lie strictly below the folder; no subdirectories give none |
| ProjectLocator.ResultsBelow | cleanup-photo-library.py:62-75 | every result lies at or below the starting path |
| ProjectLocator.ResultsBelowAll | cleanup-photo-library.py:73-74 | every result of the subdirectory loop lies strictly below the path, under one of the subdirectories |
| ProjectLocator.FindProjectsExact | cleanup-photo-library.py:62-75 | a path is returned iff it leads to a directory with a stage child and no directory passed on the way has one (both directions) |
| ProjectLocator.FindInSubdirsExact | cleanup-photo-library.py:73-74 | the subdirectory loop returns exactly the top-most projects of the subdirectories |
| ProjectLocator.DescendTop | cleanup-photo-library.py:72-74 | below a directory without a stage child, a top-most project is one of some subdirectory |
| ProjectLocator.OneLevelDown | cleanup-photo-library.py:74 | helper: lying below `path/x` is lying below `path` with `x` next |
| ProjectLocator.TopProjectHasStageChild | cleanup-photo-library.py:65-71 | a top-most project path leads to a directory with a `0_RAW`, `1_EDIT` or `2_EXPORT` child |
| ProjectLocator.ProjectsHaveStageChild | cleanup-photo-library.py:65-71 | every returned directory has a stage-named child |
| ProjectLocator.ProjectsAntichain | cleanup-photo-library.py:65-74 | when sibling names are distinct, no returned path is an ancestor of, or equal to, another |
| ProjectLocator.SubdirProjectsAntichain | cleanup-photo-library.py:73-74 | the same for the subdirectory loop |
| ProjectLocator.Separated | cleanup-photo-library.py:73-74 | helper: results below different siblings are not prefixes of one another |
| Cleanup.IsDotFile | cleanup-photo-library.py:79 | definition, no contract: strictly below the project, named `._…`, reached through no hidden directory, as the recursive glob matches |
| Cleanup.DotFilesIn | cleanup-photo-library.py:79 | exactly the listed paths the recursive `._*` glob matches |
| Cleanup.DotFiles | cleanup-photo-library.py:79 | exactly the entries below the project named `._…` and reached through no hidden directory (a directory link has no contents here; see Left out) |
| Cleanup.Removings | cleanup-photo-library.py:80 | one "Removing" line per path, in order |
| Cleanup.UnlinkEach | cleanup-photo-library.py:79-82 | one line per path when it completes; only a real run can fail, and then with an unlink error; contents never change |
| Cleanup.RemoveDotFilesSpec | cleanup-photo-library.py:78-82 | one line per dot file when it completes; a failure is an unlink error of a real run |
| Cleanup.UnlinkOne | cleanup-photo-library.py:80-82 | one "Removing" line; a dry run changes nothing; contents never change |
| Cleanup.ClearOne | cleanup-photo-library.py:88-96 | a dry run changes nothing and cannot fail; contents never change |
| Cleanup.EditDir | cleanup-photo-library.py:86 | definition, no contract: `os.path.join(project_path, "1_EDIT")` |
| Cleanup.ClearEach | cleanup-photo-library.py:88-96 | the same for the whole loop |
| Cleanup.RemoveEditFilesSpec | cleanup-photo-library.py:85-96 | no `1_EDIT` directory: nothing; a dry run changes nothing and completes; a failure is an unlink or rmtree error (a linked `1_EDIT` has no contents here; see Left out) |
| Cleanup.SelectsIn | cleanup-photo-library.py:124-129 | exactly the listed paths that are select files |
| Cleanup.IsSelect | cleanup-photo-library.py:124-129 | a select is a file that is no directory and is not its own raw candidate |
| Cleanup.RawDir | cleanup-photo-library.py:122 | definition, no contract: `os.path.join(project_path, "0_RAW")` |
| Cleanup.RawCandidate | cleanup-photo-library.py:133 | definition, no contract |
| Cleanup.SelectFiles | cleanup-photo-library.py:123-129 | the selects are the regular, non-hidden immediate entries of the project, and there are none unless `0_RAW` is a directory |
| Cleanup.Decide | cleanup-photo-library.py:133-149 | link or warn only when the raw candidate exists, both are files and are not the same file; a warning carries two different digests; an unreadable file is the select or its candidate (a linked `0_RAW` has no contents here; see Left out) |
| Cleanup.LinkOne | cleanup-photo-library.py:131-149 | at most one line; only a real run of a select to link can fail other than by reading |
| Cleanup.LinkEach | cleanup-photo-library.py:130-149 | at most one line per select; contents never change |
| Cleanup.HardlinkSelectsSpec | cleanup-photo-library.py:121-149 | no `0_RAW` directory: nothing; at most one line per select (a linked `0_RAW` has no contents here; see Left out) |
| Cleanup.Relink | cleanup-photo-library.py:144-145 | on success the raw candidate is a file, and the select's entry now names the raw file's inode and nothing else changed |
| Cleanup.CleanupProjectSpec | cleanup-photo-library.py:152-161 | the first line announces the project; contents never change |
| Cleanup.CleanupProjects | cleanup-photo-library.py:186-193 | no projects: nothing; a completed loop prints at least one line per project |
| Cleanup.CleanupLibrary | cleanup-photo-library.py:230-231 | a library that is not a directory fails before anything happens; contents never change |
| Cleanup.CleanupProjectsFrom | cleanup-photo-library.py:186-193 | the loop over projects is one project's run followed by the rest, or that run's failure |
| Cleanup.UnlinkStep | cleanup-photo-library.py:79-82 | one pass of the dot-file loop does what `UnlinkOne` says |
| Cleanup.RemoveDotFiles | cleanup-photo-library.py:78-82 | `remove_dot_files` on the volume does what `RemoveDotFilesSpec` says |
| Cleanup.ClearStep | cleanup-photo-library.py:88-96 | one pass of the edit loop does what `ClearOne` says |
| Cleanup.RemoveEditFiles | cleanup-photo-library.py:85-96 | `remove_edit_files` on the volume does what `RemoveEditFilesSpec` says |
| Cleanup.LinkStep | cleanup-photo-library.py:130-149 | one pass of the hard-link loop does what `LinkOne` says |
| Cleanup.HardlinkSelectFiles | cleanup-photo-library.py:121-149 | `hardlink_select_files` on the volume does what `HardlinkSelectsSpec` says |
| Cleanup.CleanupProject | cleanup-photo-library.py:152-161 | `cleanup_project` on the volume does what `CleanupProjectSpec` says |
| Cleanup.CleanupEach | cleanup-photo-library.py:186-193 | the project loop on the volume does what `CleanupProjects` says |
| Cleanup.CleanupPhotoLibrary | cleanup-photo-library.py:165-193 | the whole run on the volume, with the check of line 230, does what `CleanupLibrary` says |
| SweepProperties.DotFilesInDistinct | cleanup-photo-library.py:79 | a listing without repeats gives dot files without repeats |
| SweepProperties.DotFilesDistinct | cleanup-photo-library.py:79 | each dot file is reported once |
| SweepProperties.UnlinkEachDry | cleanup-photo-library.py:80-82 | a dry run changes nothing, reports every path, and cannot fail |
| SweepProperties.UnlinkEachReports | cleanup-photo-library.py:80-82 | a run that completes reports every path in order, as a dry run does |
| SweepProperties.UnlinkEachFrame | cleanup-photo-library.py:82 | a path not in the list is left as it was |
| SweepProperties.UnlinkEachRemoves | cleanup-photo-library.py:82 | distinct existing non-directories are all removed and nothing else is |
| SweepProperties.UnlinkEachKeepsValid | cleanup-photo-library.py:82 | the sweep keeps the snapshot consistent |
| SweepProperties.DotSweepReports | cleanup-photo-library.py:78-82 | the same dot files are reported in both modes, and a dry run changes nothing |
| SweepProperties.DotSweepRemoves | cleanup-photo-library.py:78-82 | without a dry run and with no dot file a directory, every dot file goes, every other path is kept, and the sweep completes (a directory link has no contents here; see Left out) |
| SweepProperties.SiblingsTail | cleanup-photo-library.py:88 | helper: the rest of a sibling list is a sibling list, unrelated to its head |
| SweepProperties.ClearOneFrame | cleanup-photo-library.py:88-96 | clearing one entry changes nothing outside its subtree |
| SweepProperties.ClearEachFrame | cleanup-photo-library.py:88-96 | the loop changes nothing outside the listed entries' subtrees |
| SweepProperties.ClearEachShrinks | cleanup-photo-library.py:88-96 | the edit sweep only removes entries |
| SweepProperties.ClearEachKeepsValid | cleanup-photo-library.py:88-96 | the edit sweep keeps the snapshot consistent |
| SweepProperties.ClearEachReports | cleanup-photo-library.py:88-96 | a run that completes reports what a dry run reports |
| SweepProperties.ClearOneClears | cleanup-photo-library.py:89-96 | a file or a directory is removed completely; only a dangling link stays |
| SweepProperties.ClearEachClears | cleanup-photo-library.py:88-96 | the same for every listed sibling |
| SweepProperties.EditSweepFrame | cleanup-photo-library.py:85-96 | nothing outside `1_EDIT` changes, `1_EDIT` included (a directory link has no contents here; see Left out) |
| SweepProperties.EditSweepReports | cleanup-photo-library.py:85-96 | without `1_EDIT` nothing happens; a dry run changes nothing; a completed run reports what the dry run reports |
| SweepProperties.UnderSomeChild | cleanup-photo-library.py:88 | whatever lies below a directory lies below one of its listed entries |
| SweepProperties.EditSweepClears | cleanup-photo-library.py:85-96 | the sweep completes and leaves nothing below `1_EDIT` except dangling links directly inside it |
| SweepProperties.UnlinkEachEvents | cleanup-photo-library.py:80 | the dot-file sweep prints only "Removing" lines |
| SweepProperties.ClearEachEvents | cleanup-photo-library.py:90-94 | the edit sweep prints only "Removing" lines for files and folders |
| LinkProperties.DecideCases | cleanup-photo-library.py:133-139 | skip iff no raw candidate or the same file; link iff both are distinct files with equal digests; a difference carries the two digests |
| LinkProperties.DecideStable | cleanup-photo-library.py:133-139 | the decision depends only on the select, its raw candidate and the contents |
| LinkProperties.LinkOneFrame | cleanup-photo-library.py:130-149 | handling one select changes no other path |
| LinkProperties.LinkEachFrame | cleanup-photo-library.py:130-149 | the loop changes no path outside its list |
| LinkProperties.LinkEachDry | cleanup-photo-library.py:143 | a dry run changes nothing |
| LinkProperties.LinkOutcome | cleanup-photo-library.py:137-145 | equal digests, no dry run: the select names the raw file's inode afterwards; the raw file and all contents are unchanged |
| LinkProperties.MismatchOutcome | cleanup-photo-library.py:146-149 | different digests: nothing changes, and exactly one warning names both digests |
| LinkProperties.SelectListTail | cleanup-photo-library.py:130 | the remaining selects are still selects after the first is handled |
| LinkProperties.LinkOneEntries | cleanup-photo-library.py:137-149 | a completed step changes only a linked select's entry; nothing was unreadable; a mismatch is reported |
| LinkProperties.LinkEachStep | cleanup-photo-library.py:130-149 | after the first select, the others are decided as before |
| LinkProperties.LinkEachEntries | cleanup-photo-library.py:130-149 | a completed loop sets each linked select to its raw file's inode and leaves every other select as it was |
| LinkProperties.LinkEachEffect | cleanup-photo-library.py:130-149 | the same, and the snapshot stays consistent |
| LinkProperties.LinkEachWarnings | cleanup-photo-library.py:146-149 | a completed loop met nothing unreadable and reported every mismatch |
| LinkProperties.LinkEachNoLinks | cleanup-photo-library.py:134-149 | a loop with nothing to link changes nothing and only warns |
| LinkProperties.LinkEachKeepsLinked | cleanup-photo-library.py:134-135 | after a completed loop every linked select is skipped, and every other decision is unchanged |
| LinkProperties.SelectsInDistinct | cleanup-photo-library.py:124-129 | a listing without repeats gives selects without repeats |
| LinkProperties.SelectFilesList | cleanup-photo-library.py:123-129 | the selects are distinct immediate entries that are selects |
| LinkProperties.LinkEachReports | cleanup-photo-library.py:130-149 | a completed run reports what a dry run in an agreeing state reports |
| LinkProperties.HardlinkReports | cleanup-photo-library.py:121-149 | a dry run changes nothing; a completed run reports what the dry run reports |
| LinkProperties.HardlinkFrame | cleanup-photo-library.py:121-149 | only immediate entries of the project can change, so nothing in `0_RAW` does, and no file's bytes change |
| LinkProperties.HardlinkIdempotent | cleanup-photo-library.py:134-135 | a second run after a completed run changes nothing and links nothing; its only lines are warnings the first run gave |
| LinkProperties.LinkOneKeepsValid | cleanup-photo-library.py:144-145 | a step keeps the snapshot consistent, even one that fails |
| LinkProperties.LinkEachKeepsValid | cleanup-photo-library.py:130-149 | the loop keeps the snapshot consistent |
| LinkProperties.LinkEachEvents | cleanup-photo-library.py:140-149 | the loop prints only "Linking" and warning lines; a dry run can fail only on a read |
| RunProperties.CleanupProjectTouches | cleanup-photo-library.py:152-161 | a project's run touches only its dot files, what lies below `1_EDIT` and its immediate entries (a directory link has no contents here; see Left out) |
| RunProperties.CleanupProjectFrame | cleanup-photo-library.py:152-161 | nothing outside the project folder is touched (a directory link has no contents here; see Left out) |
| RunProperties.RawOriginalsKept | cleanup-photo-library.py:152-161 | every entry below `0_RAW`, other than the swept `._` files, is as it was (a directory link has no contents here; see Left out) |
| RunProperties.BelowChild | cleanup-photo-library.py:74 | helper: below a child of `a` is below `a`, under that child's name |
| RunProperties.PrefixesComparable | cleanup-photo-library.py:62-75 | helper: two ancestors of one path are ancestors one of the other |
| RunProperties.AntichainTail | cleanup-photo-library.py:186 | helper: the rest of an antichain is an antichain |
| RunProperties.CleanupProjectsFrame | cleanup-photo-library.py:186-193 | a path below none of the projects is untouched (a directory link has no contents here; see Left out) |
| RunProperties.CleanupProjectsKeepRaw | cleanup-photo-library.py:186-193 | over an antichain of projects, every project's raw originals survive the whole loop (a directory link has no contents here; see Left out) |
| RunProperties.CleanupLibraryKeepsRaw | cleanup-photo-library.py:165-193 | a whole run keeps every raw original of every project found (a directory link has no contents here; see Left out) |
| RunProperties.CleanupLibraryFrame | cleanup-photo-library.py:165-193 | a whole run leaves everything outside the projects found alone (a directory link has no contents here; see Left out) |
| RunProperties.Announced | cleanup-photo-library.py:155 | the announced projects are exactly those with a "Cleaning" line |
| RunProperties.AnnouncedAppend | cleanup-photo-library.py:155 | helper: the announcements of two logs are concatenated |
| RunProperties.CleanupProjectLog | cleanup-photo-library.py:155-161 | the "Cleaning" line comes first; after it, each line comes from a stage that is switched on |
| RunProperties.AnnouncedNone | cleanup-photo-library.py:155 | a log without "Cleaning" lines announces nothing |
| RunProperties.AnnouncedOne | cleanup-photo-library.py:155 | a log with one leading "Cleaning" line announces that project only |
| RunProperties.CleanupProjectAnnounced | cleanup-photo-library.py:155-161 | a project's run announces that project and no other |
| RunProperties.CleanupProjectEvents | cleanup-photo-library.py:155-161 | link lines appear only when hard-linking is on, and removal lines only when a sweep is on |
| RunProperties.AnnouncedCons | cleanup-photo-library.py:186-193 | a first project followed by a prefix of the rest is a prefix of the list |
| RunProperties.AnnouncesInOrderStep | cleanup-photo-library.py:186-193 | one project's run and then the rest keeps the order property |
| RunProperties.CleanupProjectsOrder | cleanup-photo-library.py:186-193 | the projects are announced in the order found; a failed run announced a non-empty leading part of them |
| RunProperties.CleanupProjectsNoLinks | cleanup-photo-library.py:191 | without hard-linking no project links or compares |
| RunProperties.CleanupLibraryOrder | cleanup-photo-library.py:186-193 | a completed run announces exactly `find_projects`'s result; no link lines unless both the switch and support are on |
| RunProperties.CleanupProjectDry | cleanup-photo-library.py:152-161 | a dry run changes nothing and can fail only on a read |
| RunProperties.CleanupProjectsDry | cleanup-photo-library.py:186-193 | the same for the project loop |
| RunProperties.CleanupLibraryDry | cleanup-photo-library.py:165-193 | the same for the library, plus the missing-library error |
| RunProperties.CleanupProjectKeepsValid | cleanup-photo-library.py:152-161 | a project's run keeps the snapshot consistent, even one that fails |
| RunProperties.CleanupProjectsKeepValid | cleanup-photo-library.py:186-193 | the project loop keeps the snapshot consistent |
| RunProperties.CleanupLibraryKeepsValid | cleanup-photo-library.py:165-193 | a whole run keeps the snapshot consistent |
| DryRunProperties.RemovingsMention | cleanup-photo-library.py:79-80 | the dot sweep's lines name exactly its listed paths |
| DryRunProperties.ClearEachDryMentions | cleanup-photo-library.py:88-94 | a dry edit sweep names exactly the listed entries that are files or folders |
| DryRunProperties.LinkEachDryStops | cleanup-photo-library.py:130-139 | a dry hard-link loop completes iff no select or raw candidate is unreadable |
| DryRunProperties.LinkEachDryMentions | cleanup-photo-library.py:130-149 | a completed dry hard-link loop names exactly the selects it would link or warn about |
| DryRunProperties.EditSweepDryMentions | cleanup-photo-library.py:85-96 | after the dot sweep removed `gone`, a completed real edit sweep names, up to `gone`, what the dry edit sweep names on the untouched volume |
| DryRunProperties.HardlinkDryMentions | cleanup-photo-library.py:121-149 | after both sweeps, a completed real hard-link loop names what the dry one names on the untouched volume, and that one completes |
| DryRunProperties.ProjectStages | cleanup-photo-library.py:152-161 | a project's run completes iff each stage it reaches does; its log is the announcement and the stages' lines in turn |
| DryRunProperties.DryRunNamesSamePaths | cleanup-photo-library.py:152-161 | a real run of a project that completes names the same set of paths as the dry run on the same volume, and that dry run completes |
| DryRunProperties.CleanupProjectStageOrder | cleanup-photo-library.py:155-161 | no Removing or folder-Removing line comes after a Linking or warning line within a project's log |
| DryRunProperties.DryRunNamesEditDotFileTwice | cleanup-photo-library.py:78-96 | with both sweeps on, a `._` file alone in `1_EDIT` is named twice by a dry run, which changes nothing |
| DryRunProperties.RealRunNamesEditDotFileOnce | cleanup-photo-library.py:78-96 | the real run names it once: the dot sweep unlinks it before the edit sweep lists `1_EDIT` |
| DryRunProperties.DryRunRepeatsEditDotFile | cleanup-photo-library.py:78-96 | on the volume holding only `p/1_EDIT/._x`, the dry log has three lines and the real log two |
| DryRunProperties.DryLinkLocal | cleanup-photo-library.py:121-149 | a dry hard-link loop depends only on what lies below the project: whether it completes and what it names |
| DryRunProperties.DryProjectLocal | cleanup-photo-library.py:152-161 | a project's dry run depends only on what lies below the project |
| DryRunProperties.AgreeBelowRest | cleanup-photo-library.py:186-193 | cleaning the first of an antichain of projects keeps the volume agreeing below the others |
| DryRunProperties.CleanupProjectsDryNamesSamePaths | cleanup-photo-library.py:186-193 | a completed real loop over an antichain of projects names the same paths as the dry loop on an agreeing volume, which completes |
| DryRunProperties.CleanupLibraryDryNamesSamePaths | cleanup-photo-library.py:165-193 | a completed real run over a library names the same set of paths as the dry run on the same volume, and the dry run completes |
| ExifOverrides.StringField | process-photos-for-export.py:246-247 | the field is found iff present and a string; a missing key is reported |
| ExifOverrides.Items | process-photos-for-export.py:259 | what a comprehension iterates: a list gives its items; an empty object or empty string gives none; a non-empty object or string, or any other value, is an error |
| ExifOverrides.MapExifTag | process-photos-for-export.py:244-249 | a tag maps iff `tag` and `value` are strings; `value_type` is taken when present and `Ascii` otherwise |
| ExifOverrides.MapExifTags | process-photos-for-export.py:259 | all items map, in order, or the mapping fails |
| ExifOverrides.MapRule | process-photos-for-export.py:252-260 | the pattern is absent iff the key is; a present pattern and the tags map as tags; an empty object or string for `tags` gives no tags |
| ExifOverrides.MapRules | process-photos-for-export.py:266 | all rules map, in order, or the mapping fails |
| ExifOverrides.RulesOfDocument | process-photos-for-export.py:263-268 | the rules are the document's `rules` list, mapped; an empty object or string gives no rules; a missing key or a non-object document is an error |
| ExifOverrides.OverrideRules | process-photos-for-export.py:263-268 | no rules file gives no rules; a given one gives what RulesOfDocument gives |
| ExifOverrides.TagsToJson | process-photos-for-export.py:259 | one JSON object per tag, in order |
| ExifOverrides.MapExifTagRoundTrip | process-photos-for-export.py:244-249 | the JSON form of a tag maps back to it; a tag without `value_type` is `Ascii` |
| ExifOverrides.MapExifTagsRoundTrip | process-photos-for-export.py:259 | the same for a list of tags |
| ExifOverrides.MapRuleRoundTrip | process-photos-for-export.py:252-260 | the JSON form of a rule maps back to it, pattern and tag order included |
| ExifOverrides.LineMatches | process-photos-for-export.py:275 | definition, no contract: `.*key.*value.*` matches from the line's start, case-insensitively, with `.` stopping at a newline |
| ExifOverrides.Find | process-photos-for-export.py:275-276 | the first case-insensitive occurrence before a newline, and none earlier |
| ExifOverrides.MatchLine | process-photos-for-export.py:275-276 | definition, no contract: the first occurrence of the key, then the value after it; proved equal to LineMatches in MatchLineCorrect |
| ExifOverrides.OccurrenceClear | process-photos-for-export.py:275 | helper: an occurrence of a key without a newline holds no newline |
| ExifOverrides.MatchLineCorrect | process-photos-for-export.py:273-276 | the first-occurrence search agrees with `.*key.*value.*` under `re.match` |
| ExifOverrides.RuleMatch | process-photos-for-export.py:271-278 | a rule without a pattern applies to any lines, even none; a rule with one applies iff some line matches it |
| ExifOverrides.RuleMatchCorrect | process-photos-for-export.py:271-278 | a rule matches iff some line holds the key and, after it, the value |
| ExifOverrides.SetLines | process-photos-for-export.py:287-288 | one `set` directive per tag, in order |
| ExifOverrides.SetLine | process-photos-for-export.py:288 | definition, no contract |
| ExifOverrides.AppendSetLines | process-photos-for-export.py:287-288 | the inner loop appends the tags' directives |
| ExifOverrides.DirectivesSnoc | process-photos-for-export.py:285-288 | one more rule adds its directives when it matches, and nothing otherwise |
| ExifOverrides.Directives | process-photos-for-export.py:285-288 | only `set` lines, and none without rules (what they are is DirectivesExact) |
| ExifOverrides.AppendMetadataOverrides | process-photos-for-export.py:281-291 | the result is the input lines followed by the directives of the matching rules; matching is against the input, never the growing copy |
| ExifOverrides.DirectivesExact | process-photos-for-export.py:285-288 | a directive is added iff it is the `set` line of a tag of a rule that matches |
| ExifOverrides.NoDirectives | process-photos-for-export.py:283-291 | with no matching rule, the lines pass unchanged |
| ExifOverrides.SpaceAt | process-photos-for-export.py:288 | the position of the first space; part of a sanity check that reads a `set` line as exiv2 would, which no source line promises |
| ExifOverrides.ParseSetLine | process-photos-for-export.py:288 | a parsed directive starts with `set `; part of a sanity check that reads a `set` line as exiv2 would, which no source line promises |
| ExifOverrides.ParseSetFields | process-photos-for-export.py:288 | the parsed key and type hold no space; part of a sanity check that reads a `set` line as exiv2 would, which no source line promises |
| ExifOverrides.SpaceAfterWord | process-photos-for-export.py:288 | helper: a space-free word is cut at the space that follows it; part of a sanity check that reads a `set` line as exiv2 would, which no source line promises |
| ExifOverrides.SetLineRoundTrip | process-photos-for-export.py:288 | a directive parses back to its tag when the key and the type hold no space; part of a sanity check that reads a `set` line as exiv2 would, which no source line promises |
| Export.Pluralize | process-photos-for-export.py:170-171 | the word itself iff the count is 1; otherwise the word followed by `s` |
| Export.ResizeOptions | process-photos-for-export.py:174-237 | only `large`, `medium` and `small` succeed; anything else raises "Size … is not supported"; large is 4000×3500 at quality 99 with border 100, padding 20 and separators 1/2/1; medium 2000×1500, 97, 40, 10, 1/1/1; small 900×800, 95, 20, 5, 1/1/1; the border only when asked for |
| Export.SizedResize | process-photos-for-export.py:174-237 | definition, no contract: one entry of the size table, with the border only when it is switched on |
| Export.Separators | process-photos-for-export.py:185-189 | light, dark of the given width, light, the light ones one pixel wide |
| Export.BorderIndependent | process-photos-for-export.py:174-237 | the border switch changes only the border |
| Export.SizesOrdered | process-photos-for-export.py:176-235 | a larger size is larger in box, quality, border width and padding |
| Export.TargetName | process-photos-for-export.py:326 | one trailing `-Enhanced-NR` removed |
| Export.MetadataSourceName | process-photos-for-export.py:366 | one trailing `-BW` removed, then one trailing `-Enhanced-NR` |
| Export.BlackAndWhiteSharesSource | process-photos-for-export.py:366 | a `-BW` variant takes its metadata from its colour original's source |
| Export.SuffixOrder | process-photos-for-export.py:366-367 | `x-BW-Enhanced-NR` keeps `-BW`; `x-Enhanced-NR-BW` loses both; only one `-Enhanced-NR` is removed |
| Export.SeparatorArgs | process-photos-for-export.py:338-341 | definition, no contract: `-bordercolor`, the colour, `-border`, the size, for one separator |
| Export.OuterBorderArgs | process-photos-for-export.py:343-348 | definition, no contract: the eight arguments of the outer border: colour, size, background and the `0x%[fx:h+padding]` extent |
| Export.SeparatorsArgs | process-photos-for-export.py:337-341 | four arguments per separator |
| Export.BorderArgs | process-photos-for-export.py:334-348 | empty without a border; otherwise 4·separators + 8 arguments |
| Export.SeparatorsArgsLayout | process-photos-for-export.py:337-341 | separator `i` takes items `4i` to `4i+3` |
| Export.BuildBorderArgs | process-photos-for-export.py:334-348 | the `extend` loop builds the border arguments |
| Export.ConvertCommand | process-photos-for-export.py:325-359 | the `magick` command: fixed head with the source and geometry, the border arguments, then quality and the target |
| Export.GeometryRoundTrip | process-photos-for-export.py:355 | `WxH>` reads back as the width and the height |
| Export.KeyOptions | process-photos-for-export.py:392-394 | two arguments per tag |
| Export.KeyOptionsLayout | process-photos-for-export.py:392-394 | pair `i` is `-K` and tag `i` |
| Export.BuildKeyOptions | process-photos-for-export.py:392-394 | the `extend` loop builds the `-K` pairs |
| Export.SourceGlobMatches | process-photos-for-export.py:378-380 | definition, no contract: a name `{name}*.*` lists starts with the name and has a dot after it, and is hidden only for a hidden pattern |
| Export.FirstSourceMatch | process-photos-for-export.py:380-386 | the first listed name the `{name}*.*` glob matches, and none before it |
| Export.MetadataSource | process-photos-for-export.py:366-386 | the camera JPEG when it is a file; else the first match in `0_RAW`; else the first match in the project folder; an error iff neither folder has a match |
| Export.StripAll | process-photos-for-export.py:404 | every exported line is stripped, order kept |
| Export.CopyMetadata | process-photos-for-export.py:365-413 | clean, export, import in that order; the export asks the chosen source for the tag list; the import gets the stripped lines and the overrides; each raised message in turn, "Could not set metadata for" the export file when the import fails; a rules file that fails to map ends the call after the clean and export runs, with no import; success iff the source exists, the three runs succeed and the rules map |
| Export.CopyFrom | process-photos-for-export.py:388-413 | for a chosen source or its error: at most three commands, the raised message of each failing step, "Could not set metadata for" the target after three commands when only the import fails, `BadOverrides` iff the source exists, the clean and export runs pass and the rules fail to map, with two commands then; success iff every step passes and the import runs |
| Export.MetadataTargetIsExport | process-photos-for-export.py:329-331 | metadata goes into the file the `magick` command writes |
| Export.EditFile | process-photos-for-export.py:328 | definition, no contract |
| Export.ExportFile | process-photos-for-export.py:372-374 | definition, no contract |
| Export.Geometry | process-photos-for-export.py:355 | definition, no contract |
| Export.MagickCommand | process-photos-for-export.py:350-359 | definition, no contract |
| Export.CleanCommand | process-photos-for-export.py:388 | definition, no contract |
| Export.ExportCommand | process-photos-for-export.py:395 | definition, no contract |
| Export.ImportCommand | process-photos-for-export.py:408 | definition, no contract |
| Export.ImportInput | process-photos-for-export.py:403-407 | definition, no contract |
| Export.ExportAsksForEveryTag | process-photos-for-export.py:392-395 | the export command asks for every tag of the list, in order, each behind `-K` |
| Export.IsEditName | process-photos-for-export.py:316 | definition, no contract: a name `*.tif` lists ends in `.tif` and is not hidden |
| Export.CountEditNames | process-photos-for-export.py:316 | definition, no contract: the number of names the `*.tif` glob lists |
| Export.EditStems | process-photos-for-export.py:316-317 | exactly the stems of the names `*.tif` lists, one per listed name |
| Export.EditStemInjective | process-photos-for-export.py:316-317 | two `.tif` names with the same stem are the same name |
| Export.EditStemsDistinct | process-photos-for-export.py:316-317 | a listing without repeats gives every stem once, so no picture is exported twice |
| Export.GetEditedFiles | process-photos-for-export.py:315-322 | an error iff no `.tif` is listed; otherwise every `.tif` stem is found, each found `X` has `X.tif` listed, and there are as many stems as `.tif` names |
| RenameRaw.TimestampMatch | rename-raw-photos.py:62-67 | definition, no contract: `exiv2_datetime_re.match` succeeds with groups `t`: the keyword, whitespace, an optional `Ascii`, whitespace, then the date and time |
| RenameRaw.SkipSpaces | rename-raw-photos.py:65 | the end of the whitespace run |
| RenameRaw.SkipSpacesUnique | rename-raw-photos.py:65 | any whitespace run ending at a non-space ends where `SkipSpaces` stops |
| RenameRaw.ReadDateTime | rename-raw-photos.py:65 | a reading is the `DDDD:DD:DD DD:DD:DD` format at that position |
| RenameRaw.ReadDateTimeComplete | rename-raw-photos.py:65 | where the format is, it is read with its groups |
| RenameRaw.ParseTimestamp | rename-raw-photos.py:62-67 | every reading has groups of the right widths, all digits |
| RenameRaw.AsciiStart | rename-raw-photos.py:65 | `Ascii` starts with neither whitespace nor a digit |
| RenameRaw.ParseTimestampSound | rename-raw-photos.py:62-67 | what the parser reads, the pattern matches |
| RenameRaw.ParseTimestampComplete | rename-raw-photos.py:62-67 | where the pattern matches, the parser finds the same groups |
| RenameRaw.ParseTimestampCorrect | rename-raw-photos.py:120 | the parser reads `t` iff `exiv2_datetime_re.match` succeeds with groups `t` |
| RenameRaw.CameraNumber | rename-raw-photos.py:97 | the last four characters, or the whole of a shorter stem |
| RenameRaw.TimestampCommand | rename-raw-photos.py:103-111 | definition, no contract |
| RenameRaw.NewStem | rename-raw-photos.py:139 | definition, no contract |
| RenameRaw.NewStemLayout | rename-raw-photos.py:139 | eight date digits, `_`, hour and minute, `_`, the camera number |
| RenameRaw.NewRawName | rename-raw-photos.py:96-141 | succeeds iff the stem is non-empty and the output matches; then the new stem and the lower-cased extension; otherwise the timestamp error |
| RenameRaw.NoCameraNumberFirst | rename-raw-photos.py:97-101 | an empty stem fails first, with the camera-number error |
| RenameRaw.NewRawNameOfMatch | rename-raw-photos.py:120-141 | a matching output names the file after its date, hour, minute and camera number |
| RenameRaw.IsRawName | rename-raw-photos.py:87 | definition, no contract: a name `*.*` lists holds a dot and is not hidden |
| RenameRaw.RawFilesIn | rename-raw-photos.py:85-88 | exactly the stem and suffix of every name `*.*` lists |
| RenameRaw.SortKey | rename-raw-photos.py:93 | definition, no contract |
| RenameRaw.LessEq | rename-raw-photos.py:93 | definition, no contract: the string order `sorted` uses, by code point with a prefix first |
| RenameRaw.LessEqTotal | rename-raw-photos.py:93 | any two keys are ordered |
| RenameRaw.LessEqTransitive | rename-raw-photos.py:93 | the key order is transitive |
| RenameRaw.Insert | rename-raw-photos.py:93 | one element added, nothing lost |
| RenameRaw.InsertSorted | rename-raw-photos.py:93 | inserting into a sorted list keeps it sorted |
| RenameRaw.SortRawFiles | rename-raw-photos.py:93 | a permutation of the input |
| RenameRaw.SortRawFilesSorted | rename-raw-photos.py:93 | sorted by `stem.suffix` |
| RenameRaw.GetRawFiles | rename-raw-photos.py:84-93 | an error iff nothing is listed; otherwise a non-empty permutation of the listed pairs |
| RenameRaw.GetRawFilesSorted | rename-raw-photos.py:84-93 | the result is sorted, and every pair is a listed raw name cut in two |
| RenameRaw.AfterRename | rename-raw-photos.py:153 | `os.rename` fails iff the source is missing; the destination gets the source's file, replacing any; all else is kept |
| RenameRaw.PrependTwice | rename-raw-photos.py:167 | helper: logs concatenate associatively |
| RenameRaw.Namer | rename-raw-photos.py:166 | definition, no contract: the new name of each file, built from what exiv2 prints for its path (the question asked at 103-115) |
| RenameRaw.RenameOne | rename-raw-photos.py:165-168 | at most one line `old -> new`, printed only once the name is built; a completed step renames old to new; a failed one changes nothing |
| RenameRaw.RenameEach | rename-raw-photos.py:165-168 | at most one line per file |
| RenameRaw.RenameAllSpec | rename-raw-photos.py:156-169 | a missing raw folder and an empty listing fail before any rename |
| RenameRaw.RawFolder.constructor | rename-raw-photos.py:157 | the folder starts with the given files |
| RenameRaw.RawFolder.Rename | rename-raw-photos.py:151-153 | the folder changes as `AfterRename` says, or not at all |
| RenameRaw.RawFolder.RenameStep | rename-raw-photos.py:165-168 | one pass of the loop does what `RenameOne` says |
| RenameRaw.RawFolder.RenameEachRawFile | rename-raw-photos.py:165-169 | the loop does what `RenameEach` says |
| RenameRaw.RawFolder.RenameAllRawFiles | rename-raw-photos.py:156-169 | the whole run does what `RenameAllSpec` says |
| RenameProperties.RenameEachFrame | rename-raw-photos.py:165-168 | a name that is neither old nor new in any line is left alone, even after an error |
| RenameProperties.RenameEachOrder | rename-raw-photos.py:165-168 | line `k` is file `k`; a run without error logs every file |
| RenameProperties.RenameEachNames | rename-raw-photos.py:166-167 | the new name of line `k` is the one built for file `k` |
| RenameProperties.RenameEachMoves | rename-raw-photos.py:165-168 | without collisions every file is moved, intact, to its new name |
| RenameProperties.RawFilesHaveStems | rename-raw-photos.py:84-101 | every listed file has a non-empty stem, so the camera-number error cannot arise |
| RenameProperties.SameMinuteSameName | rename-raw-photos.py:97-139 | same last four characters and same minute give the same new name |
| RenameProperties.CollisionOverwrites | rename-raw-photos.py:153 | two files with one new name: the second overwrites the first, whose file is gone |
| RenameProperties.RenameAllOrder | rename-raw-photos.py:156-169 | the lines follow the listing's sorted order; a run without error has one line per file |

## Left out

- The `magick` and `exiv2` runs (process-photos-for-export.py:362, 388-413; rename-raw-photos.py:114-115) are foreign programs. Their exit statuses and outputs are parameters. `convert_tiff_to_jpeg` is modelled up to the command line it runs, whose result it ignores.
- The MD5 digest (cleanup-photo-library.py:99-100) is the uninterpreted parameter `hash`. The hash algorithm is not modelled.
- The hard-link probe (cleanup-photo-library.py:103-118) writes files and catches exceptions. Only its answer is modelled, as a boolean.
- The test at cleanup-photo-library.py:168 checks the function object `hardlink_select_files`, so the probe always runs, even in a dry run and with hard-linking off. The model keeps only the effective gate of line 191.
- `print`: the headers (cleanup-photo-library.py:178-184, rename-raw-photos.py:158-159), the blank line after each project (cleanup-photo-library.py:162) and the final "Done" (rename-raw-photos.py:169) are not modelled. Printed actions are an event list. Dry-run and real runs are told apart in the state, not in the text.
- The argument parsing, `__main__` blocks, `os.getcwd`, `get_project_locations` (process-photos-for-export.py:294-312, including its `os.mkdir`), `get_metadata_options` and `process_for_sharing` (process-photos-for-export.py:416-438) are not modelled. The folder locations are a parameter. For the renamer, only whether `0_RAW` exists is a parameter.
- Reading the rules file as JSON (process-photos-for-export.py:265) is not modelled. The parsed document is an input `Json` value, given to CopyMetadata as an option (none when no rules file is named).
- Export.CopyMetadata: a rules file that fails to map ends the call with `BadOverrides` and the mapping error. The text of Python's `KeyError` or `TypeError` is not modelled.
- ExifOverrides.MapExifTag: Python accepts a non-string `tag`, `value` or `value_type` and formats it later with `str`. The model accepts strings only and reports anything else as an error.
- DotFiles: a symbolic link to a directory has no entries below it in a snapshot, while Python's recursive `glob` descends into such links (cleanup-photo-library.py:79). The `._` files reached through a directory link inside the project are not listed.
- Decide: a symbolic link to a directory has no entries below it in a snapshot, so `0_RAW/<name>` never exists when `0_RAW` is such a link. The source resolves `os.path.exists`, `samefile` and `open` through the link (cleanup-photo-library.py:133-149) and links or warns; the model skips every select.
- HardlinkSelectsSpec: with `0_RAW` a directory link, `os.path.isdir` holds and the selects are listed, but every select is skipped (see Decide), where the source links it or prints a warning.
- RemoveEditFilesSpec: with `1_EDIT` a directory link, `os.path.isdir` holds but the link has no entries in the model, so nothing is removed. The source lists the link's target with `scandir` and removes its files and folders (cleanup-photo-library.py:87-96).
- DotSweepRemoves: assumes no directory link inside the project. Through such a link the source also unlinks `._` files outside the project.
- EditSweepFrame: assumes `1_EDIT` and its entries are no directory links. `os.path.isdir`, `scandir` and `rmtree`'s target follow a linked `1_EDIT` (cleanup-photo-library.py:87-96) and empty the folder it points to.
- CleanupProjectTouches: assumes no directory link inside the project, for the reasons of DotSweepRemoves and EditSweepFrame.
- CleanupProjectFrame: assumes no directory link inside the project. A linked folder has no contents in the model, so nothing outside can be reached through it.
- RawOriginalsKept: assumes no directory link inside the project. In the source a `1_EDIT` linked to `0_RAW` empties `0_RAW`.
- CleanupProjectsFrame: rests on CleanupProjectFrame and shares its assumption of no directory link inside a project.
- CleanupProjectsKeepRaw: rests on RawOriginalsKept and CleanupProjectFrame and shares their assumption.
- CleanupLibraryKeepsRaw: shares the assumption of CleanupProjectsKeepRaw.
- CleanupLibraryFrame: shares the assumption of CleanupProjectsFrame.
- The dry-run lemmas compare the paths named, as a set. The order and number of lines can differ, as DryRunRepeatsEditDotFile shows: the dry run of the edit sweep still sees what the real dot sweep deleted.
- ProjectLocator.FindProjects walks a `Dir` tree given beside the snapshot. The model does not prove that the tree agrees with the snapshot. Symbolic-link cycles are out of scope.
- Listing order and glob order are the snapshot's `order` and the given listings. The treatment of hidden names by `glob` (`*` and `**` skip them) is modelled. Glob magic characters inside file names are not.
- A directory whose name matches `*.*` or `{name}*.*` is treated like a file name.
- Case folding is ASCII. `re.IGNORECASE` also equates a few non-ASCII characters with ASCII letters (the Kelvin sign with `k`, for example). `\d` in Python accepts non-ASCII digits. `str.lower` lower-cases non-ASCII letters (rename-raw-photos.py:141). None of these is modelled.
- The value of an override pattern is compiled as a regular expression (process-photos-for-export.py:275). The model treats it as a literal.
- ExifOverrides.LineMatches and ExifOverrides.RuleMatch read a rule's key as literal text. The source escapes only the `.` in the key (process-photos-for-export.py:273) and compiles `.*{key}.*{value}.*` (275). Any other regular-expression character in a key is pattern syntax there: `Exif.Image.(Make|Model)` matches a `Exif.Image.Model` line, and an unbalanced `(` raises `re.error`. For such keys the model gives the literal reading, not the source's answer.
- Strings are sequences of code points. UTF-8 decoding of exiv2's output and the effect of `encoding="utf-8"` are not modelled.
- `os.linesep` is taken to be `\n` (POSIX). Windows paths are not modelled.
- The renamer asks exiv2 about a path. The model's answer depends on the path only, not on the folder's state after earlier renames.
- `os.rename` onto a directory, or across devices, is not modelled.
- The checks at rename-raw-photos.py:130-137 and 162 can never fail: the groups of a match are never empty, and `get_raw_files` has already raised on an empty listing. They are not modelled as separate error paths.
