/**
 The maintenance job that checks archive files against a baseline of checksums which it writes itself, over any
 sequence of runs with any changes to the archive between them.
*/
module ArchiveChecksums {
  import opened Options
  import opened JsonStrings

  type Path = Text
  type Checksum = Text

  /** A manifest value that is not text is kept by JSON but compared with nothing. */
  datatype Entry = Sum(checksum: Checksum) | Other

  datatype Manifest = Missing | Unreadable | NotAnObject | Baseline(entries: map<Path, Entry>)

  /**
   What a run meets. `verifyErrors` and `collectionErrors` come from checks of the index that are not part of this
   model, `paths` are the files the index lists together with the index itself, and `files` are those that exist.
   A file that exists but cannot be read has no checksum.
  */
  datatype Archive =
    | NoIndex
    | Archive(verifyErrors: seq<Text>, collectionErrors: seq<Text>, paths: set<Path>,
              files: map<Path, Option<Checksum>>)

  datatype Error =
    | FromIndex(message: Text)
    | FileMissing(path: Path)
    | NotInArchive(path: Path)
    | Mismatch(path: Path)
    | ManifestInvalid
    | ManifestUnreadable

  datatype Status = Skipped | Pass | Fail | Crashed

  datatype Report = Report(status: Status, verified: nat, previous: nat, mismatches: nat, errors: seq<Error>)

  // ---------- What a run decides ----------

  predicate AllReadable(archive: Archive)
    requires archive.Archive?
  {
    forall path :: path in archive.paths && path in archive.files ==> archive.files[path].Some?
  }

  function Checksums(archive: Archive): map<Path, Checksum>
    requires archive.Archive? && AllReadable(archive)
  {
    map path | path in archive.paths && path in archive.files :: archive.files[path].value
  }

  predicate Differs(path: Path, entries: map<Path, Entry>, sums: map<Path, Checksum>)
  {
    path in entries && entries[path].Sum? && (path !in sums || sums[path] != entries[path].checksum)
  }

  /** The paths of the baseline that are missing from the archive or have another checksum there. */
  function Mismatched(entries: map<Path, Entry>, sums: map<Path, Checksum>): set<Path>
  {
    set path | path in entries && Differs(path, entries, sums)
  }

  function Recorded(sums: map<Path, Checksum>): Manifest
  {
    Baseline(map path | path in sums :: Sum(sums[path]))
  }

  predicate Accepts(manifest: Manifest, archive: Archive)
  {
    && archive.Archive? && AllReadable(archive)
    && archive.verifyErrors == [] && archive.collectionErrors == []
    && archive.paths <= archive.files.Keys
    && (manifest.Missing? || (manifest.Baseline? && Mismatched(manifest.entries, Checksums(archive)) == {}))
  }

  function Next(manifest: Manifest, archive: Archive): Manifest
  {
    if Accepts(manifest, archive) then Recorded(Checksums(archive)) else manifest
  }

  /** A file the index lists and the file system does not have. */
  predicate IsMissing(error: Error, paths: set<Path>, archive: Archive)
    requires archive.Archive?
  {
    error.FileMissing? && error.path in paths && error.path !in archive.files
  }

  /** A difference from the baseline at one of `paths`: not in the archive any more, or there with another checksum. */
  predicate IsDrift(error: Error, paths: set<Path>, entries: map<Path, Entry>, sums: map<Path, Checksum>)
  {
    && (error.NotInArchive? || error.Mismatch?)
    && error.path in paths && Differs(error.path, entries, sums)
    && (error.NotInArchive? <==> error.path !in sums)
  }

  predicate IsFromIndex(error: Error, archive: Archive)
    requires archive.Archive?
  {
    error.FromIndex? && (error.message in archive.verifyErrors || error.message in archive.collectionErrors)
  }

  predicate IsManifestError(error: Error, manifest: Manifest, archive: Archive)
    requires archive.Archive? && AllReadable(archive)
  {
    match manifest
    case Missing => false
    case Unreadable => error == ManifestUnreadable
    case NotAnObject => error == ManifestInvalid
    case Baseline(entries) => IsDrift(error, entries.Keys, entries, Checksums(archive))
  }

  /** The errors a run reports: each of these and no other. */
  ghost predicate AreErrors(errors: seq<Error>, manifest: Manifest, archive: Archive)
    requires archive.Archive? && AllReadable(archive)
  {
    forall error :: error in errors <==>
      || IsFromIndex(error, archive) || IsMissing(error, archive.paths, archive)
      || IsManifestError(error, manifest, archive)
  }

  function MismatchCount(manifest: Manifest, archive: Archive): nat
    requires archive.Archive? && AllReadable(archive)
  {
    if manifest.Baseline? then |Mismatched(manifest.entries, Checksums(archive))| else 0
  }

  // ---------- A run ----------

  class ChecksumJob {
    var manifest: Manifest

    constructor (found: Manifest)
      ensures manifest == found
    {
      manifest := found;
    }

    method Verify(archive: Archive) returns (report: Report)
      modifies this
      ensures manifest == Next(old(manifest), archive)
      ensures report.status.Skipped? <==> archive.NoIndex?
      ensures report.status.Crashed? <==> archive.Archive? && !AllReadable(archive)
      ensures report.status.Pass? <==> Accepts(old(manifest), archive)
      ensures report.status.Pass? || report.status.Fail? ==>
                && AreErrors(report.errors, old(manifest), archive)
                && report.mismatches == MismatchCount(old(manifest), archive)
                && report.verified == |Checksums(archive)|
                && report.previous == if old(manifest).Baseline? then |old(manifest).entries| else 0
    {
      hide IsFromIndex, IsMissing, IsDrift, Mismatched, AreErrors, Checksums, AllReadable;
      if archive.NoIndex? {
        return Report(Skipped, 0, 0, 0, []);
      }
      var sums, missing, readable := Collect(archive);
      if !readable {
        return Report(Crashed, 0, 0, 0, []);
      }
      var fromIndex := FromIndexAll(archive);
      var previous, mismatches := 0, 0;
      var drift: seq<Error> := [];
      match manifest {
        case Missing =>
        case Unreadable =>
          drift := [ManifestUnreadable];
        case NotAnObject =>
          drift := [ManifestInvalid];
        case Baseline(entries) =>
          previous := |entries|;
          drift, mismatches := Compare(entries, sums);
      }
      var errors := fromIndex + missing + drift;
      TheseAreTheErrors(manifest, archive, fromIndex, missing, drift);
      PassesWithoutErrors(manifest, archive, errors);
      if errors == [] {
        manifest := Recorded(sums);
        return Report(Pass, |sums|, previous, mismatches, errors);
      }
      return Report(Fail, |sums|, previous, mismatches, errors);
    }
  }

  method FromIndexAll(archive: Archive) returns (errors: seq<Error>)
    requires archive.Archive?
    ensures forall error :: error in errors <==> IsFromIndex(error, archive)
  {
    var messages := archive.verifyErrors + archive.collectionErrors;
    errors := [];
    for i := 0 to |messages|
      invariant forall error :: error in errors <==> error.FromIndex? && error.message in messages[..i]
    {
      assert messages[..i + 1] == messages[..i] + [messages[i]];
      errors := errors + [FromIndex(messages[i])];
    }
    assert messages[..|messages|] == messages;
  }

  /** The checksums of the files that exist, and the errors of those that do not. */
  method Collect(archive: Archive) returns (sums: map<Path, Checksum>, missing: seq<Error>, readable: bool)
    requires archive.Archive?
    ensures readable <==> AllReadable(archive)
    ensures readable ==> sums == Checksums(archive)
    ensures readable ==> forall error :: error in missing <==> IsMissing(error, archive.paths, archive)
  {
    sums, missing, readable := map[], [], true;
    var left := archive.paths;
    ghost var done: set<Path> := {};
    while left != {}
      invariant left + done == archive.paths
      invariant forall path :: path in done && path in archive.files ==> archive.files[path].Some?
      invariant forall path :: path in sums <==> path in done && path in archive.files
      invariant forall path :: path in sums ==> sums[path] == archive.files[path].value
      invariant forall error :: error in missing <==> IsMissing(error, done, archive)
    {
      var path :| path in left;
      left := left - {path};
      if path !in archive.files {
        missing := missing + [FileMissing(path)];
      } else if archive.files[path].None? {
        readable := false;
        return;
      } else {
        sums := sums[path := archive.files[path].value];
      }
      done := done + {path};
    }
    assert done == archive.paths;
  }

  function DriftAt(path: Path, sums: map<Path, Checksum>): Error
  {
    if path in sums then Mismatch(path) else NotInArchive(path)
  }

  /** The comparison so far: `drift` and `mismatches` are those of the paths in `done`. */
  ghost predicate Compared(drift: seq<Error>, mismatches: nat, done: set<Path>, entries: map<Path, Entry>,
                           sums: map<Path, Checksum>)
  {
    && (forall error :: error in drift <==> IsDrift(error, done, entries, sums))
    && mismatches == |set path | path in done && Differs(path, entries, sums)|
  }

  /** Compares every entry of the baseline with the checksum its path has now. */
  method Compare(entries: map<Path, Entry>, sums: map<Path, Checksum>) returns (drift: seq<Error>, mismatches: nat)
    ensures forall error :: error in drift <==> IsDrift(error, entries.Keys, entries, sums)
    ensures mismatches == |Mismatched(entries, sums)|
  {
    hide Differs, IsDrift, Compared, DriftAt, Mismatched;
    drift, mismatches := [], 0;
    var left := entries.Keys;
    ComparedNothing(entries, sums);
    while left != {}
      invariant left <= entries.Keys
      invariant Compared(drift, mismatches, entries.Keys - left, entries, sums)
    {
      var path :| path in left;
      ghost var done := entries.Keys - left;
      ComparedOne(drift, mismatches, done, path, entries, sums);
      left := left - {path};
      assert entries.Keys - left == done + {path};
      if Differs(path, entries, sums) {
        drift := drift + [DriftAt(path, sums)];
        mismatches := mismatches + 1;
      }
    }
    assert entries.Keys - left == entries.Keys;
    ComparedAll(drift, mismatches, entries, sums);
  }

  lemma ComparedNothing(entries: map<Path, Entry>, sums: map<Path, Checksum>)
    ensures Compared([], 0, entries.Keys - entries.Keys, entries, sums)
  {
    hide Differs;
    var none: set<Path> := {};
    assert (set path | path in none && Differs(path, entries, sums)) == none;
    assert entries.Keys - entries.Keys == none;
  }

  lemma ComparedAll(drift: seq<Error>, mismatches: nat, entries: map<Path, Entry>, sums: map<Path, Checksum>)
    requires Compared(drift, mismatches, entries.Keys, entries, sums)
    ensures forall error :: error in drift <==> IsDrift(error, entries.Keys, entries, sums)
    ensures mismatches == |Mismatched(entries, sums)|
  {
    hide Differs, IsDrift;
    assert (set path | path in entries.Keys && Differs(path, entries, sums)) == Mismatched(entries, sums);
  }

  lemma ComparedOne(drift: seq<Error>, mismatches: nat, done: set<Path>, path: Path, entries: map<Path, Entry>,
                    sums: map<Path, Checksum>)
    requires Compared(drift, mismatches, done, entries, sums) && path !in done
    ensures if Differs(path, entries, sums)
            then Compared(drift + [DriftAt(path, sums)], mismatches + 1, done + {path}, entries, sums)
            else Compared(drift, mismatches, done + {path}, entries, sums)
  {
    hide Differs;
    var before := set p | p in done && Differs(p, entries, sums);
    var after := set p | p in done + {path} && Differs(p, entries, sums);
    if Differs(path, entries, sums) {
      assert after == before + {path};
    } else {
      assert after == before;
    }
  }

  lemma TheseAreTheErrors(manifest: Manifest, archive: Archive, fromIndex: seq<Error>, missing: seq<Error>,
                          drift: seq<Error>)
    requires archive.Archive? && AllReadable(archive)
    requires forall error :: error in fromIndex <==> IsFromIndex(error, archive)
    requires forall error :: error in missing <==> IsMissing(error, archive.paths, archive)
    requires forall error :: error in drift <==> IsManifestError(error, manifest, archive)
    ensures AreErrors(fromIndex + missing + drift, manifest, archive)
  {
    hide IsFromIndex, IsMissing, IsManifestError;
  }

  /** There is nothing to report exactly when the run accepts the archive. */
  lemma PassesWithoutErrors(manifest: Manifest, archive: Archive, errors: seq<Error>)
    requires archive.Archive? && AllReadable(archive) && AreErrors(errors, manifest, archive)
    ensures errors == [] <==> Accepts(manifest, archive)
  {
    if errors == [] {
      NoErrorAccepts(manifest, archive, errors);
    } else {
      OneErrorRefuses(manifest, archive, errors[0]);
      assert errors[0] in errors;
    }
  }

  lemma SomeIndexError(archive: Archive)
    requires archive.Archive?
    ensures archive.verifyErrors != [] || archive.collectionErrors != [] ==>
              exists message :: IsFromIndex(FromIndex(message), archive)
  {
    if archive.verifyErrors != [] {
      assert IsFromIndex(FromIndex(archive.verifyErrors[0]), archive);
    } else if archive.collectionErrors != [] {
      assert IsFromIndex(FromIndex(archive.collectionErrors[0]), archive);
    }
  }

  lemma NoErrorAccepts(manifest: Manifest, archive: Archive, errors: seq<Error>)
    requires archive.Archive? && AllReadable(archive) && AreErrors(errors, manifest, archive) && errors == []
    ensures Accepts(manifest, archive)
  {
    SomeIndexError(archive);
    forall path | path in archive.paths ensures path in archive.files {
      assert !IsMissing(FileMissing(path), archive.paths, archive);
    }
    assert !manifest.Unreadable? by {
      assert !IsManifestError(ManifestUnreadable, manifest, archive);
    }
    assert !manifest.NotAnObject? by {
      assert !IsManifestError(ManifestInvalid, manifest, archive);
    }
    if manifest.Baseline? {
      var sums := Checksums(archive);
      forall path | path in Mismatched(manifest.entries, sums) ensures false {
        assert IsManifestError(DriftAt(path, sums), manifest, archive);
      }
    }
  }

  lemma OneErrorRefuses(manifest: Manifest, archive: Archive, error: Error)
    requires archive.Archive? && AllReadable(archive)
    requires IsFromIndex(error, archive) || IsMissing(error, archive.paths, archive)
          || IsManifestError(error, manifest, archive)
    ensures !Accepts(manifest, archive)
  {
    if IsManifestError(error, manifest, archive) && manifest.Baseline? {
      assert error.path in Mismatched(manifest.entries, Checksums(archive));
    }
  }

  // ---------- Any sequence of runs ----------

  function AfterRuns(manifest: Manifest, runs: seq<Archive>): Manifest
  {
    if runs == [] then manifest
    else Next(AfterRuns(manifest, runs[..|runs| - 1]), runs[|runs| - 1])
  }

  predicate Baselines(manifest: Manifest, path: Path, checksum: Checksum)
  {
    manifest.Baseline? && path in manifest.entries && manifest.entries[path] == Sum(checksum)
  }

  lemma RunKeepsChecksum(manifest: Manifest, archive: Archive, path: Path, checksum: Checksum)
    requires Baselines(manifest, path, checksum)
    ensures Baselines(Next(manifest, archive), path, checksum)
    ensures Accepts(manifest, archive) ==> path in archive.paths && path in archive.files
                                           && archive.files[path] == Some(checksum)
  {
    if Accepts(manifest, archive) {
      var sums := Checksums(archive);
      assert path !in Mismatched(manifest.entries, sums);
      assert !Differs(path, manifest.entries, sums);
    }
  }

  /** Whatever happens to the archive, a path keeps the checksum it was first recorded with. */
  lemma {:induction false} FirstChecksumIsKept(manifest: Manifest, runs: seq<Archive>, k: nat, path: Path,
                                               checksum: Checksum)
    requires k <= |runs| && Baselines(AfterRuns(manifest, runs[..k]), path, checksum)
    ensures Baselines(AfterRuns(manifest, runs), path, checksum)
  {
    hide Next, Baselines;
    if k < |runs| {
      var before := runs[..|runs| - 1];
      assert before[..k] == runs[..k];
      FirstChecksumIsKept(manifest, before, k, path, checksum);
      RunKeepsChecksum(AfterRuns(manifest, before), runs[|runs| - 1], path, checksum);
    } else {
      assert runs[..k] == runs;
    }
  }

  /** A run in which a baselined path is gone or has changed fails, and leaves the manifest as it was. */
  lemma DriftFailsTheRun(manifest: Manifest, runs: seq<Archive>, k: nat, path: Path, checksum: Checksum)
    requires k < |runs| && Baselines(AfterRuns(manifest, runs[..k]), path, checksum)
    requires runs[k].Archive? ==>
               path !in runs[k].paths || path !in runs[k].files || runs[k].files[path] != Some(checksum)
    ensures !Accepts(AfterRuns(manifest, runs[..k]), runs[k])
    ensures AfterRuns(manifest, runs[..k + 1]) == AfterRuns(manifest, runs[..k])
  {
    hide Checksums, Mismatched;
    RunKeepsChecksum(AfterRuns(manifest, runs[..k]), runs[k], path, checksum);
    assert runs[..k + 1][..k] == runs[..k];
  }

  /** A manifest that cannot be read, or holds no baseline, fails every run and is never written again. */
  lemma {:induction false} BrokenIsNeverRepaired(manifest: Manifest, runs: seq<Archive>, k: nat)
    requires manifest.Unreadable? || manifest.NotAnObject?
    requires k < |runs|
    ensures AfterRuns(manifest, runs) == manifest
    ensures !Accepts(AfterRuns(manifest, runs[..k]), runs[k])
    decreases |runs|
  {
    var before := runs[..|runs| - 1];
    if k < |before| {
      BrokenIsNeverRepaired(manifest, before, k);
      assert before[..k] == runs[..k];
    } else if k > 0 {
      BrokenIsNeverRepaired(manifest, before, k - 1);
    } else {
      assert before == [];
    }
    assert k == |before| ==> runs[..k] == before;
  }

  // ---------- The index is in the baseline too ----------

  /** The index is a file of the archive, and what it lists is a function of what it holds, which its checksum tells. */
  ghost predicate IndexDecides(index: Path, listed: Checksum -> set<Path>, archive: Archive)
  {
    archive.Archive? ==>
      && index in archive.paths && index in archive.files
      && (archive.files[index].Some? ==> archive.paths == listed(archive.files[index].value))
  }

  ghost predicate FromIndexOf(index: Path, listed: Checksum -> set<Path>, manifest: Manifest)
  {
    && manifest.Baseline? && index in manifest.entries && manifest.entries[index].Sum?
    && manifest.entries.Keys == listed(manifest.entries[index].checksum)
    && forall path :: path in manifest.entries ==> manifest.entries[path].Sum?
  }

  lemma RecordedIsFromIndex(index: Path, listed: Checksum -> set<Path>, manifest: Manifest, archive: Archive)
    requires IndexDecides(index, listed, archive) && Accepts(manifest, archive)
    ensures FromIndexOf(index, listed, Next(manifest, archive))
  {
    assert Checksums(archive).Keys == archive.paths;
  }

  lemma FromIndexIsFixed(index: Path, listed: Checksum -> set<Path>, manifest: Manifest, archive: Archive)
    requires IndexDecides(index, listed, archive) && FromIndexOf(index, listed, manifest)
    ensures Next(manifest, archive) == manifest
  {
    if Accepts(manifest, archive) {
      var sums := Checksums(archive);
      RunKeepsChecksum(manifest, archive, index, manifest.entries[index].checksum);
      assert sums.Keys == archive.paths == manifest.entries.Keys;
      forall path | path in sums ensures manifest.entries[path] == Sum(sums[path]) {
        assert path !in Mismatched(manifest.entries, sums);
        assert !Differs(path, manifest.entries, sums);
      }
    }
  }

  /**
   The baseline covers the index itself, so the first passing run fixes it: no later run records another path or another
   checksum, even when files were properly added to the archive and its index.
  */
  lemma {:induction false} FirstBaselineIsTheLast(index: Path, listed: Checksum -> set<Path>, runs: seq<Archive>,
                                                  k: nat)
    requires forall i :: 0 <= i < |runs| ==> IndexDecides(index, listed, runs[i])
    requires k <= |runs|
    ensures var first := AfterRuns(Missing, runs[..k]);
            first.Missing? || (FromIndexOf(index, listed, first) && AfterRuns(Missing, runs) == first)
    decreases |runs|
  {
    hide IndexDecides, FromIndexOf, Next;
    if runs == [] {
    } else if k < |runs| {
      var before := runs[..|runs| - 1];
      assert before[..k] == runs[..k];
      FirstBaselineIsTheLast(index, listed, before, k);
      if !AfterRuns(Missing, runs[..k]).Missing? {
        FromIndexIsFixed(index, listed, AfterRuns(Missing, before), runs[|runs| - 1]);
      }
    } else {
      LastRunStarts(index, listed, runs);
      assert runs[..k] == runs;
    }
  }

  lemma {:induction false} LastRunStarts(index: Path, listed: Checksum -> set<Path>, runs: seq<Archive>)
    requires forall i :: 0 <= i < |runs| ==> IndexDecides(index, listed, runs[i])
    ensures AfterRuns(Missing, runs).Missing? || FromIndexOf(index, listed, AfterRuns(Missing, runs))
  {
    hide IndexDecides, FromIndexOf;
    if runs != [] {
      var before, last := runs[..|runs| - 1], runs[|runs| - 1];
      LastRunStarts(index, listed, before);
      if Accepts(AfterRuns(Missing, before), last) {
        RecordedIsFromIndex(index, listed, AfterRuns(Missing, before), last);
      }
    }
  }

  // ---------- The same, path by path ----------

  /** The archive still holds the file that the baseline records at `path`, or the baseline records no text there. */
  predicate Kept(path: Path, entry: Entry, archive: Archive)
    requires archive.Archive?
  {
    entry.Sum? ==> path in archive.paths && path in archive.files && archive.files[path] == Some(entry.checksum)
  }

  /** A run accepts exactly when every listed file can be read and every recorded one is what it was. */
  lemma AcceptsExactly(manifest: Manifest, archive: Archive)
    ensures Accepts(manifest, archive) <==>
              && archive.Archive? && archive.verifyErrors == [] && archive.collectionErrors == []
              && (forall path :: path in archive.paths ==> path in archive.files && archive.files[path].Some?)
              && (manifest.Missing? ||
                  (manifest.Baseline? && forall path :: path in manifest.entries ==>
                     Kept(path, manifest.entries[path], archive)))
  {
    if archive.Archive? && AllReadable(archive) && manifest.Baseline? {
      forall path | path in manifest.entries
        ensures path in Mismatched(manifest.entries, Checksums(archive))
                <==> !Kept(path, manifest.entries[path], archive)
      {
      }
    }
  }

  /** The baseline that an accepting run writes: the checksum of every listed file, and nothing else. */
  lemma RecordsExactly(manifest: Manifest, archive: Archive)
    requires Accepts(manifest, archive)
    ensures var next := Next(manifest, archive);
            && next.Baseline? && next.entries.Keys == archive.paths
            && forall path :: path in archive.paths ==>
                 && path in archive.files && archive.files[path].Some?
                 && next.entries[path] == Sum(archive.files[path].value)
  {
  }

  /** What each kind of error reports. */
  predicate IsReported(error: Error, manifest: Manifest, archive: Archive)
    requires archive.Archive?
  {
    match error
    case FromIndex(message) => message in archive.verifyErrors || message in archive.collectionErrors
    case FileMissing(path) => path in archive.paths && path !in archive.files
    case NotInArchive(path) =>
      && manifest.Baseline? && path in manifest.entries && manifest.entries[path].Sum?
      && !(path in archive.paths && path in archive.files)
    case Mismatch(path) =>
      && manifest.Baseline? && path in manifest.entries && manifest.entries[path].Sum?
      && path in archive.paths && path in archive.files
      && archive.files[path] != Some(manifest.entries[path].checksum)
    case ManifestInvalid => manifest.NotAnObject?
    case ManifestUnreadable => manifest.Unreadable?
  }

  lemma ErrorIsReported(error: Error, manifest: Manifest, archive: Archive)
    requires archive.Archive? && AllReadable(archive)
    ensures IsReported(error, manifest, archive) <==>
              || IsFromIndex(error, archive) || IsMissing(error, archive.paths, archive)
              || IsManifestError(error, manifest, archive)
  {
  }

  lemma MismatchesCounted(manifest: Manifest, archive: Archive)
    requires archive.Archive? && AllReadable(archive)
    ensures MismatchCount(manifest, archive)
            == if manifest.Baseline?
               then |set path | path in manifest.entries && !Kept(path, manifest.entries[path], archive)| else 0
  {
    if manifest.Baseline? {
      assert Mismatched(manifest.entries, Checksums(archive))
             == set path | path in manifest.entries && !Kept(path, manifest.entries[path], archive);
    }
  }

  /** The errors of a run are exactly what there is to report, and the mismatches count what is not kept. */
  lemma ErrorsExactly(manifest: Manifest, archive: Archive, errors: seq<Error>)
    requires archive.Archive? && AllReadable(archive) && AreErrors(errors, manifest, archive)
    ensures forall error :: error in errors <==> IsReported(error, manifest, archive)
    ensures MismatchCount(manifest, archive)
            == if manifest.Baseline?
               then |set path | path in manifest.entries && !Kept(path, manifest.entries[path], archive)| else 0
  {
    hide IsReported, IsFromIndex, IsMissing, IsManifestError, Kept;
    forall error ensures error in errors <==> IsReported(error, manifest, archive) {
      ErrorIsReported(error, manifest, archive);
    }
    MismatchesCounted(manifest, archive);
  }
}
