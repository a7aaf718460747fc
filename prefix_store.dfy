/**
 * `PrefixPackageStore`: a tarball package store rooted at a prefix directory,
 * whose installed packages are recorded in the ledger.
 *
 * What the store asks of the repository index (`resolve_payload`), of the
 * download cache and of the version comparison (`cmp::cmp`) comes in as
 * parameters; the archive's entries come in as a list.
 */
module PrefixStore {
  import opened Common
  import opened FileSystem
  import opened Ledger

  datatype PackageStatus = NotInstalled | UpToDate | RequiresUpdate

  /** Why the repository could not resolve a payload for a key. */
  datatype PayloadError = PayloadError(reason: string)

  datatype InstallError = Payload(cause: PayloadError) | WrongPayloadType | PackageNotInCache

  datatype UninstallError = NotInstalled

  datatype PackageStatusError = Payload(cause: PayloadError) | WrongPayloadType

  /** The installer a release carries for a target platform. */
  datatype Payload = TarballPackage(url: string) | WindowsExecutable(url: string) | MacOSPackage(url: string)

  /** A release's target: its payload and its dependency map (package id, version range) in iteration order. */
  datatype Target = Target(payload: Payload, dependencies: seq<(string, string)>)

  datatype Release = Release(version: string)

  datatype Package = Package(id: string)

  /** What `resolve_payload` returns on success. */
  datatype Resolution = Resolution(target: Target, release: Release, package: Package)

  /** One archive entry: the path it is recorded under and whether `unpack_in` wrote it. */
  datatype TarEntry = TarEntry(path: string, unpacked: bool)

  // ---------------------------------------------------------------------------
  // install
  // ---------------------------------------------------------------------------

  /**
   * The checks `install` makes before it writes anything: the payload must resolve,
   * must be a tarball, and its download must be in the cache.
   */
  function CheckInstallable(resolved: Result<Resolution, PayloadError>, cached: set<string>)
    : (r: Result<Resolution, InstallError>)
    ensures r.Ok? <==> resolved.Ok? && resolved.value.target.payload.TarballPackage?
                       && resolved.value.target.payload.url in cached
    ensures r.Ok? ==> r.value == resolved.value
    ensures resolved.Err? ==> r == Err(InstallError.Payload(resolved.error))
    ensures resolved.Ok? && !resolved.value.target.payload.TarballPackage? ==> r == Err(InstallError.WrongPayloadType)
    ensures resolved.Ok? && resolved.value.target.payload.TarballPackage? && resolved.value.target.payload.url !in cached
            ==> r == Err(InstallError.PackageNotInCache)
  {
    match resolved
    case Err(e) => Err(InstallError.Payload(e))
    case Ok(resolution) =>
      match resolution.target.payload
      case TarballPackage(url) =>
        if url !in cached then Err(InstallError.PackageNotInCache) else Ok(resolution)
      case _ => Err(InstallError.WrongPayloadType)
  }

  /** The paths of the entries `unpack_in` wrote, in archive order. */
  function UnpackedPaths(entries: seq<TarEntry>): (files: seq<string>)
    ensures |files| <= |entries|
    ensures forall f :: f in files <==> exists k | 0 <= k < |entries| :: entries[k].unpacked && entries[k].path == f
  {
    if entries == [] then []
    else
      var last := entries[|entries| - 1];
      var front := entries[..|entries| - 1];
      assert forall k | 0 <= k < |front| :: front[k] == entries[k];
      UnpackedPaths(front) + (if last.unpacked then [last.path] else [])
  }

  /** The `for entry in tar_file.entries()` loop of `install`: collect what was unpacked. */
  method CollectUnpackedFiles(entries: seq<TarEntry>) returns (files: seq<string>)
    ensures files == UnpackedPaths(entries)
  {
    files := [];
    var i := 0;
    while i < |entries|
      invariant i <= |entries|
      invariant files == UnpackedPaths(entries[..i])
    {
      assert entries[..i + 1][..i] == entries[..i];
      if entries[i].unpacked {
        files := files + [entries[i].path];
      }
      i := i + 1;
    }
    assert entries[..i] == entries;
  }

  /** The keys of a dependency map, in its iteration order. */
  function DependencyKeys(dependencies: seq<(string, string)>): (ids: seq<string>)
    ensures |ids| == |dependencies|
    ensures forall k | 0 <= k < |ids| :: ids[k] == dependencies[k].0
    ensures forall id :: id in ids <==> exists range :: (id, range) in dependencies
  {
    if dependencies == [] then []
    else [dependencies[0].0] + DependencyKeys(dependencies[1..])
  }

  /** The record `install` saves: always id 0, the key's url, the release version. */
  function InstallRecord(key: PackageKey, resolution: Resolution, entries: seq<TarEntry>): (record: SavedRecord)
    ensures record.id == 0 && record.url == key.url && record.version == resolution.release.version
    ensures forall f :: f in record.files <==> exists k | 0 <= k < |entries| :: entries[k].unpacked && entries[k].path == f
    ensures |record.dependencies| == |resolution.target.dependencies|
    ensures forall id :: id in record.dependencies <==> exists range :: (id, range) in resolution.target.dependencies
  {
    PackageDbRecord(0, key.url, resolution.release.version, UnpackedPaths(entries),
                    DependencyKeys(resolution.target.dependencies))
  }

  // ---------------------------------------------------------------------------
  // uninstall: the two passes over the recorded files
  // ---------------------------------------------------------------------------

  /** The paths under `dir` that the recorded files name. */
  function RecordedPaths(dir: Path, files: seq<string>): set<Path>
  {
    set k | 0 <= k < |files| :: Join(dir, files[k])
  }

  /** The recorded paths of a list are those of its front and the path of its last name. */
  lemma RecordedPathsOfPrefix(dir: Path, files: seq<string>)
    requires files != []
    ensures RecordedPaths(dir, files)
         == RecordedPaths(dir, files[..|files| - 1]) + {Join(dir, files[|files| - 1])}
  {
    var front := files[..|files| - 1];
    forall p | p in RecordedPaths(dir, front)
      ensures p in RecordedPaths(dir, files)
    {
      var k :| 0 <= k < |front| && Join(dir, front[k]) == p;
      assert files[k] == front[k];
    }
    forall p | p in RecordedPaths(dir, files)
      ensures p in RecordedPaths(dir, front) + {Join(dir, files[|files| - 1])}
    {
      var k :| 0 <= k < |files| && Join(dir, files[k]) == p;
      if k < |front| { assert front[k] == files[k]; }
    }
  }

  /** One iteration of the first loop: remove what the path resolves to unless it is a directory. */
  function RemoveFileStep(fs: Fs, p: Path): (r: Fs)
    ensures IsSubmap(r, fs)
    ensures forall q | q in fs && q != p :: q in r
    ensures p in r <==> p in fs && fs[p] == Dir
  {
    match Canonicalize(fs, p)
    case None => fs
    case Some(file) => if fs[file] == Dir then fs else fs - {file}
  }

  /** One iteration of the second loop: remove what the path resolves to if it is an empty directory. */
  function RemoveDirStep(fs: Fs, p: Path): (r: Fs)
    ensures IsSubmap(r, fs)
    ensures forall q | q in fs && q != p :: q in r
    ensures p in r <==> p in fs && !IsEmptyDir(fs, p)
  {
    match Canonicalize(fs, p)
    case None => fs
    case Some(file) => if fs[file] != Dir then fs else if IsEmptyDir(fs, file) then fs - {file} else fs
  }

  /** The first pass over the recorded files, in order. */
  function RemoveFilesPass(fs: Fs, dir: Path, files: seq<string>): (r: Fs)
    ensures IsSubmap(r, fs)
    ensures forall q | q in fs && q !in RecordedPaths(dir, files) :: q in r
    decreases |files|
  {
    if files == [] then fs
    else
      RecordedPathsOfPrefix(dir, files);
      RemoveFileStep(RemoveFilesPass(fs, dir, files[..|files| - 1]), Join(dir, files[|files| - 1]))
  }

  /** The second pass over the recorded files, in order. */
  function RemoveEmptyDirsPass(fs: Fs, dir: Path, files: seq<string>): (r: Fs)
    ensures IsSubmap(r, fs)
    ensures forall q | q in fs && q !in RecordedPaths(dir, files) :: q in r
    decreases |files|
  {
    if files == [] then fs
    else
      RecordedPathsOfPrefix(dir, files);
      RemoveDirStep(RemoveEmptyDirsPass(fs, dir, files[..|files| - 1]), Join(dir, files[|files| - 1]))
  }

  /**
   * The first pass only removes entries, only plain files, and only recorded ones;
   * afterwards every recorded path that still resolves is a directory.
   */
  lemma {:induction false} RemoveFilesPassSpec(fs: Fs, dir: Path, files: seq<string>)
    ensures IsSubmap(RemoveFilesPass(fs, dir, files), fs)
    ensures forall p | p in fs && p !in RemoveFilesPass(fs, dir, files) ::
              fs[p] == File && p in RecordedPaths(dir, files)
    ensures forall p | p in RecordedPaths(dir, files) && p in RemoveFilesPass(fs, dir, files) ::
              RemoveFilesPass(fs, dir, files)[p] == Dir
    decreases |files|
  {
    if files != [] {
      var front := files[..|files| - 1];
      var last := Join(dir, files[|files| - 1]);
      RemoveFilesPassSpec(fs, dir, front);
      RecordedPathsOfPrefix(dir, files);
    }
  }

  /**
   * The second pass only removes recorded directories, and it removes one only when
   * nothing is left inside it: no entry that survives lies within a removed directory.
   */
  lemma {:induction false} RemoveEmptyDirsPassSpec(fs: Fs, dir: Path, files: seq<string>)
    ensures IsSubmap(RemoveEmptyDirsPass(fs, dir, files), fs)
    ensures forall p | p in fs && p !in RemoveEmptyDirsPass(fs, dir, files) ::
              fs[p] == Dir && p in RecordedPaths(dir, files)
    ensures forall p, q | p in fs && p !in RemoveEmptyDirsPass(fs, dir, files)
                          && q in RemoveEmptyDirsPass(fs, dir, files) :: !Within(p, q)
    decreases |files|
  {
    if files != [] {
      var front := files[..|files| - 1];
      RemoveEmptyDirsPassSpec(fs, dir, front);
      RecordedPathsOfPrefix(dir, files);
    }
  }

  /** The second pass removes every recorded path that is an empty directory when it starts. */
  lemma {:induction false} RemoveEmptyDirsPassRemoves(fs: Fs, dir: Path, files: seq<string>, p: Path)
    requires p in RecordedPaths(dir, files) && p in fs && IsEmptyDir(fs, p)
    ensures p !in RemoveEmptyDirsPass(fs, dir, files)
    decreases |files|
  {
    var front := files[..|files| - 1];
    var middle := RemoveEmptyDirsPass(fs, dir, front);
    RecordedPathsOfPrefix(dir, files);
    if p in RecordedPaths(dir, front) {
      RemoveEmptyDirsPassRemoves(fs, dir, front, p);
    } else if p in middle {
      assert p == Join(dir, files[|files| - 1]);
      forall q | q in middle
        ensures !Within(p, q)
      {
        assert q in fs;
      }
      assert IsEmptyDir(middle, p);
    }
  }

  /**
   * After both passes, a recorded directory is gone when everything inside it was a
   * recorded plain file: the first pass empties it and the second removes it.
   */
  lemma UninstallRemovesEmptiedDir(fs: Fs, dir: Path, files: seq<string>, p: Path)
    requires p in RecordedPaths(dir, files) && p in fs && fs[p] == Dir
    requires forall q | q in fs && Within(p, q) :: fs[q] == File && q in RecordedPaths(dir, files)
    ensures p !in RemoveEmptyDirsPass(RemoveFilesPass(fs, dir, files), dir, files)
  {
    var middle := RemoveFilesPass(fs, dir, files);
    RemoveFilesPassSpec(fs, dir, files);
    forall q | q in middle
      ensures !Within(p, q)
    {
      assert q in fs && middle[q] == fs[q];
    }
    RemoveEmptyDirsPassRemoves(middle, dir, files, p);
  }

  /**
   * The second pass visits the recorded paths once, in record order, so a directory
   * recorded before a sub-directory is still non-empty when it is visited and stays,
   * empty, after the sub-directory is removed.
   */
  lemma NestedDirectorySurvives()
    ensures var fs := map["/p/a" := Dir, "/p/a/b" := Dir];
            var after := RemoveEmptyDirsPass(fs, "/p", ["a", "a/b"]);
            after == map["/p/a" := Dir] && IsEmptyDir(after, "/p/a")
  {
    var fs := map["/p/a" := Dir, "/p/a/b" := Dir];
    var files := ["a", "a/b"];
    assert files[..1] == ["a"] && files[..1][..0] == [];
    assert Join("/p", "a") == "/p/a" && Join("/p", "a/b") == "/p/a/b";
    assert Within("/p/a", "/p/a/b");
    var middle := RemoveEmptyDirsPass(fs, "/p", ["a"]);
    assert middle == fs;
    assert IsEmptyDir(middle, "/p/a/b");
    assert middle - {"/p/a/b"} == map["/p/a" := Dir];
  }

  /**
   * What `uninstall` leaves on disk: a part of what was there; every entry outside the
   * recorded paths untouched; no recorded plain file; and no entry inside a directory
   * it removed.
   */
  lemma UninstallPassesSpec(fs: Fs, dir: Path, files: seq<string>)
    ensures var after := RemoveEmptyDirsPass(RemoveFilesPass(fs, dir, files), dir, files);
            IsSubmap(after, fs)
            && (forall p | p in fs && p !in RecordedPaths(dir, files) :: p in after)
            && (forall p | p in RecordedPaths(dir, files) && p in after :: after[p] == Dir)
            && (forall p, q | p in fs && fs[p] == Dir && p !in after && q in after :: !Within(p, q))
  {
    var middle := RemoveFilesPass(fs, dir, files);
    RemoveFilesPassSpec(fs, dir, files);
    RemoveEmptyDirsPassSpec(middle, dir, files);
  }

  // ---------------------------------------------------------------------------
  // status
  // ---------------------------------------------------------------------------

  /** `status` given what `find_by_id` returned. */
  function StatusOf(found: Option<LoadedRecord>, resolved: Result<Resolution, PayloadError>,
                    compare: (string, string) -> Result<PackageStatus, PackageStatusError>)
    : (r: Result<PackageStatus, PackageStatusError>)
    ensures found.None? ==> r == Ok(PackageStatus.NotInstalled)
    ensures found.Some? && resolved.Err? ==> r == Err(PackageStatusError.Payload(resolved.error))
    ensures found.Some? && resolved.Ok? && !resolved.value.target.payload.TarballPackage?
            ==> r == Err(PackageStatusError.WrongPayloadType)
    ensures found.Some? && resolved.Ok? && resolved.value.target.payload.TarballPackage?
            ==> r == compare(found.value.version, resolved.value.release.version)
  {
    match found
    case None => Ok(PackageStatus.NotInstalled)
    case Some(record) =>
      match resolved
      case Err(e) => Err(PackageStatusError.Payload(e))
      case Ok(resolution) =>
        if !resolution.target.payload.TarballPackage? then Err(PackageStatusError.WrongPayloadType)
        else compare(record.version, resolution.release.version)
  }

  /**
   * After an install that passed its checks, and when no other `packages` row carries
   * the key's url, `status` compares the release version with itself.
   */
  lemma StatusAfterInstall(packages: map<int, PackageRow>, dependencyRows: seq<ChildRow<DependencyId>>,
                           fileRows: seq<ChildRow<string>>, key: PackageKey,
                           resolution: Resolution, cached: set<string>, entries: seq<TarEntry>,
                           compare: (string, string) -> Result<PackageStatus, PackageStatusError>)
    requires CheckInstallable(Ok(resolution), cached).Ok?
    requires forall id | id in packages && id != 0 :: packages[id].url != key.url
    ensures var record := InstallRecord(key, resolution, entries);
            var packages' := packages[0 := PackageRow(key.url, resolution.release.version)];
            var found := Lookup(packages', DropFor(dependencyRows, 0)
                                           + RowsFor(0, ResolveUrls(packages', record.dependencies)),
                                DropFor(fileRows, 0) + RowsFor(0, record.files), key.url);
            found.Some? && found.value.files == UnpackedPaths(entries)
            && StatusOf(found, Ok(resolution), compare)
               == compare(resolution.release.version, resolution.release.version)
  {
    LookupAfterReplace(packages, dependencyRows, fileRows, InstallRecord(key, resolution, entries));
  }

  /** After an uninstall removed row 0, a url no other row carries reports `NotInstalled`. */
  lemma StatusAfterUninstall(packages: map<int, PackageRow>, dependencyRows: seq<ChildRow<DependencyId>>,
                             fileRows: seq<ChildRow<string>>, key: PackageKey,
                             resolved: Result<Resolution, PayloadError>,
                             compare: (string, string) -> Result<PackageStatus, PackageStatusError>)
    requires forall id | id in packages && id != 0 :: packages[id].url != key.url
    ensures StatusOf(Lookup(packages - {0}, DropFor(dependencyRows, 0), DropFor(fileRows, 0), key.url),
                     resolved, compare) == Ok(PackageStatus.NotInstalled)
  {
    LookupAfterRemove(packages, dependencyRows, fileRows, 0, key.url);
  }

  /**
   * Every save uses id 0, so in a ledger that holds nothing but row 0, installing one
   * package makes every other url unknown to `find_by_id`.
   */
  lemma InstallReplacesTheOnlyRow(packages: map<int, PackageRow>, dependencyRows: seq<ChildRow<DependencyId>>,
                                  fileRows: seq<ChildRow<string>>, key: PackageKey, version: string,
                                  otherUrl: string)
    requires packages.Keys <= {0}
    requires otherUrl != key.url
    ensures var packages' := packages[0 := PackageRow(key.url, version)];
            packages'.Keys == {0}
            && Lookup(packages', dependencyRows, fileRows, otherUrl).None?
  {
    var packages' := packages[0 := PackageRow(key.url, version)];
    forall id | id in packages'
      ensures packages'[id].url != otherUrl
    {
      assert id == 0;
    }
  }

  /**
   * Every save uses id 0 and the dependency sub-select runs after the `packages` row is
   * replaced, so in a ledger that holds nothing but row 0, a dependency id other than
   * the package's own url is stored as NULL.
   */
  lemma InstallStoresNullDependencies(packages: map<int, PackageRow>, key: PackageKey,
                                      resolution: Resolution, entries: seq<TarEntry>, k: nat)
    requires packages.Keys <= {0}
    requires k < |resolution.target.dependencies| && resolution.target.dependencies[k].0 != key.url
    ensures var record := InstallRecord(key, resolution, entries);
            var packages' := packages[0 := PackageRow(key.url, resolution.release.version)];
            ResolveUrls(packages', record.dependencies)[k] == None
  {
    var record := InstallRecord(key, resolution, entries);
    var packages' := packages[0 := PackageRow(key.url, resolution.release.version)];
    assert record.dependencies[k] == resolution.target.dependencies[k].0;
    forall id | id in packages'
      ensures packages'[id].url != record.dependencies[k]
    {
      assert id == 0;
    }
  }

  // ---------------------------------------------------------------------------
  // The store
  // ---------------------------------------------------------------------------

  class PrefixPackageStore {
    /** The canonical prefix directory. */
    const prefix: Path
    /** The ledger database of this prefix. */
    const ledger: Ledger
    /** The entries on disk that the store reads and removes. */
    var fs: Fs

    constructor (prefix: Path, ledger: Ledger, fs: Fs)
      ensures this.prefix == prefix && this.ledger == ledger && this.fs == fs
    {
      this.prefix := prefix;
      this.ledger := ledger;
      this.fs := fs;
    }

    /** `package_dir`: `<prefix>/pkg/<package id>`, strictly inside the prefix. */
    function PackageDir(packageId: string): (dir: Path)
      ensures Within(prefix, dir)
      ensures dir[|prefix| + 1..] == "pkg/" + packageId
    {
      Join(Join(prefix, "pkg"), packageId)
    }

    /** Two packages never share a package directory. */
    lemma PackageDirInjective(a: string, b: string)
      requires PackageDir(a) == PackageDir(b)
      ensures a == b
    {
      JoinInjective(Join(prefix, "pkg"), a, b);
    }

    /**
     * `install`: reject a failed resolution, a non-tarball payload or a download that is
     * not cached, leaving the ledger untouched; otherwise record the unpacked files and the
     * dependency ids under id 0 and report `UpToDate`.
     */
    method Install(key: PackageKey, resolved: Result<Resolution, PayloadError>, cached: set<string>,
                   entries: seq<TarEntry>)
      returns (r: Result<PackageStatus, InstallError>)
      modifies ledger
      ensures CheckInstallable(resolved, cached).Err? ==>
                r == Err(CheckInstallable(resolved, cached).error) && unchanged(ledger)
      ensures resolved.Ok? && resolved.value.target.payload.TarballPackage? && resolved.value.target.payload.url !in cached
              ==> r == Err(InstallError.PackageNotInCache)
      ensures CheckInstallable(resolved, cached).Ok? ==>
                var record := InstallRecord(key, resolved.value, entries);
                r == Ok(PackageStatus.UpToDate)
                && ledger.packages == old(ledger.packages)[0 := PackageRow(key.url, resolved.value.release.version)]
                && ledger.dependencyRows == DropFor(old(ledger.dependencyRows), 0)
                                            + RowsFor(0, ResolveUrls(ledger.packages, record.dependencies))
                && ledger.fileRows == DropFor(old(ledger.fileRows), 0) + RowsFor(0, record.files)
      ensures r.Ok? ==> ledger.FindById(key).Some?
      ensures r.Ok? && (forall id | id in old(ledger.packages) && id != 0 :: old(ledger.packages)[id].url != key.url)
              ==> ledger.FindById(key).value.version == resolved.value.release.version
                  && ledger.FindById(key).value.files == UnpackedPaths(entries)
    {
      var checked := CheckInstallable(resolved, cached);
      if checked.Err? {
        return Err(checked.error);
      }
      var resolution := checked.value;
      var files := CollectUnpackedFiles(entries);
      var dependencies := DependencyKeys(resolution.target.dependencies);
      var record := PackageDbRecord(0, key.url, resolution.release.version, files, dependencies);
      Save(record, ledger);
      r := Ok(PackageStatus.UpToDate);
    }

    /** The first loop of `uninstall`: remove every recorded path that resolves to something other than a directory. */
    method RemoveRecordedFiles(dir: Path, files: seq<string>)
      modifies this
      ensures fs == RemoveFilesPass(old(fs), dir, files)
    {
      var i := 0;
      while i < |files|
        invariant i <= |files|
        invariant fs == RemoveFilesPass(old(fs), dir, files[..i])
      {
        assert files[..i + 1][..i] == files[..i];
        match Canonicalize(fs, Join(dir, files[i])) {
          case None =>
          case Some(file) =>
            if fs[file] != Dir {
              fs := fs - {file};
            }
        }
        i := i + 1;
      }
      assert files[..i] == files;
    }

    /** The second loop of `uninstall`: remove every recorded path that resolves to an empty directory. */
    method RemoveEmptyRecordedDirs(dir: Path, files: seq<string>)
      modifies this
      ensures fs == RemoveEmptyDirsPass(old(fs), dir, files)
    {
      var j := 0;
      while j < |files|
        invariant j <= |files|
        invariant fs == RemoveEmptyDirsPass(old(fs), dir, files[..j])
      {
        assert files[..j + 1][..j] == files[..j];
        match Canonicalize(fs, Join(dir, files[j])) {
          case None =>
          case Some(file) =>
            if fs[file] == Dir && IsEmptyDir(fs, file) {
              fs := fs - {file};
            }
        }
        j := j + 1;
      }
      assert files[..j] == files;
    }

    /**
     * `uninstall`: fail with `NotInstalled` and touch nothing when the key has no record;
     * otherwise run the two passes over the recorded files, then delete record 0.
     */
    method Uninstall(key: PackageKey) returns (r: Result<PackageStatus, UninstallError>)
      modifies this, ledger
      ensures old(ledger.FindById(key)).None? ==>
                r == Err(UninstallError.NotInstalled) && fs == old(fs) && unchanged(ledger)
      ensures old(ledger.FindById(key)).Some? ==>
                var files := old(ledger.Files(key.url));
                r == Ok(PackageStatus.NotInstalled)
                && fs == RemoveEmptyDirsPass(RemoveFilesPass(old(fs), PackageDir(key.id), files),
                                             PackageDir(key.id), files)
                && ledger.packages == old(ledger.packages) - {0}
                && ledger.dependencyRows == DropFor(old(ledger.dependencyRows), 0)
                && ledger.fileRows == DropFor(old(ledger.fileRows), 0)
    {
      var found := ledger.FindById(key);
      if found.None? {
        return Err(UninstallError.NotInstalled);
      }
      var record := found.value;
      var dir := PackageDir(key.id);
      RemoveRecordedFiles(dir, record.files);
      RemoveEmptyRecordedDirs(dir, record.files);
      Delete(record, ledger);
      r := Ok(PackageStatus.NotInstalled);
    }

    /** `status`: `NotInstalled` without a record, else the payload checks and the version comparison. */
    function Status(key: PackageKey, resolved: Result<Resolution, PayloadError>,
                    compare: (string, string) -> Result<PackageStatus, PackageStatusError>)
      : (r: Result<PackageStatus, PackageStatusError>)
      reads ledger
      ensures ledger.Version(key.url).None? <==> ledger.FindById(key).None?
      ensures ledger.Version(key.url).None? ==> r == Ok(PackageStatus.NotInstalled)
      ensures ledger.Version(key.url).Some? && resolved.Err? ==> r == Err(PackageStatusError.Payload(resolved.error))
      ensures ledger.Version(key.url).Some? && resolved.Ok? && !resolved.value.target.payload.TarballPackage?
              ==> r == Err(PackageStatusError.WrongPayloadType)
      ensures ledger.Version(key.url).Some? && resolved.Ok? && resolved.value.target.payload.TarballPackage?
              ==> r == compare(ledger.Version(key.url).value, resolved.value.release.version)
    {
      StatusOf(ledger.FindById(key), resolved, compare)
    }
  }
}
