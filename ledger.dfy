/**
 * The installed-package ledger of a prefix: the three SQLite tables behind
 * `PackageDbConnection` and the `PackageDbRecord` operations on top of them.
 *
 *   packages               id -> (url, version)
 *   packages_dependencies  (package_id, dependency_id)
 *   packages_files         (package_id, file_path)
 *
 * `packages` is keyed by `id`. A child table is a sequence of rows in the
 * order they were inserted, which is the order a `SELECT` returns them in.
 * Where several `packages` rows share a url, the lookups by url
 * (`... WHERE url = ? LIMIT 1` and the `(SELECT id FROM packages WHERE
 * url = ?)` sub-selects) see the row with the lowest id first.
 */
module Ledger {
  import opened Common

  /** A `packages` row, without its key. */
  datatype PackageRow = PackageRow(url: string, version: string)

  /** A row of `packages_dependencies` (T = the dependency id) or of `packages_files` (T = the path). */
  datatype ChildRow<T> = ChildRow(packageId: int, value: T)

  /** `dependency_id` holds the result of a sub-select by url: NULL when no `packages` row has that url. */
  type DependencyId = Option<int>

  /**
   * `PackageDbRecord`. The dependencies are the urls the caller saves (`Dep = string`)
   * or the `dependency_id` cells read back (`Dep = DependencyId`).
   */
  datatype PackageDbRecord<Dep> = PackageDbRecord(
    id: int, url: string, version: string, files: seq<string>, dependencies: seq<Dep>)

  type SavedRecord = PackageDbRecord<string>

  type LoadedRecord = PackageDbRecord<DependencyId>

  /** `PackageKey`; `url` is its string form (`key.to_string()`). */
  datatype PackageKey = PackageKey(id: string, url: string)

  // ---------------------------------------------------------------------------
  // Queries, as functions of the table contents
  // ---------------------------------------------------------------------------

  /** The least element of a set of ids holding `x`. */
  lemma {:induction false} LeastFrom(ids: set<int>, x: int) returns (m: int)
    requires x in ids
    ensures m in ids && forall id | id in ids :: m <= id
    decreases |ids|
  {
    if forall id | id in ids :: x <= id {
      m := x;
    } else {
      var y :| y in ids && y < x;
      var rest := ids - {x};
      assert y in rest;
      m := LeastFrom(rest, y);
      forall id | id in ids
        ensures m <= id
      {
        if id != x { assert id in rest; }
      }
    }
  }

  /** A non-empty set of ids has a least element. */
  lemma HasLeast(ids: set<int>)
    requires ids != {}
    ensures exists m :: m in ids && forall id | id in ids :: m <= id
  {
    if forall id :: id !in ids { assert false; }
    var x :| x in ids;
    var m := LeastFrom(ids, x);
  }

  function Least(ids: set<int>): (m: int)
    requires ids != {}
    ensures m in ids && forall id | id in ids :: m <= id
  {
    HasLeast(ids);
    var m :| m in ids && forall id | id in ids :: m <= id; m
  }

  /** `SELECT id FROM packages WHERE url = ?`: the first matching row, or NULL. */
  function FirstIdWithUrl(packages: map<int, PackageRow>, url: string): (r: Option<int>)
    ensures r.None? <==> forall id | id in packages :: packages[id].url != url
    ensures r.Some? ==> r.value in packages && packages[r.value].url == url
    ensures r.Some? ==> forall id | id in packages && packages[id].url == url :: r.value <= id
  {
    if forall id | id in packages :: packages[id].url != url then None
    else
      var ids := set id | id in packages && packages[id].url == url;
      assert forall id | id in packages && packages[id].url == url :: id in ids;
      Some(Least(ids))
  }

  /** The value column of the rows of one package, in row order (`SELECT ... WHERE package_id = ?`). */
  function ValuesFor<T>(rows: seq<ChildRow<T>>, id: int): (r: seq<T>)
    ensures |r| <= |rows|
    ensures forall j | 0 <= j < |r| :: ChildRow(id, r[j]) in rows
    ensures forall k | 0 <= k < |rows| && rows[k].packageId == id :: rows[k].value in r
  {
    if rows == [] then []
    else (if rows[0].packageId == id then [rows[0].value] else []) + ValuesFor(rows[1..], id)
  }

  /** `DELETE FROM ... WHERE package_id = ?`. */
  function DropFor<T>(rows: seq<ChildRow<T>>, id: int): (r: seq<ChildRow<T>>)
    ensures forall k | 0 <= k < |r| :: r[k] in rows && r[k].packageId != id
    ensures forall k | 0 <= k < |rows| && rows[k].packageId != id :: rows[k] in r
  {
    if rows == [] then []
    else (if rows[0].packageId == id then [] else [rows[0]]) + DropFor(rows[1..], id)
  }

  /** The rows one insertion loop adds: one per value, in order. */
  function RowsFor<T>(id: int, values: seq<T>): (r: seq<ChildRow<T>>)
    ensures |r| == |values|
    ensures forall k | 0 <= k < |r| :: r[k].packageId == id && r[k].value == values[k]
  {
    seq(|values|, i requires 0 <= i < |values| => ChildRow(id, values[i]))
  }

  /** The `dependency_id` each dependency url resolves to in `packages`. */
  function ResolveUrls(packages: map<int, PackageRow>, urls: seq<string>): (r: seq<DependencyId>)
    ensures |r| == |urls|
    ensures forall k | 0 <= k < |r| :: r[k].None? <==> forall id | id in packages :: packages[id].url != urls[k]
    ensures forall k | 0 <= k < |r| && r[k].Some? :: r[k].value in packages && packages[r[k].value].url == urls[k]
  {
    seq(|urls|, i requires 0 <= i < |urls| => FirstIdWithUrl(packages, urls[i]))
  }

  /**
   * `find_by_id`: `version(url)`, then `files(url)` and `dependencies(url)`,
   * assembled into a record whose id is always 0.
   */
  function Lookup(packages: map<int, PackageRow>, dependencyRows: seq<ChildRow<DependencyId>>,
                  fileRows: seq<ChildRow<string>>, url: string): (r: Option<LoadedRecord>)
    ensures r.None? <==> forall id | id in packages :: packages[id].url != url
    ensures r.Some? ==> r.value.id == 0 && r.value.url == url
    ensures r.Some? ==> exists id | id in packages :: packages[id] == PackageRow(url, r.value.version)
  {
    match FirstIdWithUrl(packages, url)
    case None => None
    case Some(id) =>
      Some(PackageDbRecord(0, url, packages[id].version,
                           ValuesFor(fileRows, id), ValuesFor(dependencyRows, id)))
  }

  // ---------------------------------------------------------------------------
  // Facts about the row filters
  // ---------------------------------------------------------------------------

  lemma {:induction false} ValuesForAppend<T>(a: seq<ChildRow<T>>, b: seq<ChildRow<T>>, id: int)
    ensures ValuesFor(a + b, id) == ValuesFor(a, id) + ValuesFor(b, id)
  {
    if a != [] {
      assert (a + b)[1..] == a[1..] + b;
      ValuesForAppend(a[1..], b, id);
    } else {
      assert a + b == b;
    }
  }

  /** After the `DELETE`, the package has no rows left and every other package keeps its own. */
  lemma {:induction false} ValuesForDropFor<T>(rows: seq<ChildRow<T>>, id: int, other: int)
    ensures ValuesFor(DropFor(rows, id), other) == if other == id then [] else ValuesFor(rows, other)
  {
    if rows != [] {
      ValuesForDropFor(rows[1..], id, other);
      var head := if rows[0].packageId == id then [] else [rows[0]];
      ValuesForAppend(head, DropFor(rows[1..], id), other);
    }
  }

  /** The rows an insertion loop adds hold exactly its values, and only for that package. */
  lemma {:induction false} ValuesForRowsFor<T>(id: int, values: seq<T>, other: int)
    ensures ValuesFor(RowsFor(id, values), other) == if other == id then values else []
  {
    if values != [] {
      assert RowsFor(id, values)[1..] == RowsFor(id, values[1..]);
      ValuesForRowsFor(id, values[1..], other);
    }
  }

  /** The tables after a `replace_pkg` whose transaction committed. */
  lemma ChildRowsAfterReplace<T>(rows: seq<ChildRow<T>>, id: int, values: seq<T>, other: int)
    ensures ValuesFor(DropFor(rows, id) + RowsFor(id, values), other)
         == if other == id then values else ValuesFor(rows, other)
  {
    ValuesForAppend(DropFor(rows, id), RowsFor(id, values), other);
    ValuesForDropFor(rows, id, other);
    ValuesForRowsFor(id, values, other);
  }

  // ---------------------------------------------------------------------------
  // The connection
  // ---------------------------------------------------------------------------

  /** The database behind `PackageDbConnection`; each method is one committed transaction. */
  class Ledger {
    var packages: map<int, PackageRow>
    var dependencyRows: seq<ChildRow<DependencyId>>
    var fileRows: seq<ChildRow<string>>

    /** A freshly initialised database: all three tables empty. */
    constructor ()
      ensures packages == map[] && dependencyRows == [] && fileRows == []
    {
      packages := map[];
      dependencyRows := [];
      fileRows := [];
    }

    /** `version(url)`: `SELECT version FROM packages WHERE url = ? LIMIT 1`. */
    function Version(url: string): (r: Option<string>)
      reads this
      ensures r.None? <==> forall id | id in packages :: packages[id].url != url
      ensures r.Some? ==> exists id | id in packages :: packages[id] == PackageRow(url, r.value)
    {
      match FirstIdWithUrl(packages, url)
      case None => None
      case Some(id) => Some(packages[id].version)
    }

    /** `files(url)`: the paths of the first package with that url, in row order; none without one. */
    function Files(url: string): (r: seq<string>)
      reads this
      ensures Version(url).None? ==> r == []
    {
      match FirstIdWithUrl(packages, url)
      case None => []
      case Some(id) => ValuesFor(fileRows, id)
    }

    /** `dependencies(url)`: the `dependency_id` cells of the first package with that url. */
    function Dependencies(url: string): (r: seq<DependencyId>)
      reads this
      ensures Version(url).None? ==> r == []
    {
      match FirstIdWithUrl(packages, url)
      case None => []
      case Some(id) => ValuesFor(dependencyRows, id)
    }

    /** `PackageDbRecord::find_by_id`. */
    function FindById(key: PackageKey): (r: Option<LoadedRecord>)
      reads this
      ensures r.None? <==> Version(key.url).None?
      ensures r.Some? ==> r.value == PackageDbRecord(0, key.url, Version(key.url).value,
                                                     Files(key.url), Dependencies(key.url))
    {
      Lookup(packages, dependencyRows, fileRows, key.url)
    }

    /**
     * `replace_pkg`: `REPLACE` the `packages` row for `pkg.id`, delete every dependency
     * and file row of that id, then insert one row per dependency and per file, in order.
     */
    method ReplacePkg(pkg: SavedRecord)
      modifies this
      ensures packages == old(packages)[pkg.id := PackageRow(pkg.url, pkg.version)]
      ensures dependencyRows == DropFor(old(dependencyRows), pkg.id)
                                + RowsFor(pkg.id, ResolveUrls(packages, pkg.dependencies))
      ensures fileRows == DropFor(old(fileRows), pkg.id) + RowsFor(pkg.id, pkg.files)
    {
      packages := packages[pkg.id := PackageRow(pkg.url, pkg.version)];
      dependencyRows := DropFor(dependencyRows, pkg.id);
      fileRows := DropFor(fileRows, pkg.id);
      ghost var keptDependencies := dependencyRows;
      ghost var keptFiles := fileRows;

      var i := 0;
      while i < |pkg.dependencies|
        invariant i <= |pkg.dependencies|
        invariant packages == old(packages)[pkg.id := PackageRow(pkg.url, pkg.version)]
        invariant fileRows == keptFiles
        invariant dependencyRows == keptDependencies
                                    + RowsFor(pkg.id, ResolveUrls(packages, pkg.dependencies[..i]))
      {
        var dependencyId := FirstIdWithUrl(packages, pkg.dependencies[i]);
        assert RowsFor(pkg.id, ResolveUrls(packages, pkg.dependencies[..i + 1]))
            == RowsFor(pkg.id, ResolveUrls(packages, pkg.dependencies[..i])) + [ChildRow(pkg.id, dependencyId)];
        dependencyRows := dependencyRows + [ChildRow(pkg.id, dependencyId)];
        i := i + 1;
      }
      assert pkg.dependencies[..i] == pkg.dependencies;

      var j := 0;
      while j < |pkg.files|
        invariant j <= |pkg.files|
        invariant packages == old(packages)[pkg.id := PackageRow(pkg.url, pkg.version)]
        invariant dependencyRows == keptDependencies + RowsFor(pkg.id, ResolveUrls(packages, pkg.dependencies))
        invariant fileRows == keptFiles + RowsFor(pkg.id, pkg.files[..j])
      {
        assert RowsFor(pkg.id, pkg.files[..j + 1]) == RowsFor(pkg.id, pkg.files[..j]) + [ChildRow(pkg.id, pkg.files[j])];
        fileRows := fileRows + [ChildRow(pkg.id, pkg.files[j])];
        j := j + 1;
      }
      assert pkg.files[..j] == pkg.files;
    }

    /** `remove_pkg`: delete the `packages` row and every dependency and file row of `pkg.id`. */
    method RemovePkg<Dep>(pkg: PackageDbRecord<Dep>)
      modifies this
      ensures packages == old(packages) - {pkg.id}
      ensures dependencyRows == DropFor(old(dependencyRows), pkg.id)
      ensures fileRows == DropFor(old(fileRows), pkg.id)
    {
      packages := packages - {pkg.id};
      dependencyRows := DropFor(dependencyRows, pkg.id);
      fileRows := DropFor(fileRows, pkg.id);
    }
  }

  // ---------------------------------------------------------------------------
  // What a lookup sees after a replace or a remove
  // ---------------------------------------------------------------------------

  /**
   * After `replace_pkg`, the record's url is found; when no other row carries that url,
   * the lookup returns the saved version, exactly the saved files, and the ids its
   * dependency urls resolved to.
   */
  lemma LookupAfterReplace(packages: map<int, PackageRow>, dependencyRows: seq<ChildRow<DependencyId>>,
                           fileRows: seq<ChildRow<string>>, pkg: SavedRecord)
    ensures var packages' := packages[pkg.id := PackageRow(pkg.url, pkg.version)];
            var found := Lookup(packages', DropFor(dependencyRows, pkg.id)
                                           + RowsFor(pkg.id, ResolveUrls(packages', pkg.dependencies)),
                                DropFor(fileRows, pkg.id) + RowsFor(pkg.id, pkg.files), pkg.url);
            found.Some? &&
            ((forall id | id in packages && id != pkg.id :: packages[id].url != pkg.url) ==>
               found.value == PackageDbRecord(0, pkg.url, pkg.version, pkg.files,
                                              ResolveUrls(packages', pkg.dependencies)))
  {
    var packages' := packages[pkg.id := PackageRow(pkg.url, pkg.version)];
    assert pkg.id in packages' && packages'[pkg.id].url == pkg.url;
    if forall id | id in packages && id != pkg.id :: packages[id].url != pkg.url {
      ChildRowsAfterReplace(fileRows, pkg.id, pkg.files, pkg.id);
      ChildRowsAfterReplace(dependencyRows, pkg.id, ResolveUrls(packages', pkg.dependencies), pkg.id);
    }
  }

  /** `replace_pkg` leaves the file and dependency rows of every other id as they were. */
  lemma ReplaceKeepsOtherPackages(dependencyRows: seq<ChildRow<DependencyId>>, fileRows: seq<ChildRow<string>>,
                                  id: int, dependencies: seq<DependencyId>, files: seq<string>, other: int)
    requires other != id
    ensures ValuesFor(DropFor(fileRows, id) + RowsFor(id, files), other) == ValuesFor(fileRows, other)
    ensures ValuesFor(DropFor(dependencyRows, id) + RowsFor(id, dependencies), other)
         == ValuesFor(dependencyRows, other)
  {
    ChildRowsAfterReplace(fileRows, id, files, other);
    ChildRowsAfterReplace(dependencyRows, id, dependencies, other);
  }

  /**
   * After `remove_pkg`, no table holds a row for the id, and a lookup of any url
   * fails exactly when no remaining `packages` row carries it.
   */
  lemma LookupAfterRemove(packages: map<int, PackageRow>, dependencyRows: seq<ChildRow<DependencyId>>,
                          fileRows: seq<ChildRow<string>>, id: int, url: string)
    ensures id !in packages - {id}
    ensures ValuesFor(DropFor(dependencyRows, id), id) == [] && ValuesFor(DropFor(fileRows, id), id) == []
    ensures Lookup(packages - {id}, DropFor(dependencyRows, id), DropFor(fileRows, id), url).None?
        <==> forall other | other in packages && other != id :: packages[other].url != url
  {
    ValuesForDropFor(dependencyRows, id, id);
    ValuesForDropFor(fileRows, id, id);
    var remaining := packages - {id};
    forall other | other in packages && other != id
      ensures other in remaining && remaining[other] == packages[other]
    {
    }
  }

  /**
   * `PackageDbRecord::save`: after it, a lookup of the record's url succeeds, and when no
   * other row carries that url it returns the saved version and files.
   */
  method Save(record: SavedRecord, conn: Ledger)
    modifies conn
    ensures conn.packages == old(conn.packages)[record.id := PackageRow(record.url, record.version)]
    ensures conn.dependencyRows == DropFor(old(conn.dependencyRows), record.id)
                                   + RowsFor(record.id, ResolveUrls(conn.packages, record.dependencies))
    ensures conn.fileRows == DropFor(old(conn.fileRows), record.id) + RowsFor(record.id, record.files)
    ensures conn.Version(record.url).Some?
    ensures (forall id | id in old(conn.packages) && id != record.id :: old(conn.packages)[id].url != record.url)
            ==> conn.Version(record.url) == Some(record.version) && conn.Files(record.url) == record.files
    ensures forall other | other != record.id :: ValuesFor(conn.fileRows, other) == ValuesFor(old(conn.fileRows), other)
  {
    conn.ReplacePkg(record);
    LookupAfterReplace(old(conn.packages), old(conn.dependencyRows), old(conn.fileRows), record);
    forall other | other != record.id
      ensures ValuesFor(conn.fileRows, other) == ValuesFor(old(conn.fileRows), other)
    {
      ChildRowsAfterReplace(old(conn.fileRows), record.id, record.files, other);
    }
  }

  /** `PackageDbRecord::delete`: afterwards no table holds a row for the record's id. */
  method Delete<Dep>(record: PackageDbRecord<Dep>, conn: Ledger)
    modifies conn
    ensures record.id !in conn.packages
    ensures ValuesFor(conn.fileRows, record.id) == [] && ValuesFor(conn.dependencyRows, record.id) == []
    ensures conn.packages == old(conn.packages) - {record.id}
    ensures conn.dependencyRows == DropFor(old(conn.dependencyRows), record.id)
    ensures conn.fileRows == DropFor(old(conn.fileRows), record.id)
  {
    conn.RemovePkg(record);
    ValuesForDropFor(old(conn.fileRows), record.id, record.id);
    ValuesForDropFor(old(conn.dependencyRows), record.id, record.id);
  }
}
