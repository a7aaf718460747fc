# pahkat prefix store and RPC client requests, modelled in Dafny

This project models two parts of pahkat, a package manager.

**The prefix package store.** It installs tarball packages under a prefix directory. It records what is installed in a ledger of three SQLite tables:

- `packages`: id → url, version
- `packages_dependencies`: package id, dependency id
- `packages_files`: package id, file path

The model covers the `PackageDbConnection` queries and its `replace_pkg`/`remove_pkg` transactions. It also covers the `PackageDbRecord` operations `find_by_id`, `save` and `delete`. On top of these it models the store's `install`, `uninstall`, `status` and `package_dir`.

- `Ledger` holds the tables as fields of a class. `packages` is a map keyed by id. Each child table is a sequence of rows in insertion order. The methods update these fields step by step, as the source's statements do.
- The disk is a map from path to `File | Dir`. `uninstall` runs its two loops over that map. Pure functions state what each pass does, and lemmas state what is left on disk.
- Some inputs come from code outside the model: what `crate::repo::resolve_payload` returns, which downloads are in the cache, and `cmp::cmp`. These are parameters. The archive's entries are a list.

**The RPC client's request side.** The model covers:

- the parser that turns `package-id::action[::target]` strings into `PackageAction`s;
- the status command's target code;
- the type tag given to each transaction response before it reaches a host callback;
- the one-shot cancel slot `CURRENT_CANCEL_TX`.

The parser is built on a model of Rust's `str::split("::")`. Lemmas prove that `Split` is the inverse of `Join` (gluing pieces back together with `::`) in both directions.

The model keeps the store's use of id 0. `install` always saves its record with id 0, and `find_by_id` always returns id 0, so `uninstall` always deletes row 0. In a ledger written only by this code, every save therefore replaces the single `packages` row. Installing one package makes every other url unknown to `find_by_id` (`InstallReplacesTheOnlyRow`). Likewise, `save` stores each dependency as the id that a sub-select by url returns. The model's `find_by_id` reads back those cells, not the urls it was given; the record type is generic in its dependency type to show this. Because the sub-select runs after row 0 is replaced, in a ledger written only by `install` every dependency other than the package's own url is stored as NULL (`InstallStoresNullDependencies`). The source reads each cell into a `String`, which fails on a NULL cell; see `Ledger.Ledger.Dependencies` under "## Left out".

`uninstall` removes directories in one pass over the recorded paths, in record order, and removes a directory only if it is empty at the moment it is visited. A directory recorded before one of its sub-directories is therefore still non-empty when visited, and it stays on disk, empty, after the sub-directory is removed (`NestedDirectorySurvives`).

## Model

| member | source | states |
|---|---|---|
| `Ledger.FirstIdWithUrl` | pahkat-client-core/src/package_store/prefix.rs:338-377 | The sub-select by url finds nothing exactly when no `packages` row has that url; otherwise it returns a row with that url and the lowest such id |
| `Ledger.DropFor` | pahkat-client-core/src/package_store/prefix.rs:391-400 | `DELETE ... WHERE package_id = ?` keeps exactly the rows of other packages |
| `Ledger.ValuesFor` | pahkat-client-core/src/package_store/prefix.rs:338-366 | `SELECT ... WHERE package_id = ?` returns no more values than there are rows; each is the value of a row of that package, and every row of that package contributes its value |
| `Ledger.RowsFor` | pahkat-client-core/src/package_store/prefix.rs:412-419 | The file insertion loop adds one row per value, in order, each under the package's id |
| `Ledger.ResolveUrls` | pahkat-client-core/src/package_store/prefix.rs:402-410 | One `dependency_id` per dependency url, in order: NULL exactly when no `packages` row has that url, otherwise the id of a row with that url |
| `Ledger.Lookup` | pahkat-client-core/src/package_store/prefix.rs:443-465 | `find_by_id` is None exactly when no row has the url; otherwise the record has id 0, that url, and the version of a stored row with that url |
| `Ledger.ValuesForDropFor` | pahkat-client-core/src/package_store/prefix.rs:428-436 | After the child-row deletes, the id has no rows left and every other id reads its rows as before |
| `Ledger.ValuesForRowsFor` | pahkat-client-core/src/package_store/prefix.rs:402-420 | The insertion loops add rows that read back as exactly the inserted values, in order, and only for that id |
| `Ledger.ChildRowsAfterReplace` | pahkat-client-core/src/package_store/prefix.rs:391-420 | After delete-then-insert, the id reads back exactly the new values and every other id its old ones |
| `Ledger.Ledger.constructor` | pahkat-client-core/src/package_store/prefix.rs:64-68 | A freshly initialised database has all three tables empty |
| `Ledger.Ledger.Version` | pahkat-client-core/src/package_store/prefix.rs:368-377 | `version(url)` is None exactly when no row has the url, else the version of a row with that url |
| `Ledger.Ledger.Files` | pahkat-client-core/src/package_store/prefix.rs:353-366 | `files(url)` is empty when no package has the url |
| `Ledger.Ledger.Dependencies` | pahkat-client-core/src/package_store/prefix.rs:338-351 | `dependencies(url)` is empty when no package has the url |
| `Ledger.Ledger.FindById` | pahkat-client-core/src/package_store/prefix.rs:443-465 | `find_by_id` is None exactly when `version` is None; otherwise it is id 0, the url, that version, and the file and dependency rows stored for the url |
| `Ledger.Ledger.ReplacePkg` | pahkat-client-core/src/package_store/prefix.rs:379-423 | `packages` gets the row for the id; its old dependency and file rows are deleted; one row per dependency (the id its url resolves to) and per file is appended, in order |
| `Ledger.Ledger.RemovePkg` | pahkat-client-core/src/package_store/prefix.rs:425-439 | The `packages` row and every dependency and file row of the id are deleted, nothing else |
| `Ledger.LookupAfterReplace` | pahkat-client-core/src/package_store/prefix.rs:379-465 | After `replace_pkg` the url is found; when no other row has that url, `find_by_id` returns the saved version, exactly the saved files, and the resolved dependency ids |
| `Ledger.ReplaceKeepsOtherPackages` | pahkat-client-core/src/package_store/prefix.rs:391-420 | `replace_pkg` leaves every other id's file and dependency rows unchanged |
| `Ledger.LookupAfterRemove` | pahkat-client-core/src/package_store/prefix.rs:425-453 | After `remove_pkg` no table has a row for the id, and `find_by_id` of a url is None exactly when no remaining row has it |
| `Ledger.Save` | pahkat-client-core/src/package_store/prefix.rs:467-469 | After `save` the url is found (the commented test's `found.is_some()`); when no other row has the url, the saved version and files come back; other ids' files are unchanged |
| `Ledger.Delete` | pahkat-client-core/src/package_store/prefix.rs:471-473 | After `delete` the record's id has no `packages`, dependency or file rows |
| `FileSystem.Join` | pahkat-client-core/src/package_store/prefix.rs:240 | `Path::join` is the base, a separator, then the name, and both parts can be read back |
| `FileSystem.Canonicalize` | pahkat-client-core/src/package_store/prefix.rs:240-243 | `canonicalize` succeeds exactly for an existing path and returns it |
| `PrefixStore.CheckInstallable` | pahkat-client-core/src/package_store/prefix.rs:163-180 | `install` goes on only for a resolved tarball payload whose download is cached; otherwise it fails with `Payload`, then `WrongPayloadType`, then `PackageNotInCache` |
| `PrefixStore.UnpackedPaths` | pahkat-client-core/src/package_store/prefix.rs:191-206 | The recorded files are exactly the paths of the unpacked entries, no more than there are entries |
| `PrefixStore.CollectUnpackedFiles` | pahkat-client-core/src/package_store/prefix.rs:186-206 | The loop collects the unpacked entries' paths in archive order |
| `PrefixStore.DependencyKeys` | pahkat-client-core/src/package_store/prefix.rs:208-209 | The saved dependencies are exactly the keys of the target's dependency map, one per entry |
| `PrefixStore.RemoveFilesPassSpec` | pahkat-client-core/src/package_store/prefix.rs:239-252 | The first pass removes only recorded plain files; afterwards every recorded path that still resolves is a directory |
| `PrefixStore.RemoveEmptyDirsPassSpec` | pahkat-client-core/src/package_store/prefix.rs:254-268 | The second pass removes only recorded directories, and only empty ones: no surviving entry lies inside a removed directory |
| `PrefixStore.UninstallPassesSpec` | pahkat-client-core/src/package_store/prefix.rs:238-268 | After both passes, everything outside the recorded paths is untouched, no recorded plain file remains, and no entry is left inside a removed directory |
| `PrefixStore.InstallRecord` | pahkat-client-core/src/package_store/prefix.rs:211-218 | The record `install` saves has id 0, the key's url, the release version, exactly the unpacked paths as files, and one dependency per entry of the target's dependency map |
| `PrefixStore.RemoveFileStep` | pahkat-client-core/src/package_store/prefix.rs:239-251 | One iteration of the first loop keeps every other entry and keeps the visited path exactly when it is a directory |
| `PrefixStore.RemoveDirStep` | pahkat-client-core/src/package_store/prefix.rs:254-267 | One iteration of the second loop keeps every other entry and removes the visited path exactly when it is an empty directory |
| `PrefixStore.RemoveFilesPass` | pahkat-client-core/src/package_store/prefix.rs:239-252 | The first loop only removes entries, and only recorded ones |
| `PrefixStore.RemoveEmptyDirsPass` | pahkat-client-core/src/package_store/prefix.rs:254-268 | The second loop only removes entries, and only recorded ones |
| `PrefixStore.PrefixPackageStore.RemoveRecordedFiles` | pahkat-client-core/src/package_store/prefix.rs:239-252 | The first loop, run on the disk, leaves exactly what the first pass computes |
| `PrefixStore.PrefixPackageStore.RemoveEmptyRecordedDirs` | pahkat-client-core/src/package_store/prefix.rs:254-268 | The second loop, run on the disk, leaves exactly what the second pass computes |
| `PrefixStore.RemoveEmptyDirsPassRemoves` | pahkat-client-core/src/package_store/prefix.rs:254-268 | The second pass removes every recorded path that is an empty directory when the pass starts |
| `PrefixStore.UninstallRemovesEmptiedDir` | pahkat-client-core/src/package_store/prefix.rs:238-268 | A recorded directory that holds only recorded plain files is gone after both passes |
| `PrefixStore.NestedDirectorySurvives` | pahkat-client-core/src/package_store/prefix.rs:254-268 | With directories `a` and `a/b` recorded in that order, `a/b` is removed and `a` stays, empty |
| `PrefixStore.InstallStoresNullDependencies` | pahkat-client-core/src/package_store/prefix.rs:208-221 | In a ledger holding only row 0, a dependency of an installed package other than its own url is stored as NULL |
| `PrefixStore.StatusOf` | pahkat-client-core/src/package_store/prefix.rs:275-296 | No record gives `NotInstalled`; otherwise a resolution failure, a non-tarball payload, or else the comparison of the recorded version with the release version |
| `PrefixStore.StatusAfterInstall` | pahkat-client-core/src/package_store/prefix.rs:275-296 | After a successful install, when no other `packages` row has the key's url, `find_by_id` returns the unpacked files and `status` compares the release version with itself |
| `PrefixStore.StatusAfterUninstall` | pahkat-client-core/src/package_store/prefix.rs:270-278 | After `uninstall` deletes row 0, `status` of a url that no other row has is `NotInstalled` |
| `PrefixStore.InstallReplacesTheOnlyRow` | pahkat-client-core/src/package_store/prefix.rs:211-221 | Saving under id 0 into a ledger holding only row 0 leaves one row, and every other url is no longer found |
| `PrefixStore.PrefixPackageStore.constructor` | pahkat-client-core/src/package_store/prefix.rs:95-100 | The store holds its prefix, its ledger and the disk it works on |
| `PrefixStore.PrefixPackageStore.PackageDir` | pahkat-client-core/src/package_store/prefix.rs:122-124 | `package_dir` lies strictly inside the prefix, at `pkg/<id>` |
| `PrefixStore.PrefixPackageStore.PackageDirInjective` | pahkat-client-core/src/package_store/prefix.rs:122-124 | Different package ids get different package directories |
| `PrefixStore.PrefixPackageStore.Install` | pahkat-client-core/src/package_store/prefix.rs:158-225 | A rejected install returns its error and leaves the ledger unchanged. An accepted one saves id 0 with the key's url, the release version, the unpacked files and the dependency keys, and returns `UpToDate`; the key is then found, and when no other `packages` row has the key's url it carries that version and those files |
| `PrefixStore.PrefixPackageStore.Uninstall` | pahkat-client-core/src/package_store/prefix.rs:227-273 | With no record: `NotInstalled` error, nothing on disk or in the ledger changes. Otherwise: the two passes over the recorded files, then row 0 and its child rows deleted, and `NotInstalled` returned |
| `PrefixStore.PrefixPackageStore.Status` | pahkat-client-core/src/package_store/prefix.rs:275-297 | `status` is `NotInstalled` when no row has the url; otherwise a resolution failure gives the `Payload` error, a non-tarball payload `WrongPayloadType`, and a tarball the comparison of the recorded and release versions |
| `StrSplit.FirstSeparator` | pahkat-rpc/src/client/mod.rs:103 | The first `::` at or after a position, and no `::` before it |
| `StrSplit.Split` | pahkat-rpc/src/client/mod.rs:103 | At least one piece; the whole string when it has no `::`, else the first piece is the text before the first `::` |
| `StrSplit.JoinSplit` | pahkat-rpc/src/client/mod.rs:103 | Joining the pieces with `::` gives back the input |
| `StrSplit.SplitWellFormed` | pahkat-rpc/src/client/mod.rs:103 | No piece contains `::`, and no piece but the last ends with `:` |
| `StrSplit.SplitJoin` | pahkat-rpc/src/client/mod.rs:103 | Splitting well-formed pieces joined with `::` gives back those pieces |
| `RpcClient.ParseAction` | pahkat-rpc/src/client/mod.rs:102-116 | The id is the text before the first `::` (or the whole string), holds no `::`, and both codes are 0 or 1 |
| `RpcClient.ParseActions` | pahkat-rpc/src/client/mod.rs:99-117 | One action per input string, in input order |
| `RpcClient.ParseJoinedPieces` | pahkat-rpc/src/client/mod.rs:103-115 | The id is the first piece; the action is 1 exactly when a second piece exists and is not `install`; the target is 1 exactly when a third piece exists and is `user` |
| `RpcClient.ExtraPiecesIgnored` | pahkat-rpc/src/client/mod.rs:103-115 | Pieces after the third do not change the parsed action |
| `RpcClient.BareIdInstallsForSystem` | pahkat-rpc/src/client/mod.rs:105-114 | A string without `::` installs (0) for the system (0) |
| `RpcClient.StatusRequestFor` | pahkat-rpc/src/client/mod.rs:84-87 | The status target is 1 exactly when the command's target is `user`, else 0 |
| `RpcClient.ActionTargetMatchesStatusTarget` | pahkat-rpc/src/client/mod.rs:110-114 | An action's third piece maps to the same code as the status command's target |
| `RpcClient.ToCallbackResponse` | pahkat-rpc/src/client/mod.rs:328-343 | The value is passed through unchanged and the tag is one of the eight variant names |
| `RpcClient.TagIdentifiesVariant` | pahkat-rpc/src/client/mod.rs:328-343 | Each tag names its own variant: decoding a tag with the message fields gives back the response |
| `RpcClient.TagsDistinct` | pahkat-rpc/src/client/mod.rs:328-343 | Two responses with the same tag are the same variant |
| `RpcClient.Sender.constructor` | pahkat-rpc/src/client/mod.rs:273 | A new unbounded channel has carried nothing |
| `RpcClient.Sender.Send` | pahkat-rpc/src/client/mod.rs:302-306 | Sending appends exactly one request to what the channel has carried |
| `RpcClient.CancelSlot.constructor` | pahkat-rpc/src/client/mod.rs:345-347 | The slot starts empty |
| `RpcClient.CancelSlot.ProcessTransaction` | pahkat-rpc/src/client/mod.rs:263-309 | The slot holds the new transaction's sender, replacing any earlier one, and that channel carries exactly the transaction request |
| `RpcClient.CancelSlot.CancelCallback` | pahkat-rpc/src/client/mod.rs:247-261 | The slot ends empty; a sender that was in it carries one more request, `Cancel`; with an empty slot nothing is sent |
| `RpcClient.CancelReachesLatestOnce` | pahkat-rpc/src/client/mod.rs:247-309 | After two transactions and two cancels, only the latest channel carries `Cancel`, exactly once |

## Left out

- `PrefixStore.PrefixPackageStore.Install`: it does not model the files that unpacking writes under the package directory, or the `create_dir_all` of that directory. The disk is unchanged by the model's install. The XZ and tar decoding is I/O; the entries and whether `unpack_in` wrote each one are an input list.
- SQLite plumbing is not modelled: the r2d2 pool (`make_pool`), `execute_batch(SQL_INIT)`, and the panics of `.unwrap()` on database errors. Every statement succeeds in the model. So does every transaction, including the early returns through `?` that would roll one back.
- The schema file `prefix/prefix_init.sql` is not part of this model. The model makes four assumptions:
  - `packages` is keyed by id.
  - A lookup by url sees the lowest matching id first.
  - Child rows come back in insertion order.
  - A dependency cell holds the id its sub-select returned, or NULL when the sub-select found nothing.
- `Ledger.Ledger.Dependencies`: it returns the `dependency_id` cells themselves, NULL included, and succeeds. The source reads each cell into a `String` and unwraps it. A NULL cell always fails there, and an integer cell fails unless the column has text affinity. So in the source, `find_by_id` panics for a package that has a dependency whose url no row has, and with it `status` and `uninstall` do too. The panic is not modelled.
- `create` and `open` are not modelled: `canonicalize`, `create_dir_all`, `Config::load` and `refresh_repos` are filesystem and configuration I/O. The store's constructor takes a prefix, a ledger and a disk. `Ledger.Ledger.constructor` and `PrefixStore.PrefixPackageStore.constructor` stand for the state that `create` and `open` end in, not for their I/O.
- `PrefixStore.CollectUnpackedFiles`: an entry's recorded path is an input. The source takes the tar header path through `strip_prefix(&self.prefix).unwrap()` and `to_str().unwrap()`. `strip_prefix(&self.prefix).unwrap()` (prefix.rs:200) panics when the header path does not start with the canonical prefix, which is always so for a relative archive path. `to_str().unwrap()` (prefix.rs:201) panics when the path is not valid UTF-8. The strip, the conversion and their panics are not modelled.
- The filesystem `.unwrap()`s in `uninstall` are not modelled: `remove_file`, `read_dir` and `remove_dir` always succeed in the model.
- `canonicalize` does not resolve symbolic links or `..` in the model: a path resolves exactly when an entry is stored under it. `read_dir(...).count() == 0` is modelled as "no stored entry lies inside the directory". Paths are strings, not component lists. So `PrefixStore.PrefixPackageStore.PackageDirInjective` holds here although Rust treats ids `x` and `x/` as the same directory. `Path::join` with an absolute name, which replaces the base in Rust, is not modelled either.
- These come from `crate::repo` and `cmp`, whose source is not part of this model, so they are parameters: the result of `resolve_payload`, the cache test on `download_file_path`, and `cmp::cmp`. The store's delegations to `crate::repo` are left out: `import`, `download`, `all_statuses`, `find_package_by_key`, `find_package_by_id`, `refresh_repos`, `clear_cache`, and the `repos`/`config` accessors.
- `PackageKey`'s `Display` implementation is not part of this model. A key carries its string form as a field.
- The RPC client's connection (`new_client`), the streaming loops, the tokio runtime (`block_on`, `spawn`) and the JSON/FFI marshalers are not modelled. Neither are the `extern "C"` entry points beyond the cancel protocol, or the Mutex/RefCell around the cancel slot. This is network, async, FFI and locking code.
- `RpcClient.CancelSlot.ProcessTransaction` takes actions that are already converted to `pb::PackageAction`. The conversion `From<pahkat_client::PackageAction> for pb::PackageAction` is not modelled. Send failures are not modelled: neither the `?` on `tx.send` nor the `unwrap` in the cancel callback.
- The fields of each transaction-response message are defined in the protobuf schema, which is not part of this model. They are a type parameter.
- The other files of the repository are not modelled: the HTTP server, repository initialisation, the CLI install wrapper, the uploader and the C header.
