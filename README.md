# Time zone bundle installer

A Dafny model of `TimeZoneBundleInstaller`, the class that installs time zone rule updates
("bundles") into an install directory.

## The install directory

The install directory has three slots:

- `current`: the active data;
- `working`: where a bundle is unpacked and checked;
- `old`: where the previous data is moved before it is deleted.

## installWithErrorCode

1. Sweep: delete a leftover `old`, then a leftover `working`.
2. Unpack the bundle into `working`.
3. Run the checks, in order. The first one to fail decides the result code:
   - the version record must exist and parse to a non-null record;
   - its format must be compatible with this device;
   - the tzdata and ICU data files must be present;
   - its rules version must not be lexicographically earlier than the system's;
   - the tzdata file must load and validate.
4. Commit:
   - make `working` world-readable;
   - move `current` to `old`, if `current` exists;
   - move `working` to `current`.
5. Once unpacking has succeeded, delete `old` and `working` best-effort on the way out of steps 3 and 4, whatever they returned or threw. A failed sweep or a failed unpack throws before this point and skips it.

## The other operations

- `install` reports whether the code was `INSTALL_SUCCESS`.
- `uninstall` does three things:
  - deletes a leftover `old`;
  - moves `current` to `old` in one rename;
  - deletes `old` best-effort.

  It returns false when nothing was installed.
- `getInstalledBundleVersion` and `getSystemRulesVersion` are the queries.

## Layout

| file | contents |
|---|---|
| `Exceptions.dfy` | `Option`, the Java exceptions the installer can see, and `Result`. |
| `Storage.dfy` | The install directory as a value (`Disk`) and the file primitives the installer uses, as functions. It also has the `FileSystem` class, which changes that state in place and keeps a ghost log of the changes it was asked for. |
| `Bundle.dfy` | The bundle's file names and its version record. `Collaborators` holds the code outside the installer as total functions. `FileUtils.readBytes` is also here. |
| `JavaString.dfy` | `String.compareTo`, proved to be lexicographic order. |
| `InstallerSpec.dfy` | One function per operation. Each maps the old disk to the new disk, the changes made, and the value returned or the exception thrown. |
| `Installer.dfy` | The class `TimeZoneBundleInstaller`. Its methods run the same steps imperatively on a `FileSystem`. Each method is proved to leave exactly the disk and log that its `InstallerSpec` function describes. |
| `InstallerProperties.dfy` | What the installer promises, proved as lemmas about the functions of `InstallerSpec`. |

## How the environment is modelled

**Storage failures.** A failing storage is modelled by `Disk.faults`. Each fallible primitive consumes one entry:

- delete;
- rename;
- extraction;
- the permission change.

An entry of `true` makes that primitive throw `IOException`. So every operation is a function of the state before it, and "the storage fails nothing" is `NoFaults`.

**Read failures.** A file whose `readable` flag is false throws `IOException` when it is read.

**Open handles.** `Disk.openTzData` counts the open `TzData` handles.

## Model

| member | source | states |
|---|---|---|
| JavaString.CompareToZero | tzdata/update2/src/main/libcore/tzdata/update2/TimeZoneBundleInstaller.java:272 | `compareTo` is 0 exactly when the two strings are equal. |
| JavaString.CompareToAntisymmetric | tzdata/update2/src/main/libcore/tzdata/update2/TimeZoneBundleInstaller.java:272 | Swapping the operands of `compareTo` negates the result. |
| JavaString.CompareToNegative | tzdata/update2/src/main/libcore/tzdata/update2/TimeZoneBundleInstaller.java:272 | `compareTo` is negative exactly when the first string is lexicographically before the second. "Before" means either a smaller character at the first difference, or a proper prefix. |
| JavaString.LexLessTail | tzdata/update2/src/main/libcore/tzdata/update2/TimeZoneBundleInstaller.java:272 | With a common first character, lexicographic order is decided by the tails. |
| InstallerSpec.CanApply | tzdata/update2/src/main/libcore/tzdata/update2/TimeZoneBundleInstaller.java:270-280 | The rules check accepts exactly the bundles whose rules version is not lexicographically before the system's. Equivalently: equal, or after. Equal versions are accepted. |
| JavaString.CompareTo | tzdata/update2/src/main/libcore/tzdata/update2/TimeZoneBundleInstaller.java:272 | `String.compareTo`: the difference of the first differing characters, else the difference of the lengths. It has no contract of its own; its properties are `CompareToZero`, `CompareToAntisymmetric` and `CompareToNegative`. |
| InstallerSpec.ReadBundleVersion | tzdata/update2/src/main/libcore/tzdata/update2/TimeZoneBundleInstaller.java:247-257 | readBundleVersion. It has no contract of its own; its outcomes are `InstallerProperties.ReadBundleVersionOutcomes`. |
| InstallerSpec.CheckBundleDataFilesExist | tzdata/update2/src/main/libcore/tzdata/update2/TimeZoneBundleInstaller.java:240-245 | checkBundleDataFilesExist: both the tzdata file and the ICU data file are present. Its role among the checks is in `InstallerProperties.GateOrder`. |
| InstallerSpec.CheckBundleRulesNewerThanSystem | tzdata/update2/src/main/libcore/tzdata/update2/TimeZoneBundleInstaller.java:262-281 | checkBundleRulesNewerThanSystem: throws what reading the system rules version throws, otherwise the answer of `CanApply`. Its role among the checks is in `InstallerProperties.GateOrder`. |
| InstallerSpec.Gates | tzdata/update2/src/main/libcore/tzdata/update2/TimeZoneBundleInstaller.java:103-143 | The checks of installWithErrorCode, in source order. Only `IOException` or `FileNotFoundException` escapes, and a returned value is one of the five result codes. When each code is returned is `InstallerProperties.GateOrder`. |
| InstallerSpec.RenameIfPresent | tzdata/update2/src/main/libcore/tzdata/update2/TimeZoneBundleInstaller.java:150-153 | Nothing happens when the source is absent. Otherwise exactly one rename is recorded. On success the whole directory moves, and on failure nothing changes. |
| InstallerSpec.Commit | tzdata/update2/src/main/libcore/tzdata/update2/TimeZoneBundleInstaller.java:147-157 | The commit, with no contract of its own; its properties are `InstallerProperties.CommitSwaps`, `CommitWindow` and `CommitRenamesAfterAccess`. |
| InstallerSpec.TryBlock | tzdata/update2/src/main/libcore/tzdata/update2/TimeZoneBundleInstaller.java:102-157 | The `try` block, with no contract of its own; its shape is `InstallerProperties.TryBlockShape`. |
| InstallerSpec.InstallWithErrorCode | tzdata/update2/src/main/libcore/tzdata/update2/TimeZoneBundleInstaller.java:92-162 | installWithErrorCode, with no contract of its own; its properties are the `InstallerProperties.Install…` lemmas. |
| InstallerSpec.Install | tzdata/update2/src/main/libcore/tzdata/update2/TimeZoneBundleInstaller.java:81-84 | install, with no contract of its own; its relation to installWithErrorCode is `InstallerProperties.InstallReportsSuccess`. |
| InstallerSpec.Uninstall | tzdata/update2/src/main/libcore/tzdata/update2/TimeZoneBundleInstaller.java:171-196 | uninstall, with no contract of its own; its properties are the `InstallerProperties.Uninstall…` lemmas. |
| InstallerSpec.GetInstalledBundleVersion | tzdata/update2/src/main/libcore/tzdata/update2/TimeZoneBundleInstaller.java:205-210 | getInstalledBundleVersion, with no contract of its own; its properties are `InstallThenQuery`, `UninstallThenQuery` and `InstalledVersionNullIffAbsent` in `InstallerProperties`. |
| InstallerSpec.ReadSystemRulesVersion | tzdata/update2/src/main/libcore/tzdata/update2/TimeZoneBundleInstaller.java:283-289 | A missing system tzdata file gives `FileNotFoundException`. In the model this is the only source of that exception, and every other failure is an `IOException`; see "## Left out". A returned version is what `getRulesVersion` read from that file. Whenever the file exists, can be read and `getRulesVersion` reads a version, that version is returned. |
| InstallerSpec.DeleteIfPresent | tzdata/update2/src/main/libcore/tzdata/update2/TimeZoneBundleInstaller.java:222-232 | Nothing happens when the directory is absent. Otherwise exactly one delete is recorded. On success the directory is gone and nothing else changes. On failure nothing changes. |
| InstallerSpec.Sweep | tzdata/update2/src/main/libcore/tzdata/update2/TimeZoneBundleInstaller.java:93-98 | Deletes exactly the leftover `old`, then the leftover `working`, in that order. Every recorded delete but the last succeeded, so it stops at the first failed one. On success neither is left. It never touches `current`. |
| InstallerSpec.Cleanup | tzdata/update2/src/main/libcore/tzdata/update2/TimeZoneBundleInstaller.java:158-161 | Only deletes, never throws, never touches `current`. `old` or `working` survives only after a failed delete of it was recorded. |
| Bundle.ReadBytes | tzdata/update2/src/main/libcore/tzdata/update2/TimeZoneBundleInstaller.java:254-255 | Reads at most the requested number of leading bytes. Reads the whole file when it is shorter. Throws `IOException` exactly when the file cannot be read. |
| Storage.DeleteStep | tzdata/update2/src/main/libcore/tzdata/update2/TimeZoneBundleInstaller.java:94 | `deleteRecursive` removes exactly the named directory or changes nothing. Without storage faults it succeeds exactly when the directory exists. |
| Storage.RenameStep | tzdata/update2/src/main/libcore/tzdata/update2/TimeZoneBundleInstaller.java:152 | `rename` moves the whole directory in one step or changes nothing. Without storage faults it succeeds when the source exists and the target does not. |
| Storage.UnpackStep | tzdata/update2/src/main/libcore/tzdata/update2/TimeZoneBundleInstaller.java:234-238 | `working` holds exactly the extracted files, not yet world-readable. A failed extraction leaves an empty `working`. |
| Storage.MakeAccessibleStep | tzdata/update2/src/main/libcore/tzdata/update2/TimeZoneBundleInstaller.java:148 | Marks the directory world-readable without changing its files, or changes nothing. |
| Storage.FileSystem.constructor | tzdata/update2/src/main/libcore/tzdata/update2/TimeZoneBundleInstaller.java:51-57 | The install directory starts with the given slots, no open handles and an empty log. |
| Storage.FileSystem.TakeFault | tzdata/update2/src/main/libcore/tzdata/update2/TimeZoneBundleInstaller.java:94 | Draws the outcome of the next fallible storage operation. |
| Storage.FileSystem.DeleteRecursive | tzdata/update2/src/main/libcore/tzdata/update2/TimeZoneBundleInstaller.java:94 | The in-place delete leaves exactly the state `DeleteStep` gives and logs one delete. |
| Storage.FileSystem.Rename | tzdata/update2/src/main/libcore/tzdata/update2/TimeZoneBundleInstaller.java:188 | The in-place rename leaves exactly the state `RenameStep` gives and logs one rename. |
| Storage.FileSystem.Unpack | tzdata/update2/src/main/libcore/tzdata/update2/TimeZoneBundleInstaller.java:237 | The in-place extraction leaves exactly the state `UnpackStep` gives and logs it. |
| Storage.FileSystem.MakeDirectoryWorldAccessible | tzdata/update2/src/main/libcore/tzdata/update2/TimeZoneBundleInstaller.java:148 | The in-place permission change leaves exactly the state `MakeAccessibleStep` gives and logs it. |
| Storage.FileSystem.LoadTzData | tzdata/update2/src/main/libcore/tzdata/update2/TimeZoneBundleInstaller.java:131-135 | Loads exactly when the file is readable and parses. A handle is left open exactly when it loaded. |
| Storage.FileSystem.CloseTzData | tzdata/update2/src/main/libcore/tzdata/update2/TimeZoneBundleInstaller.java:141-143 | Closes one open handle. It changes nothing else. |
| Installer.TimeZoneBundleInstaller.constructor | tzdata/update2/src/main/libcore/tzdata/update2/TimeZoneBundleInstaller.java:51-57 | The installer keeps the system tzdata file and the install directory it is given. |
| Installer.TimeZoneBundleInstaller.Install | tzdata/update2/src/main/libcore/tzdata/update2/TimeZoneBundleInstaller.java:81-84 | Has the effects of `installWithErrorCode`. Returns true exactly when that returned `INSTALL_SUCCESS`. Throws what it threw. |
| Installer.TimeZoneBundleInstaller.InstallWithErrorCode | tzdata/update2/src/main/libcore/tzdata/update2/TimeZoneBundleInstaller.java:92-162 | The install directory, change log and result afterwards are exactly those of `InstallerSpec.InstallWithErrorCode` on the directory before. |
| Installer.TimeZoneBundleInstaller.SweepStale | tzdata/update2/src/main/libcore/tzdata/update2/TimeZoneBundleInstaller.java:93-98 | Leaves exactly the directory and log of `InstallerSpec.Sweep`. |
| Installer.TimeZoneBundleInstaller.TryBlock | tzdata/update2/src/main/libcore/tzdata/update2/TimeZoneBundleInstaller.java:102-157 | The checks and the commit leave exactly the directory, log and result of `InstallerSpec.TryBlock`, with every opened handle closed. |
| Installer.TimeZoneBundleInstaller.Finally | tzdata/update2/src/main/libcore/tzdata/update2/TimeZoneBundleInstaller.java:158-161 | Leaves exactly the directory and log of `InstallerSpec.Cleanup` and never throws. |
| Installer.TimeZoneBundleInstaller.Uninstall | tzdata/update2/src/main/libcore/tzdata/update2/TimeZoneBundleInstaller.java:171-196 | The directory, log and result afterwards are exactly those of `InstallerSpec.Uninstall`. |
| Installer.TimeZoneBundleInstaller.GetInstalledBundleVersion | tzdata/update2/src/main/libcore/tzdata/update2/TimeZoneBundleInstaller.java:205-210 | Returns null when `current` is absent. Otherwise returns the version record read from `current`, or throws what that read throws. |
| Installer.TimeZoneBundleInstaller.GetSystemRulesVersion | tzdata/update2/src/main/libcore/tzdata/update2/TimeZoneBundleInstaller.java:218-220 | Throws `FileNotFoundException` when the system file is missing; in the model, only then (see "## Left out"). A returned version is the system file's rules version. Whenever the file can be read and its version read, that version is returned. The result is exactly `InstallerSpec.ReadSystemRulesVersion`. |
| Installer.TimeZoneBundleInstaller.DeleteBestEffort | tzdata/update2/src/main/libcore/tzdata/update2/TimeZoneBundleInstaller.java:222-232 | Leaves exactly the directory and log of `DeleteIfPresent` and never throws. |
| Installer.TimeZoneBundleInstaller.UnpackBundle | tzdata/update2/src/main/libcore/tzdata/update2/TimeZoneBundleInstaller.java:234-238 | Leaves exactly the state of `UnpackStep` for the extracted content. |
| InstallerProperties.Renames | tzdata/update2/src/main/libcore/tzdata/update2/TimeZoneBundleInstaller.java:150-155 | Helper over the change log: its rename events, which its definition keeps in log order. Every element is a rename event taken from the log, and there are at most as many as the log has events. How it splits over appended logs is `RenamesAppend`. |
| InstallerProperties.RenamesAppend | tzdata/update2/src/main/libcore/tzdata/update2/TimeZoneBundleInstaller.java:150-155 | Helper lemma about `Renames`: the renames of two logs appended are the renames of each, appended. |
| InstallerProperties.NoRenames | tzdata/update2/src/main/libcore/tzdata/update2/TimeZoneBundleInstaller.java:93-98 | Helper lemma about `Renames`: a log with no rename event, such as the deletes of the sweep, has no renames. |
| InstallerProperties.RenamesAround | tzdata/update2/src/main/libcore/tzdata/update2/TimeZoneBundleInstaller.java:92-162 | Helper lemma about `Renames`: rename-free logs before and after a log do not change its renames. |
| InstallerProperties.ReadBundleVersionOutcomes | tzdata/update2/src/main/libcore/tzdata/update2/TimeZoneBundleInstaller.java:247-257 | `BundleException` when the version file is missing. `IOException` exactly when it cannot be read. No other exception. For a readable version file, the result follows what `fromBytes` makes of its leading bytes: `BundleException` exactly when they are malformed, the parsed record when they parse, and null exactly when `fromBytes` gives null. |
| InstallerProperties.GateOrder | tzdata/update2/src/main/libcore/tzdata/update2/TimeZoneBundleInstaller.java:103-143 | For each result code, exactly the condition under which the checks return it. The checks run in source order and the first failure decides. All passing gives `INSTALL_SUCCESS`. Only `IOException` or `FileNotFoundException` escapes. |
| InstallerProperties.CommitSwaps | tzdata/update2/src/main/libcore/tzdata/update2/TimeZoneBundleInstaller.java:147-157 | A successful commit leaves `current` holding exactly the unpacked files, world-readable. Its renames were `current`→`old` (only when `current` existed), then `working`→`current`. |
| InstallerProperties.CommitWindow | tzdata/update2/src/main/libcore/tzdata/update2/TimeZoneBundleInstaller.java:150-157 | If moving `working` to `current` fails, no `current` is left and `IOException` propagates. |
| InstallerProperties.CommitRenamesAfterAccess | tzdata/update2/src/main/libcore/tzdata/update2/TimeZoneBundleInstaller.java:147-157 | The commit renames something only after `working` was made world-readable. While it has renamed nothing, `current` is unchanged. |
| InstallerProperties.TryBlockShape | tzdata/update2/src/main/libcore/tzdata/update2/TimeZoneBundleInstaller.java:102-157 | A failed check changes nothing on disk and returns its code or exception. Passing every check leads to the commit. |
| InstallerProperties.InstallSweepsFirst | tzdata/update2/src/main/libcore/tzdata/update2/TimeZoneBundleInstaller.java:93-101 | The log starts with the sweep's deletes. A failed sweep throws `IOException` and nothing else happens. Otherwise the extraction is the next change. |
| InstallerProperties.InstallReturnsGateCode | tzdata/update2/src/main/libcore/tzdata/update2/TimeZoneBundleInstaller.java:101-143 | A returned code is the code of the checks on what was extracted. |
| InstallerProperties.InstallRenames | tzdata/update2/src/main/libcore/tzdata/update2/TimeZoneBundleInstaller.java:92-162 | The only renames of `installWithErrorCode` are those of its checks-and-commit block. |
| InstallerProperties.InstallRejectionKeepsCurrent | tzdata/update2/src/main/libcore/tzdata/update2/TimeZoneBundleInstaller.java:147-157 | A rejected bundle renames nothing and leaves `current` as it was. Any rename means the bundle was extracted, passed every check, and `working` was made world-readable. |
| InstallerProperties.InstallSuccessSwaps | tzdata/update2/src/main/libcore/tzdata/update2/TimeZoneBundleInstaller.java:150-157 | On success `current` is exactly the bundle's files, world-readable. The renames were `current`→`old` (only if `current` existed), strictly before `working`→`current`. |
| InstallerProperties.InstallCleansUp | tzdata/update2/src/main/libcore/tzdata/update2/TimeZoneBundleInstaller.java:158-161 | Once unpacked, `old` and `working` survive only after a failed best-effort delete. The cleanup never changes what the checks returned or threw. |
| InstallerProperties.InstallSecondRenameWindow | tzdata/update2/src/main/libcore/tzdata/update2/TimeZoneBundleInstaller.java:150-157 | A failed move of `working` to `current` leaves nothing installed and throws `IOException`. The old data is not moved back. |
| InstallerProperties.InstallClosesTzData | tzdata/update2/src/main/libcore/tzdata/update2/TimeZoneBundleInstaller.java:136-143 | The open-handle count after `installWithErrorCode` equals the count before, on every path. The spec functions never change it, so the lemma itself is immediate. The closing is enforced by the method: `Installer.TimeZoneBundleInstaller.TryBlock` opens a handle with `LoadTzData` and closes it with `CloseTzData`, and it must end in exactly the snapshot of `InstallerSpec.TryBlock`. |
| InstallerProperties.InstallWithoutFaults | tzdata/update2/src/main/libcore/tzdata/update2/TimeZoneBundleInstaller.java:92-162 | Assume the storage fails nothing and the bundle extracts. Then the result is exactly the checks' code, and no `old` or `working` is left. |
| InstallerProperties.InstallKeepsActiveValid | tzdata/update2/src/main/libcore/tzdata/update2/TimeZoneBundleInstaller.java:102-157 | Suppose `current` was absent or held a world-readable bundle that passes every check. Then the same is true after `installWithErrorCode`. |
| InstallerProperties.InstallThenQuery | tzdata/update2/src/main/libcore/tzdata/update2/TimeZoneBundleInstaller.java:205-210 | After a successful install, `getInstalledBundleVersion` returns the installed bundle's non-null version record. |
| InstallerProperties.InstallReportsSuccess | tzdata/update2/src/main/libcore/tzdata/update2/TimeZoneBundleInstaller.java:81-84 | `install` has the effects of `installWithErrorCode`. It is true exactly on `INSTALL_SUCCESS` and false exactly on the other codes. |
| InstallerProperties.UninstallNothingInstalled | tzdata/update2/src/main/libcore/tzdata/update2/TimeZoneBundleInstaller.java:175-183 | With no `current`, `uninstall` returns false, or throws if a leftover `old` cannot be deleted. It renames nothing. Without storage faults it returns false. |
| InstallerProperties.UninstallRemovesCurrent | tzdata/update2/src/main/libcore/tzdata/update2/TimeZoneBundleInstaller.java:171-196 | Returns true exactly when `current` existed and is gone afterwards. It is moved by a single rename to `old`. `old` survives only after a failed best-effort delete. When `uninstall` throws, `current` is unchanged. When the storage fails nothing and something is installed, it returns true, and neither `current` nor `old` is left. |
| InstallerProperties.UninstallLeavesWorking | tzdata/update2/src/main/libcore/tzdata/update2/TimeZoneBundleInstaller.java:171-196 | `uninstall` never touches `working`. |
| InstallerProperties.UninstallKeepsActiveValid | tzdata/update2/src/main/libcore/tzdata/update2/TimeZoneBundleInstaller.java:171-196 | `uninstall` keeps `current` either absent or holding an accepted bundle. |
| InstallerProperties.UninstallThenQuery | tzdata/update2/src/main/libcore/tzdata/update2/TimeZoneBundleInstaller.java:205-210 | After `uninstall` returns, `getInstalledBundleVersion` returns null. |
| InstallerProperties.InstalledVersionNullIffAbsent | tzdata/update2/src/main/libcore/tzdata/update2/TimeZoneBundleInstaller.java:198-210 | If `fromBytes` never returns null, `getInstalledBundleVersion` returns null exactly when nothing is installed. |

## Left out

- Logging through `Slog` is left out: it has no effect on the state or the results.
- Thread safety is left out. The class leaves mutual exclusion to its callers, and the model has no concurrency.
- `TimeZoneBundle`, `BundleVersion`, `ZoneInfoDB.TzData` and `FileUtils` are not part of this model.
  - Their behaviour enters only through `Collaborators`, as total deterministic functions: archive extraction, `fromBytes`, `isCompatibleWithThisDevice`, `loadTzData`, `validate` and `getRulesVersion`.
  - The storage primitives enter through `Disk.faults`.
  - The file-name constants are illustrative; only their being distinct matters.
- A directory is a flat map from relative path to file, plus one world-readable flag. Ownership, other permission bits and symbolic links are not modelled.
- Storage.UnpackStep: a failed extraction is modelled as leaving an empty `working`, not a partial tree. Nothing later depends on its contents: it is deleted before any check reads it.
- Storage.DeleteStep: a failed `deleteRecursive` is modelled as deleting nothing, not part of the tree. A partly deleted `old` or `working` is only ever deleted again.
- Bundle.ReadBytes: `FileUtils.readBytes` throws `IllegalArgumentException` when the length is not positive. `ReadBytes` does not model that throw: for a length of 0 it returns an empty read. The installer only passes `Collaborators.bundleVersionFileLength`, whose type `Positive` excludes 0, so the throw never arises in the installer.
- JavaString.CompareTo works on Dafny characters. Java compares UTF-16 code units, and the two orders agree on the ASCII rules versions the installer compares.
- InstallerProperties.UninstallLeavesWorking: the code's `uninstall` sweeps only a leftover `old`, never `working`, so a `working` left by an interrupted install stays until the next install. The model follows the code, and this lemma records that.
- InstallerSpec.ReadSystemRulesVersion: `ZoneInfoDB.TzData.getRulesVersion` may throw `FileNotFoundException`, a subclass of `IOException`, when an existing system file cannot be opened. The model gives `IOException` for every failure on an existing file. So "`FileNotFoundException` only for a missing file" is a property of the model, not a promise of the program. The same holds for `Installer.TimeZoneBundleInstaller.GetSystemRulesVersion`.
