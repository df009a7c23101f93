/**
 * TimeZoneBundleInstaller as functions of the install directory: each public operation gives
 * the disk afterwards, the changes it made in order, and what it returned or threw.
 */
module InstallerSpec {
  import opened Exceptions
  import opened Storage
  import opened Bundle
  import opened JavaString

  const INSTALL_SUCCESS: int := 0
  const INSTALL_FAIL_BAD_BUNDLE_STRUCTURE: int := 1
  const INSTALL_FAIL_BAD_BUNDLE_FORMAT_VERSION: int := 2
  const INSTALL_FAIL_RULES_TOO_OLD: int := 3
  const INSTALL_FAIL_VALIDATION_ERROR: int := 4

  /** Some steps in a row: the disk afterwards, the changes made, and whether none failed. */
  datatype Steps = Steps(disk: Disk, events: seq<Event>, ok: bool)

  /** A public operation: the disk afterwards, the changes made, and the value returned or the exception thrown. */
  datatype Run<T> = Run(disk: Disk, events: seq<Event>, result: Result<T>)

  /** readBundleVersion: the version record of an unpacked bundle. */
  function ReadBundleVersion(c: Collaborators, files: map<string, File>): Result<Option<BundleVersion>> {
    if BUNDLE_VERSION_FILE_NAME !in files then Throw(BundleException)
    else match ReadBytes(files[BUNDLE_VERSION_FILE_NAME], c.bundleVersionFileLength)
      case Throw(e) => Throw(e)
      case Ok(bytes) =>
        match c.fromBytes(bytes)
        case Parsed(v) => Ok(Some(v))
        case ParsedNull => Ok(None)
        case Malformed => Throw(BundleException)
  }

  /** checkBundleDataFilesExist: the time zone data file and the ICU data file are both present. */
  predicate CheckBundleDataFilesExist(files: map<string, File>) {
    TZDATA_FILE_NAME in files && ICU_DATA_FILE_NAME in files
  }

  /** readSystemRulesVersion: the rules version of the data shipped with the system image. */
  function ReadSystemRulesVersion(c: Collaborators, systemTzDataFile: Option<File>): (r: Result<string>)
    ensures r == Throw(FileNotFoundException) <==> systemTzDataFile.None?
    ensures r.Throw? ==> r.exc == IOException || r.exc == FileNotFoundException
    ensures r.Ok? ==> systemTzDataFile.Some? && systemTzDataFile.value.readable
                      && c.getRulesVersion(systemTzDataFile.value.bytes) == Some(r.value)
    ensures systemTzDataFile.Some? && systemTzDataFile.value.readable
            && c.getRulesVersion(systemTzDataFile.value.bytes).Some? ==>
              r == Ok(c.getRulesVersion(systemTzDataFile.value.bytes).value)
  {
    if systemTzDataFile.None? then Throw(FileNotFoundException)
    else if !systemTzDataFile.value.readable then Throw(IOException)
    else match c.getRulesVersion(systemTzDataFile.value.bytes)
      case None => Throw(IOException)
      case Some(v) => Ok(v)
  }

  /**
   * The rules version test of checkBundleRulesNewerThanSystem: compareTo(...) >= 0, which
   * accepts a bundle whose rules are lexicographically equal to or later than the system's.
   */
  function CanApply(bundleRulesVersion: string, systemRulesVersion: string): (r: bool)
    ensures r <==> !LexLess(bundleRulesVersion, systemRulesVersion)
    ensures r <==> bundleRulesVersion == systemRulesVersion || LexLess(systemRulesVersion, bundleRulesVersion)
  {
    CompareToNegative(bundleRulesVersion, systemRulesVersion);
    CompareToNegative(systemRulesVersion, bundleRulesVersion);
    CompareToAntisymmetric(bundleRulesVersion, systemRulesVersion);
    CompareToZero(bundleRulesVersion, systemRulesVersion);
    CompareTo(bundleRulesVersion, systemRulesVersion) >= 0
  }

  /** checkBundleRulesNewerThanSystem: reads the system rules version and compares. */
  function CheckBundleRulesNewerThanSystem(c: Collaborators, systemTzDataFile: Option<File>, v: BundleVersion): Result<bool> {
    match ReadSystemRulesVersion(c, systemTzDataFile)
    case Throw(e) => Throw(e)
    case Ok(systemRulesVersion) => Ok(CanApply(v.rulesVersion, systemRulesVersion))
  }

  /** The time zone data file loads (loadTzData does not return null) and passes TzData.validate. */
  predicate TzDataValid(c: Collaborators, files: map<string, File>) {
    && TZDATA_FILE_NAME in files
    && files[TZDATA_FILE_NAME].readable
    && c.loadTzData(files[TZDATA_FILE_NAME].bytes)
    && c.validate(files[TZDATA_FILE_NAME].bytes)
  }

  /**
   * The checks installWithErrorCode runs on the unpacked bundle, in source order: the code of
   * the first that fails, INSTALL_SUCCESS when all pass, or the exception a check lets escape.
   */
  function Gates(c: Collaborators, systemTzDataFile: Option<File>, files: map<string, File>): (r: Result<int>)
    ensures r.Throw? ==> r.exc == IOException || r.exc == FileNotFoundException
    ensures r.Ok? ==> INSTALL_SUCCESS <= r.value <= INSTALL_FAIL_VALIDATION_ERROR
  {
    match ReadBundleVersion(c, files)
    case Throw(BundleException) => Ok(INSTALL_FAIL_BAD_BUNDLE_STRUCTURE)
    case Throw(e) => Throw(e)
    case Ok(None) => Ok(INSTALL_FAIL_BAD_BUNDLE_STRUCTURE)
    case Ok(Some(v)) =>
      if !c.isCompatibleWithThisDevice(v) then Ok(INSTALL_FAIL_BAD_BUNDLE_FORMAT_VERSION)
      else if !CheckBundleDataFilesExist(files) then Ok(INSTALL_FAIL_BAD_BUNDLE_STRUCTURE)
      else match CheckBundleRulesNewerThanSystem(c, systemTzDataFile, v)
        case Throw(e) => Throw(e)
        case Ok(false) => Ok(INSTALL_FAIL_RULES_TOO_OLD)
        case Ok(true) =>
          if !TzDataValid(c, files) then Ok(INSTALL_FAIL_VALIDATION_ERROR) else Ok(INSTALL_SUCCESS)
  }

  /** `if (dir.exists()) FileUtils.deleteRecursive(dir)`. */
  function DeleteIfPresent(d: Disk, s: Slot): (r: Steps)
    ensures r.disk.openTzData == d.openTzData
    ensures forall e <- r.events :: e.Deleted? && e.slot == s
    ensures r.ok ==> s !in r.disk.dirs && r.disk.dirs == d.dirs - {s}
    ensures !r.ok ==> r.disk.dirs == d.dirs && r.events == [Deleted(s, false)]
    ensures NoFaults(d) ==> NoFaults(r.disk) && r.ok
    ensures s !in d.dirs ==> r == Steps(d, [], true)
    ensures s in d.dirs ==> r.events == [Deleted(s, r.ok)]
  {
    if s in d.dirs then
      var step := DeleteStep(d, s);
      Steps(step.disk, [Deleted(s, step.ok)], step.ok)
    else Steps(d, [], true)
  }

  /** `if (from.exists()) FileUtils.rename(from, to)`. */
  function RenameIfPresent(d: Disk, from: Slot, to: Slot): (r: Steps)
    requires from != to
    ensures from !in d.dirs ==> r == Steps(d, [], true)
    ensures from in d.dirs ==> r.events == [Renamed(from, to, r.ok)]
    ensures r.disk.openTzData == d.openTzData
    ensures r.ok && from in d.dirs ==> r.disk.dirs == (d.dirs - {from})[to := d.dirs[from]]
    ensures !r.ok ==> r.disk.dirs == d.dirs
  {
    if from in d.dirs then
      var step := RenameStep(d, from, to);
      Steps(step.disk, [Renamed(from, to, step.ok)], step.ok)
    else Steps(d, [], true)
  }

  /** The directories a call must sweep away first, in the order it does so. */
  function StaleSlots(d: Disk): seq<Slot> {
    (if Old in d.dirs then [Old] else []) + (if Working in d.dirs then [Working] else [])
  }

  /**
   * The opening sweep of installWithErrorCode: deletes a leftover "old", then a leftover
   * "working", stopping at the first failure.
   */
  function Sweep(d: Disk): (r: Steps)
    ensures |r.events| <= |StaleSlots(d)|
    ensures forall i :: 0 <= i < |r.events| ==> r.events[i].Deleted? && r.events[i].slot == StaleSlots(d)[i]
    ensures r.ok <==> |r.events| == |StaleSlots(d)| && forall e <- r.events :: e.ok
    ensures r.ok ==> Old !in r.disk.dirs && Working !in r.disk.dirs
    ensures !r.ok ==> |r.events| > 0 && r.events[|r.events| - 1] == Deleted(r.events[|r.events| - 1].slot, false)
    ensures forall i :: 0 <= i < |r.events| - 1 ==> r.events[i].ok
    ensures SlotContent(r.disk, Current) == SlotContent(d, Current)
    ensures r.disk.openTzData == d.openTzData
    ensures NoFaults(d) ==> NoFaults(r.disk) && r.ok
  {
    var old_ := DeleteIfPresent(d, Old);
    if !old_.ok then old_
    else
      var working := DeleteIfPresent(old_.disk, Working);
      Steps(working.disk, old_.events + working.events, working.ok)
  }

  /** The `finally` of installWithErrorCode: deleteBestEffort on "old", then on "working". */
  function Cleanup(d: Disk): (r: Steps)
    ensures Old in r.disk.dirs ==> Deleted(Old, false) in r.events
    ensures Working in r.disk.dirs ==> Deleted(Working, false) in r.events
    ensures forall i :: 0 <= i < |r.events| ==> r.events[i].Deleted?
    ensures SlotContent(r.disk, Current) == SlotContent(d, Current)
    ensures r.disk.openTzData == d.openTzData
    ensures NoFaults(d) ==> NoFaults(r.disk) && Old !in r.disk.dirs && Working !in r.disk.dirs
  {
    var old_ := DeleteIfPresent(d, Old);
    var working := DeleteIfPresent(old_.disk, Working);
    Steps(working.disk, old_.events + working.events, old_.ok && working.ok)
  }

  /** The commit: make "working" readable, move "current" to "old" if present, then "working" to "current". */
  function Commit(d: Disk): Run<int> {
    var access := MakeAccessibleStep(d, Working);
    var accessed := [MadeAccessible(access.ok)];
    if !access.ok then Run(access.disk, accessed, Throw(IOException))
    else
      var retire := RenameIfPresent(access.disk, Current, Old);
      var retired := accessed + retire.events;
      if !retire.ok then Run(retire.disk, retired, Throw(IOException))
      else
        var promote := RenameStep(retire.disk, Working, Current);
        Run(promote.disk, retired + [Renamed(Working, Current, promote.ok)],
            if promote.ok then Ok(INSTALL_SUCCESS) else Throw(IOException))
  }

  /** The `try` block of installWithErrorCode, run once the bundle is unpacked into "working". */
  function TryBlock(c: Collaborators, systemTzDataFile: Option<File>, d: Disk): Run<int>
    requires Working in d.dirs
  {
    match Gates(c, systemTzDataFile, d.dirs[Working].files)
    case Throw(e) => Run(d, [], Throw(e))
    case Ok(code) => if code != INSTALL_SUCCESS then Run(d, [], Ok(code)) else Commit(d)
  }

  /** installWithErrorCode. */
  function InstallWithErrorCode(c: Collaborators, systemTzDataFile: Option<File>, d: Disk, content: seq<bv8>): Run<int> {
    var sweep := Sweep(d);
    if !sweep.ok then Run(sweep.disk, sweep.events, Throw(IOException))
    else
      var unpack := UnpackStep(sweep.disk, c.extract(content));
      var unpacked := sweep.events + [Unpacked(unpack.ok)];
      if !unpack.ok then Run(unpack.disk, unpacked, Throw(IOException))
      else
        var attempt := TryBlock(c, systemTzDataFile, unpack.disk);
        var cleanup := Cleanup(attempt.disk);
        Run(cleanup.disk, unpacked + attempt.events + cleanup.events, attempt.result)
  }

  /** install: installWithErrorCode, reporting whether the code is INSTALL_SUCCESS. */
  function Install(c: Collaborators, systemTzDataFile: Option<File>, d: Disk, content: seq<bv8>): Run<bool> {
    var run := InstallWithErrorCode(c, systemTzDataFile, d, content);
    Run(run.disk, run.events,
        match run.result
        case Ok(code) => Ok(code == INSTALL_SUCCESS)
        case Throw(e) => Throw(e))
  }

  /** uninstall. */
  function Uninstall(d: Disk): Run<bool> {
    var sweep := DeleteIfPresent(d, Old);
    if !sweep.ok then Run(sweep.disk, sweep.events, Throw(IOException))
    else if Current !in sweep.disk.dirs then Run(sweep.disk, sweep.events, Ok(false))
    else
      var retire := RenameStep(sweep.disk, Current, Old);
      var retired := sweep.events + [Renamed(Current, Old, retire.ok)];
      if !retire.ok then Run(retire.disk, retired, Throw(IOException))
      else
        var cleanup := DeleteIfPresent(retire.disk, Old);
        Run(cleanup.disk, retired + cleanup.events, Ok(true))
  }

  /** getInstalledBundleVersion: null when nothing is installed, else the version record of "current". */
  function GetInstalledBundleVersion(c: Collaborators, d: Disk): Result<Option<BundleVersion>> {
    if Current !in d.dirs then Ok(None) else ReadBundleVersion(c, d.dirs[Current].files)
  }
}
