/**
 * TimeZoneBundleInstaller: installs, uninstalls and reports time zone rule bundles in an
 * install directory with the slots "old", "current" and "working". Every state-changing
 * method is proved to do exactly what the matching function of InstallerSpec describes.
 */
module Installer {
  import opened Exceptions
  import opened Storage
  import opened Bundle
  import Spec = InstallerSpec

  class TimeZoneBundleInstaller {
    /** The time zone data shipped with the system image (None: the file does not exist). It is never written. */
    const systemTzDataFile: Option<File>
    const collaborators: Collaborators
    /** The install directory. */
    const fs: FileSystem

    constructor (systemTzDataFile: Option<File>, collaborators: Collaborators, installDir: FileSystem)
      ensures this.systemTzDataFile == systemTzDataFile && this.collaborators == collaborators
      ensures fs == installDir
    {
      this.systemTzDataFile := systemTzDataFile;
      this.collaborators := collaborators;
      fs := installDir;
    }

    /** install: true exactly when installWithErrorCode reports INSTALL_SUCCESS. */
    method Install(content: seq<bv8>) returns (r: Result<bool>)
      modifies fs
      ensures var run := Spec.InstallWithErrorCode(collaborators, systemTzDataFile, old(fs.Snapshot()), content);
              && fs.Snapshot() == run.disk && fs.log == old(fs.log) + run.events
              && (r.Ok? <==> run.result.Ok?)
              && (r.Ok? ==> (r.value <==> run.result.value == Spec.INSTALL_SUCCESS))
              && (r.Throw? ==> r.exc == run.result.exc)
    {
      var code := InstallWithErrorCode(content);
      match code
      case Ok(c) => r := Ok(c == Spec.INSTALL_SUCCESS);
      case Throw(e) => r := Throw(e);
    }

    /**
     * installWithErrorCode: sweeps leftovers, unpacks into "working", runs the checks, swaps
     * "working" into "current", and always deletes "old" and "working" on the way out of the
     * checks, whatever they returned or threw. Every open time zone data handle is closed again.
     */
    method InstallWithErrorCode(content: seq<bv8>) returns (r: Result<int>)
      modifies fs
      ensures var run := Spec.InstallWithErrorCode(collaborators, systemTzDataFile, old(fs.Snapshot()), content);
              fs.Snapshot() == run.disk && fs.log == old(fs.log) + run.events && r == run.result
    {
      ghost var sweep := Spec.Sweep(fs.Snapshot());
      var swept := SweepStale();
      if !swept {
        return Throw(IOException);
      }
      ghost var unpack := UnpackStep(sweep.disk, collaborators.extract(content));
      var unpacked := UnpackBundle(content);
      if !unpacked {
        return Throw(IOException);
      }
      ghost var attempt := Spec.TryBlock(collaborators, systemTzDataFile, unpack.disk);
      r := TryBlock();
      Finally();
      ghost var unpackedEvents := sweep.events + [Unpacked(true)];
      AppendAssociative(old(fs.log), sweep.events, [Unpacked(true)]);
      AppendAssociative(old(fs.log), unpackedEvents, attempt.events);
      AppendAssociative(old(fs.log), unpackedEvents + attempt.events, Spec.Cleanup(attempt.disk).events);
    }

    /** The opening of installWithErrorCode: deletes a leftover "old", then a leftover "working"; a failure propagates. */
    method SweepStale() returns (ok: bool)
      modifies fs
      ensures var sweep := Spec.Sweep(old(fs.Snapshot()));
              fs.Snapshot() == sweep.disk && fs.log == old(fs.log) + sweep.events && ok == sweep.ok
    {
      if Old in fs.dirs {
        ok := fs.DeleteRecursive(Old);
        if !ok {
          return;
        }
      }
      if Working in fs.dirs {
        ok := fs.DeleteRecursive(Working);
        return;
      }
      ok := true;
    }

    /** The `finally` of installWithErrorCode: best-effort deletes of "old" and "working", which never throw. */
    method Finally()
      modifies fs
      ensures var cleanup := Spec.Cleanup(old(fs.Snapshot()));
              fs.Snapshot() == cleanup.disk && fs.log == old(fs.log) + cleanup.events
    {
      DeleteBestEffort(Old);
      DeleteBestEffort(Working);
    }

    /** The `try` block of installWithErrorCode: the checks, in order, then the commit. */
    method TryBlock() returns (r: Result<int>)
      requires Working in fs.dirs
      modifies fs
      ensures var run := Spec.TryBlock(collaborators, systemTzDataFile, old(fs.Snapshot()));
              fs.Snapshot() == run.disk && fs.log == old(fs.log) + run.events && r == run.result
    {
      var working := fs.dirs[Working].files;
      var bundleVersion := Spec.ReadBundleVersion(collaborators, working);
      if bundleVersion.Throw? {
        if bundleVersion.exc == BundleException {
          return Ok(Spec.INSTALL_FAIL_BAD_BUNDLE_STRUCTURE);
        }
        return Throw(bundleVersion.exc);
      }
      if bundleVersion.value.None? {
        return Ok(Spec.INSTALL_FAIL_BAD_BUNDLE_STRUCTURE);
      }
      var version := bundleVersion.value.value;
      if !collaborators.isCompatibleWithThisDevice(version) {
        return Ok(Spec.INSTALL_FAIL_BAD_BUNDLE_FORMAT_VERSION);
      }
      if !Spec.CheckBundleDataFilesExist(working) {
        return Ok(Spec.INSTALL_FAIL_BAD_BUNDLE_STRUCTURE);
      }
      var canApply := Spec.CheckBundleRulesNewerThanSystem(collaborators, systemTzDataFile, version);
      if canApply.Throw? {
        return Throw(canApply.exc);
      }
      if !canApply.value {
        return Ok(Spec.INSTALL_FAIL_RULES_TOO_OLD);
      }
      var zoneInfoFile := working[TZDATA_FILE_NAME];
      var loaded := fs.LoadTzData(zoneInfoFile, collaborators.loadTzData);
      if !loaded {
        return Ok(Spec.INSTALL_FAIL_VALIDATION_ERROR);
      }
      var valid := collaborators.validate(zoneInfoFile.bytes);
      fs.CloseTzData();
      if !valid {
        return Ok(Spec.INSTALL_FAIL_VALIDATION_ERROR);
      }

      var ok := fs.MakeDirectoryWorldAccessible(Working);
      if !ok {
        return Throw(IOException);
      }
      if Current in fs.dirs {
        ok := fs.Rename(Current, Old);
        if !ok {
          return Throw(IOException);
        }
      }
      ok := fs.Rename(Working, Current);
      if !ok {
        return Throw(IOException);
      }
      return Ok(Spec.INSTALL_SUCCESS);
    }

    /**
     * uninstall: deletes a leftover "old", then moves "current" to "old" in one rename and
     * deletes it best-effort. False when nothing was installed.
     */
    method Uninstall() returns (r: Result<bool>)
      modifies fs
      ensures var run := Spec.Uninstall(old(fs.Snapshot()));
              fs.Snapshot() == run.disk && fs.log == old(fs.log) + run.events && r == run.result
    {
      if Old in fs.dirs {
        var ok := fs.DeleteRecursive(Old);
        if !ok {
          return Throw(IOException);
        }
      }
      if Current !in fs.dirs {
        return Ok(false);
      }
      var ok := fs.Rename(Current, Old);
      if !ok {
        return Throw(IOException);
      }
      DeleteBestEffort(Old);
      return Ok(true);
    }

    /** getInstalledBundleVersion: null exactly when "current" is absent, else its version record. */
    method GetInstalledBundleVersion() returns (r: Result<Option<BundleVersion>>)
      ensures Current !in fs.dirs ==> r == Ok(None)
      ensures Current in fs.dirs ==> r == Spec.ReadBundleVersion(collaborators, fs.dirs[Current].files)
    {
      if Current !in fs.dirs {
        return Ok(None);
      }
      r := Spec.ReadBundleVersion(collaborators, fs.dirs[Current].files);
    }

    /**
     * getSystemRulesVersion: FileNotFoundException exactly when the system data file is missing;
     * the rules version of that file whenever it can be read.
     */
    method GetSystemRulesVersion() returns (r: Result<string>)
      ensures r == Throw(FileNotFoundException) <==> systemTzDataFile.None?
      ensures r.Ok? ==> systemTzDataFile.Some?
                        && collaborators.getRulesVersion(systemTzDataFile.value.bytes) == Some(r.value)
      ensures systemTzDataFile.Some? && systemTzDataFile.value.readable
              && collaborators.getRulesVersion(systemTzDataFile.value.bytes).Some? ==>
                r == Ok(collaborators.getRulesVersion(systemTzDataFile.value.bytes).value)
      ensures r == Spec.ReadSystemRulesVersion(collaborators, systemTzDataFile)
    {
      r := Spec.ReadSystemRulesVersion(collaborators, systemTzDataFile);
    }

    /** deleteBestEffort: deletes the directory if present; a failure is swallowed. */
    method DeleteBestEffort(s: Slot)
      modifies fs
      ensures var steps := Spec.DeleteIfPresent(old(fs.Snapshot()), s);
              fs.Snapshot() == steps.disk && fs.log == old(fs.log) + steps.events
    {
      if s in fs.dirs {
        var _ := fs.DeleteRecursive(s);
      }
    }

    /** unpackBundle: extracts the bundle into "working"; a failure propagates. */
    method UnpackBundle(content: seq<bv8>) returns (ok: bool)
      modifies fs
      ensures var step := UnpackStep(old(fs.Snapshot()), collaborators.extract(content));
              fs.Snapshot() == step.disk && ok == step.ok && fs.log == old(fs.log) + [Unpacked(ok)]
    {
      ok := fs.Unpack(collaborators.extract(content));
    }
  }
}
