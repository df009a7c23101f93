/**
 * What installWithErrorCode, uninstall and the queries promise, proved about the functions of
 * InstallerSpec (and so, through the ensures of the methods in Installer, about the methods).
 */
module InstallerProperties {
  import opened Exceptions
  import opened Storage
  import opened Bundle
  import opened JavaString
  import opened InstallerSpec

  /** The renames among `events`, in order. */
  function Renames(events: seq<Event>): (r: seq<Event>)
    ensures |r| <= |events|
    ensures forall e <- r :: e.Renamed? && e in events
  {
    if events == [] then []
    else (if events[0].Renamed? then [events[0]] else []) + Renames(events[1..])
  }

  lemma {:induction false} RenamesAppend(a: seq<Event>, b: seq<Event>)
    ensures Renames(a + b) == Renames(a) + Renames(b)
    decreases |a|
  {
    if a == [] {
      assert a + b == b;
    } else {
      assert (a + b)[1..] == a[1..] + b;
      RenamesAppend(a[1..], b);
    }
  }

  lemma {:induction false} NoRenames(events: seq<Event>)
    requires forall i :: 0 <= i < |events| ==> !events[i].Renamed?
    ensures Renames(events) == []
    decreases |events|
  {
    if events != [] {
      NoRenames(events[1..]);
    }
  }

  lemma RenamesAround(a: seq<Event>, b: seq<Event>, c: seq<Event>)
    requires forall i :: 0 <= i < |a| ==> !a[i].Renamed?
    requires forall i :: 0 <= i < |c| ==> !c[i].Renamed?
    ensures Renames(a + b + c) == Renames(b)
  {
    RenamesAppend(a + b, c);
    RenamesAppend(a, b);
    NoRenames(a);
    NoRenames(c);
  }

  /**
   * A bundle that passes every check of installWithErrorCode: its version record parses, its
   * format is compatible with this device, the data files are present, its rules version is not
   * lexicographically before the system's, and its time zone data loads and validates.
   */
  ghost predicate AcceptedBundle(c: Collaborators, systemTzDataFile: Option<File>, files: map<string, File>) {
    var rv := ReadBundleVersion(c, files);
    var rs := ReadSystemRulesVersion(c, systemTzDataFile);
    && rv.Ok? && rv.value.Some?
    && c.isCompatibleWithThisDevice(rv.value.value)
    && CheckBundleDataFilesExist(files)
    && rs.Ok? && !LexLess(rv.value.value.rulesVersion, rs.value)
    && TzDataValid(c, files)
  }

  /** "current", when present, holds an accepted bundle that other users may read. */
  ghost predicate ActiveValid(c: Collaborators, systemTzDataFile: Option<File>, d: Disk) {
    Current in d.dirs ==> AcceptedBundle(c, systemTzDataFile, d.dirs[Current].files) && d.dirs[Current].worldAccessible
  }

  /**
   * readBundleVersion throws BundleException when the version file is missing or its leading
   * bytes do not parse, IOException when it cannot be read, and otherwise returns what
   * BundleVersion.fromBytes makes of those bytes (null included).
   */
  lemma ReadBundleVersionOutcomes(c: Collaborators, files: map<string, File>)
    ensures var r := ReadBundleVersion(c, files);
            && (BUNDLE_VERSION_FILE_NAME !in files ==> r == Throw(BundleException))
            && (r == Throw(IOException) <==> BUNDLE_VERSION_FILE_NAME in files && !files[BUNDLE_VERSION_FILE_NAME].readable)
            && (r.Throw? ==> r.exc == BundleException || r.exc == IOException)
            && (r.Ok? ==> BUNDLE_VERSION_FILE_NAME in files && files[BUNDLE_VERSION_FILE_NAME].readable)
    ensures BUNDLE_VERSION_FILE_NAME in files && files[BUNDLE_VERSION_FILE_NAME].readable ==>
              var r := ReadBundleVersion(c, files);
              var f := files[BUNDLE_VERSION_FILE_NAME];
              var head := if |f.bytes| <= c.bundleVersionFileLength then f.bytes else f.bytes[..c.bundleVersionFileLength];
              && (c.fromBytes(head) == Malformed <==> r == Throw(BundleException))
              && (c.fromBytes(head).Parsed? ==> r == Ok(Some(c.fromBytes(head).version)))
              && (c.fromBytes(head) == ParsedNull <==> r == Ok(None))
  {
  }

  /**
   * The checks run in a fixed order and the first that fails decides the code: an absent,
   * unreadable-as-a-bundle or null version record gives 1, an incompatible format 2, missing
   * data files 1, rules lexicographically older than the system's 3, data that does not load
   * or validate 4; all passing gives 0. Only an IOException (or FileNotFoundException) escapes.
   */
  lemma GateOrder(c: Collaborators, systemTzDataFile: Option<File>, files: map<string, File>)
    ensures var rv := ReadBundleVersion(c, files);
            var rs := ReadSystemRulesVersion(c, systemTzDataFile);
            var gates := Gates(c, systemTzDataFile, files);
            var parsed := rv.Ok? && rv.value.Some?;
            var compatible := parsed && c.isCompatibleWithThisDevice(rv.value.value);
            var complete := compatible && CheckBundleDataFilesExist(files);
            var upToDate := complete && rs.Ok? && !LexLess(rv.value.value.rulesVersion, rs.value);
            && (gates == Ok(INSTALL_FAIL_BAD_BUNDLE_STRUCTURE) <==>
                 rv == Throw(BundleException) || rv == Ok(None) || (compatible && !CheckBundleDataFilesExist(files)))
            && (gates == Ok(INSTALL_FAIL_BAD_BUNDLE_FORMAT_VERSION) <==> parsed && !compatible)
            && (gates == Ok(INSTALL_FAIL_RULES_TOO_OLD) <==>
                 complete && rs.Ok? && LexLess(rv.value.value.rulesVersion, rs.value))
            && (gates == Ok(INSTALL_FAIL_VALIDATION_ERROR) <==> upToDate && !TzDataValid(c, files))
            && (gates == Ok(INSTALL_SUCCESS) <==> AcceptedBundle(c, systemTzDataFile, files))
            && (gates.Throw? <==> (rv.Throw? && rv.exc != BundleException) || (complete && rs.Throw?))
            && (gates.Throw? ==> gates.exc == IOException || gates.exc == FileNotFoundException)
  {
  }

  /**
   * The commit of a bundle unpacked into "working" with no "old" present: on success
   * "current" holds the bundle, readable by other users, after the renames "current" to "old"
   * (if "current" existed) and then "working" to "current".
   */
  lemma CommitSwaps(d: Disk)
    requires Working in d.dirs && Old !in d.dirs
    ensures var run := Commit(d);
            run.result == Ok(INSTALL_SUCCESS) ==>
              && SlotContent(run.disk, Current) == Some(Dir(d.dirs[Working].files, true))
              && Renames(run.events) ==
                   (if Current in d.dirs then [Renamed(Current, Old, true)] else []) + [Renamed(Working, Current, true)]
  {
    var run := Commit(d);
    if run.result == Ok(INSTALL_SUCCESS) {
      var access := MakeAccessibleStep(d, Working);
      var retire := RenameIfPresent(access.disk, Current, Old);
      var promote := RenameStep(retire.disk, Working, Current);
      assert access.ok && retire.ok && promote.ok;
      assert run.events == [MadeAccessible(true)] + retire.events + [Renamed(Working, Current, true)];
      RenamesAppend([MadeAccessible(true)], retire.events);
      RenamesAppend([MadeAccessible(true)] + retire.events, [Renamed(Working, Current, true)]);
      assert Renames([MadeAccessible(true)]) == [];
      assert Renames([Renamed(Working, Current, true)]) == [Renamed(Working, Current, true)];
      assert Renames(retire.events) == (if Current in d.dirs then [Renamed(Current, Old, true)] else []);
      assert Working in retire.disk.dirs && retire.disk.dirs[Working] == Dir(d.dirs[Working].files, true);
    }
  }

  /** A failed move of "working" to "current" leaves nothing installed and propagates the exception. */
  lemma CommitWindow(d: Disk)
    requires Working in d.dirs
    ensures var run := Commit(d);
            Renamed(Working, Current, false) in run.events ==> Current !in run.disk.dirs && run.result == Throw(IOException)
  {
  }

  /**
   * The commit renames something only after "working" was made readable to other users, and
   * as long as it renamed nothing "current" is as it was.
   */
  lemma CommitRenamesAfterAccess(d: Disk)
    requires Working in d.dirs
    ensures var run := Commit(d);
            && (Renames(run.events) == [] ==> SlotContent(run.disk, Current) == SlotContent(d, Current))
            && (Renames(run.events) != [] ==> MadeAccessible(true) in run.events)
  {
    var run := Commit(d);
    var access := MakeAccessibleStep(d, Working);
    if !access.ok {
      assert run.events == [MadeAccessible(false)];
    } else {
      var retire := RenameIfPresent(access.disk, Current, Old);
      assert run.events[0] == MadeAccessible(true);
      assert |run.events| >= 2 && run.events[1].Renamed? by {
        if Current in access.disk.dirs {
          assert run.events[1] == retire.events[0];
        }
      }
      assert Renames(run.events) == Renames(run.events[1..]);
      assert Renames(run.events[1..]) != [];
    }
  }

  /** The `try` block changes nothing unless every check passed, and then it is the commit. */
  lemma TryBlockShape(c: Collaborators, systemTzDataFile: Option<File>, d: Disk)
    requires Working in d.dirs
    ensures var run := TryBlock(c, systemTzDataFile, d);
            var gates := Gates(c, systemTzDataFile, d.dirs[Working].files);
            && (gates != Ok(INSTALL_SUCCESS) ==> run == Run(d, [], gates))
            && (gates == Ok(INSTALL_SUCCESS) ==> run == Commit(d))
  {
  }

  /**
   * installWithErrorCode first deletes a leftover "old", then a leftover "working"; if either
   * delete fails the exception propagates and nothing else happens. Otherwise unpacking is the
   * next change.
   */
  lemma InstallSweepsFirst(c: Collaborators, systemTzDataFile: Option<File>, d: Disk, content: seq<bv8>)
    ensures var run := InstallWithErrorCode(c, systemTzDataFile, d, content);
            var sweep := Sweep(d);
            && |sweep.events| < |run.events| + (if sweep.ok then 0 else 1)
            && run.events[..|sweep.events|] == sweep.events
            && (!sweep.ok ==> run.events == sweep.events && run.result == Throw(IOException)
                              && SlotContent(run.disk, Current) == SlotContent(d, Current))
            && (sweep.ok ==> run.events[|sweep.events|].Unpacked?)
  {
    var run := InstallWithErrorCode(c, systemTzDataFile, d, content);
    var sweep := Sweep(d);
    if sweep.ok {
      var unpack := UnpackStep(sweep.disk, c.extract(content));
      var rest := [Unpacked(unpack.ok)];
      if unpack.ok {
        var attempt := TryBlock(c, systemTzDataFile, unpack.disk);
        var cleanup := Cleanup(attempt.disk);
        rest := [Unpacked(true)] + attempt.events + cleanup.events;
        AppendAssociative(sweep.events, [Unpacked(true)], attempt.events);
        AppendAssociative(sweep.events, [Unpacked(true)] + attempt.events, cleanup.events);
      }
      assert run.events == sweep.events + rest;
      assert run.events[|sweep.events|] == rest[0];
    }
  }

  /** A value returned by installWithErrorCode is the code of the checks on what was unpacked. */
  lemma InstallReturnsGateCode(c: Collaborators, systemTzDataFile: Option<File>, d: Disk, content: seq<bv8>)
    ensures var run := InstallWithErrorCode(c, systemTzDataFile, d, content);
            run.result.Ok? ==> c.extract(content).Some? && run.result == Gates(c, systemTzDataFile, c.extract(content).value)
  {
  }

  /** The only renames of installWithErrorCode are those of its `try` block. */
  lemma InstallRenames(c: Collaborators, systemTzDataFile: Option<File>, d: Disk, content: seq<bv8>)
    ensures var run := InstallWithErrorCode(c, systemTzDataFile, d, content);
            var sweep := Sweep(d);
            var unpack := UnpackStep(sweep.disk, c.extract(content));
            Renames(run.events) ==
              if sweep.ok && unpack.ok then Renames(TryBlock(c, systemTzDataFile, unpack.disk).events) else []
  {
    var run := InstallWithErrorCode(c, systemTzDataFile, d, content);
    var sweep := Sweep(d);
    if sweep.ok {
      var unpack := UnpackStep(sweep.disk, c.extract(content));
      var unpacked := sweep.events + [Unpacked(unpack.ok)];
      if unpack.ok {
        var attempt := TryBlock(c, systemTzDataFile, unpack.disk);
        forall i | 0 <= i < |unpacked|
          ensures !unpacked[i].Renamed?
        {
          if i < |sweep.events| {
            assert unpacked[i] == sweep.events[i];
          }
        }
        RenamesAround(unpacked, attempt.events, Cleanup(attempt.disk).events);
      } else {
        NoRenames(run.events);
      }
    } else {
      NoRenames(run.events);
    }
  }

  /**
   * A rejected bundle renames nothing and leaves "current" exactly as it was; a rename happens
   * only once every check has passed and the unpacking and the permission change succeeded.
   */
  lemma InstallRejectionKeepsCurrent(c: Collaborators, systemTzDataFile: Option<File>, d: Disk, content: seq<bv8>)
    ensures var run := InstallWithErrorCode(c, systemTzDataFile, d, content);
            && (run.result.Ok? && run.result.value != INSTALL_SUCCESS ==>
                  Renames(run.events) == [] && SlotContent(run.disk, Current) == SlotContent(d, Current))
            && (Renames(run.events) == [] ==> SlotContent(run.disk, Current) == SlotContent(d, Current))
            && (Renames(run.events) != [] ==>
                  && c.extract(content).Some?
                  && AcceptedBundle(c, systemTzDataFile, c.extract(content).value)
                  && Unpacked(true) in run.events && MadeAccessible(true) in run.events)
  {
    var run := InstallWithErrorCode(c, systemTzDataFile, d, content);
    var sweep := Sweep(d);
    InstallRenames(c, systemTzDataFile, d, content);
    if sweep.ok {
      var unpack := UnpackStep(sweep.disk, c.extract(content));
      if unpack.ok {
        var files := c.extract(content).value;
        assert unpack.disk.dirs[Working].files == files;
        TryBlockShape(c, systemTzDataFile, unpack.disk);
        GateOrder(c, systemTzDataFile, files);
        if Gates(c, systemTzDataFile, files) == Ok(INSTALL_SUCCESS) {
          CommitRenamesAfterAccess(unpack.disk);
        }
      }
    }
  }

  /**
   * On success "current" holds exactly the unpacked bundle, readable by other users, and the
   * renames were "current" to "old" (only if "current" existed) strictly before "working" to
   * "current".
   */
  lemma InstallSuccessSwaps(c: Collaborators, systemTzDataFile: Option<File>, d: Disk, content: seq<bv8>)
    ensures var run := InstallWithErrorCode(c, systemTzDataFile, d, content);
            run.result == Ok(INSTALL_SUCCESS) ==>
              && c.extract(content).Some?
              && SlotContent(run.disk, Current) == Some(Dir(c.extract(content).value, true))
              && Renames(run.events) ==
                   (if Current in d.dirs then [Renamed(Current, Old, true)] else []) + [Renamed(Working, Current, true)]
  {
    var run := InstallWithErrorCode(c, systemTzDataFile, d, content);
    if run.result == Ok(INSTALL_SUCCESS) {
      var sweep := Sweep(d);
      var unpack := UnpackStep(sweep.disk, c.extract(content));
      var attempt := TryBlock(c, systemTzDataFile, unpack.disk);
      TryBlockShape(c, systemTzDataFile, unpack.disk);
      assert attempt == Commit(unpack.disk);
      CommitSwaps(unpack.disk);
      InstallRenames(c, systemTzDataFile, d, content);
    }
  }

  /**
   * Once the bundle is unpacked, "old" and "working" are gone afterwards unless their
   * best-effort delete failed, and the cleanup never changes what the checks and the commit
   * returned or threw.
   */
  lemma InstallCleansUp(c: Collaborators, systemTzDataFile: Option<File>, d: Disk, content: seq<bv8>)
    ensures var run := InstallWithErrorCode(c, systemTzDataFile, d, content);
            Unpacked(true) in run.events ==>
              && (Old in run.disk.dirs ==> Deleted(Old, false) in run.events)
              && (Working in run.disk.dirs ==> Deleted(Working, false) in run.events)
              && run.result == TryBlock(c, systemTzDataFile, UnpackStep(Sweep(d).disk, c.extract(content)).disk).result
  {
  }

  /**
   * If "current" was moved to "old" but "working" could not be moved to "current", nothing is
   * installed afterwards and the exception propagates; the old data is not moved back.
   */
  lemma InstallSecondRenameWindow(c: Collaborators, systemTzDataFile: Option<File>, d: Disk, content: seq<bv8>)
    ensures var run := InstallWithErrorCode(c, systemTzDataFile, d, content);
            Renamed(Working, Current, false) in run.events ==>
              Current !in run.disk.dirs && run.result == Throw(IOException)
  {
    var run := InstallWithErrorCode(c, systemTzDataFile, d, content);
    var sweep := Sweep(d);
    if sweep.ok && Renamed(Working, Current, false) in run.events {
      var unpack := UnpackStep(sweep.disk, c.extract(content));
      var unpacked := sweep.events + [Unpacked(unpack.ok)];
      var attempt := TryBlock(c, systemTzDataFile, unpack.disk);
      var cleanup := Cleanup(attempt.disk);
      assert Renamed(Working, Current, false) !in unpacked;
      assert Renamed(Working, Current, false) !in cleanup.events;
      assert Renamed(Working, Current, false) in attempt.events;
      CommitWindow(unpack.disk);
    }
  }

  /**
   * Every time zone data handle opened by the checks is closed again, on every path. The spec
   * functions never change the handle count, so this holds at once here. The closing itself is
   * enforced in Installer: TimeZoneBundleInstaller.TryBlock opens a handle with LoadTzData and
   * closes it with CloseTzData, and it must end in exactly the snapshot of InstallerSpec.TryBlock.
   */
  lemma InstallClosesTzData(c: Collaborators, systemTzDataFile: Option<File>, d: Disk, content: seq<bv8>)
    ensures InstallWithErrorCode(c, systemTzDataFile, d, content).disk.openTzData == d.openTzData
  {
  }

  /**
   * When the storage fails nothing and the bundle can be extracted, installWithErrorCode
   * returns exactly the code of the checks (or throws what they throw) and leaves no "old"
   * or "working" behind, whatever leftovers an interrupted earlier call left.
   */
  lemma InstallWithoutFaults(c: Collaborators, systemTzDataFile: Option<File>, d: Disk, content: seq<bv8>)
    requires NoFaults(d) && c.extract(content).Some?
    ensures var run := InstallWithErrorCode(c, systemTzDataFile, d, content);
            && run.result == Gates(c, systemTzDataFile, c.extract(content).value)
            && Old !in run.disk.dirs && Working !in run.disk.dirs
  {
  }

  /** installWithErrorCode keeps "current" either absent or holding an accepted bundle. */
  lemma InstallKeepsActiveValid(c: Collaborators, systemTzDataFile: Option<File>, d: Disk, content: seq<bv8>)
    requires ActiveValid(c, systemTzDataFile, d)
    ensures ActiveValid(c, systemTzDataFile, InstallWithErrorCode(c, systemTzDataFile, d, content).disk)
  {
    InstallRejectionKeepsCurrent(c, systemTzDataFile, d, content);
    InstallSuccessSwaps(c, systemTzDataFile, d, content);
    GateOrder(c, systemTzDataFile, if c.extract(content).Some? then c.extract(content).value else map[]);
  }

  /** A successful install is reported by getInstalledBundleVersion as the version record of the bundle. */
  lemma InstallThenQuery(c: Collaborators, systemTzDataFile: Option<File>, d: Disk, content: seq<bv8>)
    ensures var run := InstallWithErrorCode(c, systemTzDataFile, d, content);
            run.result == Ok(INSTALL_SUCCESS) ==>
              && c.extract(content).Some?
              && GetInstalledBundleVersion(c, run.disk) == ReadBundleVersion(c, c.extract(content).value)
              && GetInstalledBundleVersion(c, run.disk).Ok? && GetInstalledBundleVersion(c, run.disk).value.Some?
  {
    InstallSuccessSwaps(c, systemTzDataFile, d, content);
    InstallReturnsGateCode(c, systemTzDataFile, d, content);
    if c.extract(content).Some? {
      GateOrder(c, systemTzDataFile, c.extract(content).value);
    }
  }

  /**
   * uninstall with nothing installed returns false (or throws, if the leftover "old" cannot be
   * deleted), renames nothing and leaves "current" absent.
   */
  lemma UninstallNothingInstalled(d: Disk)
    requires Current !in d.dirs
    ensures var run := Uninstall(d);
            && (run.result == Ok(false) || run.result == Throw(IOException))
            && (NoFaults(d) ==> run.result == Ok(false))
            && Current !in run.disk.dirs && Renames(run.events) == []
  {
    NoRenames(Uninstall(d).events);
  }

  /**
   * uninstall returns true exactly when "current" existed and is gone afterwards. It then
   * renamed "current" to "old" in one step and deleted "old" best-effort; when it throws,
   * "current" is exactly as it was. When the storage fails nothing, an installed bundle is
   * always removed, and no "old" is left either.
   */
  lemma UninstallRemovesCurrent(d: Disk)
    ensures var run := Uninstall(d);
            && (run.result == Ok(true) <==> Current in d.dirs && Current !in run.disk.dirs)
            && (run.result == Ok(true) ==> Renames(run.events) == [Renamed(Current, Old, true)]
                                           && (Old in run.disk.dirs ==> run.events[|run.events| - 1] == Deleted(Old, false)))
            && (run.result.Throw? ==> SlotContent(run.disk, Current) == SlotContent(d, Current))
            && (NoFaults(d) && Current in d.dirs ==>
                  run.result == Ok(true) && Current !in run.disk.dirs && Old !in run.disk.dirs)
  {
    var run := Uninstall(d);
    var sweep := DeleteIfPresent(d, Old);
    if run.result == Ok(true) {
      var retire := RenameStep(sweep.disk, Current, Old);
      var cleanup := DeleteIfPresent(retire.disk, Old);
      RenamesAppend(sweep.events, [Renamed(Current, Old, true)]);
      RenamesAppend(sweep.events + [Renamed(Current, Old, true)], cleanup.events);
      assert Renames(sweep.events) == [];
      assert Renames(cleanup.events) == [];
    }
  }

  /** uninstall never touches "working": unlike install it does not sweep a leftover "working". */
  lemma UninstallLeavesWorking(d: Disk)
    ensures SlotContent(Uninstall(d).disk, Working) == SlotContent(d, Working)
  {
  }

  /** uninstall keeps "current" either absent or holding an accepted bundle. */
  lemma UninstallKeepsActiveValid(c: Collaborators, systemTzDataFile: Option<File>, d: Disk)
    requires ActiveValid(c, systemTzDataFile, d)
    ensures ActiveValid(c, systemTzDataFile, Uninstall(d).disk)
  {
  }

  /** After uninstall returns, getInstalledBundleVersion reports that nothing is installed. */
  lemma UninstallThenQuery(c: Collaborators, d: Disk)
    ensures Uninstall(d).result.Ok? ==> GetInstalledBundleVersion(c, Uninstall(d).disk) == Ok(None)
  {
  }

  /** BundleVersion.fromBytes never returns null (it throws BundleException instead). */
  ghost predicate ParserNeverNull(c: Collaborators) {
    forall bytes :: c.fromBytes(bytes) != ParsedNull
  }

  /** With a parser that never returns null, getInstalledBundleVersion returns null exactly when nothing is installed. */
  lemma InstalledVersionNullIffAbsent(c: Collaborators, d: Disk)
    requires ParserNeverNull(c)
    ensures GetInstalledBundleVersion(c, d) == Ok(None) <==> Current !in d.dirs
  {
  }

  /** install returns true exactly when installWithErrorCode returns INSTALL_SUCCESS, with the same effects. */
  lemma InstallReportsSuccess(c: Collaborators, systemTzDataFile: Option<File>, d: Disk, content: seq<bv8>)
    ensures var run := InstallWithErrorCode(c, systemTzDataFile, d, content);
            var wrapped := Install(c, systemTzDataFile, d, content);
            && wrapped.disk == run.disk && wrapped.events == run.events
            && (wrapped.result == Ok(true) <==> run.result == Ok(INSTALL_SUCCESS))
            && (wrapped.result == Ok(false) <==> run.result.Ok? && run.result.value != INSTALL_SUCCESS)
  {
  }
}
