/**
 * The install directory and the FileUtils primitives the installer drives it with:
 * recursive delete, rename, extraction into a directory, and making a directory tree
 * readable by other users.
 */
module Storage {
  import opened Exceptions

  /** The three directories under the install directory: "old", "current" and "working". */
  datatype Slot = Old | Current | Working

  /** A file: its bytes, and whether reading it succeeds (reading an unreadable file throws IOException). */
  datatype File = File(bytes: seq<bv8>, readable: bool)

  /** A directory tree, flattened to the relative paths of its files, and whether other users may read it. */
  datatype Dir = Dir(files: map<string, File>, worldAccessible: bool)

  /** A change the installer asks of the install directory, and whether it succeeded. */
  datatype Event =
    | Deleted(slot: Slot, ok: bool)
    | Renamed(from: Slot, to: Slot, ok: bool)
    | Unpacked(ok: bool)
    | MadeAccessible(ok: bool)

  /** Event logs grow by appending; regrouping the appended pieces does not change the log. */
  lemma AppendAssociative(a: seq<Event>, b: seq<Event>, c: seq<Event>)
    ensures a + (b + c) == a + b + c
  {
  }

  /**
   * The install directory: the directory each slot holds, the outcomes the storage will give
   * the next fallible operations (true: that operation throws IOException; once the sequence
   * is used up every operation succeeds), and the number of open time zone data handles.
   */
  datatype Disk = Disk(dirs: map<Slot, Dir>, faults: seq<bool>, openTzData: nat)

  /** A primitive's effect: the disk afterwards and whether it succeeded. */
  datatype Step = Step(disk: Disk, ok: bool)

  /** File.exists() on a slot, as the content it holds. */
  function SlotContent(d: Disk, s: Slot): Option<Dir> {
    if s in d.dirs then Some(d.dirs[s]) else None
  }

  /** Whether the next fallible operation fails. */
  predicate NextFails(d: Disk) {
    |d.faults| > 0 && d.faults[0]
  }

  /** The disk once the next fallible operation has drawn its outcome. */
  function Consume(d: Disk): Disk {
    d.(faults := if d.faults == [] then [] else d.faults[1..])
  }

  /** The storage will not fail any operation. */
  ghost predicate NoFaults(d: Disk) {
    forall i :: 0 <= i < |d.faults| ==> !d.faults[i]
  }

  /**
   * FileUtils.deleteRecursive: removes the directory. It throws when the directory is absent
   * or the storage refuses; a failed delete leaves the directory as it was.
   */
  function DeleteStep(d: Disk, s: Slot): (r: Step)
    ensures r.disk.openTzData == d.openTzData
    ensures NoFaults(d) ==> NoFaults(r.disk) && (r.ok <==> s in d.dirs)
    ensures r.ok ==> r.disk.dirs == d.dirs - {s}
    ensures !r.ok ==> r.disk.dirs == d.dirs
  {
    var ok := s in d.dirs && !NextFails(d);
    Step(Consume(d).(dirs := if ok then d.dirs - {s} else d.dirs), ok)
  }

  /**
   * FileUtils.rename, i.e. File.renameTo: moves the whole directory in one step. It fails when
   * the source is absent or the target is a non-empty directory, or when the storage refuses;
   * a failed rename changes nothing.
   */
  function RenameStep(d: Disk, from: Slot, to: Slot): (r: Step)
    requires from != to
    ensures r.disk.openTzData == d.openTzData
    ensures NoFaults(d) ==> NoFaults(r.disk)
    ensures NoFaults(d) && from in d.dirs && to !in d.dirs ==> r.ok
    ensures r.ok ==> from in d.dirs && r.disk.dirs == (d.dirs - {from})[to := d.dirs[from]]
    ensures !r.ok ==> r.disk.dirs == d.dirs
  {
    var ok := from in d.dirs && (to !in d.dirs || d.dirs[to].files == map[]) && !NextFails(d);
    Step(Consume(d).(dirs := if ok then (d.dirs - {from})[to := d.dirs[from]] else d.dirs), ok)
  }

  /**
   * TimeZoneBundle.extractTo into "working": the extracted files, not yet readable by other
   * users. Extraction fails on a malformed archive or when the storage refuses; the partial
   * directory it then leaves is represented as an empty one.
   */
  function UnpackStep(d: Disk, extracted: Option<map<string, File>>): (r: Step)
    ensures r.disk.openTzData == d.openTzData
    ensures NoFaults(d) ==> NoFaults(r.disk) && (r.ok <==> extracted.Some?)
    ensures r.ok ==> extracted.Some? && r.disk.dirs == d.dirs[Working := Dir(extracted.value, false)]
    ensures !r.ok ==> r.disk.dirs == d.dirs[Working := Dir(map[], false)]
  {
    var ok := extracted.Some? && !NextFails(d);
    Step(Consume(d).(dirs := d.dirs[Working := Dir(if ok then extracted.value else map[], false)]), ok)
  }

  /**
   * FileUtils.makeDirectoryWorldAccessible: marks the tree readable by other users. It fails
   * when the directory is absent or the storage refuses, and never changes the files.
   */
  function MakeAccessibleStep(d: Disk, s: Slot): (r: Step)
    ensures r.disk.openTzData == d.openTzData
    ensures NoFaults(d) ==> NoFaults(r.disk) && (r.ok <==> s in d.dirs)
    ensures r.ok ==> s in d.dirs && r.disk.dirs == d.dirs[s := Dir(d.dirs[s].files, true)]
    ensures !r.ok ==> r.disk.dirs == d.dirs
  {
    var ok := s in d.dirs && !NextFails(d);
    Step(Consume(d).(dirs := if ok then d.dirs[s := d.dirs[s].(worldAccessible := true)] else d.dirs), ok)
  }

  /**
   * The install directory as the installer changes it in place. `log` records every change
   * asked of it, in order.
   */
  class FileSystem {
    var dirs: map<Slot, Dir>
    var faults: seq<bool>
    var openTzData: nat
    ghost var log: seq<Event>

    function Snapshot(): Disk
      reads this
    {
      Disk(dirs, faults, openTzData)
    }

    constructor (dirs: map<Slot, Dir>, faults: seq<bool>)
      ensures Snapshot() == Disk(dirs, faults, 0) && log == []
    {
      this.dirs := dirs;
      this.faults := faults;
      openTzData := 0;
      log := [];
    }

    /** Draws the outcome of the next fallible operation. */
    method TakeFault() returns (fails: bool)
      modifies this
      ensures fails == NextFails(old(Snapshot()))
      ensures Snapshot() == Consume(old(Snapshot())) && log == old(log)
    {
      fails := |faults| > 0 && faults[0];
      if faults != [] {
        faults := faults[1..];
      }
    }

    method DeleteRecursive(s: Slot) returns (ok: bool)
      modifies this
      ensures Step(Snapshot(), ok) == DeleteStep(old(Snapshot()), s)
      ensures log == old(log) + [Deleted(s, ok)]
    {
      var fails := TakeFault();
      ok := s in dirs && !fails;
      if ok {
        dirs := dirs - {s};
      }
      log := log + [Deleted(s, ok)];
    }

    method Rename(from: Slot, to: Slot) returns (ok: bool)
      requires from != to
      modifies this
      ensures Step(Snapshot(), ok) == RenameStep(old(Snapshot()), from, to)
      ensures log == old(log) + [Renamed(from, to, ok)]
    {
      var fails := TakeFault();
      ok := from in dirs && (to !in dirs || dirs[to].files == map[]) && !fails;
      if ok {
        dirs := (dirs - {from})[to := dirs[from]];
      }
      log := log + [Renamed(from, to, ok)];
    }

    method Unpack(extracted: Option<map<string, File>>) returns (ok: bool)
      modifies this
      ensures Step(Snapshot(), ok) == UnpackStep(old(Snapshot()), extracted)
      ensures log == old(log) + [Unpacked(ok)]
    {
      var fails := TakeFault();
      ok := extracted.Some? && !fails;
      dirs := dirs[Working := Dir(if ok then extracted.value else map[], false)];
      log := log + [Unpacked(ok)];
    }

    method MakeDirectoryWorldAccessible(s: Slot) returns (ok: bool)
      modifies this
      ensures Step(Snapshot(), ok) == MakeAccessibleStep(old(Snapshot()), s)
      ensures log == old(log) + [MadeAccessible(ok)]
    {
      var fails := TakeFault();
      ok := s in dirs && !fails;
      if ok {
        dirs := dirs[s := dirs[s].(worldAccessible := true)];
      }
      log := log + [MadeAccessible(ok)];
    }

    /**
     * ZoneInfoDB.TzData.loadTzData: reads and parses the file, keeping a handle open when it
     * loads; otherwise it returns null and leaves nothing open.
     */
    method LoadTzData(f: File, loads: seq<bv8> -> bool) returns (loaded: bool)
      modifies this
      ensures loaded == (f.readable && loads(f.bytes))
      ensures Snapshot() == old(Snapshot()).(openTzData := if loaded then old(openTzData) + 1 else old(openTzData))
      ensures log == old(log)
    {
      loaded := f.readable && loads(f.bytes);
      if loaded {
        openTzData := openTzData + 1;
      }
    }

    /** TzData.close. */
    method CloseTzData()
      requires openTzData > 0
      modifies this
      ensures Snapshot() == old(Snapshot()).(openTzData := old(openTzData) - 1) && log == old(log)
    {
      openTzData := openTzData - 1;
    }
  }
}
