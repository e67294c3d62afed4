/**
 Snapshot files: write to `<path>.tmp`, chmod, rename, and remove the temporary file on an error.

 A write of a file is not atomic: every prefix of its content is a state of its own. The disk
 records each state it goes through, because a concurrent reader may look, and a crash may
 leave the disk, at any of them. Each operation can fail.
 */
module FileStorage {
  import opened Wrappers
  import opened Bytes

  datatype File = File(content: bytes, mode: nat)

  type FileSystem = map<string, File>

  const OWNER_ONLY: nat := 0x180   // 0o600
  const TMP_SUFFIX := ".tmp"
  const ENOENT := "enoent"

  /** Which of the operations of one `Write` fail. `write == Some(n)` fails after n steps of the write. */
  datatype Faults = Faults(write: Option<nat>, chmod: bool, rename: bool, rm: bool, reason: string)

  function Look(fs: FileSystem, path: string): Option<File> {
    if path in fs then Some(fs[path]) else None
  }

  function Snapshot(content: bytes): Option<File> {
    Some(File(content, OWNER_ONLY))
  }

  function ReadFile(fs: FileSystem, path: string): Result<bytes, string> {
    if path in fs then Ok(fs[path].content) else Err(ENOENT)
  }

  class Disk {
    var files: FileSystem
    ghost var states: seq<FileSystem>
    const newFileMode: nat

    constructor (files: FileSystem, newFileMode: nat)
      ensures this.files == files && states == [files]
    {
      this.files := files;
      this.newFileMode := newFileMode;
      states := [files];
    }

    /** Every change of the disk is a new state. */
    method Put(next: FileSystem)
      modifies this
      ensures files == next && states == old(states) + [next]
    {
      files := next;
      states := states + [next];
    }

    /**
     `File.write`: truncate or create, then one byte after the other. State i behind the old ones
     has the first i bytes; a failure after n steps leaves the first n states.
     */
    method WriteFile(path: string, content: bytes, fault: Option<nat>) returns (failed: bool)
      modifies this
      ensures failed <==> fault.Some? && fault.value <= |content|
      ensures var steps := if failed then fault.value else |content| + 1;
              && |states| == |old(states)| + steps
              && states[..|old(states)|] == old(states)
              && forall i | |old(states)| <= i < |states| ::
                   states[i] == Written(old(files), path, content[..i - |old(states)|])
      ensures files == if failed && fault == Some(0) then old(files) else states[|states| - 1]
      ensures !failed ==> files == Written(old(files), path, content)
      ensures forall i, p | |old(states)| <= i < |states| && p != path :: Look(states[i], p) == Look(old(files), p)
      ensures forall p | p != path :: Look(files, p) == Look(old(files), p)
    {
      if fault == Some(0) {
        return true;
      }
      ghost var before := files;
      var mode := if path in files then files[path].mode else newFileMode;
      Put(files[path := File([], mode)]);
      for i := 0 to |content|
        invariant fault.Some? ==> fault.value > i
        invariant |states| == |old(states)| + i + 1 && states[..|old(states)|] == old(states)
        invariant forall k | |old(states)| <= k < |states| ::
                    states[k] == Written(before, path, content[..k - |old(states)|])
        invariant files == states[|states| - 1]
      {
        if fault == Some(i + 1) {
          return true;
        }
        assert content[..i + 1] == content[..i] + [content[i]];
        Put(files[path := File(files[path].content + [content[i]], mode)]);
        assert files == Written(before, path, content[..i + 1]);
      }
      assert content[..|content|] == content;
      failed := false;
    }

    /** The files with this much written to the path: an existing file keeps its mode. */
    function Written(before: FileSystem, path: string, content: bytes): FileSystem {
      before[path := File(content, if path in before then before[path].mode else newFileMode)]
    }

    method Chmod(path: string, mode: nat, fault: bool) returns (failed: bool)
      modifies this
      ensures failed <==> fault || path !in old(files)
      ensures failed ==> files == old(files) && states == old(states)
      ensures !failed ==> files == old(files)[path := old(files)[path].(mode := mode)]
      ensures !failed ==> states == old(states) + [files]
    {
      failed := fault || path !in files;
      if !failed {
        Put(files[path := files[path].(mode := mode)]);
      }
    }

    /** `rename` replaces the target in one step. */
    method Rename(from: string, to: string, fault: bool) returns (failed: bool)
      requires from != to
      modifies this
      ensures failed <==> fault || from !in old(files)
      ensures failed ==> files == old(files) && states == old(states)
      ensures !failed ==> files == old(files)[to := old(files)[from]] - {from} && states == old(states) + [files]
    {
      failed := fault || from !in files;
      if !failed {
        Put(files[to := files[from]] - {from});
      }
    }

    method Remove(path: string, fault: bool) returns (failed: bool)
      modifies this
      ensures failed <==> fault || path !in old(files)
      ensures failed ==> files == old(files) && states == old(states)
      ensures !failed ==> files == old(files) - {path} && states == old(states) + [files]
    {
      failed := fault || path !in files;
      if !failed {
        Put(files - {path});
      }
    }
  }

  /**
   What readers see of one write, state by state: the old file all the time when the write fails;
   otherwise the old file up to the last state, and in that state the complete new file, readable
   by its owner only. No other path changes except the temporary one.
   */
  ghost predicate AtomicWrite(before: FileSystem, states: seq<FileSystem>, path: string, content: bytes, ok: bool) {
    && (ok ==> states != [] && Look(states[|states| - 1], path) == Snapshot(content))
    && (forall i | 0 <= i < (if ok then |states| - 1 else |states|) :: Look(states[i], path) == Look(before, path))
    && forall i, p | 0 <= i < |states| && p != path && p != path + TMP_SUFFIX :: Look(states[i], p) == Look(before, p)
  }

  method Write(disk: Disk, path: string, content: bytes, faults: Faults) returns (r: Result<(), string>)
    modifies disk
    ensures |old(disk.states)| <= |disk.states| && disk.states[..|old(disk.states)|] == old(disk.states)
    ensures AtomicWrite(old(disk.files), disk.states[|old(disk.states)|..], path, content, r.Ok?)
    ensures Look(disk.files, path) == if r.Ok? then Snapshot(content) else Look(old(disk.files), path)
    ensures r.Ok? <==> !(faults.write.Some? && faults.write.value <= |content|) && !faults.chmod && !faults.rename
    ensures r.Err? ==> r.error == faults.reason
    ensures path + TMP_SUFFIX in disk.files ==> r.Err? && faults.rm
  {
    var tmp := path + TMP_SUFFIX;
    assert |tmp| != |path|;
    var failed := disk.WriteFile(tmp, content, faults.write);
    if !failed {
      failed := disk.Chmod(tmp, OWNER_ONLY, faults.chmod);
    }
    if !failed {
      failed := disk.Rename(tmp, path, faults.rename);
    }
    if !failed {
      return Ok(());
    }
    var _ := disk.Remove(tmp, faults.rm);
    r := Err(faults.reason);
  }

  // ----- Many writes, any of them cut short -----

  /** An attempt to write `content` of which only the first `reached` states came about. */
  datatype Attempt = Attempt(content: bytes, states: seq<FileSystem>, ok: bool, reached: nat)

  function LeftBy(before: FileSystem, a: Attempt): FileSystem
    requires a.reached <= |a.states|
  {
    if a.reached == 0 then before else a.states[a.reached - 1]
  }

  /** One writer: each attempt starts from what the one before left, finished or killed. */
  ghost predicate OneWriter(before: FileSystem, path: string, attempts: seq<Attempt>)
    decreases |attempts|
  {
    attempts == [] ||
    (&& AtomicWrite(before, attempts[0].states, path, attempts[0].content, attempts[0].ok)
     && attempts[0].reached <= |attempts[0].states|
     && OneWriter(LeftBy(before, attempts[0]), path, attempts[1..]))
  }

  /** Whoever reads at any moment finds the initial file or one that was written completely, never a mixture. */
  lemma {:induction false} ReadersSeeWholeFiles(before: FileSystem, path: string, attempts: seq<Attempt>,
                                                k: nat, i: nat)
    requires OneWriter(before, path, attempts) && k < |attempts| && i < attempts[k].reached <= |attempts[k].states|
    ensures var seen := Look(attempts[k].states[i], path);
            seen == Look(before, path) || exists j :: 0 <= j <= k && seen == Snapshot(attempts[j].content)
    decreases k
  {
    var a, left := attempts[0], LeftBy(before, attempts[0]);
    if k > 0 {
      ReadersSeeWholeFiles(left, path, attempts[1..], k - 1, i);
      var seen := Look(attempts[k].states[i], path);
      if j :| 0 <= j <= k - 1 && seen == Snapshot(attempts[1..][j].content) {
        assert attempts[1..][j] == attempts[j + 1];
      }
      assert Look(left, path) == Look(before, path) || Look(left, path) == Snapshot(a.content);
    }
  }
}
