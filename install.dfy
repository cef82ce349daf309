/**
 * installUpdate: replacing the running executable on disk. The file system
 * is a map from paths to contents; every call that may fail (creating and
 * filling the new file, each rename, the removal) takes its failure from a
 * `Faults` value, so every interleaving of successes and failures is covered.
 */
module Installer {
  import opened Wrappers
  import opened GoStrings

  newtype byte = x: int | 0 <= x < 0x100

  type Path = string
  type Bytes = seq<byte>
  type Files = map<Path, Bytes>

  /** The outcome of creating `.name.new` and copying the payload into it. */
  datatype WriteFault =
    | WriteOk
    | OpenFails               // os.OpenFile fails: nothing is created
    | CopyFails(written: nat) // io.Copy fails after `written` bytes

  /** Which steps of installUpdate fail. A rename or a removal also fails when its source is missing. */
  datatype Faults = Faults(
    write: WriteFault,
    renameAway: bool,   // exe -> .name.old
    renameIn: bool,     // .name.new -> exe
    renameBack: bool,   // .name.old -> exe, the revert
    remove: bool)       // removing .name.old

  /** The error installUpdate returns, naming the call that failed. */
  datatype Error =
    | OpenFailed(path: Path)
    | CopyFailed(path: Path)
    | RenameFailed(from: Path, to: Path)

  // ---------------------------------------------------------------------
  // Paths

  /** filepath.Join(dir, elem) for a clean directory and a single element. */
  function JoinPath(dir: string, elem: string): Path
  {
    DirPrefix(dir) + elem
  }

  /** What JoinPath puts in front of the element. */
  function DirPrefix(dir: string): string
  {
    if dir == "" then ""
    else if dir[|dir| - 1] == '/' then dir
    else dir + "/"
  }

  function ExePath(dir: string, name: string): Path { JoinPath(dir, name) }
  function NewPath(dir: string, name: string): Path { JoinPath(dir, "." + name + ".new") }
  function OldPath(dir: string, name: string): Path { JoinPath(dir, "." + name + ".old") }

  /** The executable and the two temporary files are three different paths. */
  lemma PathsDistinct(dir: string, name: string)
    ensures ExePath(dir, name) != NewPath(dir, name)
    ensures ExePath(dir, name) != OldPath(dir, name)
    ensures NewPath(dir, name) != OldPath(dir, name)
  {
    var p := DirPrefix(dir);
    var nw, od := "." + name + ".new", "." + name + ".old";
    assert |p + name| < |p + nw|;
    assert (p + nw)[|p + nw| - 1] == 'w' && (p + od)[|p + od| - 1] == 'd';
  }

  // ---------------------------------------------------------------------
  // The file-system calls, as functions on the map

  /** Contents after os.OpenFile(path, O_CREATE|O_WRONLY|O_TRUNC) and io.Copy of `data`. */
  function Created(files: Files, path: Path, data: Bytes, fault: WriteFault): Files
  {
    match fault
    case WriteOk => files[path := data]
    case OpenFails => files
    case CopyFails(k) => files[path := data[..Min(k, |data|)]]
  }

  function CreateError(path: Path, fault: WriteFault): Option<Error>
  {
    match fault
    case WriteOk => None
    case OpenFails => Some(OpenFailed(path))
    case CopyFails(_) => Some(CopyFailed(path))
  }

  /** Whether a rename or removal of `path` succeeds. */
  predicate StepOk(files: Files, path: Path, fails: bool)
  {
    !fails && path in files
  }

  /** os.Rename(src, dst): `src` disappears and `dst` gets its contents, replacing what was there. */
  function Renamed(files: Files, src: Path, dst: Path): Files
    requires src in files
  {
    (files - {src})[dst := files[src]]
  }

  /**
   * The file system, and the ghost record of every state it has been in:
   * each call appends the state it leaves behind.
   */
  class FileSystem {
    var files: Files
    ghost var history: seq<Files>

    ghost predicate Valid()
      reads this
    {
      |history| > 0 && history[|history| - 1] == files
    }

    constructor (initial: Files)
      ensures Valid() && files == initial && history == [initial]
    {
      files := initial;
      history := [initial];
    }

    /** os.OpenFile with O_CREATE|O_WRONLY|O_TRUNC, then io.Copy of `data`. */
    method Create(path: Path, data: Bytes, fault: WriteFault) returns (err: Option<Error>)
      requires Valid()
      modifies this
      ensures Valid()
      ensures files == Created(old(files), path, data, fault)
      ensures history == old(history) + [files]
      ensures err == CreateError(path, fault)
    {
      match fault {
        case WriteOk =>
          files := files[path := data];
        case OpenFails =>
        case CopyFails(k) =>
          files := files[path := data[..Min(k, |data|)]];
      }
      history := history + [files];
      err := CreateError(path, fault);
    }

    /** os.Rename(src, dst); `ok` is false when it returns an error. */
    method Rename(src: Path, dst: Path, fails: bool) returns (ok: bool)
      requires Valid()
      modifies this
      ensures Valid()
      ensures ok == StepOk(old(files), src, fails)
      ensures files == if ok then Renamed(old(files), src, dst) else old(files)
      ensures history == old(history) + [files]
    {
      ok := StepOk(files, src, fails);
      if ok {
        files := Renamed(files, src, dst);
      }
      history := history + [files];
    }

    /** os.Remove(path); `ok` is false when it returns an error. */
    method Remove(path: Path, fails: bool) returns (ok: bool)
      requires Valid()
      modifies this
      ensures Valid()
      ensures ok == StepOk(old(files), path, fails)
      ensures files == if ok then old(files) - {path} else old(files)
      ensures history == old(history) + [files]
    {
      ok := StepOk(files, path, fails);
      if ok {
        files := files - {path};
      }
      history := history + [files];
    }
  }

  // ---------------------------------------------------------------------
  // installUpdate

  /** The states one run of installUpdate leaves after each call, and what it returns. */
  datatype Run = Run(trace: seq<Files>, err: Option<Error>)
  {
    function Final(): Files
      requires |trace| > 0
    {
      trace[|trace| - 1]
    }
  }

  /** The run of installUpdate on `files` for executable `dir`/`name` and payload `data`. */
  function Install(files: Files, dir: string, name: string, data: Bytes, f: Faults): Run
  {
    var exe, nw, od := ExePath(dir, name), NewPath(dir, name), OldPath(dir, name);
    var s1 := Created(files, nw, data, f.write);
    if !f.write.WriteOk? then
      Run([s1], CreateError(nw, f.write))
    else if !StepOk(s1, exe, f.renameAway) then
      Run([s1, s1], Some(RenameFailed(exe, od)))
    else
      var s2 := Renamed(s1, exe, od);
      if !StepOk(s2, nw, f.renameIn) then
        var s3 := if StepOk(s2, od, f.renameBack) then Renamed(s2, od, exe) else s2;
        Run([s1, s2, s2, s3], Some(RenameFailed(nw, exe)))
      else
        var s3 := Renamed(s2, nw, exe);
        var s4 := if StepOk(s3, od, f.remove) then s3 - {od} else s3;
        Run([s1, s2, s3, s4], None)
  }

  /**
   * installUpdate(r): write the payload to `.name.new`, move the executable
   * to `.name.old`, move `.name.new` onto the executable (moving the old
   * one back if that fails), then remove `.name.old`. When the removal
   * fails the file is only hidden, which changes no contents.
   */
  method InstallUpdate(fs: FileSystem, dir: string, name: string, data: Bytes, f: Faults)
    returns (err: Option<Error>)
    requires fs.Valid()
    modifies fs
    ensures fs.Valid()
    ensures fs.history == old(fs.history) + Install(old(fs.files), dir, name, data, f).trace
    ensures err == Install(old(fs.files), dir, name, data, f).err
  {
    var exe := ExePath(dir, name);
    var newPath := NewPath(dir, name);
    err := fs.Create(newPath, data, f.write);
    if err.Some? {
      return;
    }
    var oldPath := OldPath(dir, name);
    var ok := fs.Rename(exe, oldPath, f.renameAway);
    if !ok {
      return Some(RenameFailed(exe, oldPath));
    }
    ok := fs.Rename(newPath, exe, f.renameIn);
    if !ok {
      // best-effort revert; its own result is ignored
      ok := fs.Rename(oldPath, exe, f.renameBack);
      return Some(RenameFailed(newPath, exe));
    }
    ok := fs.Remove(oldPath, f.remove);
    return None;
  }

  // ---------------------------------------------------------------------
  // What a run guarantees

  /** Whether installUpdate returns nil: the new file is written and both renames succeed. */
  predicate InstallSucceeds(files: Files, dir: string, name: string, f: Faults)
  {
    f.write.WriteOk? && !f.renameAway && !f.renameIn && ExePath(dir, name) in files
  }

  lemma InstallErrorIff(files: Files, dir: string, name: string, data: Bytes, f: Faults)
    ensures |Install(files, dir, name, data, f).trace| > 0
    ensures Install(files, dir, name, data, f).err.None? <==> InstallSucceeds(files, dir, name, f)
  {
    PathsDistinct(dir, name);
  }

  /** `m` and `n` agree on every path other than the three the install touches. */
  ghost predicate SameElsewhere(m: Files, n: Files, dir: string, name: string)
  {
    m - {ExePath(dir, name), NewPath(dir, name), OldPath(dir, name)}
      == n - {ExePath(dir, name), NewPath(dir, name), OldPath(dir, name)}
  }

  /** No state of a run changes a path other than the executable and its two temporaries. */
  lemma InstallFrame(files: Files, dir: string, name: string, data: Bytes, f: Faults)
    ensures forall s | s in Install(files, dir, name, data, f).trace :: SameElsewhere(s, files, dir, name)
  {
  }

  /**
   * The executable is never lost: in every state of a run, the executable
   * path holds the original or the new contents, or `.name.old` holds the
   * original.
   */
  ghost predicate Recoverable(s: Files, dir: string, name: string, orig: Bytes, data: Bytes)
  {
    || (ExePath(dir, name) in s && (s[ExePath(dir, name)] == orig || s[ExePath(dir, name)] == data))
    || (OldPath(dir, name) in s && s[OldPath(dir, name)] == orig)
  }

  lemma InstallNeverLosesOriginal(files: Files, dir: string, name: string, data: Bytes, f: Faults)
    requires ExePath(dir, name) in files
    ensures forall s | s in Install(files, dir, name, data, f).trace ::
      Recoverable(s, dir, name, files[ExePath(dir, name)], data)
  {
    PathsDistinct(dir, name);
  }

  /**
   * When writing `.name.new` or moving the executable away fails, an error is
   * returned and the executable path is as it was.
   */
  lemma InstallEarlyFailure(files: Files, dir: string, name: string, data: Bytes, f: Faults)
    requires !f.write.WriteOk? || !StepOk(Created(files, NewPath(dir, name), data, f.write), ExePath(dir, name), f.renameAway)
    ensures var run := Install(files, dir, name, data, f);
      && run.err.Some?
      && |run.trace| > 0
      && (ExePath(dir, name) in run.Final() <==> ExePath(dir, name) in files)
      && (ExePath(dir, name) in files ==> run.Final()[ExePath(dir, name)] == files[ExePath(dir, name)])
      && (OldPath(dir, name) in run.Final() <==> OldPath(dir, name) in files)
      && (OldPath(dir, name) in files ==> run.Final()[OldPath(dir, name)] == files[OldPath(dir, name)])
  {
    PathsDistinct(dir, name);
  }

  /**
   * When moving `.name.new` onto the executable fails, an error naming that
   * rename is returned. A successful revert puts the original back; only
   * when the revert fails too is the executable path empty, and then
   * `.name.old` still holds the original.
   */
  lemma InstallForwardRenameFails(files: Files, dir: string, name: string, data: Bytes, f: Faults)
    requires ExePath(dir, name) in files
    requires f.write.WriteOk? && !f.renameAway && f.renameIn
    ensures var run := Install(files, dir, name, data, f);
      && run.err == Some(RenameFailed(NewPath(dir, name), ExePath(dir, name)))
      && |run.trace| > 0
      && (!f.renameBack ==>
            && ExePath(dir, name) in run.Final()
            && run.Final()[ExePath(dir, name)] == files[ExePath(dir, name)]
            && OldPath(dir, name) !in run.Final())
      && (f.renameBack ==>
            && ExePath(dir, name) !in run.Final()
            && OldPath(dir, name) in run.Final()
            && run.Final()[OldPath(dir, name)] == files[ExePath(dir, name)])
  {
    PathsDistinct(dir, name);
  }

  /**
   * When both renames succeed, nil is returned whatever the removal does:
   * the executable path holds exactly the payload, `.name.new` is gone, and
   * `.name.old` is gone unless its removal failed, in which case it holds the
   * original.
   */
  lemma InstallSuccess(files: Files, dir: string, name: string, data: Bytes, f: Faults)
    requires InstallSucceeds(files, dir, name, f)
    ensures var run := Install(files, dir, name, data, f);
      && run.err.None?
      && |run.trace| > 0
      && ExePath(dir, name) in run.Final()
      && run.Final()[ExePath(dir, name)] == data
      && NewPath(dir, name) !in run.Final()
      && (OldPath(dir, name) in run.Final() <==> f.remove)
      && (f.remove ==> run.Final()[OldPath(dir, name)] == files[ExePath(dir, name)])
  {
    PathsDistinct(dir, name);
  }

  /** At the end of a run the executable path is empty only when both the forward rename and the revert failed. */
  lemma ExeMissingOnlyIfBothRenamesFail(files: Files, dir: string, name: string, data: Bytes, f: Faults)
    requires ExePath(dir, name) in files
    ensures var run := Install(files, dir, name, data, f);
      |run.trace| > 0 && ExePath(dir, name) !in run.Final() ==>
        f.write.WriteOk? && !f.renameAway && f.renameIn && f.renameBack
  {
    PathsDistinct(dir, name);
  }

  /**
   * The executable path is empty in exactly the states between moving the
   * executable away and moving a file back onto it: the state after the
   * first rename (and the unchanged state after a failed forward rename),
   * and the final state when the revert fails too.
   */
  lemma ExeAbsenceWindow(files: Files, dir: string, name: string, data: Bytes, f: Faults, i: nat)
    requires ExePath(dir, name) in files
    requires i < |Install(files, dir, name, data, f).trace|
    ensures ExePath(dir, name) !in Install(files, dir, name, data, f).trace[i] <==>
      && f.write.WriteOk? && !f.renameAway
      && (i == 1 || (f.renameIn && (i == 2 || (i == 3 && f.renameBack))))
  {
    PathsDistinct(dir, name);
  }
}
