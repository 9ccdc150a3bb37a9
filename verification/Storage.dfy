/**
 POSIX storage (src/local_storage.cpp): complete reads and writes over a kernel that may
 return early, be interrupted or fail, and the atomic replacement of a file.

 The kernel's answers are scripts. A script is any finite list of early returns,
 interruptions and failures; once it is used up, the kernel answers in full.
 */
module Storage {
  import opened Prelude

  datatype IoEvent = Moved(n: nat) | Interrupted | Failed

  /** Whether a transfer of `count` bytes gets through the script without meeting a failure. */
  function Completes(count: nat, script: seq<IoEvent>): (ok: bool)
    decreases |script|
  {
    if count == 0 || script == [] then true
    else
      match script[0]
      case Interrupted => Completes(count, script[1..])
      case Failed => false
      case Moved(n) => Completes(count - Min(n, count), script[1..])
  }

  lemma {:induction false} HarmlessScriptCompletes(count: nat, script: seq<IoEvent>)
    requires Failed !in script
    ensures Completes(count, script)
    decreases |script|
  {
    if script != [] && count != 0 {
      match script[0]
      case Interrupted => HarmlessScriptCompletes(count, script[1..]);
      case Moved(n) => HarmlessScriptCompletes(count - Min(n, count), script[1..]);
    }
  }

  /** What the first `k` events of a script transfer when each may transfer `least` bytes or more. */
  function Total(script: seq<IoEvent>, k: nat, least: nat): (n: nat)
    requires k <= |script|
  {
    if k == 0 then 0
    else Total(script, k - 1, least) + if script[k - 1].Moved? then script[k - 1].n + least else 0
  }

  lemma {:induction false} TotalTail(script: seq<IoEvent>, k: nat, least: nat)
    requires 0 < k <= |script|
    ensures Total(script, k, least)
         == Total(script[1..], k - 1, least) + if script[0].Moved? then script[0].n + least else 0
  {
    if k > 1 {
      TotalTail(script, k - 1, least);
      assert script[1..][k - 2] == script[k - 1];
    }
  }

  /** The transfer meets the failure at position `k`: what came before was not enough. */
  ghost predicate FailsAt(count: nat, script: seq<IoEvent>, k: nat, least: nat) {
    k < |script| && script[k] == Failed && Total(script, k, least) < count
  }

  lemma FailsAtTail(count: nat, script: seq<IoEvent>, k: nat, least: nat)
    requires count > 0 && script != [] && script[0] != Failed
    ensures var n := if script[0].Moved? then script[0].n + least else 0;
      FailsAt(count, script, k, least) <==> k > 0 && n < count && FailsAt(count - n, script[1..], k - 1, least)
  {
    if 0 < k < |script| {
      TotalTail(script, k, least);
      assert script[1..][k - 1] == script[k];
    }
  }

  /** A transfer fails exactly if the kernel reports a failure before all is transferred. */
  lemma {:induction false} CompletesMeaning(count: nat, script: seq<IoEvent>)
    ensures !Completes(count, script) <==> exists k: nat :: FailsAt(count, script, k, 0)
    decreases |script|
  {
    hide Total;
    if count > 0 && script != [] {
      if script[0] == Failed {
        assert Total(script, 0, 0) == 0 by { NothingYet(script, 0); }
        assert FailsAt(count, script, 0, 0);
      } else {
        var n := if script[0].Moved? then script[0].n else 0;
        var rest := count - Min(n, count);
        CompletesMeaning(rest, script[1..]);
        if !Completes(rest, script[1..]) {
          var k: nat :| FailsAt(rest, script[1..], k, 0);
          FailsAtTail(count, script, k + 1, 0);
        }
        if k: nat :| FailsAt(count, script, k, 0) {
          FailsAtTail(count, script, k, 0);
          assert FailsAt(rest, script[1..], k - 1, 0);
        }
      }
    }
  }

  lemma NothingYet(script: seq<IoEvent>, least: nat)
    ensures Total(script, 0, least) == 0
  {
  }

  type Path = string

  function BackupOf(path: Path): Path {
    path + ".bak"
  }

  /** A name in the same directory that no other file has: process, time and counter make up the tag. */
  function TmpOf(path: Path, tag: string): Path {
    path + ".tmp." + tag
  }

  lemma PathsDiffer(path: Path, tag: string)
    ensures TmpOf(path, tag) != path && BackupOf(path) != path
    ensures TmpOf(path, tag) != BackupOf(path)
    ensures TmpOf(BackupOf(path), tag) != path
  {
    assert |BackupOf(path)| == |path| + 4 && |TmpOf(path, tag)| == |path| + 5 + |tag|;
    assert BackupOf(path)[|path| + 1] == 'b' && TmpOf(path, tag)[|path| + 1] == 't';
    assert |TmpOf(BackupOf(path), tag)| == |path| + 9 + |tag|;
  }

  /** How the unsynced copy to the backup ended; an aborted copy may leave anything behind. */
  datatype CopyEnd = Copied | NotStarted | Torn(content: bytes)

  /** Everything the kernel decides during one `write_file_atomic`. */
  datatype WriteEnv = WriteEnv(
      tag: string, openOk: bool, script: seq<IoEvent>, fsyncOk: bool, copy: CopyEnd, renameOk: bool)

  type Files = map<Path, bytes>

  predicate StagedOk(files: Files, path: Path, data: bytes, env: WriteEnv) {
    TmpOf(path, env.tag) !in files && env.openOk && Completes(|data|, env.script) && env.fsyncOk
  }

  /** `write_file_atomic` returns, rather than throws. */
  predicate WriteOk(files: Files, path: Path, data: bytes, env: WriteEnv) {
    StagedOk(files, path, data, env) && env.renameOk
  }

  function AfterCopy(files: Files, path: Path, backup: bool, copy: CopyEnd): Files {
    if !backup || path !in files then files
    else
      match copy
      case Copied => files[BackupOf(path) := files[path]]
      case NotStarted => files
      case Torn(content) => files[BackupOf(path) := content]
  }

  /** The directory after `write_file_atomic`, whether it returned or threw. */
  function Written(files: Files, path: Path, data: bytes, backup: bool, env: WriteEnv): Files {
    if !StagedOk(files, path, data, env) then files - {TmpOf(path, env.tag)}
    else
      var copied := AfterCopy(files, path, backup, env.copy) - {TmpOf(path, env.tag)};
      if env.renameOk then copied[path := data] else copied
  }

  /**
   The write is all or nothing: if it succeeds the target holds exactly the data, if not the
   target is as before; no temporary file is left; only the target and its backup are touched.
   */
  lemma WriteIsAtomic(files: Files, path: Path, data: bytes, backup: bool, env: WriteEnv)
    ensures var after := Written(files, path, data, backup, env);
      && (WriteOk(files, path, data, env) ==> path in after && after[path] == data)
      && (!WriteOk(files, path, data, env) ==>
          (path in after <==> path in files) && (path in files ==> after[path] == files[path]))
      && TmpOf(path, env.tag) !in after
      && (forall p :: p != path && p != TmpOf(path, env.tag) && (p != BackupOf(path) || !backup) ==>
            (p in after <==> p in files) && (p in files ==> after[p] == files[p]))
  {
    PathsDiffer(path, env.tag);
  }

  /** A write with a backup that is copied leaves in the backup what the target held before. */
  lemma BackupIsPrevious(files: Files, path: Path, data: bytes, env: WriteEnv)
    requires WriteOk(files, path, data, env) && path in files && env.copy == Copied
    ensures var after := Written(files, path, data, true, env);
      && BackupOf(path) in after && after[BackupOf(path)] == files[path]
      && path in after && after[path] == data
  {
    PathsDiffer(path, env.tag);
  }

  /** Everything that has to go through for a write to succeed, as the kernel's events tell it. */
  ghost predicate NoFault(files: Files, path: Path, size: nat, env: WriteEnv) {
    && TmpOf(path, env.tag) !in files
    && env.openOk
    && Completes(size, env.script)
    && env.fsyncOk
    && env.renameOk
  }

  lemma WriteSucceedsExactly(files: Files, path: Path, data: bytes, env: WriteEnv)
    ensures WriteOk(files, path, data, env) <==> NoFault(files, path, |data|, env)
  {
  }

  /**
   The files of one directory, with a record of every state it went through and of the contents that
   the kernel has put on the medium.
   */
  class Disk {
    var files: Files
    ghost var history: seq<Files>
    ghost var synced: set<bytes>

    ghost predicate Valid()
      reads this
    {
      |history| > 0 && history[|history| - 1] == files
    }

    /** Since `start`, the file at `path` was always either as at `start`, or `data`, and that is on the medium. */
    ghost predicate NeverPartial(start: nat, path: Path, data: bytes)
      requires 0 < start <= |history|
      reads this
    {
      forall k :: start <= k < |history| ==>
        Same(history[k], history[start - 1], path) || (Holds(history[k], path, data) && data in synced)
    }

    constructor (files: Files)
      ensures Valid() && this.files == files && synced == {}
    {
      this.files := files;
      history, synced := [files], {};
    }

    /** One system call's effect on the directory. */
    method Change(next: Files)
      requires Valid()
      modifies this`files, this`history
      ensures Valid() && files == next && history == old(history) + [next]
    {
      files := next;
      history := history + [next];
    }

    /** One `fsync`: if the kernel says so, what the file holds is on the medium. */
    method Fsync(tmp: Path, ok: bool)
      requires tmp in files
      modifies this`synced
      ensures synced == old(synced) + if ok then {files[tmp]} else {}
    {
      if ok {
        synced := synced + {files[tmp]};
      }
    }

    /** `write_all` on an open temporary file. */
    method WriteAll(tmp: Path, data: bytes, script: seq<IoEvent>, ghost path: Path) returns (ok: bool)
      requires Valid() && tmp in files && files[tmp] == [] && path != tmp
      modifies this`files, this`history
      ensures Valid() && |history| >= |old(history)| && history[..|old(history)|] == old(history)
      ensures ok == Completes(|data|, script)
      ensures files - {tmp} == old(files) - {tmp}
      ensures ok ==> files == old(files)[tmp := data]
      ensures NeverPartial(|old(history)|, path, data)
    {
      var total, i := 0, 0;
      ghost var before := files;
      while total < |data|
        invariant 0 <= total <= |data| && 0 <= i <= |script|
        invariant Valid() && |history| >= |old(history)| && history[..|old(history)|] == old(history)
        invariant files == before[tmp := data[..total]]
        invariant Completes(|data| - total, script[i..]) == Completes(|data|, script)
        invariant NeverPartial(|old(history)|, path, data)
        decreases |data| - total, |script| - i
      {
        if i == |script| {
          assert data[..|data|] == data;
          Change(files[tmp := data]);
          total := |data|;
        } else {
          assert script[i..][1..] == script[i + 1..];
          var event := script[i];
          i := i + 1;
          match event {
            case Interrupted =>
            case Failed =>
              return false;
            case Moved(n) =>
              var written := Min(n, |data| - total);
              total := total + written;
              Change(files[tmp := data[..total]]);
          }
        }
      }
      assert data[..total] == data;
      ok := true;
    }

    /** Fill the open temporary file and sync it. */
    method Fill(tmp: Path, data: bytes, env: WriteEnv, ghost path: Path) returns (ok: bool)
      requires Valid() && tmp in files && files[tmp] == [] && path != tmp
      modifies this
      ensures Valid() && |history| >= |old(history)| && history[..|old(history)|] == old(history)
      ensures ok == (Completes(|data|, env.script) && env.fsyncOk)
      ensures files - {tmp} == old(files) - {tmp} && (ok ==> files == old(files)[tmp := data])
      ensures old(synced) <= synced && (ok ==> data in synced)
      ensures NeverPartial(|old(history)|, path, data)
    {
      ok := WriteAll(tmp, data, env.script, path);
      if ok {
        Fsync(tmp, env.fsyncOk);
        ok := env.fsyncOk;
      }
    }

    /** Create the temporary file, fill it and sync it. */
    method Stage(path: Path, data: bytes, env: WriteEnv) returns (ok: bool)
      requires Valid()
      modifies this
      ensures Valid() && |history| >= |old(history)| && history[..|old(history)|] == old(history)
      ensures ok == StagedOk(old(files), path, data, env)
      ensures files == if ok then old(files)[TmpOf(path, env.tag) := data] else old(files) - {TmpOf(path, env.tag)}
      ensures old(synced) <= synced && (ok ==> data in synced)
      ensures NeverPartial(|old(history)|, path, data)
    {
      PathsDiffer(path, env.tag);
      if !env.openOk || TmpOf(path, env.tag) in files {
        Change(files - {TmpOf(path, env.tag)});
        return false;
      }
      Change(files[TmpOf(path, env.tag) := []]);
      ok := Fill(TmpOf(path, env.tag), data, env, path);
      if ok {
        assert files == old(files)[TmpOf(path, env.tag) := []][TmpOf(path, env.tag) := data]
            == old(files)[TmpOf(path, env.tag) := data];
      } else {
        Change(files - {TmpOf(path, env.tag)});
        assert files == old(files) - {TmpOf(path, env.tag)};
      }
    }

    /** `copy_file` onto the backup; its failure is only reported. */
    method CopyBackup(path: Path, backup: bool, copy: CopyEnd)
      requires Valid()
      modifies this`files, this`history
      ensures Valid() && |history| >= |old(history)| && history[..|old(history)|] == old(history)
      ensures files == AfterCopy(old(files), path, backup, copy)
      ensures forall k :: |old(history)| <= k < |history| ==> Same(history[k], old(files), path)
    {
      if backup && path in files {
        assert |BackupOf(path)| == |path| + 4;
        match copy {
          case Copied =>
            Change(files[BackupOf(path) := files[path]]);
          case NotStarted =>
          case Torn(content) =>
            Change(files[BackupOf(path) := content]);
        }
      }
    }

    /**
     `write_file_atomic`, with the destructor of `TempFileGuard` on every way out. It succeeds exactly
     if a fresh temporary name, open, the whole transfer, fsync and rename all go through. Nothing
     that is not on the medium ever stands at the target.
     */
    method WriteFileAtomic(path: Path, data: bytes, backup: bool, env: WriteEnv) returns (ok: bool)
      requires Valid()
      modifies this
      ensures Valid() && |history| >= |old(history)| && history[..|old(history)|] == old(history)
      ensures ok == WriteOk(old(files), path, data, env) && (ok <==> NoFault(old(files), path, |data|, env))
      ensures old(synced) <= synced && (ok ==> path in files && files[path] == data && data in synced)
      ensures files == Written(old(files), path, data, backup, env)
      ensures NeverPartial(|old(history)|, path, data)
    {
      PathsDiffer(path, env.tag);
      var staged := Stage(path, data, env);
      if !staged {
        return false;
      }
      CopyBackup(path, backup, env.copy);
      assert files - {TmpOf(path, env.tag)} == AfterCopy(old(files), path, backup, env.copy) - {TmpOf(path, env.tag)};
      if env.renameOk {
        Change((files - {TmpOf(path, env.tag)})[path := files[TmpOf(path, env.tag)]]);
      } else {
        Change(files - {TmpOf(path, env.tag)});
      }
      ok := env.renameOk;
    }
  }

  ghost predicate Same(files: Files, others: Files, path: Path) {
    (path in files <==> path in others) && (path in files ==> files[path] == others[path])
  }

  ghost predicate Holds(files: Files, path: Path, data: bytes) {
    path in files && files[path] == data
  }

  /** Whether a read of `count` bytes meets no failure; a read of a file with bytes left returns at least one. */
  function Arrives(count: nat, script: seq<IoEvent>): (ok: bool)
    decreases |script|
  {
    if count == 0 || script == [] then true
    else
      match script[0]
      case Interrupted => Arrives(count, script[1..])
      case Failed => false
      case Moved(n) => Arrives(count - Min(n + 1, count), script[1..])
  }

  lemma {:induction false} ArrivesMeaning(count: nat, script: seq<IoEvent>)
    ensures !Arrives(count, script) <==> exists k: nat :: FailsAt(count, script, k, 1)
    decreases |script|
  {
    hide Total;
    if count > 0 && script != [] {
      if script[0] == Failed {
        assert Total(script, 0, 1) == 0 by { NothingYet(script, 1); }
        assert FailsAt(count, script, 0, 1);
      } else {
        var n := if script[0].Moved? then script[0].n + 1 else 0;
        var rest := count - Min(n, count);
        ArrivesMeaning(rest, script[1..]);
        if !Arrives(rest, script[1..]) {
          var k: nat :| FailsAt(rest, script[1..], k, 1);
          FailsAtTail(count, script, k + 1, 1);
        }
        if k: nat :| FailsAt(count, script, k, 1) {
          FailsAtTail(count, script, k, 1);
          assert FailsAt(rest, script[1..], k - 1, 1);
        }
      }
    }
  }

  /** `read_all` after `fstat`: all of the file's bytes, or an error, never a part. */
  method ReadAll(content: bytes, script: seq<IoEvent>) returns (r: Option<bytes>)
    ensures r == if Arrives(|content|, script) then Some(content) else None
  {
    assert content[..|content|] == content;
    var buffer: bytes := [];
    var i := 0;
    while |buffer| < |content|
      invariant |buffer| <= |content| && buffer == content[..|buffer|]
      invariant 0 <= i <= |script|
      invariant Arrives(|content| - |buffer|, script[i..]) == Arrives(|content|, script)
      decreases |content| - |buffer|, |script| - i
    {
      if i == |script| {
        buffer := content;
      } else {
        assert script[i..][1..] == script[i + 1..];
        var event := script[i];
        i := i + 1;
        match event {
          case Interrupted =>
          case Failed =>
            return None;
          case Moved(n) =>
            buffer := content[..|buffer| + Min(n + 1, |content| - |buffer|)];
        }
      }
    }
    r := Some(buffer);
  }
}
