/** The step system of module Replicas against the one-call view of module VaultServices. */
module ReplicaRefinement {
  import opened Prelude
  import opened Vaults
  import opened VaultFile
  import opened Merging
  import opened Storage
  import opened VaultServices
  import opened Replicas

  function Content(files: Files, path: Storage.Path): Option<bytes> {
    if path in files then Some(files[path]) else None
  }

  ghost predicate Shows(s: Sys, files: Files, path: Storage.Path) {
    s.canonical.live == Content(files, path) && s.backup.live == Content(files, BackupOf(path))
  }

  function CopySteps(i: nat, copy: CopyEnd): seq<Step> {
    match copy
    case Copied => [EndCopy(i, true)]
    case NotStarted => [SkipCopy(i)]
    case Torn(partial) => [BeginCopy(i, partial), EndCopy(i, false)]
  }

  /** The first step is an edit, a deletion, or a bare request; then lock, merge, encrypt. */
  function MergeSteps(i: nat, first: Step, env: SaveEnv): seq<Step> {
    [first] + [Acquire(i)] + [Absorb(i, env.clock)]
  }

  function OpeningSteps(i: nat, first: Step, env: SaveEnv): seq<Step> {
    MergeSteps(i, first, env) + [Encrypt(i, env.salt, env.iv)]
  }

  function StagingSteps(i: nat, size: nat): seq<Step> {
    [WriteChunk(i, size)] + [Fsync(i)]
  }

  /** Up to the moment before the rename; the copy is made if there was a file. */
  function ReadySteps(i: nat, first: Step, env: SaveEnv, existed: bool, size: nat): seq<Step> {
    OpeningSteps(i, first, env) + StagingSteps(i, size) + if existed then CopySteps(i, env.write.copy) else []
  }

  /** Whatever the kernel decides during a successful `save`, these are its steps. */
  function SaveSteps(i: nat, first: Step, env: SaveEnv, existed: bool, size: nat): seq<Step> {
    ReadySteps(i, first, env, existed, size) + [Rename(i)] + [SyncDir(i, true)]
  }

  /**
   A `rekey` up to the moment before the rename of the vault file; `flushed`: the directory sync after
   the backup's rename.
   */
  function RekeyReadySteps(i: nat, q: bytes, env: SaveEnv, flushed: bool, size: nat): seq<Step> {
    OpeningSteps(i, AskRekey(i, q), env) + StagingSteps(i, size) + [Rename(i)] + [SyncDir(i, flushed)]
        + StagingSteps(i, size)
  }

  function RekeySteps(i: nat, q: bytes, env: SaveEnv, flushed: bool, size: nat): seq<Step> {
    RekeyReadySteps(i, q, env, flushed, size) + [Rename(i)]
  }

  ghost function Exec(c: Crypto, s: Sys, steps: seq<Step>): Option<Sys> {
    if steps == [] then Some(s)
    else
      match Exec(c, s, steps[..|steps| - 1])
      case None => None
      case Some(t) => Apply(c, t, steps[|steps| - 1])
  }

  lemma ExecSnoc(c: Crypto, s: Sys, steps: seq<Step>, t: Sys, step: Step, u: Sys)
    requires Exec(c, s, steps) == Some(t) && Apply(c, t, step) == Some(u)
    ensures Exec(c, s, steps + [step]) == Some(u)
  {
    hide Apply;
    assert (steps + [step])[..|steps|] == steps;
  }

  lemma {:induction false} ExecConcat(c: Crypto, s: Sys, a: seq<Step>, b: seq<Step>)
    requires Exec(c, s, a).Some?
    ensures Exec(c, s, a + b) == Exec(c, Exec(c, s, a).value, b)
    decreases |b|
  {
    hide Apply;
    if b == [] {
      assert a + b == a;
    } else {
      var p := b[..|b| - 1];
      ExecConcat(c, s, a, p);
      assert (a + b)[..|a + b| - 1] == a + p;
    }
  }

  /** The states that steps lead through. */
  lemma {:induction false} ExecIsRun(c: Crypto, s: Sys, steps: seq<Step>) returns (ss: seq<Sys>)
    requires Init(s) && Exec(c, s, steps).Some?
    ensures Run(c, ss, steps) && ss[0] == s
    ensures forall k :: 0 <= k <= |steps| ==> Exec(c, s, steps[..k]) == Some(ss[k])
    decreases |steps|
  {
    hide Apply, Init;
    assert steps[..|steps|] == steps;
    if steps == [] {
      ss := [s];
    } else {
      var p := steps[..|steps| - 1];
      var before := ExecIsRun(c, s, p);
      assert p[..|p|] == p;
      ss := before + [Exec(c, s, steps).value];
      forall k | 0 <= k <= |p| ensures Exec(c, s, steps[..k]) == Some(ss[k]) {
        assert steps[..k] == p[..k];
      }
    }
  }

  /** `s` with instance `i` in state `x` and the given lock and files. */
  function At(s: Sys, i: nat, x: Instance, lock: Option<nat>, canonical: File, backup: File): Sys {
    Sys(s.instances[i := x], lock, canonical, backup)
  }

  /** A step of instance `i` alone, by the phase it is in. */
  lemma StepAt(
      c: Crypto, s: Sys, i: nat, ram: Ram, phase: Phase, lock: Option<nat>, canonical: File, backup: File, step: Step)
    requires !step.PowerLoss? && !step.StartLoad? && !step.Kill? && !step.FinishLoad? && step.i == i
    ensures var t := At(s, i, Active(ram, phase), lock, canonical, backup);
      && Apply(c, t, step) == Progress(c, t, step, i, ram, phase)
      && (forall y :: With(t, i, y) == At(s, i, y, lock, canonical, backup))
      && (forall r :: Unwound(t, i, r) == At(s, i, Active(r, Idle), None, canonical, backup))
  {
    hide Progress;
    var t := At(s, i, Active(ram, phase), lock, canonical, backup);
    forall y ensures With(t, i, y) == At(s, i, y, lock, canonical, backup) {
      assert t.instances[i := y] == s.instances[i := y];
    }
    forall r ensures Unwound(t, i, r) == At(s, i, Active(r, Idle), None, canonical, backup) {
      assert t.instances[i := Active(r, Idle)] == s.instances[i := Active(r, Idle)];
    }
  }

  /** Run `i` alone from phase to phase; `steps` have led to `t` already. */
  lemma Alone(
      c: Crypto, s: Sys, steps: seq<Step>, i: nat, ram: Ram, phase: Phase, lock: Option<nat>, canonical: File,
      backup: File,
              step: Step, u: Sys)
    requires !step.PowerLoss? && !step.StartLoad? && !step.Kill? && !step.FinishLoad? && step.i == i
    requires Exec(c, s, steps) == Some(At(s, i, Active(ram, phase), lock, canonical, backup))
    requires Progress(c, At(s, i, Active(ram, phase), lock, canonical, backup), step, i, ram, phase) == Some(u)
    ensures Exec(c, s, steps + [step]) == Some(u)
  {
    hide Apply, Progress, At;
    StepAt(c, s, i, ram, phase, lock, canonical, backup, step);
    ExecSnoc(c, s, steps, At(s, i, Active(ram, phase), lock, canonical, backup), step, u);
  }

  /** The vault that the merge of a transaction reads. */
  function Seen(c: Crypto, path: Storage.Path, ram: Ram, files: Files, env: SaveEnv): Option<Entries>
    requires MergedWithDisk(c, path, ram, files, env).Ok?
  {
    if path in files then Some(Load(c, files[path], ram.password, env.clock).value) else None
  }

  /** The ticket of a transaction of `i` that starts in `s`. */
  function Ticketed(c: Crypto, path: Storage.Path, s: Sys, ram: Ram, files: Files, job: Job, env: SaveEnv): Ticket
    requires MergedWithDisk(c, path, ram, files, env).Ok?
    requires Package(c, MergedWithDisk(c, path, ram, files, env).value, JobPassword(job, ram), env.salt, env.iv).Ok?
  {
    var es := MergedWithDisk(c, path, ram, files, env).value;
    Ticket(job,
           Seen(c, path, ram, files, env),
           env.clock, env.salt, env.iv,
           Package(c, es, JobPassword(job, ram), env.salt, env.iv).value,
           false, s.canonical.durable, s.backup.durable)
  }

  /** Instance `i`, idle in `s`, starts a transaction by `first`, which leaves it with the memory `ram` and the job. */
  ghost predicate Starts(s: Sys, i: nat, first: Step, ram: Ram, job: Job) {
    && i in s.instances && s.instances[i].Active? && s.instances[i].phase.Idle? && s.lock == None
    && (first.Edit? || first.Bury? || first.AskSave? || first.AskRekey?) && first.i == i
    && Asked(s.instances[i].ram, first) == Some((ram, job))
  }

  lemma UndisturbedStart(c: Crypto, s: Sys, i: nat, first: Step, ram: Ram, job: Job)
    requires Starts(s, i, first, ram, job)
    ensures Exec(c, s, [first]) == Some(At(s, i, Active(ram, Waiting(job)), None, s.canonical, s.backup))
    ensures Exec(c, s, [first] + [Acquire(i)])
        == Some(At(s, i, Active(ram, Locked(job)), Some(i), s.canonical, s.backup))
  {
    hide Exec, Apply, At, Asked;
    var l0: seq<Step> := [];
    var can, bak, before := s.canonical, s.backup, s.instances[i].ram;
    assert l0 + [first] == [first];
    Unmoved(c, s, i);
    StepAt(c, s, i, before, Idle, None, can, bak, first);
    Alone(c, s, l0, i, before, Idle, None, can, bak, first, At(s, i, Active(ram, Waiting(job)), None, can, bak));
    StepAt(c, s, i, ram, Waiting(job), None, can, bak, Acquire(i));
    LockAt(s, i, Active(ram, Locked(job)), can, bak);
    LockAt(s, i, Active(ram, Waiting(job)), can, bak);
    Alone(c, s, [first], i, ram, Waiting(job), None, can, bak, Acquire(i),
        At(s, i, Active(ram, Locked(job)), Some(i), can, bak));
  }

  /** The first three steps: ask, lock, merge. */
  lemma UndisturbedMerge(
      c: Crypto, path: Storage.Path, s: Sys, i: nat, files: Files, env: SaveEnv, first: Step, ram: Ram, job: Job)
    requires Starts(s, i, first, ram, job)
    requires Shows(s, files, path) && MergedWithDisk(c, path, ram, files, env).Ok?
    ensures var es := MergedWithDisk(c, path, ram, files, env).value;
      Exec(c, s, MergeSteps(i, first, env))
      == Some(At(s, i, Active(ram.(entries := es), Absorbed(job, Seen(c, path, ram, files, env), env.clock)), Some(i),
          s.canonical, s.backup))
  {
    hide Exec, Apply, Package, Load, Merge, At, Starts;
    var merged, can, bak := ram.(entries := MergedWithDisk(c, path, ram, files, env).value), s.canonical, s.backup;
    UndisturbedStart(c, s, i, first, ram, job);
    StepAt(c, s, i, ram, Locked(job), Some(i), can, bak, Absorb(i, env.clock));
    LockAt(s, i, Active(ram, Locked(job)), can, bak);
    Alone(c, s, [first] + [Acquire(i)], i, ram, Locked(job), Some(i), can, bak, Absorb(i, env.clock),
          At(s, i, Active(merged, Absorbed(job, Seen(c, path, ram, files, env), env.clock)), Some(i), can, bak));
  }

  lemma UndisturbedOpening(
      c: Crypto, path: Storage.Path, s: Sys, i: nat, files: Files, env: SaveEnv, first: Step, ram: Ram, job: Job)
    requires Starts(s, i, first, ram, job)
    requires Shows(s, files, path) && MergedWithDisk(c, path, ram, files, env).Ok?
    requires Package(c, MergedWithDisk(c, path, ram, files, env).value, JobPassword(job, ram), env.salt, env.iv).Ok?
    ensures var merged := ram.(entries := MergedWithDisk(c, path, ram, files, env).value);
      Exec(c, s, OpeningSteps(i, first, env))
      == Some(At(s, i, Active(merged, Staging(Ticketed(c, path, s, ram, files, job, env), FirstTarget(job), 0)),
          Some(i), s.canonical, s.backup))
  {
    hide Exec, Apply, Package, Load, MergedWithDisk, At, Starts, MergeSteps;
    var t := Ticketed(c, path, s, ram, files, job, env);
    var can, bak := s.canonical, s.backup;
    var merged := ram.(entries := MergedWithDisk(c, path, ram, files, env).value);
    UndisturbedMerge(c, path, s, i, files, env, first, ram, job);
    StepAt(c, s, i, merged, Absorbed(job, t.seen, t.clock), Some(i), can, bak, Encrypt(i, t.salt, t.iv));
    LockAt(s, i, Active(merged, Absorbed(job, t.seen, t.clock)), can, bak);
    Alone(c, s, MergeSteps(i, first, env), i, merged, Absorbed(job, t.seen, t.clock), Some(i), can, bak,
          Encrypt(i, t.salt, t.iv), At(s, i, Active(merged, Staging(t, FirstTarget(job), 0)), Some(i), can, bak));
  }

  /** Write the temporary file and sync it. */
  lemma UndisturbedStaging(
      c: Crypto, s: Sys, i: nat, steps: seq<Step>, ram: Ram, t: Ticket, target: Target, can: File, bak: File)
    requires Exec(c, s, steps) == Some(At(s, i, Active(ram, Staging(t, target, 0)), Some(i), can, bak))
    ensures Exec(c, s, steps + StagingSteps(i, |t.blob|))
         == Some(At(s, i, Active(ram, if t.job.SaveJob? && can.live.Some? then Copying(t) else Ready(t, target)),
             Some(i), can, bak))
  {
    hide Exec, Apply, At;
    StepAt(c, s, i, ram, Staging(t, target, 0), Some(i), can, bak, WriteChunk(i, |t.blob|));
    Alone(c, s, steps, i, ram, Staging(t, target, 0), Some(i), can, bak, WriteChunk(i, |t.blob|),
          At(s, i, Active(ram, Staging(t, target, |t.blob|)), Some(i), can, bak));
    StepAt(c, s, i, ram, Staging(t, target, |t.blob|), Some(i), can, bak, Fsync(i));
    LockAt(s, i, Active(ram, Staging(t, target, |t.blob|)), can, bak);
    Alone(c, s, steps + [WriteChunk(i, |t.blob|)], i, ram, Staging(t, target, |t.blob|), Some(i), can, bak, Fsync(i),
          At(s, i, Active(ram, if t.job.SaveJob? && can.live.Some? then Copying(t) else Ready(t, target)), Some(i),
              can, bak));
    assert steps + [WriteChunk(i, |t.blob|)] + [Fsync(i)] == steps + StagingSteps(i, |t.blob|);
  }

  /** An exception at any point where one can be thrown. */
  lemma UndisturbedAbort(c: Crypto, s: Sys, i: nat, steps: seq<Step>, ram: Ram, phase: Phase, can: File, bak: File)
    requires phase.Locked? || phase.Absorbed? || phase.Staging? || phase.Ready?
    requires Exec(c, s, steps) == Some(At(s, i, Active(ram, phase), Some(i), can, bak))
    ensures Exec(c, s, steps + [Abort(i)]) == Some(At(s, i, Active(ram, Idle), None, can, bak))
  {
    hide Exec, Apply, At;
    StepAt(c, s, i, ram, phase, Some(i), can, bak, Abort(i));
    Alone(c, s, steps, i, ram, phase, Some(i), can, bak, Abort(i), At(s, i, Active(ram, Idle), None, can, bak));
  }

  lemma Unmoved(c: Crypto, s: Sys, i: nat)
    requires i in s.instances && s.lock == None
    ensures Exec(c, s, []) == Some(At(s, i, s.instances[i], None, s.canonical, s.backup))
  {
    assert s.instances[i := s.instances[i]] == s.instances;
  }

  /** The files and the lock of `At` are the given ones. */
  lemma LockAt(s: Sys, i: nat, x: Instance, canonical: File, backup: File)
    ensures At(s, i, x, None, canonical, backup).(lock := Some(i)) == At(s, i, x, Some(i), canonical, backup)
    ensures At(s, i, x, None, canonical, backup).lock == None
    ensures At(s, i, x, Some(i), canonical, backup).canonical == canonical
    ensures At(s, i, x, Some(i), canonical, backup).backup == backup
  {
  }

  /** The copy to the backup, however it ends. */
  lemma UndisturbedCopy(c: Crypto, s: Sys, i: nat, steps: seq<Step>, ram: Ram, t: Ticket, copy: CopyEnd)
    requires Exec(c, s, steps) == Some(At(s, i, Active(ram, Copying(t)), Some(i), s.canonical, s.backup))
    ensures Exec(c, s, steps + CopySteps(i, copy))
         == Some(At(s, i, Active(ram, Ready(t, Canonical)), Some(i), s.canonical, match copy
              case Copied => CopyTo(s.backup, s.canonical.live)
              case NotStarted => s.backup
              case Torn(partial) => CopyTo(s.backup, Some(partial))))
  {
    hide Exec, Apply;
    var can, bak := s.canonical, s.backup;
    match copy {
      case Copied =>
        StepAt(c, s, i, ram, Copying(t), Some(i), can, bak, EndCopy(i, true));
        Alone(c, s, steps, i, ram, Copying(t), Some(i), can, bak, EndCopy(i, true),
              At(s, i, Active(ram, Ready(t, Canonical)), Some(i), can, CopyTo(bak, can.live)));
      case NotStarted =>
        StepAt(c, s, i, ram, Copying(t), Some(i), can, bak, SkipCopy(i));
        Alone(c, s, steps, i, ram, Copying(t), Some(i), can, bak, SkipCopy(i),
              At(s, i, Active(ram, Ready(t, Canonical)), Some(i), can, bak));
      case Torn(partial) =>
        var torn := CopyTo(bak, Some(partial));
        StepAt(c, s, i, ram, Copying(t), Some(i), can, torn, EndCopy(i, false));
        Alone(c, s, steps, i, ram, Copying(t), Some(i), can, bak, BeginCopy(i, partial),
              At(s, i, Active(ram, Copying(t)), Some(i), can, torn));
        Alone(c, s, steps + [BeginCopy(i, partial)], i, ram, Copying(t), Some(i), can, torn, EndCopy(i, false),
              At(s, i, Active(ram, Ready(t, Canonical)), Some(i), can, torn));
        assert steps + [BeginCopy(i, partial)] + [EndCopy(i, false)] == steps + CopySteps(i, copy);
    }
  }

  /** The rename of the temporary file. */
  lemma UndisturbedRename(
      c: Crypto, s: Sys, i: nat, steps: seq<Step>, ram: Ram, t: Ticket, target: Target, can: File, bak: File)
    requires Exec(c, s, steps) == Some(At(s, i, Active(ram, Ready(t, target)), Some(i), can, bak))
    ensures Exec(c, s, steps + [Rename(i)])
         == Some(At(s, i, Active(ram, Renamed(t, target)), Some(i),
                    if target.Canonical? then AfterRename(can, t.blob) else can,
                    if target.Backup? then AfterRename(bak, t.blob) else bak))
  {
    hide Exec, Apply, AfterRename;
    StepAt(c, s, i, ram, Ready(t, target), Some(i), can, bak, Rename(i));
    Alone(c, s, steps, i, ram, Ready(t, target), Some(i), can, bak, Rename(i),
          At(s, i, Active(ram, Renamed(t, target)), Some(i),
             if target.Canonical? then AfterRename(can, t.blob) else can,
             if target.Backup? then AfterRename(bak, t.blob) else bak));
  }

  function MaybeSynced(f: File, flushed: bool): File {
    if flushed then AfterDirSync(f) else f
  }

  /** The directory sync, and what the call does on its way out. */
  lemma UndisturbedFinish(c: Crypto, s: Sys, i: nat, steps: seq<Step>, ram: Ram, t: Ticket, can: File, bak: File)
    requires Exec(c, s, steps) == Some(At(s, i, Active(ram, Renamed(t, Canonical)), Some(i), can, bak))
    ensures Exec(c, s, steps + [SyncDir(i, true)])
         == Some(At(s, i, Active(Ram(ram.entries, JobPassword(t.job, ram), []), Idle), None, AfterDirSync(can),
             AfterDirSync(bak)))
  {
    hide Exec, Apply, AfterDirSync;
    StepAt(c, s, i, ram, Renamed(t, Canonical), Some(i), AfterDirSync(can), AfterDirSync(bak), SyncDir(i, true));
    Alone(c, s, steps, i, ram, Renamed(t, Canonical), Some(i), can, bak, SyncDir(i, true),
          At(s, i, Active(Ram(ram.entries, JobPassword(t.job, ram), []), Idle), None, AfterDirSync(can),
              AfterDirSync(bak)));
  }

  /** Between the two writes of a rekey. */
  lemma UndisturbedTurn(
      c: Crypto, s: Sys, i: nat, steps: seq<Step>, ram: Ram, t: Ticket, can: File, bak: File, flushed: bool)
    requires Exec(c, s, steps) == Some(At(s, i, Active(ram, Renamed(t, Backup)), Some(i), can, bak))
    ensures Exec(c, s, steps + [SyncDir(i, flushed)])
         == Some(At(s, i, Active(ram, Staging(t.(backupDurable := flushed), Canonical, 0)), Some(i),
                    MaybeSynced(can, flushed), MaybeSynced(bak, flushed)))
  {
    hide Exec, Apply, AfterDirSync;
    StepAt(c, s, i, ram, Renamed(t, Backup), Some(i), MaybeSynced(can, flushed), MaybeSynced(bak, flushed),
        SyncDir(i, flushed));
    Alone(c, s, steps, i, ram, Renamed(t, Backup), Some(i), can, bak, SyncDir(i, flushed),
          At(s, i, Active(ram, Staging(t.(backupDurable := flushed), Canonical, 0)), Some(i),
             MaybeSynced(can, flushed), MaybeSynced(bak, flushed)));
  }

  /** The backup after the copy of an ordinary save. */
  function CopiedBackup(s: Sys, existed: bool, copy: CopyEnd): File {
    if !existed then s.backup
    else
      match copy
      case Copied => CopyTo(s.backup, s.canonical.live)
      case NotStarted => s.backup
      case Torn(partial) => CopyTo(s.backup, Some(partial))
  }

  lemma UndisturbedReady(
      c: Crypto, path: Storage.Path, s: Sys, i: nat, files: Files, env: SaveEnv, first: Step, ram: Ram)
    requires Starts(s, i, first, ram, SaveJob) && Shows(s, files, path) && MergedWithDisk(c, path, ram, files, env).Ok?
    requires Package(c, MergedWithDisk(c, path, ram, files, env).value, ram.password, env.salt, env.iv).Ok?
    ensures var merged := ram.(entries := MergedWithDisk(c, path, ram, files, env).value);
      var t := Ticketed(c, path, s, ram, files, SaveJob, env);
      Exec(c, s, ReadySteps(i, first, env, path in files, |t.blob|))
      == Some(At(s, i, Active(merged, Ready(t, Canonical)), Some(i), s.canonical,
          CopiedBackup(s, path in files, env.write.copy)))
  {
    hide Exec, Apply, Package, Load, MergedWithDisk, OpeningSteps, StagingSteps, CopySteps, Starts, At;
    var t := Ticketed(c, path, s, ram, files, SaveJob, env);
    var merged := ram.(entries := MergedWithDisk(c, path, ram, files, env).value);
    UndisturbedOpening(c, path, s, i, files, env, first, ram, SaveJob);
    UndisturbedStaging(c, s, i, OpeningSteps(i, first, env), merged, t, Canonical, s.canonical, s.backup);
    var steps := OpeningSteps(i, first, env) + StagingSteps(i, |t.blob|);
    if path in files {
      UndisturbedCopy(c, s, i, steps, merged, t, env.write.copy);
    } else {
      assert steps + [] == steps;
    }
  }

  /** A call that has ended: the instance idle with this memory, nobody else touched, and these files. */
  ghost predicate Ended(c: Crypto, path: Storage.Path, s: Sys, i: nat, steps: seq<Step>, o: Outcome) {
    var r := Exec(c, s, steps);
    && r.Some? && r.value.instances == s.instances[i := Active(o.ram, Idle)] && r.value.lock == None
    && Shows(r.value, o.files, path)
  }

  /**
   Refinement: the steps of an instance that nobody and nothing disturbs have, together, exactly
   the effect on memory and files that `Saved` gives to a successful `save`, whether it follows an
   edit, a deletion or nothing. It had the lock, which is what its `Acquire` step stands for.
   */
  lemma UndisturbedSaveIsSaved(
      c: Crypto, path: Storage.Path, s: Sys, i: nat, files: Files, env: SaveEnv, first: Step, ram: Ram)
    requires Starts(s, i, first, ram, SaveJob) && Shows(s, files, path) && Saved(c, path, ram, files, env).result.Ok?
    ensures var o := Saved(c, path, ram, files, env);
      && env.lockOk && path in o.files
      && Ended(c, path, s, i, SaveSteps(i, first, env, path in files, |o.files[path]|), o)
  {
    hide Exec, Apply, Package, Load, MergedWithDisk, StagedOk, ReadySteps, Starts;
    var t := Ticketed(c, path, s, ram, files, SaveJob, env);
    var merged := ram.(entries := MergedWithDisk(c, path, ram, files, env).value);
    WriteIsAtomic(files, path, t.blob, true, env.write);
    PathsDiffer(path, env.write.tag);
    UndisturbedReady(c, path, s, i, files, env, first, ram);
    var steps, backup := ReadySteps(i, first, env, path in files, |t.blob|),
        CopiedBackup(s, path in files, env.write.copy);
    UndisturbedRename(c, s, i, steps, merged, t, Canonical, s.canonical, backup);
    UndisturbedFinish(c, s, i, steps + [Rename(i)], merged, t, AfterRename(s.canonical, t.blob), backup);
  }

  /** The same for a `save` that throws, wherever it does: the steps up to there and the unwinding. */
  lemma ThrowingSaveIsSaved(
      c: Crypto, path: Storage.Path, s: Sys, i: nat, files: Files, env: SaveEnv, first: Step, ram: Ram)
    returns (steps: seq<Step>)
    requires Starts(s, i, first, ram, SaveJob) && Shows(s, files, path) && Saved(c, path, ram, files, env).result.Err?
    ensures Ended(c, path, s, i, steps + [Abort(i)], Saved(c, path, ram, files, env))
  {
    hide Exec, Apply, Package, Load, MergedWithDisk, StagedOk, ReadySteps, OpeningSteps, MergeSteps, Starts;
    var can, bak := s.canonical, s.backup;
    var m := MergedWithDisk(c, path, ram, files, env);
    if !env.lockOk {
      steps := [first];
      UnlockedAbort(c, s, i, first, ram, SaveJob);
    } else if m.Err? {
      steps := [first] + [Acquire(i)];
      UndisturbedStart(c, s, i, first, ram, SaveJob);
      UndisturbedAbort(c, s, i, steps, ram, Locked(SaveJob), can, bak);
    } else {
      var merged := ram.(entries := m.value);
      var p := Package(c, m.value, ram.password, env.salt, env.iv);
      if p.Err? {
        steps := MergeSteps(i, first, env);
        UndisturbedMerge(c, path, s, i, files, env, first, ram, SaveJob);
        UndisturbedAbort(c, s, i, steps, merged, Absorbed(SaveJob, Seen(c, path, ram, files, env), env.clock), can,
            bak);
      } else {
        var t := Ticketed(c, path, s, ram, files, SaveJob, env);
        PathsDiffer(path, env.write.tag);
        if !StagedOk(files, path, t.blob, env.write) {
          steps := OpeningSteps(i, first, env);
          UndisturbedOpening(c, path, s, i, files, env, first, ram, SaveJob);
          UndisturbedAbort(c, s, i, steps, merged, Staging(t, Canonical, 0), can, bak);
        } else {
          steps := ReadySteps(i, first, env, path in files, |t.blob|);
          UndisturbedReady(c, path, s, i, files, env, first, ram);
          UndisturbedAbort(c, s, i, steps, merged, Ready(t, Canonical), can,
              CopiedBackup(s, path in files, env.write.copy));
        }
      }
    }
  }

  /** The lock could not be had. */
  lemma UnlockedAbort(c: Crypto, s: Sys, i: nat, first: Step, ram: Ram, job: Job)
    requires Starts(s, i, first, ram, job)
    ensures Exec(c, s, [first] + [Abort(i)]) == Some(At(s, i, Active(ram, Idle), None, s.canonical, s.backup))
  {
    hide Exec, Apply, At, Starts;
    var can, bak := s.canonical, s.backup;
    UndisturbedStart(c, s, i, first, ram, job);
    StepAt(c, s, i, ram, Waiting(job), None, can, bak, Abort(i));
    Alone(c, s, [first], i, ram, Waiting(job), None, can, bak, Abort(i), At(s, i, Active(ram, Idle), None, can, bak));
  }

  /** A rekey that nobody disturbs, up to the rename of the backup and the directory sync after it. */
  lemma UndisturbedBackup(
      c: Crypto, path: Storage.Path, s: Sys, i: nat, files: Files, env: SaveEnv, ram: Ram, q: bytes, flushed: bool)
    requires Starts(s, i, AskRekey(i, q), ram, RekeyJob(q)) && Shows(s, files, path)
        && MergedWithDisk(c, path, ram, files, env).Ok?
    requires Package(c, MergedWithDisk(c, path, ram, files, env).value, q, env.salt, env.iv).Ok?
    ensures var merged := ram.(entries := MergedWithDisk(c, path, ram, files, env).value);
      var t := Ticketed(c, path, s, ram, files, RekeyJob(q), env);
      var opening := OpeningSteps(i, AskRekey(i, q), env) + StagingSteps(i, |t.blob|);
      && Exec(c, s, opening) == Some(At(s, i, Active(merged, Ready(t, Backup)), Some(i), s.canonical, s.backup))
      && Exec(c, s, opening + [Rename(i)] + [SyncDir(i, flushed)])
         == Some(At(s, i, Active(merged, Staging(t.(backupDurable := flushed), Canonical, 0)), Some(i),
                    MaybeSynced(s.canonical, flushed), MaybeSynced(AfterRename(s.backup, t.blob), flushed)))
  {
    hide Exec, Apply, Package, Load, MergedWithDisk, OpeningSteps, StagingSteps, AfterRename, MaybeSynced, At, Starts;
    var t := Ticketed(c, path, s, ram, files, RekeyJob(q), env);
    var merged := ram.(entries := MergedWithDisk(c, path, ram, files, env).value);
    UndisturbedOpening(c, path, s, i, files, env, AskRekey(i, q), ram, RekeyJob(q));
    UndisturbedStaging(c, s, i, OpeningSteps(i, AskRekey(i, q), env), merged, t, Backup, s.canonical, s.backup);
    var steps := OpeningSteps(i, AskRekey(i, q), env) + StagingSteps(i, |t.blob|);
    UndisturbedRename(c, s, i, steps, merged, t, Backup, s.canonical, s.backup);
    UndisturbedTurn(c, s, i, steps + [Rename(i)], merged, t, s.canonical, AfterRename(s.backup, t.blob), flushed);
  }

  /** And on, up to the moment before and after the rename of the vault file. */
  lemma UndisturbedRekey(
      c: Crypto, path: Storage.Path, s: Sys, i: nat, files: Files, env: SaveEnv, ram: Ram, q: bytes, flushed: bool)
    requires Starts(s, i, AskRekey(i, q), ram, RekeyJob(q)) && Shows(s, files, path)
        && MergedWithDisk(c, path, ram, files, env).Ok?
    requires Package(c, MergedWithDisk(c, path, ram, files, env).value, q, env.salt, env.iv).Ok?
    ensures var merged := ram.(entries := MergedWithDisk(c, path, ram, files, env).value);
      var t := Ticketed(c, path, s, ram, files, RekeyJob(q), env);
      var can, bak := MaybeSynced(s.canonical, flushed), MaybeSynced(AfterRename(s.backup, t.blob), flushed);
      && Exec(c, s, RekeyReadySteps(i, q, env, flushed, |t.blob|))
         == Some(At(s, i, Active(merged, Ready(t.(backupDurable := flushed), Canonical)), Some(i), can, bak))
      && Exec(c, s, RekeySteps(i, q, env, flushed, |t.blob|))
         == Some(At(s, i, Active(merged, Renamed(t.(backupDurable := flushed), Canonical)), Some(i),
             AfterRename(can, t.blob), bak))
  {
    hide Exec, Apply, Package, Load, MergedWithDisk, OpeningSteps, StagingSteps, AfterRename, MaybeSynced, At, Starts;
    var t := Ticketed(c, path, s, ram, files, RekeyJob(q), env);
    var merged := ram.(entries := MergedWithDisk(c, path, ram, files, env).value);
    var can, bak := MaybeSynced(s.canonical, flushed), MaybeSynced(AfterRename(s.backup, t.blob), flushed);
    UndisturbedBackup(c, path, s, i, files, env, ram, q, flushed);
    var steps := OpeningSteps(i, AskRekey(i, q), env) + StagingSteps(i, |t.blob|) + [Rename(i)] + [SyncDir(i, flushed)];
    UndisturbedStaging(c, s, i, steps, merged, t.(backupDurable := flushed), Canonical, can, bak);
    UndisturbedRename(c, s, i, steps + StagingSteps(i, |t.blob|), merged, t.(backupDurable := flushed), Canonical,
        can, bak);
  }

  /** Refinement, for a successful `rekey` and `Rekeyed`. */
  lemma UndisturbedRekeyIsRekeyed(
      c: Crypto, path: Storage.Path, s: Sys, i: nat, files: Files, env: RekeyEnv, ram: Ram, q: bytes)
    requires Starts(s, i, AskRekey(i, q), ram, RekeyJob(q)) && Shows(s, files, path)
    requires Rekeyed(c, path, ram, files, q, env).result.Ok?
    ensures var o := Rekeyed(c, path, ram, files, q, env);
      && env.commit.lockOk && path in o.files
      && Ended(c, path, s, i, RekeySteps(i, q, env.commit, true, |o.files[path]|) + [SyncDir(i, true)], o)
  {
    hide Exec, Apply, Package, Load, MergedWithDisk, StagedOk, RekeySteps, Starts;
    var t := Ticketed(c, path, s, ram, files, RekeyJob(q), env.commit);
    var merged := ram.(entries := MergedWithDisk(c, path, ram, files, env.commit).value);
    UndisturbedRekey(c, path, s, i, files, env.commit, ram, q, true);
    UndisturbedFinish(c, s, i, RekeySteps(i, q, env.commit, true, |t.blob|), merged, t.(backupDurable := true),
                      AfterRename(MaybeSynced(s.canonical, true), t.blob),
                          MaybeSynced(AfterRename(s.backup, t.blob), true));
    var files1 := Written(files, BackupOf(path), t.blob, false, env.backupWrite);
    PathsDiffer(path, env.backupWrite.tag);
    PathsDiffer(path, env.commit.write.tag);
    WriteIsAtomic(files, BackupOf(path), t.blob, false, env.backupWrite);
    WriteIsAtomic(files1, path, t.blob, false, env.commit.write);
  }

  /** The same for a `rekey` to a non-empty password that throws, before, between or in its two writes. */
  lemma ThrowingRekeyIsRekeyed(
      c: Crypto, path: Storage.Path, s: Sys, i: nat, files: Files, env: RekeyEnv, ram: Ram, q: bytes)
    returns (steps: seq<Step>)
    requires Starts(s, i, AskRekey(i, q), ram, RekeyJob(q)) && Shows(s, files, path)
    requires Rekeyed(c, path, ram, files, q, env).result.Err?
    ensures Ended(c, path, s, i, steps + [Abort(i)], Rekeyed(c, path, ram, files, q, env))
  {
    hide Exec, Apply, Package, Load, MergedWithDisk, Written, WriteOk, OpeningSteps, MergeSteps, Starts;
    var first, job, can, bak := AskRekey(i, q), RekeyJob(q), s.canonical, s.backup;
    NotEmpty(s, i, q, ram);
    var m := MergedWithDisk(c, path, ram, files, env.commit);
    if !env.commit.lockOk {
      steps := [first];
      UnlockedAbort(c, s, i, first, ram, job);
    } else if m.Err? {
      steps := [first] + [Acquire(i)];
      UndisturbedStart(c, s, i, first, ram, job);
      UndisturbedAbort(c, s, i, steps, ram, Locked(job), can, bak);
    } else {
      var merged := ram.(entries := m.value);
      var p := Package(c, m.value, q, env.commit.salt, env.commit.iv);
      if p.Err? {
        steps := MergeSteps(i, first, env.commit);
        UndisturbedMerge(c, path, s, i, files, env.commit, first, ram, job);
        UndisturbedAbort(c, s, i, steps, merged,
            Absorbed(job, Seen(c, path, ram, files, env.commit), env.commit.clock), can, bak);
      } else {
        steps := ThrowingWrites(c, path, s, i, files, env, ram, q);
      }
    }
  }

  /** A rekey to the empty password takes no step, and there is none that it could begin with. */
  lemma EmptyRekeyTakesNoStep(c: Crypto, path: Storage.Path, s: Sys, i: nat, files: Files, env: RekeyEnv, ram: Ram)
    requires i in s.instances && s.instances[i] == Active(ram, Idle) && s.lock == None && Shows(s, files, path)
    ensures Ended(c, path, s, i, [], Rekeyed(c, path, ram, files, [], env))
    ensures Apply(c, s, AskRekey(i, [])) == None
  {
    assert s.instances[i := s.instances[i]] == s.instances;
  }

  lemma NotEmpty(s: Sys, i: nat, q: bytes, ram: Ram)
    requires Starts(s, i, AskRekey(i, q), ram, RekeyJob(q))
    ensures q != []
  {
  }

  /** One of the two writes fails, before or at its rename. */
  lemma ThrowingWrites(c: Crypto, path: Storage.Path, s: Sys, i: nat, files: Files, env: RekeyEnv, ram: Ram, q: bytes)
    returns (steps: seq<Step>)
    requires Starts(s, i, AskRekey(i, q), ram, RekeyJob(q)) && Shows(s, files, path) && env.commit.lockOk
    requires MergedWithDisk(c, path, ram, files, env.commit).Ok?
    requires Package(c, MergedWithDisk(c, path, ram, files, env.commit).value, q, env.commit.salt, env.commit.iv).Ok?
    requires Rekeyed(c, path, ram, files, q, env).result.Err?
    ensures Ended(c, path, s, i, steps + [Abort(i)], Rekeyed(c, path, ram, files, q, env))
  {
    hide Exec, Apply, Package, Load, MergedWithDisk, StagedOk, Written, OpeningSteps, StagingSteps, RekeyReadySteps,
        Starts;
    var t := Ticketed(c, path, s, ram, files, RekeyJob(q), env.commit);
    var merged := ram.(entries := MergedWithDisk(c, path, ram, files, env.commit).value);
    var files1 := Written(files, BackupOf(path), t.blob, false, env.backupWrite);
    NotEmpty(s, i, q, ram);
    PathsDiffer(path, env.backupWrite.tag);
    PathsDiffer(path, env.commit.write.tag);
    WriteIsAtomic(files, BackupOf(path), t.blob, false, env.backupWrite);
    UndisturbedBackup(c, path, s, i, files, env.commit, ram, q, true);
    if !StagedOk(files, BackupOf(path), t.blob, env.backupWrite) {
      steps := OpeningSteps(i, AskRekey(i, q), env.commit);
      UndisturbedOpening(c, path, s, i, files, env.commit, AskRekey(i, q), ram, RekeyJob(q));
      UndisturbedAbort(c, s, i, steps, merged, Staging(t, Backup, 0), s.canonical, s.backup);
    } else if !env.backupWrite.renameOk {
      steps := OpeningSteps(i, AskRekey(i, q), env.commit) + StagingSteps(i, |t.blob|);
      UndisturbedAbort(c, s, i, steps, merged, Ready(t, Backup), s.canonical, s.backup);
    } else {
      WriteIsAtomic(files1, path, t.blob, false, env.commit.write);
      var can, bak := MaybeSynced(s.canonical, true), MaybeSynced(AfterRename(s.backup, t.blob), true);
      if !StagedOk(files1, path, t.blob, env.commit.write) {
        steps := OpeningSteps(i, AskRekey(i, q), env.commit) + StagingSteps(i, |t.blob|) + [Rename(i)]
            + [SyncDir(i, true)];
        UndisturbedAbort(c, s, i, steps, merged, Staging(t.(backupDurable := true), Canonical, 0), can, bak);
      } else {
        UndisturbedRekey(c, path, s, i, files, env.commit, ram, q, true);
        steps := RekeyReadySteps(i, q, env.commit, true, |t.blob|);
        UndisturbedAbort(c, s, i, steps, merged, Ready(t.(backupDurable := true), Canonical), can, bak);
      }
    }
  }

  /**
   What the directory sync between the two writes is for: if it is skipped, every rekey passes
   through a state in which a power loss can leave the new file beside any old backup.
   */
  lemma SkippedSyncExposesOldBackup(
      c: Crypto, path: Storage.Path, s: Sys, i: nat, files: Files, env: SaveEnv, ram: Ram, q: bytes,
      stale: Option<bytes>)
    requires Starts(s, i, AskRekey(i, q), ram, RekeyJob(q)) && Shows(s, files, path)
        && MergedWithDisk(c, path, ram, files, env).Ok?
    requires Package(c, MergedWithDisk(c, path, ram, files, env).value, q, env.salt, env.iv).Ok?
    requires May(s.backup.durable, stale)
    ensures var blob := Package(c, MergedWithDisk(c, path, ram, files, env).value, q, env.salt, env.iv).value;
      Exec(c, s, RekeySteps(i, q, env, false, |blob|) + [PowerLoss(Some(blob), stale)])
          == Some(Restarted(Some(blob), stale))
  {
    hide Exec, Package, Load, MergedWithDisk, RekeySteps, Starts;
    var t := Ticketed(c, path, s, ram, files, RekeyJob(q), env);
    var merged := ram.(entries := MergedWithDisk(c, path, ram, files, env).value);
    UndisturbedRekey(c, path, s, i, files, env, ram, q, false);
    var exposed := At(s, i, Active(merged, Renamed(t.(backupDurable := false), Canonical)), Some(i),
                      AfterRename(s.canonical, t.blob), AfterRename(s.backup, t.blob));
    ExecSnoc(c, s, RekeySteps(i, q, env, false, |t.blob|), exposed, PowerLoss(Some(t.blob), stale),
        Restarted(Some(t.blob), stale));
  }
}
