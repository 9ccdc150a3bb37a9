/**
 Any number of vault services sharing one file (src/vault_service.cpp over src/local_storage.cpp),
 as a step system: between any two steps of a transaction another instance may run, a call may
 fail, a process may be killed, or the power may go.

 A file has the content a running process sees and the contents that may be found after a power
 loss. A rename makes the new content one of those; a directory sync leaves only the current one;
 an unsynced copy may leave anything.
 */
module Replicas {
  import opened Prelude
  import opened Vaults
  import opened VaultFormat
  import opened VaultFile
  import opened Merging
  import opened VaultServices

  // ---------------------------------------------------------------------------------
  // State.
  // ---------------------------------------------------------------------------------

  datatype Durable = Among(options: set<Option<bytes>>) | Anything

  datatype File = File(live: Option<bytes>, synced: bool, durable: Durable)

  datatype Job = SaveJob | RekeyJob(password: bytes)

  datatype Target = Canonical | Backup

  /**
   What a transaction carries: its job, the vault its merge read (and at which clock), the blob
   it encrypted with the salt and IV, whether the directory was synced after the backup was
   renamed, and, for reference, the contents of the two files that could survive a power loss when
   it began.
   */
  datatype Ticket = Ticket(
    job: Job,
    seen: Option<Entries>,
    clock: Clock,
    salt: Salt,
    iv: Iv,
    blob: bytes,
    backupDurable: bool,
    before: Durable,
    backupBefore: Durable)

  datatype Phase =
    | Idle
    | Waiting(job: Job)
    | Locked(job: Job)
    | Absorbed(job: Job, seen: Option<Entries>, clock: Clock)
    | Staging(ticket: Ticket, target: Target, written: nat)
    | Copying(ticket: Ticket)
    | Ready(ticket: Ticket, target: Target)
    | Renamed(ticket: Ticket, target: Target)

  datatype Instance = Loading(blob: bytes, password: bytes) | Active(ram: Ram, phase: Phase)

  datatype Sys = Sys(instances: map<nat, Instance>, lock: Option<nat>, canonical: File, backup: File)

  // ---------------------------------------------------------------------------------
  // Steps.
  // ---------------------------------------------------------------------------------

  datatype Step =
    | StartLoad(i: nat, password: bytes)
    | FinishLoad(i: nat, clock: Clock)
    | Edit(i: nat, entry: Entry)
    | Bury(i: nat, service: bytes)
    | AskSave(i: nat)
    | AskRekey(i: nat, newPassword: bytes)
    | Acquire(i: nat)
    | Absorb(i: nat, clock: Clock)
    | Encrypt(i: nat, salt: Salt, iv: Iv)
    | WriteChunk(i: nat, count: nat)
    | Fsync(i: nat)
    | BeginCopy(i: nat, partial: bytes)
    | EndCopy(i: nat, complete: bool)
    | SkipCopy(i: nat)
    | Rename(i: nat)
    | SyncDir(i: nat, flushed: bool)
    | Abort(i: nat)
    | Kill(i: nat)
    | PowerLoss(canonical: Option<bytes>, backup: Option<bytes>)

  predicate Critical(x: Instance) {
    x.Active? && !x.phase.Idle? && !x.phase.Waiting?
  }

  function JobPassword(job: Job, ram: Ram): bytes {
    match job
    case SaveJob => ram.password
    case RekeyJob(q) => q
  }

  function FirstTarget(job: Job): Target {
    if job.SaveJob? then Canonical else Backup
  }

  function With(s: Sys, i: nat, x: Instance): Sys {
    s.(instances := s.instances[i := x])
  }

  /** Give up the transaction: the exception unwinds, the guards unlock and remove the temporary file. */
  function Unwound(s: Sys, i: nat, ram: Ram): Sys {
    s.(instances := s.instances[i := Active(ram, Idle)], lock := None)
  }

  function May(d: Durable, content: Option<bytes>): bool {
    d.Anything? || content in d.options
  }

  function WithOption(d: Durable, content: Option<bytes>): Durable {
    match d
    case Anything => Anything
    case Among(o) => Among(o + {content})
  }

  /** After a rename the file shows the synced blob; until a directory sync a power loss may bring back an older one. */
  function AfterRename(f: File, blob: bytes): File {
    File(Some(blob), true, WithOption(f.durable, Some(blob)))
  }

  function AfterDirSync(f: File): File {
    f.(durable := if f.synced then Among({f.live}) else Anything)
  }

  function CopyTo(f: File, content: Option<bytes>): File {
    File(content, false, Anything)
  }

  /** The next state, or nothing if the step cannot be taken. */
  function Apply(c: Crypto, s: Sys, step: Step): Option<Sys> {
    if step.PowerLoss? then
      if !May(s.canonical.durable, step.canonical) || !May(s.backup.durable, step.backup) then None
      else Some(Restarted(step.canonical, step.backup))
    else if step.StartLoad? then
      if step.i in s.instances || s.canonical.live.None? then None
      else Some(With(s, step.i, Loading(s.canonical.live.value, step.password)))
    else if step.i !in s.instances then None
    else if step.Kill? then
      Some(s.(instances := s.instances - {step.i}, lock := if s.lock == Some(step.i) then None else s.lock))
    else if s.instances[step.i].Loading? then
      if step.FinishLoad? then Some(Loaded(c, s, step.i, step.clock)) else None
    else Progress(c, s, step, step.i, s.instances[step.i].ram, s.instances[step.i].phase)
  }

  /** After a power loss no process is left, and what is found is durable. */
  function Restarted(canonical: Option<bytes>, backup: Option<bytes>): Sys {
    Sys(map[], None, File(canonical, true, Among({canonical})), File(backup, true, Among({backup})))
  }

  function Loaded(c: Crypto, s: Sys, i: nat, clock: Clock): Sys
    requires i in s.instances && s.instances[i].Loading?
  {
    var x := s.instances[i];
    match Load(c, x.blob, x.password, clock)
    case Err(_) => s.(instances := s.instances - {i})
    case Ok(es) => With(s, i, Active(Ram(es, x.password, []), Idle))
  }

  function Progress(c: Crypto, s: Sys, step: Step, i: nat, ram: Ram, phase: Phase): Option<Sys> {
    match phase
    case Idle => FromIdle(s, step, i, ram)
    case Waiting(job) => FromWaiting(s, step, i, ram, job)
    case Locked(job) => FromLocked(c, s, step, i, ram, job)
    case Absorbed(job, seen, clock) => FromAbsorbed(c, s, step, i, ram, job, seen, clock)
    case Staging(t, target, written) => FromStaging(s, step, i, ram, t, target, written)
    case Copying(t) => FromCopying(s, step, i, ram, t)
    case Ready(t, target) => FromReady(s, step, i, ram, t, target)
    case Renamed(t, target) => FromRenamed(s, step, i, ram, t, target)
  }

  /** Edits happen in memory and then ask for a save; so does `save` itself. */
  function Asked(ram: Ram, step: Step): (r: Option<(Ram, Job)>)
    ensures r.Some? ==> r.value.0.password == ram.password && r.value.1 != RekeyJob([])
  {
    match step
    case Edit(_, e) => if e.lastUpdated == 0 then None else Some((ram.(entries := Put(ram.entries, e)), SaveJob))
    case Bury(_, service) =>
      if Find(ram.entries, service).None? then None
      else Some((ram.(entries := Remove(ram.entries, service), tombs := ram.tombs + [service]), SaveJob))
    case AskSave(_) => Some((ram, SaveJob))
    case AskRekey(_, q) => if q == [] then None else Some((ram, RekeyJob(q)))
    case _ => None
  }

  function FromIdle(s: Sys, step: Step, i: nat, ram: Ram): Option<Sys> {
    match Asked(ram, step)
    case None => None
    case Some((edited, job)) => Some(With(s, i, Active(edited, Waiting(job))))
  }

  function FromWaiting(s: Sys, step: Step, i: nat, ram: Ram, job: Job): Option<Sys> {
    match step
    case Acquire(_) =>
      if s.lock.Some? then None else Some(With(s, i, Active(ram, Locked(job))).(lock := Some(i)))
    case Abort(_) => Some(With(s, i, Active(ram, Idle)))
    case _ => None
  }

  function FromLocked(c: Crypto, s: Sys, step: Step, i: nat, ram: Ram, job: Job): Option<Sys> {
    match step
    case Absorb(_, clock) =>
      if s.canonical.live.None? then Some(With(s, i, Active(ram, Absorbed(job, None, clock))))
      else
        (match Load(c, s.canonical.live.value, ram.password, clock)
         case Err(_) => Some(Unwound(s, i, ram))
         case Ok(disk) =>
           Some(With(s, i, Active(ram.(entries := Merge(ram.entries, disk, ram.tombs)),
               Absorbed(job, Some(disk), clock)))))
    case Abort(_) => Some(Unwound(s, i, ram))
    case _ => None
  }

  function FromAbsorbed(
      c: Crypto, s: Sys, step: Step, i: nat, ram: Ram, job: Job, seen: Option<Entries>, clock: Clock): Option<Sys>
  {
    match step
    case Encrypt(_, salt, iv) =>
      (match Package(c, ram.entries, JobPassword(job, ram), salt, iv)
       case Err(_) => Some(Unwound(s, i, ram))
       case Ok(blob) =>
         var t := Ticket(job, seen, clock, salt, iv, blob, false, s.canonical.durable, s.backup.durable);
         Some(With(s, i, Active(ram, Staging(t, FirstTarget(job), 0)))))
    case Abort(_) => Some(Unwound(s, i, ram))
    case _ => None
  }

  function FromStaging(s: Sys, step: Step, i: nat, ram: Ram, t: Ticket, target: Target, written: nat): Option<Sys> {
    match step
    case WriteChunk(_, n) =>
      if written + n > |t.blob| then None else Some(With(s, i, Active(ram, Staging(t, target, written + n))))
    case Fsync(_) =>
      if written < |t.blob| then None
      else if t.job.SaveJob? && s.canonical.live.Some? then Some(With(s, i, Active(ram, Copying(t))))
      else Some(With(s, i, Active(ram, Ready(t, target))))
    case Abort(_) => Some(Unwound(s, i, ram))
    case _ => None
  }

  /** The ordinary save copies the file to the backup: neither atomically nor durably, and it may stop anywhere. */
  function FromCopying(s: Sys, step: Step, i: nat, ram: Ram, t: Ticket): Option<Sys> {
    match step
    case BeginCopy(_, partial) => Some(s.(backup := CopyTo(s.backup, Some(partial))))
    case EndCopy(_, complete) =>
      var next := With(s, i, Active(ram, Ready(t, Canonical)));
      Some(if complete then next.(backup := CopyTo(s.backup, s.canonical.live)) else next)
    case SkipCopy(_) => Some(With(s, i, Active(ram, Ready(t, Canonical))))
    case _ => None
  }

  function FromReady(s: Sys, step: Step, i: nat, ram: Ram, t: Ticket, target: Target): Option<Sys> {
    match step
    case Rename(_) =>
      var next := With(s, i, Active(ram, Renamed(t, target)));
      Some(if target.Canonical? then next.(canonical := AfterRename(s.canonical, t.blob))
           else next.(backup := AfterRename(s.backup, t.blob)))
    case Abort(_) => Some(Unwound(s, i, ram))
    case _ => None
  }

  /** Nothing throws after the rename. The directory sync is skipped if the directory cannot be flushed. */
  function FromRenamed(s: Sys, step: Step, i: nat, ram: Ram, t: Ticket, target: Target): Option<Sys> {
    match step
    case SyncDir(_, flushed) =>
      var s1 := if flushed then s.(canonical := AfterDirSync(s.canonical), backup := AfterDirSync(s.backup)) else s;
      if target.Backup? then
        Some(With(s1, i, Active(ram, Staging(t.(backupDurable := flushed), Canonical, 0))))
      else
        Some(Unwound(s1, i, Ram(ram.entries, JobPassword(t.job, ram), [])))
    case _ => None
  }

  // ---------------------------------------------------------------------------------
  // Runs.
  // ---------------------------------------------------------------------------------

  /** No instance yet; whatever bytes are on disk are there durably. */
  ghost predicate Init(s: Sys) {
    && s.instances == map[] && s.lock == None
    && s.canonical.synced && s.canonical.durable == Among({s.canonical.live})
    && s.backup.synced && s.backup.durable == Among({s.backup.live})
  }

  ghost predicate Run(c: Crypto, ss: seq<Sys>, steps: seq<Step>) {
    && |ss| == |steps| + 1
    && Init(ss[0])
    && forall k :: 0 <= k < |steps| ==> Apply(c, ss[k], steps[k]) == Some(ss[k + 1])
  }

  // ---------------------------------------------------------------------------------
  // The invariant.
  // ---------------------------------------------------------------------------------

  /** Every entry of `older` is in `newer`, no older than it was, unless it is buried. */
  ghost predicate Keeps(older: Entries, newer: Entries, tombs: seq<bytes>) {
    forall s :: s !in tombs && Find(older, s).Some? ==>
      Find(newer, s).Some? && Find(newer, s).value.lastUpdated >= Find(older, s).value.lastUpdated
  }

  /** The holder has read the current file with its password, and its memory keeps what it read. */
  ghost predicate HasAbsorbed(c: Crypto, s: Sys, ram: Ram, seen: Option<Entries>, clock: Clock) {
    match s.canonical.live
    case None => seen == None
    case Some(b) =>
      && seen.Some?
      && Load(c, b, ram.password, clock) == Ok(seen.value)
      && Keeps(seen.value, ram.entries, ram.tombs)
  }

  ghost predicate IsBlob(c: Crypto, ram: Ram, t: Ticket) {
    Package(c, ram.entries, JobPassword(t.job, ram), t.salt, t.iv) == Ok(t.blob)
  }

  /** From the moment the backup is renamed, a rekey has its blob there. */
  ghost predicate BackupWritten(s: Sys, t: Ticket) {
    && s.backup.live == Some(t.blob) && s.backup.synced
    && s.backup.durable == if t.backupDurable then Among({Some(t.blob)}) else WithOption(t.backupBefore, Some(t.blob))
  }

  ghost predicate Within(d: Durable, e: Durable, more: set<Option<bytes>>) {
    d.Among? && e.Among? && d.options <= e.options + more
  }

  ghost predicate TargetOk(s: Sys, t: Ticket, target: Target) {
    && (target.Backup? ==> t.job.RekeyJob? && !t.backupDurable && s.backup.durable == t.backupBefore)
    && (target.Canonical? && t.job.RekeyJob? ==> BackupWritten(s, t))
  }

  ghost predicate HolderOk(c: Crypto, s: Sys, ram: Ram, phase: Phase) {
    match phase
    case Idle => true
    case Waiting(_) => true
    case Locked(_) => true
    case Absorbed(_, seen, clock) => HasAbsorbed(c, s, ram, seen, clock)
    case Staging(t, target, written) =>
      && HasAbsorbed(c, s, ram, t.seen, t.clock) && IsBlob(c, ram, t) && written <= |t.blob|
      && TargetOk(s, t, target) && Within(s.canonical.durable, t.before, {})
    case Copying(t) =>
      && HasAbsorbed(c, s, ram, t.seen, t.clock) && IsBlob(c, ram, t) && t.job.SaveJob?
      && Within(s.canonical.durable, t.before, {})
    case Ready(t, target) =>
      && HasAbsorbed(c, s, ram, t.seen, t.clock) && IsBlob(c, ram, t)
      && TargetOk(s, t, target) && Within(s.canonical.durable, t.before, {})
    case Renamed(t, Backup) =>
      && HasAbsorbed(c, s, ram, t.seen, t.clock) && IsBlob(c, ram, t) && t.job.RekeyJob?
      && BackupWritten(s, t) && !t.backupDurable
      && Within(s.canonical.durable, t.before, {})
    case Renamed(t, Canonical) =>
      && IsBlob(c, ram, t) && s.canonical.live == Some(t.blob)
      && (t.seen.Some? ==> Keeps(t.seen.value, ram.entries, ram.tombs))
      && (t.job.RekeyJob? ==> BackupWritten(s, t))
      && Within(s.canonical.durable, t.before, {Some(t.blob)})
  }

  ghost predicate LockOk(s: Sys) {
    && (forall i :: i in s.instances ==> (Critical(s.instances[i]) <==> s.lock == Some(i)))
    && (s.lock.Some? ==> s.lock.value in s.instances)
  }

  ghost predicate FilesOk(s: Sys) {
    && s.canonical.synced && s.canonical.durable.Among? && s.canonical.live in s.canonical.durable.options
    && May(s.backup.durable, s.backup.live) && (s.backup.synced || s.backup.durable.Anything?)
  }

  ghost predicate MemoriesOk(s: Sys) {
    forall i :: i in s.instances && s.instances[i].Active? ==> WellFormed(s.instances[i].ram.entries)
  }

  ghost predicate Inv(c: Crypto, s: Sys) {
    && LockOk(s) && FilesOk(s) && MemoriesOk(s)
    && (s.lock.Some? ==> HolderOk(c, s, s.instances[s.lock.value].ram, s.instances[s.lock.value].phase))
  }

  lemma MergeKeepsAll(local: Entries, disk: Entries, tombs: seq<bytes>)
    requires Distinct(disk)
    ensures Keeps(disk, Merge(local, disk, tombs), tombs)
  {
    hide Find, Merge;
    forall s | s !in tombs && Find(disk, s).Some?
      ensures Find(Merge(local, disk, tombs), s).Some?
      ensures Find(Merge(local, disk, tombs), s).value.lastUpdated >= Find(disk, s).value.lastUpdated
    {
      MergeKeeps(local, disk, tombs, s);
    }
  }

  lemma IdleStepKeepsInv(c: Crypto, s: Sys, step: Step, i: nat, t: Sys)
    requires Inv(c, s) && i in s.instances && s.instances[i].Active? && s.instances[i].phase.Idle?
    requires FromIdle(s, step, i, s.instances[i].ram) == Some(t)
    ensures Inv(c, t)
  {
    hide Load, Package, Find, Put, Remove, WellFormed, HolderOk;
    var ram := s.instances[i].ram;
    match step {
      case Edit(_, e) => PutWellFormed(ram.entries, e);
      case Bury(_, service) => RemoveWellFormed(ram.entries, service);
      case _ =>
    }
    assert t.lock == s.lock && t.lock != Some(i);
    if t.lock.Some? {
      FrameHolder(c, s, t, s.instances[s.lock.value].ram, s.instances[s.lock.value].phase);
    }
  }

  /** What the holder relies on is in the files only. */
  lemma FrameHolder(c: Crypto, s: Sys, t: Sys, ram: Ram, phase: Phase)
    requires s.canonical == t.canonical && s.backup == t.backup
    requires HolderOk(c, s, ram, phase)
    ensures HolderOk(c, t, ram, phase)
  {
    hide Load, Package, Keeps;
  }

  lemma LockedStepKeepsInv(c: Crypto, s: Sys, step: Step, i: nat, t: Sys)
    requires Inv(c, s) && i in s.instances && s.instances[i].Active? && s.instances[i].phase.Locked?
    requires FromLocked(c, s, step, i, s.instances[i].ram, s.instances[i].phase.job) == Some(t)
    ensures Inv(c, t)
  {
    hide Load, Package, Find, Merge, WellFormed, Keeps;
    var ram := s.instances[i].ram;
    if step.Absorb? && s.canonical.live.Some? {
      var loaded := Load(c, s.canonical.live.value, ram.password, step.clock);
      if loaded.Ok? {
        WellFormedParts(loaded.value);
        MergeKeepsAll(ram.entries, loaded.value, ram.tombs);
        MergeWellFormed(ram.entries, loaded.value, ram.tombs);
      }
    }
  }

  lemma WellFormedParts(es: Entries)
    requires WellFormed(es)
    ensures Distinct(es) && Dated(es)
  {
  }

  lemma AbsorbedStepKeepsInv(c: Crypto, s: Sys, step: Step, i: nat, t: Sys)
    requires Inv(c, s) && i in s.instances && s.instances[i].Active? && s.instances[i].phase.Absorbed?
    requires var p := s.instances[i].phase;
      FromAbsorbed(c, s, step, i, s.instances[i].ram, p.job, p.seen, p.clock) == Some(t)
    ensures Inv(c, t)
  {
    hide Load, Package, WellFormed, Keeps;
  }

  lemma StagingStepKeepsInv(c: Crypto, s: Sys, step: Step, i: nat, t: Sys)
    requires Inv(c, s) && i in s.instances && s.instances[i].Active? && s.instances[i].phase.Staging?
    requires var p := s.instances[i].phase;
      FromStaging(s, step, i, s.instances[i].ram, p.ticket, p.target, p.written) == Some(t)
    ensures Inv(c, t)
  {
    hide Load, Package, WellFormed, Keeps;
  }

  lemma CopyingStepKeepsInv(c: Crypto, s: Sys, step: Step, i: nat, t: Sys)
    requires Inv(c, s) && i in s.instances && s.instances[i].Active? && s.instances[i].phase.Copying?
    requires FromCopying(s, step, i, s.instances[i].ram, s.instances[i].phase.ticket) == Some(t)
    ensures Inv(c, t)
  {
    hide Load, Package, WellFormed, Keeps;
  }

  lemma ReadyStepKeepsInv(c: Crypto, s: Sys, step: Step, i: nat, t: Sys)
    requires Inv(c, s) && i in s.instances && s.instances[i].Active? && s.instances[i].phase.Ready?
    requires FromReady(s, step, i, s.instances[i].ram, s.instances[i].phase.ticket, s.instances[i].phase.target)
        == Some(t)
    ensures Inv(c, t)
  {
    hide Load, Package, WellFormed, Keeps;
  }

  lemma RenamedStepKeepsInv(c: Crypto, s: Sys, step: Step, i: nat, t: Sys)
    requires Inv(c, s) && i in s.instances && s.instances[i].Active? && s.instances[i].phase.Renamed?
    requires FromRenamed(s, step, i, s.instances[i].ram, s.instances[i].phase.ticket, s.instances[i].phase.target)
        == Some(t)
    ensures Inv(c, t)
  {
    hide Load, Package, WellFormed, Keeps;
  }

  lemma OtherStepKeepsInv(c: Crypto, s: Sys, step: Step, t: Sys)
    requires Inv(c, s) && Apply(c, s, step) == Some(t)
    requires step.StartLoad? || step.PowerLoss? || step.Kill? || step.FinishLoad?
    ensures Inv(c, t)
  {
    hide Load, Package, WellFormed, HolderOk;
    if s.lock.Some? && !step.PowerLoss? && t.lock.Some? {
      FrameHolder(c, s, t, s.instances[s.lock.value].ram, s.instances[s.lock.value].phase);
    }
  }

  /** Every step keeps the invariant. */
  lemma StepKeepsInv(c: Crypto, s: Sys, step: Step, t: Sys)
    requires Inv(c, s) && Apply(c, s, step) == Some(t)
    ensures Inv(c, t)
  {
    hide Inv, FromIdle, FromLocked, FromAbsorbed, FromStaging, FromCopying, FromReady, FromRenamed, Loaded;
    if step.StartLoad? || step.PowerLoss? || step.Kill? || step.FinishLoad? {
      OtherStepKeepsInv(c, s, step, t);
    } else {
      var i := step.i;
      match s.instances[i].phase {
        case Idle => IdleStepKeepsInv(c, s, step, i, t);
        case Waiting(job) => WaitingStepKeepsInv(c, s, step, i, t);
        case Locked(job) => LockedStepKeepsInv(c, s, step, i, t);
        case Absorbed(_, _, _) => AbsorbedStepKeepsInv(c, s, step, i, t);
        case Staging(_, _, _) => StagingStepKeepsInv(c, s, step, i, t);
        case Copying(_) => CopyingStepKeepsInv(c, s, step, i, t);
        case Ready(_, _) => ReadyStepKeepsInv(c, s, step, i, t);
        case Renamed(_, _) => RenamedStepKeepsInv(c, s, step, i, t);
      }
    }
  }

  lemma WaitingStepKeepsInv(c: Crypto, s: Sys, step: Step, i: nat, t: Sys)
    requires Inv(c, s) && i in s.instances && s.instances[i].Active? && s.instances[i].phase.Waiting?
    requires FromWaiting(s, step, i, s.instances[i].ram, s.instances[i].phase.job) == Some(t)
    ensures Inv(c, t)
  {
    hide Load, Package, WellFormed, Keeps;
    if step.Abort? && t.lock.Some? {
      FrameHolder(c, s, t, s.instances[s.lock.value].ram, s.instances[s.lock.value].phase);
    }
  }

  lemma {:induction false} RunInv(c: Crypto, ss: seq<Sys>, steps: seq<Step>, k: nat)
    requires Run(c, ss, steps) && k <= |steps|
    ensures Inv(c, ss[k])
  {
    hide Apply;
    if k > 0 {
      RunInv(c, ss, steps, k - 1);
      StepKeepsInv(c, ss[k - 1], steps[k - 1], ss[k]);
    }
  }
}
