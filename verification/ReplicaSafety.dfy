/** What holds in every run of the step system of module Replicas. */
module ReplicaSafety {
  import opened Prelude
  import opened Vaults
  import opened VaultFormat
  import opened VaultFile
  import opened Merging
  import opened VaultServices
  import opened Replicas

  // ---------------------------------------------------------------------------------
  // Who changes the files.
  // ---------------------------------------------------------------------------------

  /** Instance `i` is about to put its blob in the place of the canonical file. */
  ghost predicate Commits(s: Sys, step: Step) {
    && step.Rename? && step.i in s.instances && s.instances[step.i].Active?
    && s.instances[step.i].phase.Ready? && s.instances[step.i].phase.target.Canonical?
  }

  function Committer(s: Sys, step: Step): Ram
    requires Commits(s, step)
  {
    s.instances[step.i].ram
  }

  function Committed(s: Sys, step: Step): Ticket
    requires Commits(s, step)
  {
    s.instances[step.i].phase.ticket
  }

  /** The rename of a temporary file or the copy to the backup, by a holder that has read the current file. */
  ghost predicate Writes(s: Sys, step: Step) {
    && !step.PowerLoss? && step.i in s.instances && s.instances[step.i].Active?
    && ((s.instances[step.i].phase.Ready? && step.Rename?)
        || (s.instances[step.i].phase.Copying? && (step.BeginCopy? || step.EndCopy?)))
  }

  /** Outside power losses the canonical file changes by commits only, and either file by writers only. */
  lemma OnlyWritersWrite(c: Crypto, s: Sys, step: Step, t: Sys)
    requires Apply(c, s, step) == Some(t) && !step.PowerLoss?
    ensures t.canonical.live != s.canonical.live ==> Commits(s, step)
    ensures Commits(s, step) ==> t.canonical.live == Some(Committed(s, step).blob)
    ensures t.canonical.live != s.canonical.live || t.backup.live != s.backup.live ==> Writes(s, step)
  {
    hide Load, Package, Merge, Asked;
  }

  /** A writer holds the lock and its password opens the file it is about to replace. */
  lemma WritersHoldThePassword(c: Crypto, s: Sys, step: Step)
    requires Inv(c, s) && Writes(s, step)
    ensures s.lock == Some(step.i)
    ensures s.canonical.live.Some? ==> Unseal(c, s.canonical.live.value, s.instances[step.i].ram.password).Ok?
  {
    hide Package, Keeps, Unseal;
    assert Critical(s.instances[step.i]);
  }

  /**
   Stale passwords, one step: an instance whose password does not open the existing file cannot
   change it or its backup, whatever it does.
   */
  lemma StaleInstanceIsHarmless(c: Crypto, s: Sys, step: Step, t: Sys)
    requires Inv(c, s) && Apply(c, s, step) == Some(t) && !step.PowerLoss?
    requires step.i in s.instances && s.instances[step.i].Active?
    requires s.canonical.live.Some? && Unseal(c, s.canonical.live.value, s.instances[step.i].ram.password).Err?
    ensures t.canonical.live == s.canonical.live && t.backup.live == s.backup.live
  {
    hide Apply, Inv, Unseal;
    OnlyWritersWrite(c, s, step, t);
    if Writes(s, step) {
      WritersHoldThePassword(c, s, step);
    }
  }

  /**
   In every run, between power losses, the file stops opening with a password only when a holder of the
   current one rekeys.
   */
  lemma PasswordChangesOnlyByRekey(c: Crypto, ss: seq<Sys>, steps: seq<Step>, k: nat, p: bytes)
    requires Ideal(c) && Run(c, ss, steps) && k < |steps| && !steps[k].PowerLoss?
    requires ss[k].canonical.live.Some? && Unseal(c, ss[k].canonical.live.value, p).Ok?
    requires ss[k + 1].canonical.live.None? || Unseal(c, ss[k + 1].canonical.live.value, p).Err?
    ensures Commits(ss[k], steps[k])
    ensures Unseal(c, ss[k].canonical.live.value, Committer(ss[k], steps[k]).password).Ok?
    ensures ss[k + 1].canonical.live.Some?
    ensures match Committed(ss[k], steps[k]).job
      case RekeyJob(q) => Unseal(c, ss[k + 1].canonical.live.value, q).Ok?
      case SaveJob => (
        && Committer(ss[k], steps[k]).password != p
        && Unseal(c, ss[k + 1].canonical.live.value, Committer(ss[k], steps[k]).password).Ok?)
  {
    hide Apply, Inv, Unseal;
    var s, step, t := ss[k], steps[k], ss[k + 1];
    RunInv(c, ss, steps, k);
    OnlyWritersWrite(c, s, step, t);
    WritersHoldThePassword(c, s, step);
    CommittedBlob(c, s, step);
  }

  /** What a commit puts in place: the memory of the committer under the password of its job. */
  lemma CommittedBlob(c: Crypto, s: Sys, step: Step)
    requires Ideal(c) && Inv(c, s) && Commits(s, step)
    ensures var ram, ticket := Committer(s, step), Committed(s, step);
      && WellFormed(ram.entries)
      && Package(c, ram.entries, JobPassword(ticket.job, ram), ticket.salt, ticket.iv) == Ok(ticket.blob)
      && Unseal(c, ticket.blob, JobPassword(ticket.job, ram)) == Ok((Body(ram.entries, 3), 3))
      && (s.canonical.live.Some? ==>
           && ticket.seen.Some?
           && Load(c, s.canonical.live.value, ram.password, ticket.clock) == Ok(ticket.seen.value)
           && Keeps(ticket.seen.value, ram.entries, ram.tombs))
  {
    hide Package, Keeps, Unseal, Load, Body, WellFormed;
    assert Critical(s.instances[step.i]);
    var ram, ticket := Committer(s, step), Committed(s, step);
    UnsealPackage(c, ram.entries, JobPassword(ticket.job, ram), ticket.salt, ticket.iv, JobPassword(ticket.job, ram));
  }

  // ---------------------------------------------------------------------------------
  // No silent loss.
  // ---------------------------------------------------------------------------------

  /**
   One commit: what the file held, read under the committer's password, is in the new file, no
   older than it was, unless the committer itself had buried it. The new file can be read back
   exactly if it is within the limit of `read_file`.
   */
  lemma CommitLosesOnlyWhatWasBuried(c: Crypto, s: Sys, step: Step, t: Sys, clock: Clock, service: bytes)
    requires Ideal(c) && Inv(c, s) && Commits(s, step) && Apply(c, s, step) == Some(t)
    requires s.canonical.live.Some?
    ensures var ram, ticket := Committer(s, step), Committed(s, step);
      && t.canonical.live == Some(ticket.blob)
      && Load(c, ticket.blob, JobPassword(ticket.job, ram), clock)
         == (if |ticket.blob| <= MAX_FILE then Ok(ram.entries) else Err(FileTooLarge))
      && ticket.seen.Some? && Load(c, s.canonical.live.value, ram.password, ticket.clock) == Ok(ticket.seen.value)
      && (service !in ram.tombs && Find(ticket.seen.value, service).Some? ==>
           && Find(ram.entries, service).Some?
           && Find(ram.entries, service).value.lastUpdated >= Find(ticket.seen.value, service).value.lastUpdated)
  {
    hide Apply, Inv, Load, Package, Unseal, Find, Body, WellFormed;
    OnlyWritersWrite(c, s, step, t);
    CommittedBlob(c, s, step);
    var ram, ticket := Committer(s, step), Committed(s, step);
    FileRoundTrip(c, ram.entries, JobPassword(ticket.job, ram), ticket.salt, ticket.iv, clock);
  }

  // ---------------------------------------------------------------------------------
  // Power losses and rekeying.
  // ---------------------------------------------------------------------------------

  /** The file after a power loss is, complete, a version that was the file at some earlier moment. */
  lemma {:induction false} SurvivorsWereCommitted(
      c: Crypto, ss: seq<Sys>, steps: seq<Step>, k: nat, content: Option<bytes>)
    returns (j: nat)
    requires Run(c, ss, steps) && k <= |steps| && May(ss[k].canonical.durable, content)
    ensures j <= k && ss[j].canonical.live == content
  {
    hide Apply, Inv;
    if k == 0 {
      j := 0;
    } else {
      var s, step, t := ss[k - 1], steps[k - 1], ss[k];
      RunInv(c, ss, steps, k - 1);
      DurableGrows(c, s, step, t, content);
      if t.canonical.live == content {
        j := k;
      } else {
        j := SurvivorsWereCommitted(c, ss, steps, k - 1, content);
      }
    }
  }

  /** What may be found after a power loss grows by commits only. */
  lemma DurableGrows(c: Crypto, s: Sys, step: Step, t: Sys, content: Option<bytes>)
    requires Inv(c, s) && Apply(c, s, step) == Some(t) && May(t.canonical.durable, content)
    ensures May(s.canonical.durable, content) || (Commits(s, step) && content == Some(Committed(s, step).blob))
    ensures May(s.canonical.durable, content) || t.canonical.live == content
  {
    hide Load, Package, Merge, Asked, HolderOk, LockOk, MemoriesOk;
  }

  /** A save or rekey whose directory sync went through survives a power loss right after it. */
  lemma SyncedCommitIsDurable(
      c: Crypto, s: Sys, i: nat, t: Sys, after: Sys, canonical: Option<bytes>, backup: Option<bytes>)
    requires Inv(c, s) && Apply(c, s, SyncDir(i, true)) == Some(t)
    requires Apply(c, t, PowerLoss(canonical, backup)) == Some(after)
    ensures after.canonical.live == s.canonical.live
  {
    hide HolderOk, LockOk, MemoriesOk;
  }

  ghost predicate Rekeying(s: Sys, i: nat, q: bytes) {
    && i in s.instances && s.instances[i].Active?
    && (s.instances[i].phase.Staging? || s.instances[i].phase.Ready? || s.instances[i].phase.Renamed?)
    && s.instances[i].phase.ticket.job == RekeyJob(q)
  }

  /** The rekey has put its blob in the place of the vault file. */
  predicate HasReplaced(phase: Phase) {
    phase.Renamed? && phase.target.Canonical?
  }

  /** Everything that may be found is among what could be found before. */
  ghost predicate Shrinks(d: Durable, e: Durable) {
    d.Anything? || (e.Among? && e.options <= d.options)
  }

  /**
   A step that writes neither file leaves both as they are; a directory sync or a power loss only rules
   contents out.
   */
  lemma QuietStep(c: Crypto, s: Sys, step: Step, t: Sys)
    requires Inv(c, s) && Apply(c, s, step) == Some(t) && !Writes(s, step)
    ensures Shrinks(s.canonical.durable, t.canonical.durable) && Shrinks(s.backup.durable, t.backup.durable)
    ensures !step.PowerLoss? ==> t.canonical.live == s.canonical.live && t.backup.live == s.backup.live
  {
    hide Load, Package, Merge, Asked, HolderOk, LockOk, MemoriesOk;
  }

  lemma {:induction false} QuietRun(c: Crypto, ss: seq<Sys>, steps: seq<Step>, j: nat, k: nat)
    requires Run(c, ss, steps) && j <= k <= |steps|
    requires forall m :: j <= m < k ==> !Writes(ss[m], steps[m])
    ensures Shrinks(ss[j].canonical.durable, ss[k].canonical.durable)
        && Shrinks(ss[j].backup.durable, ss[k].backup.durable)
    ensures (forall m :: j <= m < k ==> !steps[m].PowerLoss?) ==>
      ss[k].canonical.live == ss[j].canonical.live && ss[k].backup.live == ss[j].backup.live
    decreases k
  {
    hide Apply, Inv, Writes;
    if j < k {
      QuietRun(c, ss, steps, j, k - 1);
      RunInv(c, ss, steps, k - 1);
      QuietStep(c, ss[k - 1], steps[k - 1], ss[k]);
    }
  }

  /** The file that the merge of this transaction read. */
  ghost predicate WasMerged(c: Crypto, content: Option<bytes>, ram: Ram, t: Ticket) {
    match content
    case None => t.seen == None
    case Some(b) => t.seen.Some? && Load(c, b, ram.password, t.clock) == Ok(t.seen.value)
  }

  /** At every moment of a rekey: what it is about to put in place, and what each file is and may be. */
  lemma RekeyMoment(c: Crypto, s: Sys, i: nat, q: bytes, clock: Clock)
    requires Ideal(c) && Inv(c, s) && Rekeying(s, i, q)
    ensures var ram, t := s.instances[i].ram, s.instances[i].phase.ticket;
      && Unseal(c, t.blob, q) == Ok((Body(ram.entries, 3), 3))
      && Load(c, t.blob, q, clock) == (if |t.blob| <= MAX_FILE then Ok(ram.entries) else Err(FileTooLarge))
      && (t.seen.Some? ==> Keeps(t.seen.value, ram.entries, ram.tombs))
      && Within(s.canonical.durable, t.before, if HasReplaced(s.instances[i].phase) then {Some(t.blob)} else {})
      && (t.backupDurable ==> s.backup.durable == Among({Some(t.blob)}))
      && (WasMerged(c, s.canonical.live, ram, t) || s.canonical.live == s.backup.live == Some(t.blob))
  {
    hide Load, Unseal, Body, Package, Keeps, WellFormed;
    assert Critical(s.instances[i]);
    var ram, t := s.instances[i].ram, s.instances[i].phase.ticket;
    FileRoundTrip(c, ram.entries, q, t.salt, t.iv, clock);
    UnsealPackage(c, ram.entries, q, t.salt, t.iv, q);
  }

  /**
   Rekey crash safety. Take any moment of a rekey and whatever happens from then until a file is
   written again: the process fails, is killed, or returns with its directory sync skipped, other
   instances come and go, the power is lost, once or more often. Then

   - the file is, complete, one that could have been found before the rekey, or the new blob, and
     this only if that moment was after the vault file's rename;
   - the new blob opens with the new password, to the whole merged vault, which keeps all that the
     merge read;
   - so whenever the file is none that could have been found before, it is the new blob, and, if the
     directory was synced after the backup's rename, so is the backup; with that sync the backup is
     the new blob in any case;
   - as long as the power stays on, file and backup are both the new blob, or the file is the one
     that the merge read.
   */
  lemma RekeyCrashSafe(c: Crypto, ss: seq<Sys>, steps: seq<Step>, j: nat, k: nat, i: nat, q: bytes, clock: Clock)
    requires Ideal(c) && Run(c, ss, steps) && j <= k <= |steps| && Rekeying(ss[j], i, q)
    requires forall m :: j <= m < k ==> !Writes(ss[m], steps[m])
    ensures var ram, t := ss[j].instances[i].ram, ss[j].instances[i].phase.ticket;
      && t.before.Among?
      && (ss[k].canonical.live in t.before.options
          || (HasReplaced(ss[j].instances[i].phase) && ss[k].canonical.live == Some(t.blob)))
      && (ss[k].canonical.live !in t.before.options && t.backupDurable ==>
            ss[k].canonical.live == ss[k].backup.live == Some(t.blob))
      && Unseal(c, t.blob, q) == Ok((Body(ram.entries, 3), 3))
      && Load(c, t.blob, q, clock) == (if |t.blob| <= MAX_FILE then Ok(ram.entries) else Err(FileTooLarge))
      && (t.seen.Some? ==> Keeps(t.seen.value, ram.entries, ram.tombs))
      && (t.backupDurable ==> ss[k].backup.live == Some(t.blob))
      && ((forall m :: j <= m < k ==> !steps[m].PowerLoss?) ==>
           WasMerged(c, ss[k].canonical.live, ram, t) || ss[k].canonical.live == ss[k].backup.live == Some(t.blob))
  {
    hide Apply, Inv, Writes, Load, Unseal, Body, Keeps, WasMerged, Rekeying;
    RunInv(c, ss, steps, j);
    RunInv(c, ss, steps, k);
    RekeyMoment(c, ss[j], i, q, clock);
    QuietRun(c, ss, steps, j, k);
    LiveIsAnOption(c, ss[k]);
  }

  lemma LiveIsAnOption(c: Crypto, s: Sys)
    requires Inv(c, s)
    ensures s.canonical.durable.Among? && s.canonical.live in s.canonical.durable.options
    ensures May(s.backup.durable, s.backup.live)
  {
  }

  /** The crashes that matter most: a kill at any moment, and a power loss at any moment or right after that kill. */
  lemma KilledRekey(c: Crypto, ss: seq<Sys>, steps: seq<Step>, j: nat, i: nat, q: bytes, clock: Clock)
    requires Ideal(c) && Run(c, ss, steps) && j < |steps| && Rekeying(ss[j], i, q)
    ensures var ram, t := ss[j].instances[i].ram, ss[j].instances[i].phase.ticket;
      && (steps[j] == Kill(i) ==>
           || WasMerged(c, ss[j + 1].canonical.live, ram, t)
           || ss[j + 1].canonical.live == ss[j + 1].backup.live == Some(t.blob))
      && (steps[j].PowerLoss? || (steps[j] == Kill(i) && j + 1 < |steps| && steps[j + 1].PowerLoss?) ==>
           var after := if steps[j].PowerLoss? then ss[j + 1] else ss[j + 2];
           && t.before.Among?
           && (after.canonical.live in t.before.options
               || (HasReplaced(ss[j].instances[i].phase) && after.canonical.live == Some(t.blob)))
           && (after.canonical.live !in t.before.options && t.backupDurable ==>
                 after.canonical.live == after.backup.live == Some(t.blob))
           && (t.backupDurable ==> after.backup.live == Some(t.blob)))
  {
    hide Apply, Inv, Load, Unseal, Body, Keeps, WasMerged;
    if steps[j].PowerLoss? {
      RekeyCrashSafe(c, ss, steps, j, j + 1, i, q, clock);
    } else if steps[j] == Kill(i) {
      RekeyCrashSafe(c, ss, steps, j, j + 1, i, q, clock);
      if j + 1 < |steps| && steps[j + 1].PowerLoss? {
        RekeyCrashSafe(c, ss, steps, j, j + 2, i, q, clock);
      }
    }
  }

  /**
   The proviso is exact. Once the new file is renamed but not yet synced, every power loss that
   leaves the new file also leaves the new backup if and only if the directory was synced after
   the backup's rename, or the backup could not have been anything but the new blob even before.
   */
  lemma RekeyCrashExact(c: Crypto, s: Sys, i: nat, q: bytes)
    requires Inv(c, s) && Rekeying(s, i, q) && s.instances[i].phase.Renamed? && s.instances[i].phase.target.Canonical?
    ensures var t := s.instances[i].phase.ticket;
      var renewed := Some(t.blob);
      (forall backup :: Apply(c, s, PowerLoss(renewed, backup)).Some? ==> backup == renewed)
      <==> t.backupDurable || (t.backupBefore.Among? && t.backupBefore.options <= {renewed})
  {
    hide Keeps, WellFormed, IsBlob;
    assert Critical(s.instances[i]);
    var t := s.instances[i].phase.ticket;
    var renewed := Some(t.blob);
    if !t.backupDurable {
      match t.backupBefore {
        case Anything =>
          var other: Option<bytes> := None;
          assert Apply(c, s, PowerLoss(renewed, other)).Some?;
        case Among(o) =>
          if forall backup :: Apply(c, s, PowerLoss(renewed, backup)).Some? ==> backup == renewed {
            forall b | b in o ensures b == renewed {
              assert Apply(c, s, PowerLoss(renewed, b)).Some?;
            }
          }
      }
    }
  }

  /**
   The directory sync after the backup's rename: done, it settles the backup; skipped, every older
   content may still come back.
   */
  lemma BackupSyncDecides(c: Crypto, s: Sys, i: nat, flushed: bool, t: Sys)
    requires Inv(c, s) && i in s.instances && s.instances[i].Active?
    requires s.instances[i].phase.Renamed? && s.instances[i].phase.target.Backup?
    requires Apply(c, s, SyncDir(i, flushed)) == Some(t)
    ensures Rekeying(t, i, s.instances[i].phase.ticket.job.password)
    ensures t.instances[i].phase.ticket == s.instances[i].phase.ticket.(backupDurable := flushed)
    ensures flushed ==> t.backup.durable == Among({Some(s.instances[i].phase.ticket.blob)})
    ensures !flushed ==> t.backup.durable == s.backup.durable
  {
    hide Keeps, WellFormed, IsBlob;
    assert Critical(s.instances[i]);
  }

  // ---------------------------------------------------------------------------------
  // One instance.
  // ---------------------------------------------------------------------------------

  /** The password with which the file opens once the step in progress is over. */
  function CurrentPassword(x: Instance): bytes
    requires x.Active?
  {
    match x.phase
    case Renamed(t, Canonical) => JobPassword(t.job, x.ram)
    case _ => x.ram.password
  }

  ghost predicate Agrees(c: Crypto, s: Sys, i: nat) {
    && s.instances.Keys <= {i}
    && (i in s.instances ==>
         && s.canonical.live.Some?
         && match s.instances[i]
            case Loading(blob, _) => s.canonical.live == Some(blob)
            case Active(_, _) => Unseal(c, s.canonical.live.value, CurrentPassword(s.instances[i])).Ok?)
  }

  /** Only a commit and the end of a load change what `CurrentPassword` says. */
  lemma CurrentPasswordStays(c: Crypto, s: Sys, step: Step, t: Sys)
    requires !step.PowerLoss? && !step.StartLoad? && step.i in s.instances && s.instances[step.i].Active?
    requires Apply(c, s, step) == Some(t) && !Commits(s, step)
    ensures t.instances.Keys <= s.instances.Keys
    ensures step.i in t.instances ==>
      t.instances[step.i].Active? && CurrentPassword(t.instances[step.i]) == CurrentPassword(s.instances[step.i])
  {
    hide Load, Package, Merge, Asked, AfterRename, AfterDirSync, CopyTo;
  }

  lemma StepKeepsAgreement(c: Crypto, s: Sys, step: Step, i: nat, t: Sys)
    requires Ideal(c) && Inv(c, s) && Agrees(c, s, i) && Apply(c, s, step) == Some(t)
    requires step.PowerLoss? || step.i == i
    ensures Agrees(c, t, i)
  {
    hide Package, Unseal, Inv, Merge, Body, Progress, CurrentPassword, Commits;
    if !step.PowerLoss? && !step.StartLoad? && s.instances[i].Active? {
      OnlyWritersWrite(c, s, step, t);
      if Commits(s, step) {
        CommittedBlob(c, s, step);
        CommitSwitches(c, s, step, t);
      } else {
        CurrentPasswordStays(c, s, step, t);
      }
    } else if step.FinishLoad? {
      LoadedPassword(c, s, i, step.clock);
    }
  }

  lemma CommitSwitches(c: Crypto, s: Sys, step: Step, t: Sys)
    requires Apply(c, s, step) == Some(t) && Commits(s, step)
    ensures t.instances.Keys == s.instances.Keys && t.instances[step.i].Active?
    ensures CurrentPassword(t.instances[step.i]) == JobPassword(Committed(s, step).job, Committer(s, step))
  {
  }

  lemma LoadedPassword(c: Crypto, s: Sys, i: nat, clock: Clock)
    requires i in s.instances && s.instances[i].Loading?
    ensures var t := Loaded(c, s, i, clock);
      i in t.instances ==>
        && t.instances[i].Active? && CurrentPassword(t.instances[i]) == s.instances[i].password
        && Load(c, s.instances[i].blob, s.instances[i].password, clock).Ok?
  {
    hide Load;
  }

  /**
   Password agreement: in every run in which one instance acts, with faults, kills and power losses
   anywhere, the file opens with the password in memory, whenever that instance is between two
   calls and at every step of a save, and of a rekey up to its commit.
   */
  lemma {:induction false} PasswordAgreement(c: Crypto, ss: seq<Sys>, steps: seq<Step>, i: nat, k: nat)
    requires Ideal(c) && Run(c, ss, steps) && k <= |steps|
    requires forall m :: 0 <= m < k ==> steps[m].PowerLoss? || steps[m].i == i
    ensures Agrees(c, ss[k], i)
  {
    hide Apply, Inv;
    if k > 0 {
      PasswordAgreement(c, ss, steps, i, k - 1);
      RunInv(c, ss, steps, k - 1);
      StepKeepsAgreement(c, ss[k - 1], steps[k - 1], i, ss[k]);
    }
  }

  /** At most one instance is inside a transaction. */
  lemma MutualExclusion(c: Crypto, ss: seq<Sys>, steps: seq<Step>, k: nat, i: nat, j: nat)
    requires Run(c, ss, steps) && k <= |steps|
    requires i in ss[k].instances && Critical(ss[k].instances[i])
    requires j in ss[k].instances && Critical(ss[k].instances[j])
    ensures i == j
  {
    hide Apply, HolderOk;
    RunInv(c, ss, steps, k);
  }
}
