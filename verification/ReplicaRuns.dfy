/**
 Whole runs of the step system, power losses included: what happens to a service and to the
 password between any two moments. A file is judged by every content that may be found in it.
 */
module ReplicaRuns {
  import opened Prelude
  import opened Vaults
  import opened VaultFormat
  import opened VaultFile
  import opened VaultServices
  import opened Replicas
  import opened ReplicaSafety

  /** The content is a package of these entries under this password. */
  ghost predicate Sealed(c: Crypto, content: Option<bytes>, es: Entries, password: bytes) {
    && WellFormed(es) && content.Some?
    && exists salt: Salt, iv: Iv :: Package(c, es, password, salt, iv) == Ok(content.value)
  }

  /** A package loads under one password only, and as one vault only. */
  lemma SealedLoads(
      c: Crypto, content: Option<bytes>, es: Entries, password: bytes, q: bytes, clock: Clock, read: Entries)
    requires Ideal(c) && Sealed(c, content, es, password) && Load(c, content.value, q, clock) == Ok(read)
    ensures q == password && read == es
  {
    hide Package, Load;
    var salt: Salt, iv: Iv :| Package(c, es, password, salt, iv) == Ok(content.value);
    FileRoundTrip(c, es, password, salt, iv, clock);
    if q != password {
      OtherPasswordFails(c, es, password, salt, iv, q, clock);
    }
  }

  /**
   A commit: the new content is sealed under the password of the job, and if the old one was sealed
   it was so under the committer's password, and every entry of it that the committer had not
   buried is in the new one, no older.
   */
  lemma CommitReseals(c: Crypto, s: Sys, step: Step, es: Entries, password: bytes)
    requires Ideal(c) && Inv(c, s) && Commits(s, step)
    ensures var ram, ticket := Committer(s, step), Committed(s, step);
      && Sealed(c, Some(ticket.blob), ram.entries, JobPassword(ticket.job, ram))
      && (Sealed(c, s.canonical.live, es, password) ==> ram.password == password && Keeps(es, ram.entries, ram.tombs))
  {
    hide Inv, Package, Load, Unseal, Body, Keeps, Find, WellFormed, Commits;
    CommittedBlob(c, s, step);
    if Sealed(c, s.canonical.live, es, password) {
      var ram, ticket := Committer(s, step), Committed(s, step);
      SealedLoads(c, s.canonical.live, es, password, ram.password, ticket.clock, ticket.seen.value);
    }
  }

  // ---------------------------------------------------------------------------------
  // No silent loss.
  // ---------------------------------------------------------------------------------

  predicate HasSince(es: Entries, service: bytes, ts: nat) {
    Find(es, service).Some? && Find(es, service).value.lastUpdated >= ts
  }

  /** The content is a package of ours that has the service with a timestamp of at least `ts`. */
  ghost predicate Packs(c: Crypto, content: Option<bytes>, service: bytes, ts: nat) {
    exists es, password :: Sealed(c, content, es, password) && HasSince(es, service, ts)
  }

  ghost predicate Loads(c: Crypto, content: bytes) {
    exists password, clock :: Load(c, content, password, clock).Ok?
  }

  /**
   The content holds the service with a timestamp of at least `ts`, whatever its format version and
   costs: however it is loaded, the service is there. It can be loaded, or is a package of ours,
   which may have outgrown the limit of `read_file`.
   */
  ghost predicate Holds(c: Crypto, content: Option<bytes>, service: bytes, ts: nat) {
    && content.Some?
    && (Loads(c, content.value) || Packs(c, content, service, ts))
    && forall password, clock :: Load(c, content.value, password, clock).Ok? ==>
         HasSince(Load(c, content.value, password, clock).value, service, ts)
  }

  /** Files of versions 1 and 2, with any costs within the limits, hold what is in them and open with one password. */
  lemma OlderFileHolds(
    c: Crypto, es: Entries, version: u32, kdf: KdfParams, password: bytes, salt: Salt, iv: Iv, service: bytes, ts: nat)
    requires Ideal(c) && WellFormed(es) && Fits32(es) && forall j :: 0 <= j < |es| ==> es[j].totpSecret == []
    requires 1 <= version <= 2 && WithinLimits(kdf) && c.kdf(password, salt, kdf).Some?
    requires |OlderFile(c, es, version, kdf, password, salt, iv)| <= MAX_FILE && HasSince(es, service, ts)
    ensures Holds(c, Some(OlderFile(c, es, version, kdf, password, salt, iv)), service, ts)
    ensures OpensOnlyWith(c, Some(OlderFile(c, es, version, kdf, password, salt, iv)), password)
  {
    hide OlderFile, Unseal, WellFormed, Fits32, HasSince, Deserialized;
    var blob := OlderFile(c, es, version, kdf, password, salt, iv);
    var noon: Clock := _ => 1;
    OlderFilesLoad(c, es, version, kdf, password, salt, iv, password, noon);
    forall q, clock | Load(c, blob, q, clock).Ok? ensures HasSince(Load(c, blob, q, clock).value, service, ts) {
      OlderFilesLoad(c, es, version, kdf, password, salt, iv, q, clock);
    }
    forall q ensures Unseal(c, blob, q).Ok? <==> q == password {
      OlderFilesLoad(c, es, version, kdf, password, salt, iv, q, noon);
    }
  }

  /** So does everything that may be found in the file after a power loss. */
  ghost predicate AllHold(c: Crypto, s: Sys, service: bytes, ts: nat) {
    s.canonical.durable.Among? && forall o :: o in s.canonical.durable.options ==> Holds(c, o, service, ts)
  }

  /** `AllHold` is what a caller means: no power loss now can leave a file without the service. */
  lemma AllHoldMeans(c: Crypto, s: Sys, service: bytes, ts: nat)
    requires Inv(c, s)
    ensures AllHold(c, s, service, ts) <==>
      forall step: Step :: step.PowerLoss? && Apply(c, s, step).Some? ==>
          Holds(c, Apply(c, s, step).value.canonical.live, service, ts)
  {
    hide Holds, HolderOk, LockOk, MemoriesOk;
    forall o | o in s.canonical.durable.options ensures Apply(c, s, PowerLoss(o, s.backup.live))
        == Some(Restarted(o, s.backup.live)) {
    }
  }

  /** The step is no commit of a memory in which the service is buried. */
  ghost predicate Spares(s: Sys, step: Step, service: bytes) {
    Commits(s, step) ==> service !in Committer(s, step).tombs
  }

  lemma SealedHolds(c: Crypto, content: Option<bytes>, es: Entries, password: bytes, service: bytes, ts: nat)
    requires Ideal(c) && Sealed(c, content, es, password) && HasSince(es, service, ts)
    ensures Packs(c, content, service, ts) && Holds(c, content, service, ts)
  {
    hide Load, Sealed, HasSince;
    SealedExists(c, content, es, password);
    forall q, clock | Load(c, content.value, q, clock).Ok?
      ensures HasSince(Load(c, content.value, q, clock).value, service, ts)
    {
      SealedLoads(c, content, es, password, q, clock, Load(c, content.value, q, clock).value);
    }
  }

  lemma SealedExists(c: Crypto, content: Option<bytes>, es: Entries, password: bytes)
    requires Sealed(c, content, es, password)
    ensures content.Some?
  {
  }

  /** A commit over a file that holds the service writes a package that does, unless the committer buried it. */
  lemma CommitHolds(c: Crypto, s: Sys, step: Step, service: bytes, ts: nat)
    requires Ideal(c) && Inv(c, s) && Commits(s, step) && Spares(s, step, service)
    requires Holds(c, s.canonical.live, service, ts)
    ensures Packs(c, Some(Committed(s, step).blob), service, ts)
    ensures Holds(c, Some(Committed(s, step).blob), service, ts)
  {
    hide Inv, Load, Unseal, Package, Body, Sealed, WellFormed, Find, Commits, Loads, Packs;
    CommittedBlob(c, s, step);
    CommitReseals(c, s, step, [], []);
    var ram, ticket := Committer(s, step), Committed(s, step);
    assert HasSince(ticket.seen.value, service, ts);
    assert HasSince(ram.entries, service, ts);
    SealedHolds(c, Some(ticket.blob), ram.entries, JobPassword(ticket.job, ram), service, ts);
  }

  /**
   No silent loss, power losses included: if everything that may be found in the file holds a
   service, and nobody who buried that service commits, then at every later moment everything that
   may be found in the file, and the file itself, holds the service with no older timestamp, through
   any number of instances, saves, rekeys, faults, kills and power losses. What may be found then
   could be found before, or is a package with the service.
   */
  lemma {:induction false} ServiceSurvives(
    c: Crypto, ss: seq<Sys>, steps: seq<Step>, j: nat, k: nat, service: bytes, ts: nat)
    requires Ideal(c) && Run(c, ss, steps) && j <= k <= |steps| && AllHold(c, ss[j], service, ts)
    requires forall m :: j <= m < k ==> Spares(ss[m], steps[m], service)
    ensures AllHold(c, ss[k], service, ts) && Holds(c, ss[k].canonical.live, service, ts)
    ensures forall o :: o in ss[k].canonical.durable.options ==>
      o in ss[j].canonical.durable.options || Packs(c, o, service, ts)
    decreases k
  {
    hide Apply, Inv, Holds, Packs, Spares, Commits;
    RunInv(c, ss, steps, k);
    LiveIsAnOption(c, ss[k]);
    if j < k {
      ServiceSurvives(c, ss, steps, j, k - 1, service, ts);
      var s, step, t := ss[k - 1], steps[k - 1], ss[k];
      RunInv(c, ss, steps, k - 1);
      forall o | o in t.canonical.durable.options
        ensures Holds(c, o, service, ts)
        ensures o in ss[j].canonical.durable.options || Packs(c, o, service, ts)
      {
        DurableGrows(c, s, step, t, o);
        if Commits(s, step) {
          CommitHolds(c, s, step, service, ts);
        }
      }
    }
  }

  /** Without a power loss it is enough that the file itself holds the service, synced or not. */
  lemma {:induction false} ServiceStaysLive(
    c: Crypto, ss: seq<Sys>, steps: seq<Step>, j: nat, k: nat, service: bytes, ts: nat)
    requires Ideal(c) && Run(c, ss, steps) && j <= k <= |steps| && Holds(c, ss[j].canonical.live, service, ts)
    requires forall m :: j <= m < k ==> Spares(ss[m], steps[m], service) && !steps[m].PowerLoss?
    ensures Holds(c, ss[k].canonical.live, service, ts)
    ensures ss[k].canonical.live == ss[j].canonical.live || Packs(c, ss[k].canonical.live, service, ts)
    decreases k
  {
    hide Apply, Inv, Holds, Packs, Spares, Commits;
    if j < k {
      ServiceStaysLive(c, ss, steps, j, k - 1, service, ts);
      var s, step, t := ss[k - 1], steps[k - 1], ss[k];
      RunInv(c, ss, steps, k - 1);
      OnlyWritersWrite(c, s, step, t);
      if Commits(s, step) {
        CommitHolds(c, s, step, service, ts);
      }
    }
  }

  /**
   What a caller of `save` or `rekey` may rely on: once the directory is synced after the rename,
   every service that was in memory is in the file from then on, whatever happens, until somebody
   who buried it commits.
   */
  lemma AcknowledgedServiceSurvives(
      c: Crypto, ss: seq<Sys>, steps: seq<Step>, j: nat, k: nat, i: nat, service: bytes, ts: nat)
    requires Ideal(c) && Run(c, ss, steps) && j < k <= |steps| && steps[j] == SyncDir(i, true)
    requires i in ss[j].instances && ss[j].instances[i].Active?
    requires ss[j].instances[i].phase.Renamed? && ss[j].instances[i].phase.target.Canonical?
    requires HasSince(ss[j].instances[i].ram.entries, service, ts)
    requires forall m :: j < m < k ==> Spares(ss[m], steps[m], service)
    ensures AllHold(c, ss[k], service, ts) && Holds(c, ss[k].canonical.live, service, ts)
  {
    hide Holds, Spares, Inv, Apply, HasSince;
    RunInv(c, ss, steps, j);
    SyncSettles(c, ss[j], i, ss[j + 1]);
    assert HasSince(ss[j].instances[i].ram.entries, service, ts);
    SealedHolds(c, ss[j].canonical.live, ss[j].instances[i].ram.entries,
                JobPassword(ss[j].instances[i].phase.ticket.job, ss[j].instances[i].ram), service, ts);
    ServiceSurvives(c, ss, steps, j + 1, k, service, ts);
  }

  lemma SyncSettles(c: Crypto, s: Sys, i: nat, t: Sys)
    requires Inv(c, s) && Apply(c, s, SyncDir(i, true)) == Some(t)
    requires i in s.instances && s.instances[i].Active?
    requires s.instances[i].phase.Renamed? && s.instances[i].phase.target.Canonical?
    ensures t.canonical.live == s.canonical.live && t.canonical.durable == Among({s.canonical.live})
    ensures Sealed(c, s.canonical.live, s.instances[i].ram.entries,
        JobPassword(s.instances[i].phase.ticket.job, s.instances[i].ram))
  {
    hide Package, WellFormed, Keeps, LockOk;
    assert LockOk(s);
    LockHolder(s, i);
  }

  lemma LockHolder(s: Sys, i: nat)
    requires LockOk(s) && i in s.instances && Critical(s.instances[i])
    ensures s.lock == Some(i)
  {
  }

  // ---------------------------------------------------------------------------------
  // The password.
  // ---------------------------------------------------------------------------------

  ghost predicate SealedUnder(c: Crypto, content: Option<bytes>, password: bytes) {
    exists es :: Sealed(c, content, es, password)
  }

  /** The content, of whatever version and costs, opens with this password and no other. */
  ghost predicate OpensOnlyWith(c: Crypto, content: Option<bytes>, password: bytes) {
    content.Some? && forall q :: Unseal(c, content.value, q).Ok? <==> q == password
  }

  ghost predicate AllOpenWith(c: Crypto, s: Sys, password: bytes) {
    s.canonical.durable.Among? && forall o :: o in s.canonical.durable.options ==> OpensOnlyWith(c, o, password)
  }

  lemma SealedOpens(c: Crypto, content: Option<bytes>, password: bytes)
    requires Ideal(c) && SealedUnder(c, content, password)
    ensures OpensOnlyWith(c, content, password)
  {
    hide Unseal, Package;
    var es :| Sealed(c, content, es, password);
    var salt: Salt, iv: Iv :| Package(c, es, password, salt, iv) == Ok(content.value);
    forall q ensures Unseal(c, content.value, q).Ok? <==> q == password {
      UnsealPackage(c, es, password, salt, iv, q);
    }
  }

  /**
   Passwords, power losses included: if everything that may be found in the file opens with one
   password only and nobody commits a rekey, that stays so, whoever else saves or tries to. What may
   be found then could be found before, or is a package under that password.
   */
  lemma {:induction false} PasswordStays(c: Crypto, ss: seq<Sys>, steps: seq<Step>, j: nat, k: nat, password: bytes)
    requires Ideal(c) && Run(c, ss, steps) && j <= k <= |steps| && AllOpenWith(c, ss[j], password)
    requires forall m :: j <= m < k ==> (Commits(ss[m], steps[m]) ==> Committed(ss[m], steps[m]).job.SaveJob?)
    ensures AllOpenWith(c, ss[k], password) && OpensOnlyWith(c, ss[k].canonical.live, password)
    ensures forall o :: o in ss[k].canonical.durable.options ==>
      o in ss[j].canonical.durable.options || SealedUnder(c, o, password)
    decreases k
  {
    hide Apply, Inv, SealedUnder, OpensOnlyWith, Commits;
    RunInv(c, ss, steps, k);
    LiveIsAnOption(c, ss[k]);
    if j < k {
      PasswordStays(c, ss, steps, j, k - 1, password);
      var s, step, t := ss[k - 1], steps[k - 1], ss[k];
      RunInv(c, ss, steps, k - 1);
      forall o | o in t.canonical.durable.options
        ensures OpensOnlyWith(c, o, password)
        ensures o in ss[j].canonical.durable.options || SealedUnder(c, o, password)
      {
        DurableGrows(c, s, step, t, o);
        if Commits(s, step) {
          SaveSealsUnder(c, s, step, password);
          SealedOpens(c, Some(Committed(s, step).blob), password);
        }
      }
    }
  }

  /** Whoever saves over a file that opens with one password only has that password. */
  lemma SaveSealsUnder(c: Crypto, s: Sys, step: Step, password: bytes)
    requires Ideal(c) && Inv(c, s) && Commits(s, step) && Committed(s, step).job.SaveJob?
    requires OpensOnlyWith(c, s.canonical.live, password)
    ensures SealedUnder(c, Some(Committed(s, step).blob), password)
  {
    hide Inv, Sealed, Unseal;
    WritersHoldThePassword(c, s, step);
    CommitReseals(c, s, step, [], []);
  }
}
