/**
 Deletion in the step system. Tombstones are private, so a deletion lasts exactly as long as no
 other memory has the service.
 */
module ReplicaDeletion {
  import opened Prelude
  import opened Vaults
  import opened VaultFormat
  import opened VaultFile
  import opened Merging
  import opened VaultServices
  import opened Replicas
  import opened ReplicaSafety
  import opened ReplicaRuns
  import opened Storage
  import opened ReplicaRefinement
  import opened Convergence

  /** However the content is read, the service is not in it. */
  ghost predicate Lacks(c: Crypto, content: Option<bytes>, service: bytes) {
    content.Some? ==>
      forall password, clock :: Load(c, content.value, password, clock).Ok? ==>
        Find(Load(c, content.value, password, clock).value, service).None?
  }

  ghost predicate Forgot(c: Crypto, x: Instance, service: bytes) {
    match x
    case Loading(blob, _) => Lacks(c, Some(blob), service)
    case Active(ram, _) => Find(ram.entries, service).None?
  }

  /** Nothing that may be found in the file has the service, and no instance has it or is loading it. */
  ghost predicate Gone(c: Crypto, s: Sys, service: bytes) {
    && s.canonical.durable.Among?
    && (forall o :: o in s.canonical.durable.options ==> Lacks(c, o, service))
    && (forall i :: i in s.instances ==> Forgot(c, s.instances[i], service))
  }

  predicate Adds(step: Step, service: bytes) {
    step.Edit? && step.entry.service == service
  }

  lemma CommitLacks(c: Crypto, s: Sys, step: Step, service: bytes)
    requires Ideal(c) && Inv(c, s) && Commits(s, step) && Find(Committer(s, step).entries, service).None?
    ensures Lacks(c, Some(Committed(s, step).blob), service)
  {
    hide Inv, Load, Find, Sealed, Commits;
    CommitReseals(c, s, step, [], []);
    var ram, ticket := Committer(s, step), Committed(s, step);
    forall password, clock | Load(c, ticket.blob, password, clock).Ok?
      ensures Find(Load(c, ticket.blob, password, clock).value, service).None?
    {
      SealedLoads(c, Some(ticket.blob), ram.entries, JobPassword(ticket.job, ram), password, clock,
                  Load(c, ticket.blob, password, clock).value);
    }
  }

  /** Only its own steps change an instance; what they leave in memory was there, in the file, or is being added. */
  lemma ForgottenByStep(c: Crypto, s: Sys, step: Step, t: Sys, service: bytes, i: nat)
    requires Apply(c, s, step) == Some(t) && !Adds(step, service) && i in t.instances
    requires Lacks(c, s.canonical.live, service)
    requires i in s.instances ==> Forgot(c, s.instances[i], service)
    ensures Forgot(c, t.instances[i], service)
  {
    hide Package, Find, Merge, Put, Remove, Load, Progress, Lacks;
    if i in s.instances && !step.PowerLoss? && step.i == i && !step.StartLoad? && !step.Kill? {
      match s.instances[i] {
        case Loading(blob, password) => LoadedLacks(c, blob, password, step.clock, service);
        case Active(ram, phase) => ForgottenByProgress(c, s, step, i, ram, phase, t, service);
      }
    } else {
      OthersUntouched(c, s, step, t, i);
    }
  }

  lemma LoadedLacks(c: Crypto, blob: bytes, password: bytes, clock: Clock, service: bytes)
    requires Lacks(c, Some(blob), service)
    ensures Load(c, blob, password, clock).Ok? ==> Find(Load(c, blob, password, clock).value, service).None?
  {
  }

  lemma OthersUntouched(c: Crypto, s: Sys, step: Step, t: Sys, i: nat)
    requires Apply(c, s, step) == Some(t) && i in t.instances
    requires i !in s.instances || step.PowerLoss? || step.i != i || step.StartLoad? || step.Kill?
    ensures i in s.instances ==> t.instances[i] == s.instances[i]
    ensures i !in s.instances ==> t.instances[i].Loading? && Some(t.instances[i].blob) == s.canonical.live
  {
    hide Package, Find, Merge, Put, Remove, Load;
  }

  lemma ForgottenByProgress(c: Crypto, s: Sys, step: Step, i: nat, ram: Ram, phase: Phase, t: Sys, service: bytes)
    requires i in s.instances && s.instances[i] == Active(ram, phase)
    requires Progress(c, s, step, i, ram, phase) == Some(t) && !Adds(step, service)
    requires Lacks(c, s.canonical.live, service) && Find(ram.entries, service).None?
    ensures i in t.instances && t.instances[i].Active? && Find(t.instances[i].ram.entries, service).None?
  {
    hide Package, Find, Merge, Put, Remove, Load, Lacks, Distinct, Dated;
    match phase {
      case Idle =>
        match step {
          case Edit(_, e) => PutFind(ram.entries, e, service);
          case Bury(_, other) => RemoveFind(ram.entries, other, service);
          case _ =>
        }
      case Locked(_) =>
        if step.Absorb? && s.canonical.live.Some? {
          LoadedLacks(c, s.canonical.live.value, ram.password, step.clock, service);
          var r := Load(c, s.canonical.live.value, ram.password, step.clock);
          if r.Ok? {
            MergeIsJoin(ram.entries, r.value, ram.tombs, service);
          }
        }
      case _ =>
    }
  }

  /**
   Nothing reappears, whole runs: once no memory has a service and nothing that may be found in the
   file has it, that stays so as long as nobody adds it, through any number of instances, commits,
   faults, kills and power losses.
   */
  lemma {:induction false} GoneStaysGone(c: Crypto, ss: seq<Sys>, steps: seq<Step>, j: nat, k: nat, service: bytes)
    requires Ideal(c) && Run(c, ss, steps) && j <= k <= |steps| && Gone(c, ss[j], service)
    requires forall m :: j <= m < k ==> !Adds(steps[m], service)
    ensures Gone(c, ss[k], service) && Lacks(c, ss[k].canonical.live, service)
    decreases k
  {
    hide Apply, Inv, Lacks, Forgot, Commits;
    RunInv(c, ss, steps, k);
    LiveIsAnOption(c, ss[k]);
    if j < k {
      GoneStaysGone(c, ss, steps, j, k - 1, service);
      var s, step, t := ss[k - 1], steps[k - 1], ss[k];
      RunInv(c, ss, steps, k - 1);
      forall o | o in t.canonical.durable.options ensures Lacks(c, o, service) {
        DurableGrows(c, s, step, t, o);
        if Commits(s, step) {
          CommitterForgot(c, s, step, service);
          CommitLacks(c, s, step, service);
        }
      }
      forall i | i in t.instances ensures Forgot(c, t.instances[i], service) {
        ForgottenByStep(c, s, step, t, service, i);
      }
    }
  }

  lemma CommitterForgot(c: Crypto, s: Sys, step: Step, service: bytes)
    requires Commits(s, step) && Gone(c, s, service)
    ensures Find(Committer(s, step).entries, service).None?
  {
    assert Forgot(c, s.instances[step.i], service);
  }

  // ---------------------------------------------------------------------------------
  // A deletion undone.
  // ---------------------------------------------------------------------------------

  /** The vault file alone, on disk for good. */
  function Fresh(blob: bytes): Sys {
    Restarted(Some(blob), None)
  }

  function Idling(es: Entries, password: bytes): Instance {
    Active(Ram(es, password, []), Idle)
  }

  lemma TwoLoads(c: Crypto, blob: bytes, es: Entries, password: bytes, clock: Clock)
    requires Load(c, blob, password, clock) == Ok(es)
    ensures Exec(c, Fresh(blob), [StartLoad(0, password), FinishLoad(0, clock), StartLoad(1, password),
        FinishLoad(1, clock)])
         == Some(Fresh(blob).(instances := map[0 := Idling(es, password), 1 := Idling(es, password)]))
  {
    hide Load, Exec;
    var s := Fresh(blob);
    var x, y := Loading(blob, password), Idling(es, password);
    var l0: seq<Step> := [];
    var l1, l2 := [StartLoad(0, password)], [StartLoad(0, password), FinishLoad(0, clock)];
    var l3 := l2 + [StartLoad(1, password)];
    NoSteps(c, s);
    assert l0 + [StartLoad(0, password)] == l1 && l1 + [FinishLoad(0, clock)] == l2;
    ExecSnoc(c, s, l0, s, StartLoad(0, password), s.(instances := map[0 := x]));
    assert map[0 := x][0 := y] == map[0 := y];
    ExecSnoc(c, s, l1, s.(instances := map[0 := x]), FinishLoad(0, clock), s.(instances := map[0 := y]));
    assert map[0 := y][1 := x] == map[0 := y, 1 := x];
    ExecSnoc(c, s, l2, s.(instances := map[0 := y]), StartLoad(1, password), s.(instances := map[0 := y, 1 := x]));
    assert map[0 := y, 1 := x][1 := y] == map[0 := y, 1 := y];
    assert l3 + [FinishLoad(1, clock)]
        == [StartLoad(0, password), FinishLoad(0, clock), StartLoad(1, password), FinishLoad(1, clock)];
    ExecSnoc(c, s, l3, s.(instances := map[0 := y, 1 := x]), FinishLoad(1, clock),
        s.(instances := map[0 := y, 1 := y]));
  }

  lemma NoSteps(c: Crypto, s: Sys)
    ensures Exec(c, s, []) == Some(s)
  {
  }

  /** Saving [e] over nothing, deleting e from [e]: what the two merges of the story give. */
  lemma StoryMerges(e: Entry)
    ensures Remove([e], e.service) == [] && Find([e], e.service) == Some(e)
    ensures Merge([], [e], [e.service]) == [] && Merge([e], [], []) == [e]
  {
  }

  /**
   The story: two instances load a vault with one entry; the first deletes it, and the deletion is
   acknowledged; the second, which changed nothing, saves; the entry is back.
   */
  lemma DeletionUndone(c: Crypto, e: Entry, password: bytes, salt: Salt, iv: Iv, clock: Clock)
    returns (ss: seq<Sys>, steps: seq<Step>, j: nat)
    requires Ideal(c) && e.lastUpdated != 0
    requires Package(c, [e], password, salt, iv).Ok? && |Package(c, [e], password, salt, iv).value| <= MAX_FILE
    requires Package(c, [], password, salt, iv).Ok? && |Package(c, [], password, salt, iv).value| <= MAX_FILE
    ensures Run(c, ss, steps) && j <= |steps|
    ensures forall k :: 0 <= k < |steps| ==> !Adds(steps[k], e.service)
    ensures ss[0].canonical.live == ss[|steps|].canonical.live == Some(Package(c, [e], password, salt, iv).value)
    ensures ss[j].canonical.live == Some(Package(c, [], password, salt, iv).value)
    ensures ss[|steps|].instances.Keys == {0, 1}
  {
    hide Exec, Apply, Package, Load, Merge, Saved, SaveSteps, Asked;
    var full, bare := Package(c, [e], password, salt, iv).value, Package(c, [], password, salt, iv).value;
    var env, es := Calm(clock, salt, iv), [e];
    var files: Files, files1: Files := map[VAULT := full], map[VAULT := bare];
    StoryMerges(e);
    FileRoundTrip(c, es, password, salt, iv, clock);
    var loads := [StartLoad(0, password), FinishLoad(0, clock), StartLoad(1, password), FinishLoad(1, clock)];
    TwoLoads(c, full, es, password, clock);
    var s := Exec(c, Fresh(full), loads).value;

    var ram := Ram([], password, [e.service]);
    CalmSave(c, ram, files, es, clock, salt, iv);
    StartsBurying(s, e, password);
    var first := SaveSteps(0, Bury(0, e.service), env, true, |bare|);
    UndisturbedSaveIsSaved(c, VAULT, s, 0, files, env, Bury(0, e.service), ram);
    var t := Exec(c, s, first).value;

    CalmSave(c, Ram(es, password, []), files1, [], clock, salt, iv);
    StartsSaving(t, 1, Ram(es, password, []));
    var second := SaveSteps(1, AskSave(1), env, true, |full|);
    UndisturbedSaveIsSaved(c, VAULT, t, 1, files1, env, AskSave(1), Ram(es, password, []));

    ExecConcat(c, Fresh(full), loads, first);
    ExecConcat(c, Fresh(full), loads + first, second);
    steps := loads + first + second;
    ss := ExecIsRun(c, Fresh(full), steps);
    j := |loads + first|;
    assert steps[..j] == loads + first && steps[..|steps|] == steps;
    NothingAdded(first, 0, Bury(0, e.service), env, |bare|, e.service);
    NothingAdded(second, 1, AskSave(1), env, |full|, e.service);
  }

  lemma StartsBurying(s: Sys, e: Entry, password: bytes)
    requires 0 in s.instances && s.instances[0] == Idling([e], password) && s.lock == None
    ensures Starts(s, 0, Bury(0, e.service), Ram([], password, [e.service]), SaveJob)
  {
    StoryMerges(e);
    assert [] + [e.service] == [e.service];
  }

  lemma StartsSaving(s: Sys, i: nat, ram: Ram)
    requires i in s.instances && s.instances[i] == Active(ram, Idle) && s.lock == None
    ensures Starts(s, i, AskSave(i), ram, SaveJob)
  {
  }

  lemma NothingAdded(steps: seq<Step>, i: nat, first: Step, env: SaveEnv, size: nat, service: bytes)
    requires steps == SaveSteps(i, first, env, true, size) && !first.Edit?
    ensures forall k :: 0 <= k < |steps| ==> !Adds(steps[k], service)
  {
  }

  /** One such run, with nothing left open: a cipher, an entry and a password. */
  lemma DeletionUndoneForReal() returns (ss: seq<Sys>, steps: seq<Step>, j: nat)
    ensures Run(Labelled(), ss, steps) && j <= |steps|
    ensures forall k :: 0 <= k < |steps| ==> !Adds(steps[k], [0x78])
    ensures ReplicaRuns.Holds(Labelled(), ss[0].canonical.live, [0x78], 7)
    ensures Lacks(Labelled(), ss[j].canonical.live, [0x78])
    ensures ReplicaRuns.Holds(Labelled(), ss[|steps|].canonical.live, [0x78], 7)
  {
    hide Apply, Init, Package, Load, Body, Sealed, Loads, Labelled, Ideal, WellFormed;
    var c, e, password, clock: Clock := Labelled(), Entry([0x78], [0x79], [0x7A], [], 7), [0x70], _ => 1;
    var salt: Salt := [0, 0, 0, 0, 0, 0, 0, 0, 0, 0, 0, 0, 0, 0, 0, 0];
    var iv: Iv := [0, 0, 0, 0, 0, 0, 0, 0, 0, 0, 0, 0];
    IdealIsInhabited();
    StoryVaults(e);
    LabelledSize([e], password, salt, iv);
    LabelledSize([], password, salt, iv);
    ss, steps, j := DeletionUndone(c, e, password, salt, iv, clock);
    PackageIsSealed(c, [e], password, salt, iv);
    SealedHolds(c, ss[0].canonical.live, [e], password, [0x78], 7);
    forall q, k | Load(c, ss[j].canonical.live.value, q, k).Ok?
      ensures Find(Load(c, ss[j].canonical.live.value, q, k).value, [0x78]).None?
    {
      PackageIsSealed(c, [], password, salt, iv);
      SealedLoads(c, ss[j].canonical.live, [], password, q, k, Load(c, ss[j].canonical.live.value, q, k).value);
    }
  }

  lemma StoryVaults(e: Entry)
    requires e.lastUpdated != 0
    ensures WellFormed([e]) && WellFormed([]) && HasSince([e], e.service, e.lastUpdated)
    ensures |Body([], 3)| == 4 && |Body([e], 3)| == 28 + |e.service| + |e.username| + |e.password| + |e.totpSecret|
  {
    StoryMerges(e);
    assert EncEntries([e], 3) == EncEntry(e, 3) + EncEntries([], 3);
  }

  lemma PackageIsSealed(c: Crypto, es: Entries, password: bytes, salt: Salt, iv: Iv)
    requires WellFormed(es) && Package(c, es, password, salt, iv).Ok?
    ensures Sealed(c, Some(Package(c, es, password, salt, iv).value), es, password)
  {
  }
}
