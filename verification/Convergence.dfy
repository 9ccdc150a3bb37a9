/**
 When two holders of one vault come to agree (src/vault_service.cpp): last writer wins, but dates
 have seconds only, and a tie goes to the memory of whoever merges.
 */
module Convergence {
  import opened Prelude
  import opened Vaults
  import opened VaultFormat
  import opened VaultFile
  import opened Storage
  import opened Merging
  import opened VaultServices

  /** A successful save has read the file, if there was one. */
  lemma SavedHasLoaded(c: Crypto, path: Path, ram: Ram, files: Files, env: SaveEnv)
    requires path in files && Saved(c, path, ram, files, env).result.Ok?
    ensures Load(c, files[path], ram.password, env.clock).Ok?
  {
    hide Load, Package, Merge, Written, WriteOk;
  }

  predicate Newer(x: Option<Entry>, y: Option<Entry>) {
    x.Some? && y.Some? && x.value.lastUpdated > y.value.lastUpdated
  }

  /**
   `a` and `b` are the entries of two holders for one service, `buried` whether the second has it
   among its tombstones. Unburied entries clash exactly if they have the same date and differ.
   */
  predicate Clash(a: Option<Entry>, b: Option<Entry>, buried: bool) {
    a.Some? && a != b && !Newer(b, a) && (buried || (b.Some? && !Newer(a, b)))
  }

  /**
   Memory `a` is what the file holds; `b` saves, then `a` saves. Then

   - both have the same entry for a service if and only if they did not clash on it;
   - `a` has what `b` had if and only if it had the same, had nothing, or had something older.
   */
  lemma AgreesUnlessClash(
    c: Crypto, path: Path, a: Ram, b: Ram, files: Files, first: SaveEnv, second: SaveEnv, s: bytes)
    requires Ideal(c) && WellFormed(a.entries) && WellFormed(b.entries) && a.password == b.password && a.tombs == []
    requires OnDisk(c, files, path, a.password, first.clock, s) == Find(a.entries, s)
    requires Saved(c, path, b, files, first).result.Ok?
    requires Saved(c, path, a, Saved(c, path, b, files, first).files, second).result.Ok?
    ensures var (x, y) := (Find(a.entries, s), Find(b.entries, s));
      var o := Saved(c, path, b, files, first);
      var p := Saved(c, path, a, o.files, second);
      && (Find(p.ram.entries, s) == Find(o.ram.entries, s) <==> !Clash(x, y, s in b.tombs))
      && (Find(p.ram.entries, s) == y <==> x == y || x.None? || Newer(y, x))
  {
    hide Saved, Load, Find, Unseal, Body;
    var o := Saved(c, path, b, files, first);
    SaveJoins(c, path, b, files, first, second.clock);
    SavedHasLoaded(c, path, a, o.files, second);
    SaveJoins(c, path, a, o.files, second, second.clock);
  }

  // ---------------------------------------------------------------------------------
  // Two updates within one second.
  // ---------------------------------------------------------------------------------

  /** However the file is read, its entry for the service is no newer than `ts`. */
  ghost predicate NotNewer(c: Crypto, files: Files, path: Path, password: bytes, s: bytes, ts: nat) {
    forall clock ::
      var e := OnDisk(c, files, path, password, clock, s);
      e.Some? ==> e.value.lastUpdated <= ts
  }

  /** Over such a file a holder keeps its own entry, whether the save succeeds or not, and writes it if it does. */
  lemma OwnEntryStays(c: Crypto, path: Path, ram: Ram, files: Files, env: SaveEnv, s: bytes, ts: nat)
    requires Ideal(c) && WellFormed(ram.entries) && NotNewer(c, files, path, ram.password, s, ts)
    requires Find(ram.entries, s).Some? && Find(ram.entries, s).value.lastUpdated == ts
    ensures var o := Saved(c, path, ram, files, env);
      && WellFormed(o.ram.entries) && o.ram.password == ram.password
      && Find(o.ram.entries, s) == Find(ram.entries, s)
      && NotNewer(c, o.files, path, ram.password, s, ts)
      && (o.result.Ok? ==>
           && path in o.files
           && (|o.files[path]| <= MAX_FILE ==>
                forall clock :: OnDisk(c, o.files, path, ram.password, clock, s) == Find(ram.entries, s)))
  {
    hide Saved, Load, Find, Unseal, Body, MergedWithDisk;
    var o := Saved(c, path, ram, files, env);
    assert OnDisk(c, files, path, ram.password, env.clock, s).Some? ==>
      OnDisk(c, files, path, ram.password, env.clock, s).value.lastUpdated <= ts;
    if o.result.Ok? {
      SaveJoins(c, path, ram, files, env, env.clock);
      forall clock ensures |o.files[path]| <= MAX_FILE ==>
          OnDisk(c, o.files, path, ram.password, clock, s) == Find(ram.entries, s)
        ensures |o.files[path]| > MAX_FILE ==> OnDisk(c, o.files, path, ram.password, clock, s) == None
      {
        SaveJoins(c, path, ram, files, env, clock);
      }
    } else {
      FailedSaveKeepsFile(c, path, ram, files, env);
      FailedSaveMemory(c, path, ram, files, env, s);
      forall clock ensures OnDisk(c, o.files, path, ram.password, clock, s)
          == OnDisk(c, files, path, ram.password, clock, s) {
      }
    }
  }

  /** After a failed save memory is as before or merged. */
  lemma FailedSaveMemory(c: Crypto, path: Path, ram: Ram, files: Files, env: SaveEnv, s: bytes)
    requires WellFormed(ram.entries) && Saved(c, path, ram, files, env).result.Err?
    ensures var o := Saved(c, path, ram, files, env);
      && WellFormed(o.ram.entries)
      && (Find(o.ram.entries, s) == Find(ram.entries, s)
          || Find(o.ram.entries, s)
             == Join(Find(ram.entries, s), OnDisk(c, files, path, ram.password, env.clock, s), s in ram.tombs))
  {
    hide Load, Package, Written, WriteOk, Merge, Find;
    if env.lockOk && MergedWithDisk(c, path, ram, files, env).Ok? {
      MergedIsWellFormed(c, path, ram, files, env);
      if path in files {
        var disk := LoadFile(c, files, path, ram.password, env.delivery, env.clock).value;
        MergeIsJoin(ram.entries, disk, ram.tombs, s);
      }
    }
  }

  datatype Pair = Pair(a: Ram, b: Ram, files: Files)

  /** Saves by the two holders in any order: the first when the flag is set, else the second. */
  function AfterSaves(c: Crypto, path: Path, p: Pair, turns: seq<(bool, SaveEnv)>): Pair {
    if turns == [] then p
    else
      var q := AfterSaves(c, path, p, turns[..|turns| - 1]);
      var (first, env) := turns[|turns| - 1];
      if first then
        var o := Saved(c, path, q.a, q.files, env);
        Pair(o.ram, q.b, o.files)
      else
        var o := Saved(c, path, q.b, q.files, env);
        Pair(q.a, o.ram, o.files)
  }

  /** The two holders have different entries of one date for a service, and the file has nothing newer. */
  ghost predicate Torn(c: Crypto, path: Path, p: Pair, s: bytes, x: Entry, y: Entry) {
    && WellFormed(p.a.entries) && WellFormed(p.b.entries) && p.a.password == p.b.password
    && Find(p.a.entries, s) == Some(x) && Find(p.b.entries, s) == Some(y)
    && x.lastUpdated == y.lastUpdated && x != y
    && NotNewer(c, p.files, path, p.a.password, s, x.lastUpdated)
  }

  /**
   A clash never settles: through any number of saves by the two, in any order and with any faults,
   each keeps its own entry; whoever saved last has put its own into the file.
   */
  lemma {:induction false} ClashNeverSettles(
    c: Crypto, path: Path, p: Pair, turns: seq<(bool, SaveEnv)>, s: bytes, x: Entry, y: Entry)
    requires Ideal(c) && Torn(c, path, p, s, x, y)
    ensures Torn(c, path, AfterSaves(c, path, p, turns), s, x, y)
    ensures turns != [] ==>
      var q := AfterSaves(c, path, p, turns[..|turns| - 1]);
      var (first, env) := turns[|turns| - 1];
      var o := Saved(c, path, if first then q.a else q.b, q.files, env);
      o.result.Ok? ==> path in o.files && (|o.files[path]| <= MAX_FILE ==>
        forall clock :: OnDisk(c, o.files, path, p.a.password, clock, s) == Some(if first then x else y))
    ensures AfterSaves(c, path, p, turns).a.password == p.a.password
  {
    hide Saved, OnDisk, NotNewer, Find, WellFormed;
    if turns != [] {
      ClashNeverSettles(c, path, p, turns[..|turns| - 1], s, x, y);
      var q := AfterSaves(c, path, p, turns[..|turns| - 1]);
      var (first, env) := turns[|turns| - 1];
      OwnEntryStays(c, path, if first then q.a else q.b, q.files, env, s, x.lastUpdated);
    }
  }

  // ---------------------------------------------------------------------------------
  // Saves in which nothing goes wrong.
  // ---------------------------------------------------------------------------------

  const VAULT: Storage.Path := "vault"

  /** Nothing goes wrong. */
  function Calm(clock: Clock, salt: Salt, iv: Iv): SaveEnv {
    SaveEnv(true, [], clock, salt, iv, WriteEnv("1", true, [], true, NotStarted, true))
  }

  /** A save in which nothing goes wrong, when the file holds `disk`. */
  lemma CalmSave(c: Crypto, ram: Ram, files: Files, disk: Entries, clock: Clock, salt: Salt, iv: Iv)
    requires Ideal(c) && files.Keys == {VAULT} && WellFormed(disk)
    requires Package(c, disk, ram.password, salt, iv) == Ok(files[VAULT]) && |files[VAULT]| <= MAX_FILE
    ensures var o := Saved(c, VAULT, ram, files, Calm(clock, salt, iv));
      var es := Merge(ram.entries, disk, ram.tombs);
      && o.result.Ok? && o.ram == Ram(es, ram.password, [])
      && Package(c, es, ram.password, salt, iv).Ok?
      && o.files == map[VAULT := Package(c, es, ram.password, salt, iv).value]
  {
    hide Merge, Package, Load;
    FileRoundTrip(c, disk, ram.password, salt, iv, clock);
    var es := Merge(ram.entries, disk, ram.tombs);
    UnsealPackage(c, es, ram.password, salt, iv, ram.password);
    PathsDiffer(VAULT, "1");
    assert TmpOf(VAULT, "1") !in files;
  }

  /** Two vaults whose one entry was changed in the same second: the file flips with every save. */
  lemma FileFlips(c: Crypto, x: Entry, y: Entry, password: bytes, salt: Salt, iv: Iv, clock: Clock)
    requires Ideal(c) && x.service == y.service && x.lastUpdated == y.lastUpdated != 0 && x != y
    requires Package(c, [x], password, salt, iv).Ok? && |Package(c, [x], password, salt, iv).value| <= MAX_FILE
    requires Package(c, [y], password, salt, iv).Ok? && |Package(c, [y], password, salt, iv).value| <= MAX_FILE
    ensures var files: Files := map[VAULT := Package(c, [x], password, salt, iv).value];
      var flipped: Files := map[VAULT := Package(c, [y], password, salt, iv).value];
      && files != flipped
      && var o := Saved(c, VAULT, Ram([y], password, []), files, Calm(clock, salt, iv));
      && o.result.Ok? && o.ram == Ram([y], password, []) && o.files == flipped
      && var p := Saved(c, VAULT, Ram([x], password, []), flipped, Calm(clock, salt, iv));
      && p.result.Ok? && p.ram == Ram([x], password, []) && p.files == files
  {
    hide Saved, Package, Load, Merge, Ideal;
    OneEntry(x);
    OneEntry(y);
    TieStays(x, y);
    TieStays(y, x);
    var files: Files := map[VAULT := Package(c, [x], password, salt, iv).value];
    var flipped: Files := map[VAULT := Package(c, [y], password, salt, iv).value];
    CalmSave(c, Ram([y], password, []), files, [x], clock, salt, iv);
    CalmSave(c, Ram([x], password, []), flipped, [y], clock, salt, iv);
    FileRoundTrip(c, [x], password, salt, iv, clock);
    FileRoundTrip(c, [y], password, salt, iv, clock);
    assert [x][0] != [y][0];
    assert files[VAULT] != flipped[VAULT];
  }

  /** One such pair of vaults, with nothing left open. */
  lemma FlipsForReal(salt: Salt, iv: Iv, clock: Clock)
    ensures var c, password := Labelled(), [0x70];
      var x, y := Entry([0x78], [0x79], [0x31], [], 7), Entry([0x78], [0x79], [0x32], [], 7);
      && Package(c, [x], password, salt, iv).Ok? && Package(c, [y], password, salt, iv).Ok?
      && var files: Files := map[VAULT := Package(c, [x], password, salt, iv).value];
      var flipped: Files := map[VAULT := Package(c, [y], password, salt, iv).value];
      && files != flipped
      && Saved(c, VAULT, Ram([y], password, []), files, Calm(clock, salt, iv)).files == flipped
      && Saved(c, VAULT, Ram([x], password, []), flipped, Calm(clock, salt, iv)).files == files
  {
    hide Saved, Package, Labelled, Ideal, Calm, Body;
    var x, y := Entry([0x78], [0x79], [0x31], [], 7), Entry([0x78], [0x79], [0x32], [], 7);
    IdealIsInhabited();
    OneEntry(x);
    OneEntry(y);
    LabelledSize([x], [0x70], salt, iv);
    LabelledSize([y], [0x70], salt, iv);
    assert x.password[0] != y.password[0];
    FileFlips(Labelled(), x, y, [0x70], salt, iv, clock);
  }

  lemma OneEntry(e: Entry)
    requires e.lastUpdated != 0
    ensures WellFormed([e])
    ensures |Body([e], 3)| == 28 + |e.service| + |e.username| + |e.password| + |e.totpSecret|
  {
    assert EncEntries([e], 3) == EncEntry(e, 3) + EncEntries([], 3);
  }

  lemma TieStays(x: Entry, y: Entry)
    requires x.service == y.service && x.lastUpdated == y.lastUpdated
    ensures Merge([x], [y], []) == [x]
  {
    assert IndexOf([x], y.service) == 0;
    assert MergeOne([x], y, []) == [x];
  }
}
