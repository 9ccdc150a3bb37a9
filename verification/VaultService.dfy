/**
 One holder of the vault (src/vault_service.cpp): entries, master password and tombstones in
 memory, and the transaction that merges with the file and replaces it.
 */
module VaultServices {
  import opened Prelude
  import opened Vaults
  import opened VaultFormat
  import opened VaultFile
  import opened Storage
  import opened Merging
  import opened Totp
  import Fuzzy

  datatype Ram = Ram(entries: Entries, password: bytes, tombs: seq<bytes>)

  /** What the kernel, the clock and the random generator decide during one `save`. */
  datatype SaveEnv = SaveEnv(lockOk: bool, delivery: seq<IoEvent>, clock: Clock, salt: Salt, iv: Iv, write: WriteEnv)

  /** The same for `rekey`, which writes twice. */
  datatype RekeyEnv = RekeyEnv(commit: SaveEnv, backupWrite: WriteEnv)

  datatype Outcome = Outcome(ram: Ram, files: Files, result: Result<(), Failure>)

  // ---------------------------------------------------------------------------------
  // The operations, as functions of memory, files and environment.
  // ---------------------------------------------------------------------------------

  /** `load_vault` on a file of the directory. */
  function LoadFile(
      c: Crypto, files: Files, path: Path, password: bytes, delivery: seq<IoEvent>, clock: Clock)
      : (r: Result<Entries, Failure>)
    ensures r.Ok? ==> WellFormed(r.value)
    ensures r.Ok? ==> path in files && Load(c, files[path], password, clock) == r
  {
    if path !in files then Err(IoError)
    else if |files[path]| > MAX_FILE then Err(FileTooLarge)
    else if !Arrives(|files[path]|, delivery) then Err(IoError)
    else Load(c, files[path], password, clock)
  }

  /** `merge_disk_state_with_lock_held`. */
  function MergedWithDisk(c: Crypto, path: Path, ram: Ram, files: Files, env: SaveEnv): (r: Result<Entries, Failure>) {
    if path !in files then Ok(ram.entries)
    else
      match LoadFile(c, files, path, ram.password, env.delivery, env.clock)
      case Err(e) => Err(e)
      case Ok(disk) => Ok(Merge(ram.entries, disk, ram.tombs))
  }

  /** `commit_vault_with_lock_held` under the current password. */
  function Commit(c: Crypto, path: Path, ram: Ram, files: Files, env: SaveEnv): (o: Outcome) {
    match Package(c, ram.entries, ram.password, env.salt, env.iv)
    case Err(e) => Outcome(ram, files, Err(e))
    case Ok(blob) =>
      if WriteOk(files, path, blob, env.write) then
        Outcome(ram.(tombs := []), Written(files, path, blob, true, env.write), Ok(()))
      else
        Outcome(ram, Written(files, path, blob, true, env.write), Err(IoError))
  }

  function Saved(c: Crypto, path: Path, ram: Ram, files: Files, env: SaveEnv): (o: Outcome) {
    if !env.lockOk then Outcome(ram, files, Err(IoError))
    else
      match MergedWithDisk(c, path, ram, files, env)
      case Err(e) => Outcome(ram, files, Err(e))
      case Ok(es) => Commit(c, path, ram.(entries := es), files, env)
  }

  function Rekeyed(c: Crypto, path: Path, ram: Ram, files: Files, password: bytes, env: RekeyEnv): (o: Outcome) {
    if password == [] then Outcome(ram, files, Err(EmptyMasterPassword))
    else if !env.commit.lockOk then Outcome(ram, files, Err(IoError))
    else
      match MergedWithDisk(c, path, ram, files, env.commit)
      case Err(e) => Outcome(ram, files, Err(e))
      case Ok(es) =>
        match Package(c, es, password, env.commit.salt, env.commit.iv)
        case Err(e) => Outcome(ram.(entries := es), files, Err(e))
        case Ok(blob) =>
          var files1 := Written(files, BackupOf(path), blob, false, env.backupWrite);
          if !WriteOk(files, BackupOf(path), blob, env.backupWrite)
              then Outcome(ram.(entries := es), files1, Err(IoError))
          else
            var files2 := Written(files1, path, blob, false, env.commit.write);
            if !WriteOk(files1, path, blob, env.commit.write) then Outcome(ram.(entries := es), files2, Err(IoError))
            else Outcome(Ram(es, password, []), files2, Ok(()))
  }

  function SecretOk(secret: bytes): bool {
    secret == [] || Decoded(secret).Ok?
  }

  function Added(c: Crypto, path: Path, ram: Ram, files: Files, e: Entry, env: SaveEnv): (o: Outcome)
    requires e.lastUpdated != 0
  {
    if e.service == [] then Outcome(ram, files, Err(EmptyService))
    else if Find(ram.entries, e.service).Some? then Outcome(ram, files, Err(ServiceExists))
    else if e.username == [] then Outcome(ram, files, Err(EmptyUsername))
    else if e.password == [] then Outcome(ram, files, Err(EmptyPassword))
    else if !SecretOk(e.totpSecret) then Outcome(ram, files, Err(BadBase32))
    else Saved(c, path, ram.(entries := Put(ram.entries, e)), files, env)
  }

  function Updated(c: Crypto, path: Path, ram: Ram, files: Files, service: bytes,
    username: Option<bytes>, password: Option<bytes>, secret: Option<bytes>, now: Instant, env: SaveEnv): (o: Outcome)
  {
    match Find(ram.entries, service)
    case None => Outcome(ram, files, Err(ServiceNotFound))
    case Some(e) =>
      if username == Some([]) then Outcome(ram, files, Err(EmptyUsername))
      else if password == Some([]) then Outcome(ram, files, Err(EmptyPassword))
      else if secret.Some? && !SecretOk(secret.value) then Outcome(ram, files, Err(BadBase32))
      else
        var replacement := Entry(service, Or(username, e.username), Or(password, e.password),
            Or(secret, e.totpSecret), now);
        Saved(c, path, ram.(entries := Put(ram.entries, replacement)), files, env)
  }

  function Or(o: Option<bytes>, otherwise: bytes): bytes {
    if o.Some? then o.value else otherwise
  }

  function Deleted(c: Crypto, path: Path, ram: Ram, files: Files, service: bytes, env: SaveEnv): (o: Outcome) {
    if Find(ram.entries, service).None? then Outcome(ram, files, Err(ServiceNotFound))
    else
      Saved(c, path, ram.(entries := Remove(ram.entries, service), tombs := ram.tombs + [service]), files, env)
  }

  function GetTotp(hmac: Hmac, ram: Ram, service: bytes, now: Instant): (r: Result<Code, Failure>) {
    match Find(ram.entries, service)
    case None => Err(ServiceNotFound)
    case Some(e) => if e.totpSecret == [] then Err(NoTotpSecret) else Totp.Totp(hmac, e.totpSecret, 0, now, 30, 6)
  }

  // ---------------------------------------------------------------------------------
  // What a transaction achieves.
  // ---------------------------------------------------------------------------------

  lemma MergedIsWellFormed(c: Crypto, path: Path, ram: Ram, files: Files, env: SaveEnv)
    requires WellFormed(ram.entries) && MergedWithDisk(c, path, ram, files, env).Ok?
    ensures WellFormed(MergedWithDisk(c, path, ram, files, env).value)
  {
    hide Load, Merge;
    if path in files {
      MergeWellFormed(ram.entries, LoadFile(c, files, path, ram.password, env.delivery, env.clock).value, ram.tombs);
    }
  }

  /** The vault a directory holds, as a lookup; a missing or unreadable file holds nothing. */
  function OnDisk(c: Crypto, files: Files, path: Path, password: bytes, clock: Clock, s: bytes): (r: Option<Entry>) {
    if path !in files then None
    else
      match Load(c, files[path], password, clock)
      case Err(_) => None
      case Ok(es) => Find(es, s)
  }

  /**
   After a successful save, memory is the last-writer-wins join of what memory and disk held,
   the file holds exactly memory (unless it outgrew what `read_file` accepts), and nothing is buried.
   */
  lemma SaveJoins(c: Crypto, path: Path, ram: Ram, files: Files, env: SaveEnv, clock: Clock)
    requires Ideal(c) && WellFormed(ram.entries) && Saved(c, path, ram, files, env).result.Ok?
    ensures var o := Saved(c, path, ram, files, env);
      && WellFormed(o.ram.entries) && o.ram.tombs == [] && o.ram.password == ram.password
      && (forall s :: Find(o.ram.entries, s)
           == Join(Find(ram.entries, s), OnDisk(c, files, path, ram.password, env.clock, s), s in ram.tombs))
      && path in o.files
      && Unseal(c, o.files[path], ram.password) == Ok((Body(o.ram.entries, 3), 3))
      && Load(c, o.files[path], ram.password, clock)
          == (if |o.files[path]| <= MAX_FILE then Ok(o.ram.entries) else Err(FileTooLarge))
  {
    hide Load, Unseal, Package, Written, WriteOk, Merge, Body;
    var es := MergedWithDisk(c, path, ram, files, env).value;
    MergedIsWellFormed(c, path, ram, files, env);
    var blob := Package(c, es, ram.password, env.salt, env.iv).value;
    WriteIsAtomic(files, path, blob, true, env.write);
    FileRoundTrip(c, es, ram.password, env.salt, env.iv, clock);
    UnsealPackage(c, es, ram.password, env.salt, env.iv, ram.password);
    if path in files {
      var disk := LoadFile(c, files, path, ram.password, env.delivery, env.clock).value;
      forall s ensures Find(es, s) == Join(Find(ram.entries, s), Find(disk, s), s in ram.tombs) {
        MergeIsJoin(ram.entries, disk, ram.tombs, s);
      }
    }
  }

  /**
   Saving again right away changes no entry and not their order; a file that outgrew the limit blocks
   every later save.
   */
  lemma SecondSaveIsIdle(c: Crypto, path: Path, ram: Ram, files: Files, first: SaveEnv, second: SaveEnv)
    requires Ideal(c) && WellFormed(ram.entries) && Saved(c, path, ram, files, first).result.Ok?
    ensures var o := Saved(c, path, ram, files, first);
      var p := Saved(c, path, o.ram, o.files, second);
      && p.ram == o.ram
      && (|o.files[path]| > MAX_FILE ==> p.result.Err? && p.files == o.files)
  {
    hide Load, Unseal, Package, Written, WriteOk, Merge, Body, Find;
    SaveJoins(c, path, ram, files, first, second.clock);
    var o := Saved(c, path, ram, files, first);
    assert o.ram.entries[0..] == o.ram.entries;
    MergeWithSelf(o.ram.entries, 0, []);
    assert MergedWithDisk(c, path, o.ram, o.files, second).Ok? ==>
      MergedWithDisk(c, path, o.ram, o.files, second).value == o.ram.entries;
  }

  /**
   A failed save leaves the vault file as it was. In memory, the password and what is buried stay, and
   so does the edit.
   */
  lemma FailedSaveKeepsFile(c: Crypto, path: Path, ram: Ram, files: Files, env: SaveEnv)
    requires WellFormed(ram.entries) && Saved(c, path, ram, files, env).result.Err?
    ensures var o := Saved(c, path, ram, files, env);
      && Same(o.files, files, path)
      && o.ram.password == ram.password && o.ram.tombs == ram.tombs
      && (forall s :: Find(ram.entries, s).Some? ==>
            && Find(o.ram.entries, s).Some?
            && Find(o.ram.entries, s).value.lastUpdated >= Find(ram.entries, s).value.lastUpdated)
  {
    hide Load, Package, Written, WriteOk, Merge, Find;
    var m := MergedWithDisk(c, path, ram, files, env);
    if env.lockOk && m.Ok? {
      if path in files {
        var disk := LoadFile(c, files, path, ram.password, env.delivery, env.clock).value;
        forall s ensures Find(m.value, s) == Join(Find(ram.entries, s), Find(disk, s), s in ram.tombs) {
          MergeIsJoin(ram.entries, disk, ram.tombs, s);
        }
      }
      var p := Package(c, m.value, ram.password, env.salt, env.iv);
      if p.Ok? {
        WriteIsAtomic(files, path, p.value, true, env.write);
      }
    }
  }

  /** A holder whose password does not open the file cannot change the file or its backup, by saving or by rekeying. */
  lemma StalePasswordIsHarmless(
      c: Crypto, path: Path, ram: Ram, files: Files, env: SaveEnv, password: bytes, renv: RekeyEnv)
    requires path in files && Unseal(c, files[path], ram.password).Err?
    ensures Saved(c, path, ram, files, env).files == files && Saved(c, path, ram, files, env).ram == ram
    ensures Rekeyed(c, path, ram, files, password, renv).files == files
        && Rekeyed(c, path, ram, files, password, renv).ram == ram
  {
    hide Package, Written, WriteOk, Unseal, Commit;
  }

  /**
   A rekey that returns has the merged vault under the new password in the file and in its
   backup, and in memory. One that throws leaves the file as it was and the password in memory too.
   */
  lemma RekeyIsTransactional(
      c: Crypto, path: Path, ram: Ram, files: Files, password: bytes, env: RekeyEnv, clock: Clock)
    requires Ideal(c) && WellFormed(ram.entries)
    ensures var o := Rekeyed(c, path, ram, files, password, env);
      && (o.result.Err? ==> o.ram.password == ram.password && o.ram.tombs == ram.tombs && Same(o.files, files, path))
      && (o.result.Ok? ==>
           && o.ram.password == password && o.ram.tombs == []
           && path in o.files && BackupOf(path) in o.files && o.files[BackupOf(path)] == o.files[path]
           && Unseal(c, o.files[path], password) == Ok((Body(o.ram.entries, 3), 3))
           && Load(c, o.files[path], password, clock)
               == (if |o.files[path]| <= MAX_FILE then Ok(o.ram.entries) else Err(FileTooLarge))
           && (forall s :: Find(o.ram.entries, s)
                == Join(Find(ram.entries, s), OnDisk(c, files, path, ram.password, env.commit.clock, s),
                    s in ram.tombs)))
  {
    hide Load, Unseal, Package, Written, WriteOk, Merge, Body, Find;
    var m := MergedWithDisk(c, path, ram, files, env.commit);
    if password != [] && env.commit.lockOk && m.Ok? {
      MergedIsWellFormed(c, path, ram, files, env.commit);
      FileRoundTrip(c, m.value, password, env.commit.salt, env.commit.iv, clock);
      UnsealPackage(c, m.value, password, env.commit.salt, env.commit.iv, password);
      var blob := Package(c, m.value, password, env.commit.salt, env.commit.iv).value;
      var files1 := Written(files, BackupOf(path), blob, false, env.backupWrite);
      PathsDiffer(path, env.backupWrite.tag);
      PathsDiffer(path, env.commit.write.tag);
      WriteIsAtomic(files, BackupOf(path), blob, false, env.backupWrite);
      WriteIsAtomic(files1, path, blob, false, env.commit.write);
      if path in files {
        var disk := LoadFile(c, files, path, ram.password, env.commit.delivery, env.commit.clock).value;
        forall s ensures Find(m.value, s) == Join(Find(ram.entries, s), Find(disk, s), s in ram.tombs) {
          MergeIsJoin(ram.entries, disk, ram.tombs, s);
        }
      }
    }
  }

  /** An acknowledged deletion is on disk: the service is not in the file that the deletion wrote. */
  lemma DeletionIsCommitted(c: Crypto, path: Path, ram: Ram, files: Files, service: bytes, env: SaveEnv, clock: Clock)
    requires Ideal(c) && WellFormed(ram.entries) && Deleted(c, path, ram, files, service, env).result.Ok?
    ensures var o := Deleted(c, path, ram, files, service, env);
      && Find(o.ram.entries, service) == None
      && OnDisk(c, o.files, path, ram.password, clock, service) == None
  {
    hide Saved, Load, Find;
    var edited := ram.(entries := Remove(ram.entries, service), tombs := ram.tombs + [service]);
    RemoveFind(ram.entries, service, service);
    RemoveWellFormed(ram.entries, service);
    SaveJoins(c, path, edited, files, env, clock);
    assert service in edited.tombs;
  }

  /**
   Whether a deleted service comes back: when another holder of the same password saves after an
   acknowledged deletion, its memory and the file have the service exactly as its memory had it
   before. So the service returns if and only if that holder still had it; the tombstone of the
   one who deleted it plays no part.
   */
  lemma DeletedReturnsIffHeld(c: Crypto, path: Path, a: Ram, files: Files, service: bytes, first: SaveEnv,
                              b: Ram, second: SaveEnv, clock: Clock)
    requires Ideal(c) && WellFormed(a.entries) && WellFormed(b.entries) && a.password == b.password
    requires Deleted(c, path, a, files, service, first).result.Ok?
    requires Saved(c, path, b, Deleted(c, path, a, files, service, first).files, second).result.Ok?
    ensures var o := Saved(c, path, b, Deleted(c, path, a, files, service, first).files, second);
      && Find(o.ram.entries, service) == Find(b.entries, service)
      && path in o.files
      && (|o.files[path]| <= MAX_FILE ==>
          OnDisk(c, o.files, path, b.password, clock, service) == Find(b.entries, service))
  {
    hide Saved, Deleted, Load, Find, Unseal, Body;
    DeletionIsCommitted(c, path, a, files, service, first, second.clock);
    SaveJoins(c, path, b, Deleted(c, path, a, files, service, first).files, second, clock);
  }

  // ---------------------------------------------------------------------------------
  // The class.
  // ---------------------------------------------------------------------------------

  /** `load_vault` on a path: `read_file`, then the package. */
  method ReadVault(crypto: Crypto, disk: Disk, path: Path, password: bytes, delivery: seq<IoEvent>, clock: Clock)
    returns (r: Result<Entries, Failure>)
    ensures r == LoadFile(crypto, disk.files, path, password, delivery, clock)
  {
    hide Load;
    if path !in disk.files {
      return Err(IoError);
    }
    if |disk.files[path]| > MAX_FILE {
      return Err(FileTooLarge);
    }
    var content := ReadAll(disk.files[path], delivery);
    if content.None? {
      return Err(IoError);
    }
    r := LoadVault(crypto, content.value, password, clock);
  }

  /** The constructor of `VaultService`, which loads without a lock and throws what the load throws. */
  method OpenService(path: Path, crypto: Crypto, disk: Disk, password: bytes, delivery: seq<IoEvent>, clock: Clock)
    returns (r: Result<VaultService, Failure>)
    requires disk.Valid()
    ensures match LoadFile(crypto, disk.files, path, password, delivery, clock)
      case Err(e) => r == Err(e)
      case Ok(es) => (
        && r.Ok? && fresh(r.value) && fresh(r.value.vault) && r.value.Valid()
        && r.value.path == path && r.value.crypto == crypto && r.value.disk == disk
        && r.value.Memory() == Ram(es, password, []))
  {
    hide Load;
    var loaded := ReadVault(crypto, disk, path, password, delivery, clock);
    if loaded.Err? {
      return Err(loaded.error);
    }
    var service := new VaultService(path, crypto, disk, loaded.value, password);
    r := Ok(service);
  }

  class VaultService {
    const path: Path
    const crypto: Crypto
    const disk: Disk
    const vault: Vault
    var masterPassword: bytes
    var deletedServices: seq<bytes>

    ghost predicate Valid()
      reads this, disk, vault
    {
      disk.Valid() && WellFormed(vault.entries)
    }

    ghost function Memory(): (ram: Ram)
      reads this, vault
    {
      Ram(vault.entries, masterPassword, deletedServices)
    }

    constructor (path: Path, crypto: Crypto, disk: Disk, entries: Entries, password: bytes)
      requires disk.Valid() && WellFormed(entries)
      ensures Valid() && fresh(vault) && this.disk == disk && this.path == path && this.crypto == crypto
      ensures Memory() == Ram(entries, password, [])
    {
      this.path, this.crypto, this.disk := path, crypto, disk;
      var v := new Vault();
      v.entries := entries;
      vault, masterPassword, deletedServices := v, password, [];
    }

    method MergeDiskState(env: SaveEnv) returns (r: Result<(), Failure>)
      requires Valid()
      modifies vault
      ensures Valid()
      ensures var m := MergedWithDisk(crypto, path, old(Memory()), disk.files, env);
        match m
        case Err(e) => r == Err(e) && vault.entries == old(vault.entries)
        case Ok(es) => r == Ok(()) && vault.entries == es
    {
      hide Load, Put, Find;
      if path !in disk.files {
        return Ok(());
      }
      var loaded := ReadVault(crypto, disk, path, masterPassword, env.delivery, env.clock);
      if loaded.Err? {
        return Err(loaded.error);
      }
      var diskEntries := loaded.value;
      var i := 0;
      assert diskEntries[0..] == diskEntries;
      while i < |diskEntries|
        invariant 0 <= i <= |diskEntries|
        invariant WellFormed(vault.entries)
        invariant Merge(vault.entries, diskEntries[i..], deletedServices)
               == Merge(old(vault.entries), diskEntries, deletedServices)
      {
        var d := diskEntries[i];
        assert diskEntries[i..][1..] == diskEntries[i + 1..];
        if d.service !in deletedServices {
          var local := vault.GetEntry(d.service);
          if local.None? || d.lastUpdated > local.value.lastUpdated {
            vault.AddEntry(d, env.clock(i));
          }
        }
        i := i + 1;
      }
      r := Ok(());
    }

    method Save(env: SaveEnv) returns (r: Result<(), Failure>)
      requires Valid()
      modifies this, vault, disk
      ensures Valid()
      ensures Outcome(Memory(), disk.files, r) == Saved(crypto, path, old(Memory()), old(disk.files), env)
    {
      hide Package, Written, WriteOk, Merge;
      if !env.lockOk {
        return Err(IoError);
      }
      r := MergeDiskState(env);
      if r.Err? {
        return;
      }
      var blob := SerializeAndEncrypt(crypto, vault.entries, masterPassword, env.salt, env.iv);
      if blob.Err? {
        return Err(blob.error);
      }
      var ok := disk.WriteFileAtomic(path, blob.value, true, env.write);
      if !ok {
        return Err(IoError);
      }
      deletedServices := [];
      r := Ok(());
    }

    method Rekey(password: bytes, env: RekeyEnv) returns (r: Result<(), Failure>)
      requires Valid()
      modifies this, vault, disk
      ensures Valid()
      ensures Outcome(Memory(), disk.files, r) == Rekeyed(crypto, path, old(Memory()), old(disk.files), password, env)
    {
      hide Package, Written, WriteOk, Merge;
      if password == [] {
        return Err(EmptyMasterPassword);
      }
      if !env.commit.lockOk {
        return Err(IoError);
      }
      r := MergeDiskState(env.commit);
      if r.Err? {
        return;
      }
      var blob := SerializeAndEncrypt(crypto, vault.entries, password, env.commit.salt, env.commit.iv);
      if blob.Err? {
        return Err(blob.error);
      }
      var ok := disk.WriteFileAtomic(BackupOf(path), blob.value, false, env.backupWrite);
      if !ok {
        return Err(IoError);
      }
      ok := disk.WriteFileAtomic(path, blob.value, false, env.commit.write);
      if !ok {
        return Err(IoError);
      }
      masterPassword := password;
      deletedServices := [];
      r := Ok(());
    }

    method Add(service: bytes, username: bytes, password: bytes, secret: bytes, now: Instant, env: SaveEnv)
      returns (r: Result<(), Failure>)
      requires Valid()
      modifies this, vault, disk
      ensures Valid()
      ensures Outcome(Memory(), disk.files, r)
           == Added(crypto, path, old(Memory()), old(disk.files), Entry(service, username, password, secret, now), env)
    {
      hide Saved, Put;
      if service == [] {
        return Err(EmptyService);
      }
      var existing := vault.GetEntry(service);
      if existing.Some? {
        return Err(ServiceExists);
      }
      if username == [] {
        return Err(EmptyUsername);
      }
      if password == [] {
        return Err(EmptyPassword);
      }
      if secret != [] {
        var decoded := DecodeBase32(secret);
        if decoded.Err? {
          return Err(BadBase32);
        }
      }
      vault.AddEntry(Entry(service, username, password, secret, now), now);
      r := Save(env);
    }

    method Update(
        service: bytes, username: Option<bytes>, password: Option<bytes>, secret: Option<bytes>, now: Instant,
        env: SaveEnv)
      returns (r: Result<(), Failure>)
      requires Valid()
      modifies this, vault, disk
      ensures Valid()
      ensures Outcome(Memory(), disk.files, r)
           == Updated(crypto, path, old(Memory()), old(disk.files), service, username, password, secret, now, env)
    {
      hide Saved, Put;
      var existing := vault.GetEntry(service);
      if existing.None? {
        return Err(ServiceNotFound);
      }
      var updated := existing.value;
      if username.Some? {
        if username.value == [] {
          return Err(EmptyUsername);
        }
        updated := updated.(username := username.value);
      }
      if password.Some? {
        if password.value == [] {
          return Err(EmptyPassword);
        }
        updated := updated.(password := password.value);
      }
      if secret.Some? {
        if secret.value != [] {
          var decoded := DecodeBase32(secret.value);
          if decoded.Err? {
            return Err(BadBase32);
          }
        }
        updated := updated.(totpSecret := secret.value);
      }
      updated := updated.(lastUpdated := now);
      vault.AddEntry(updated, now);
      r := Save(env);
    }

    method GetTotpCode(hmac: Hmac, service: bytes, now: Instant) returns (r: Result<Code, Failure>)
      ensures r == GetTotp(hmac, Memory(), service, now)
    {
      hide Find, Totp.Totp;
      var entry := vault.GetEntry(service);
      if entry.None? {
        return Err(ServiceNotFound);
      }
      if entry.value.totpSecret == [] {
        return Err(NoTotpSecret);
      }
      r := GenerateTotp(hmac, entry.value.totpSecret, 0, now, 30, 6);
    }

    method ListEntries(query: bytes) returns (r: Entries)
      ensures Fuzzy.IsListing(vault.entries, query, r)
    {
      r := Fuzzy.ListEntries(vault.entries, query);
    }

    method Delete(service: bytes, env: SaveEnv) returns (r: Result<(), Failure>)
      requires Valid()
      modifies this, vault, disk
      ensures Valid()
      ensures Outcome(Memory(), disk.files, r) == Deleted(crypto, path, old(Memory()), old(disk.files), service, env)
    {
      hide Saved, Remove, Find;
      var removed := vault.RemoveEntry(service);
      if !removed {
        RemoveAbsent(old(vault.entries), service);
        return Err(ServiceNotFound);
      }
      deletedServices := deletedServices + [service];
      r := Save(env);
    }
  }

  lemma {:induction false} RemoveAbsent(es: Entries, s: bytes)
    requires Find(es, s).None?
    ensures Remove(es, s) == es
  {
    if es != [] {
      assert es == [es[0]] + es[1..];
      FindCons(es[0], es[1..], s);
      RemoveAbsent(es[1..], s);
    }
  }
}
