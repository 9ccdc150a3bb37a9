/**
 What each operation of the service achieves and when (src/vault_service.cpp), in terms of what its
 caller and the kernel decide: for every lookup, every refusal and every fault.
 */
module Outcomes {
  import opened Prelude
  import opened Vaults
  import opened VaultFormat
  import opened VaultFile
  import opened Storage
  import opened Merging
  import opened VaultServices
  import opened Totp
  import Endian

  // ---------------------------------------------------------------------------------
  // When a transaction goes through.
  // ---------------------------------------------------------------------------------

  /** The file, if there is one, can be read and opens with the password in memory. */
  ghost predicate Readable(c: Crypto, path: Path, ram: Ram, files: Files, env: SaveEnv) {
    path in files ==> LoadFile(c, files, path, ram.password, env.delivery, env.clock).Ok?
  }

  /** Memory and file together. */
  function Combined(c: Crypto, path: Path, ram: Ram, files: Files, env: SaveEnv): Entries
    requires Readable(c, path, ram, files, env)
  {
    if path in files
    then Merge(ram.entries, LoadFile(c, files, path, ram.password, env.delivery, env.clock).value, ram.tombs)
    else ram.entries
  }

  /** A file is loaded exactly if it is there, not too long, read without a failure, and loads. */
  lemma LoadFileSucceedsExactly(
      c: Crypto, files: Files, path: Path, password: bytes, delivery: seq<IoEvent>, clock: Clock)
    ensures var r := LoadFile(c, files, path, password, delivery, clock);
      r.Ok? <==>
        && path in files
        && !(exists k: nat :: FailsAt(|files[path]|, delivery, k, 1))
        && Load(c, files[path], password, clock).Ok?
  {
    hide Deserialized, Unseal;
    if path in files {
      ArrivesMeaning(|files[path]|, delivery);
    }
  }

  /** The size of the package of these entries under a password from which a key can be derived. */
  function PackageSize(c: Crypto, es: Entries, password: bytes, salt: Salt, iv: Iv): nat
    requires c.kdf(password, salt, DEFAULT_KDF).Some?
  {
    HEADER_SIZE + |c.enc(Body(es, 3), c.kdf(password, salt, DEFAULT_KDF).value, iv, Header(salt, iv))|
  }

  /** The lock is had, the file can be read, a key can be derived, and the write meets no fault. */
  ghost predicate SaveGoesThrough(c: Crypto, path: Path, ram: Ram, files: Files, env: SaveEnv) {
    && env.lockOk
    && Readable(c, path, ram, files, env)
    && c.kdf(ram.password, env.salt, DEFAULT_KDF).Some?
    && NoFault(files, path,
               PackageSize(c, Combined(c, path, ram, files, env), ram.password, env.salt, env.iv), env.write)
  }

  lemma SaveSucceedsExactly(c: Crypto, path: Path, ram: Ram, files: Files, env: SaveEnv)
    ensures Saved(c, path, ram, files, env).result.Ok? <==> SaveGoesThrough(c, path, ram, files, env)
  {
    hide Load, Merge, Body, Header, Written, WriteOk, NoFault;
    var m := MergedWithDisk(c, path, ram, files, env);
    if m.Ok? {
      var p := Package(c, m.value, ram.password, env.salt, env.iv);
      if p.Ok? {
        WriteSucceedsExactly(files, path, p.value, env.write);
      }
    }
  }

  /** The new password is not empty, and both writes meet no fault. */
  ghost predicate RekeyGoesThrough(c: Crypto, path: Path, ram: Ram, files: Files, q: bytes, env: RekeyEnv) {
    && q != []
    && env.commit.lockOk
    && Readable(c, path, ram, files, env.commit)
    && c.kdf(q, env.commit.salt, DEFAULT_KDF).Some?
    && var size := PackageSize(c, Combined(c, path, ram, files, env.commit), q, env.commit.salt, env.commit.iv);
    && NoFault(files, BackupOf(path), size, env.backupWrite)
    && NoFault(files, path, size, env.commit.write)
  }

  lemma RekeySucceedsExactly(c: Crypto, path: Path, ram: Ram, files: Files, q: bytes, env: RekeyEnv)
    ensures Rekeyed(c, path, ram, files, q, env).result.Ok? <==> RekeyGoesThrough(c, path, ram, files, q, env)
  {
    hide Load, Merge, Body, Header, Written, WriteOk;
    var m := MergedWithDisk(c, path, ram, files, env.commit);
    if q != [] && m.Ok? {
      var p := Package(c, m.value, q, env.commit.salt, env.commit.iv);
      if p.Ok? {
        WriteSucceedsExactly(files, BackupOf(path), p.value, env.backupWrite);
        var files1 := Written(files, BackupOf(path), p.value, false, env.backupWrite);
        WriteSucceedsExactly(files1, path, p.value, env.commit.write);
        PathsDiffer(path, env.commit.write.tag);
        PathsDiffer(path, env.backupWrite.tag);
        DistinctTemporaries(path, env.commit.write.tag, env.backupWrite.tag);
        WriteIsAtomic(files, BackupOf(path), p.value, false, env.backupWrite);
      }
    }
  }

  lemma DistinctTemporaries(path: Path, a: string, b: string)
    ensures TmpOf(path, a) != TmpOf(BackupOf(path), b)
  {
    assert TmpOf(path, a)[|path| + 1] == 't' && TmpOf(BackupOf(path), b)[|path| + 1] == 'b';
  }

  // ---------------------------------------------------------------------------------
  // What stops a transaction, and that it then changes nothing.
  // ---------------------------------------------------------------------------------

  /** Without the lock nothing happens, in memory or on disk. */
  lemma NoLockNoChange(c: Crypto, path: Path, ram: Ram, files: Files, env: SaveEnv, q: bytes, renv: RekeyEnv)
    ensures !env.lockOk ==> Saved(c, path, ram, files, env) == Outcome(ram, files, Err(IoError))
    ensures !renv.commit.lockOk ==>
      Rekeyed(c, path, ram, files, q, renv)
      == Outcome(ram, files, Err(if q == [] then EmptyMasterPassword else IoError))
  {
    hide Load, Merge, Package, Written, WriteOk;
  }

  /** A file that does not open, or cannot be read, stops both, with the failure of the load. */
  lemma UnreadableNoChange(c: Crypto, path: Path, ram: Ram, files: Files, env: SaveEnv, q: bytes, renv: RekeyEnv)
    ensures env.lockOk && !Readable(c, path, ram, files, env) ==>
      Saved(c, path, ram, files, env)
      == Outcome(ram, files, Err(LoadFile(c, files, path, ram.password, env.delivery, env.clock).error))
    ensures q != [] && renv.commit.lockOk && !Readable(c, path, ram, files, renv.commit) ==>
      Rekeyed(c, path, ram, files, q, renv)
      == Outcome(ram, files, Err(LoadFile(c, files, path, ram.password, renv.commit.delivery, renv.commit.clock).error))
  {
    hide Load, Merge, Package, Written, WriteOk;
  }

  /**
   An empty new master password is refused before anything else, and no outcome makes the password in
   memory empty.
   */
  lemma EmptyPasswordRefused(c: Crypto, path: Path, ram: Ram, files: Files, q: bytes, env: RekeyEnv)
    ensures Rekeyed(c, path, ram, files, [], env) == Outcome(ram, files, Err(EmptyMasterPassword))
    ensures ram.password != [] ==> Rekeyed(c, path, ram, files, q, env).ram.password != []
  {
    hide Load, Merge, Package, Written, WriteOk;
  }

  /** An ordinary save never changes the password in memory. */
  lemma SaveKeepsPassword(c: Crypto, path: Path, ram: Ram, files: Files, env: SaveEnv)
    ensures Saved(c, path, ram, files, env).ram.password == ram.password
  {
    hide Load, Merge, Package, Written, WriteOk;
  }

  lemma EditsKeepPassword(c: Crypto, path: Path, ram: Ram, files: Files, e: Entry, service: bytes, env: SaveEnv)
    requires e.lastUpdated != 0
    ensures Added(c, path, ram, files, e, env).ram.password == ram.password
    ensures Deleted(c, path, ram, files, service, env).ram.password == ram.password
  {
    hide Saved, Find, Put, Remove, Decoded;
    SaveKeepsPassword(c, path, ram.(entries := Put(ram.entries, e)), files, env);
    var edited := ram.(entries := Remove(ram.entries, service), tombs := ram.tombs + [service]);
    SaveKeepsPassword(c, path, edited, files, env);
  }

  // ---------------------------------------------------------------------------------
  // Adding, updating, deleting.
  // ---------------------------------------------------------------------------------

  /**
   After a successful save of an edited memory: every lookup in memory, and the file. `edited` tells
   what the edit alone makes of each lookup.
   */
  ghost predicate Leaves(
      c: Crypto, path: Path, ram: Ram, files: Files, env: SaveEnv, edited: bytes -> Option<Entry>,
      buried: bytes -> bool, o: Outcome)
  {
    && WellFormed(o.ram.entries) && o.ram.password == ram.password && o.ram.tombs == []
    && (forall s :: Find(o.ram.entries, s)
          == Join(edited(s), OnDisk(c, files, path, ram.password, env.clock, s), buried(s)))
    && path in o.files
    && Unseal(c, o.files[path], ram.password) == Ok((Body(o.ram.entries, 3), 3))
  }

  /**
   Adding: each failed check gives its own refusal and changes nothing; else the call succeeds
   exactly if the save of the edited memory goes through, and then the new entry is there as it was
   given, and every other service as the join of memory and disk.
   */
  lemma AddOutcome(c: Crypto, path: Path, ram: Ram, files: Files, e: Entry, env: SaveEnv)
    requires Ideal(c) && WellFormed(ram.entries) && e.lastUpdated != 0
    ensures var o := Added(c, path, ram, files, e, env);
      var edited := ram.(entries := Put(ram.entries, e));
      if e.service == [] then o == Outcome(ram, files, Err(EmptyService))
      else if Find(ram.entries, e.service).Some? then o == Outcome(ram, files, Err(ServiceExists))
      else if e.username == [] then o == Outcome(ram, files, Err(EmptyUsername))
      else if e.password == [] then o == Outcome(ram, files, Err(EmptyPassword))
      else if e.totpSecret != [] && Decoded(e.totpSecret).Err? then o == Outcome(ram, files, Err(BadBase32))
      else
        && (o.result.Ok? <==> SaveGoesThrough(c, path, edited, files, env))
        && (o.result.Err? ==> Same(o.files, files, path))
        && (o.result.Ok? ==> Leaves(c, path, ram, files, env,
              s => if s == e.service then Some(e) else Find(ram.entries, s), s => s in ram.tombs, o))
  {
    hide Load, Find, Put, Decoded, Unseal, Body, Saved, SaveGoesThrough, WellFormed, OnDisk;
    var edited := ram.(entries := Put(ram.entries, e));
    PutWellFormed(ram.entries, e);
    EditOutcome(c, path, ram, files, env, edited);
    forall s ensures Find(edited.entries, s) == if s == e.service then Some(e) else Find(ram.entries, s) {
      PutFind(ram.entries, e, s);
    }
  }

  lemma EditOutcome(c: Crypto, path: Path, ram: Ram, files: Files, env: SaveEnv, edited: Ram)
    requires Ideal(c) && WellFormed(edited.entries) && edited.password == ram.password
    ensures var o := Saved(c, path, edited, files, env);
      && (o.result.Ok? <==> SaveGoesThrough(c, path, edited, files, env))
      && (o.result.Err? ==> Same(o.files, files, path))
      && (o.result.Ok? ==>
            Leaves(c, path, ram, files, env, s => Find(edited.entries, s), s => s in edited.tombs, o))
  {
    hide Load, Find, Unseal, Body, Saved, SaveGoesThrough, WellFormed, OnDisk;
    SaveSucceedsExactly(c, path, edited, files, env);
    if Saved(c, path, edited, files, env).result.Ok? {
      SaveJoins(c, path, edited, files, env, env.clock);
    } else {
      FailedSaveKeepsFile(c, path, edited, files, env);
    }
  }

  /** The field that an update gives, or the one there was. */
  function Chosen(given: Option<bytes>, before: bytes): bytes {
    match given
    case Some(b) => b
    case None => before
  }

  /** Updating: likewise; the fields that were given replace the old ones, the others stay, and the date is new. */
  lemma UpdateOutcome(
      c: Crypto, path: Path, ram: Ram, files: Files, service: bytes, username: Option<bytes>, password: Option<bytes>,
      secret: Option<bytes>, now: Instant, env: SaveEnv)
    requires Ideal(c) && WellFormed(ram.entries)
    ensures var o := Updated(c, path, ram, files, service, username, password, secret, now, env);
      match Find(ram.entries, service)
      case None => o == Outcome(ram, files, Err(ServiceNotFound))
      case Some(was) =>
        if username == Some([]) then o == Outcome(ram, files, Err(EmptyUsername))
        else if password == Some([]) then o == Outcome(ram, files, Err(EmptyPassword))
        else if secret.Some? && secret.value != [] && Decoded(secret.value).Err? then
          o == Outcome(ram, files, Err(BadBase32))
        else
          var e := Entry(service, Chosen(username, was.username), Chosen(password, was.password),
                         Chosen(secret, was.totpSecret), now);
          && (o.result.Ok? <==> SaveGoesThrough(c, path, ram.(entries := Put(ram.entries, e)), files, env))
          && (o.result.Err? ==> Same(o.files, files, path))
          && (o.result.Ok? ==> Leaves(c, path, ram, files, env,
                s => if s == service then Some(e) else Find(ram.entries, s), s => s in ram.tombs, o))
  {
    hide Load, Find, Put, Decoded, Unseal, Body, Saved, SaveGoesThrough, WellFormed, OnDisk;
    var found := Find(ram.entries, service);
    if found.Some? {
      var was := found.value;
      var e := Entry(service, Chosen(username, was.username), Chosen(password, was.password),
                     Chosen(secret, was.totpSecret), now);
      var edited := ram.(entries := Put(ram.entries, e));
      PutWellFormed(ram.entries, e);
      EditOutcome(c, path, ram, files, env, edited);
      forall s ensures Find(edited.entries, s) == if s == service then Some(e) else Find(ram.entries, s) {
        PutFind(ram.entries, e, s);
      }
    }
  }

  /** Deleting: the service is gone from memory and file, and every other one is the join of memory and disk. */
  lemma DeleteOutcome(c: Crypto, path: Path, ram: Ram, files: Files, service: bytes, env: SaveEnv)
    requires Ideal(c) && WellFormed(ram.entries)
    ensures var o := Deleted(c, path, ram, files, service, env);
      var edited := ram.(entries := Remove(ram.entries, service), tombs := ram.tombs + [service]);
      if Find(ram.entries, service).None? then o == Outcome(ram, files, Err(ServiceNotFound))
      else
        && (o.result.Ok? <==> SaveGoesThrough(c, path, edited, files, env))
        && (o.result.Err? ==> Same(o.files, files, path))
        && (o.result.Ok? ==> Leaves(c, path, ram, files, env,
              s => if s == service then None else Find(ram.entries, s), s => s == service || s in ram.tombs, o))
  {
    hide Load, Find, Remove, Unseal, Body, Saved, SaveGoesThrough, WellFormed, OnDisk;
    var edited := ram.(entries := Remove(ram.entries, service), tombs := ram.tombs + [service]);
    RemoveWellFormed(ram.entries, service);
    EditOutcome(c, path, ram, files, env, edited);
    forall s ensures Find(edited.entries, s) == if s == service then None else Find(ram.entries, s) {
      RemoveFind(ram.entries, service, s);
    }
  }

  // ---------------------------------------------------------------------------------
  // Codes.
  // ---------------------------------------------------------------------------------

  /** The service's codes have six digits and change every thirty seconds; each refusal has its cause. */
  lemma CodeOutcome(hmac: Hmac, ram: Ram, service: bytes, now: Instant)
    ensures var r := GetTotp(hmac, ram, service, now);
      match Find(ram.entries, service)
      case None => r == Err(ServiceNotFound)
      case Some(e) =>
        if e.totpSecret == [] then r == Err(NoTotpSecret)
        else if Decoded(e.totpSecret).Err? then r == Err(Decoded(e.totpSecret).error)
        else
          && r.Ok? && |r.value.digits| == 6 && 1 <= r.value.remaining <= 30
          && (now + r.value.remaining) % 30 == 0
          && DecimalValue(r.value.digits)
             == Truncate(hmac(Decoded(e.totpSecret).value, Endian.Be(now / 30, 8))) % 1_000_000
  {
    hide Find, Decoded, Truncate, Endian.Be, DecimalValue;
    var r := GetTotp(hmac, ram, service, now);
    if r.Ok? {
      TotpMeaning(hmac, Find(ram.entries, service).value.totpSecret, 0, now, 30, 6, r.value);
      assert Pow10(6) == 1_000_000;
    }
  }
}
