# DuckPass, modelled and proved in Dafny

DuckPass keeps credentials in one encrypted file. Several processes may hold the vault at the
same time: each has entries, a master password and tombstones of deleted services in memory, and
commits by locking, merging with the file, encrypting, writing a temporary file and renaming it.
An agent daemon keeps a session open and serves clients over a socket. This project models that
system and proves what it is for: that no commit loses what another process wrote, that a crash
at any moment of a password change leaves a vault that opens, that files and packets decode to
exactly what was encoded, that the agent serves a client exactly while a session is licensed and
then does exactly what a direct call would do, and that the algorithms around it (Base32 and
TOTP, fuzzy search, export, reuse report, the strength worker) compute what they promise.

`dafny verify dfyconfig.toml` checks everything.

## How it is organised

| module | what it models |
|---|---|
| `Prelude`, `Slices`, `Arith`, `Endian`, `Utf8` | machine words, parts of byte sequences, division facts, little- and big-endian integers, UTF-8 |
| `Vaults`, `VaultFormat`, `VaultFile` | the vault in memory, its binary body, the authenticated file |
| `Storage` | complete reads and writes and the atomic replacement of a file, over a faulty kernel |
| `Merging`, `VaultServices`, `Outcomes`, `Convergence` | the merge, the service class with its transactions, what each operation achieves and exactly when, and when two holders agree |
| `Replicas`, `ReplicaSafety`, `ReplicaRuns`, `ReplicaDeletion` | any number of services on one file as a step system with faults, kills and power losses; what its steps keep, and what holds over whole runs |
| `ReplicaRefinement` | the agreement of the step system with the service class |
| `Wire`, `Agents`, `AgentCalls` | framing, the daemon's session, and the client with the end-to-end claim |
| `Totp`, `Fuzzy`, `Export`, `ExportText`, `Audit`, `Workers` | the self-contained algorithms |

Each procedure is a method, with the loops and the state of the original, that is proved equal to
a specification function; the properties are lemmas about those functions. What the outside
decides (kernel answers, clock, salt and IV, scheduling) is a parameter, so every statement is for
all of it.

Conventions:

- Cryptography is a record of arbitrary functions. Where it matters, `Ideal` says that decryption
  inverts encryption and that a ciphertext opens only under its own key, IV and additional data,
  and that different passwords give different keys. `IdealIsInhabited` shows that this can be met.
- A kernel script is any finite list of short transfers, interruptions and failures; after it the
  kernel answers in full. Finiteness is what makes the retry loops end.
- `std::time` does not return zero.
- The step system keeps, beside what a running process sees in a file, the set of contents that
  may be found there after a power loss.

## Where the code does less than one might expect

For each of these there is the exact condition and an input at which the expectation fails.

- The file round trip fails above 500 MiB, the limit of `read_file`: the vault can still be
  written and is then refused by every load. `FileRoundTrip` gives the condition; below the limit
  no 32-bit length is ever cut, so none has to be assumed. `OversizedVaultIsLost` is such a vault.
- After a rekey, "new file implies new backup" needs the directory sync between the two writes,
  which is skipped when the directory cannot be opened. `RekeyCrashExact` gives the condition and
  `SkippedSyncExposesOldBackup` the runs in which it fails.
- A deletion is not global, because a merge consults only the tombstones of the one who merges.
  `DeletedReturnsIffHeld`: after an acknowledged deletion, the next save by another holder brings
  the service back if and only if that holder had it in memory. `GoneStaysGone`: once no memory and
  no content of the file has it, it does not come back by itself. `DeletionUndoneForReal` is a run
  of two instances in which it does come back.
- Last writer wins does not settle changes of the same second, because dates have seconds and a tie
  goes to whoever merges. `AgreesUnlessClash`: two holders agree on a service after a save of each if
  and only if they did not have different entries of one date. `ClashNeverSettles`: if they had, each
  keeps its own for ever and the file flips with every save, as in `FlipsForReal`.
- The JSON export is a JSON text, which has to be UTF-8, if and only if every field is UTF-8
  (`JsonTextRoundTrip`); `ForeignByteIsRefused` is an export that is not.
- The strength evaluator reaps its child once unless it had to kill it and the single blocking
  `waitpid` was interrupted. `Parent.Evaluate` states the condition and `LeavesAZombie` is such a call.
- A result that takes more than 2 MiB on the wire reaches the client as a lost connection, and a
  listing as an empty one, although the operation took place. `AgentEqualsDirect` gives the
  condition in terms of the direct call's result, `LongEntryIsLost` a vault.
- The two string decoders differ exactly on contents that are not valid UTF-8 (`DecodersAgree`),
  for example on the buffer of `DecodersDiffer`.
- The points of the fuzzy matcher fit a 32-bit `int` for all queries of a length if and only if it
  is at most 29,302 (`SumsFitInt32`); `ScoreBoundIsTight` gives the queries that exceed it.

## Model

| member | source | states |
|---|---|---|
| `ReplicaSafety.RekeyCrashSafe` | src/vault_service.cpp:45-68 | in every run, from any moment of a rekey through failures, kills, skipped syncs and power losses until a file is written again: the file is, complete, one that could be found before, or the new blob and this only after the vault file's rename; if it is none of those before and the directory was synced in between, file and backup are both the new blob; the new blob opens with the new password to the whole merged vault; while the power stays on, both files are new or the file is the one the merge read |
| `ReplicaSafety.RekeyMoment` | src/vault_service.cpp:45-68 | the same facts at every single moment of a rekey |
| `ReplicaSafety.KilledRekey` | src/vault_service.cpp:45-68 | a kill at any moment, and a power loss at any moment or after the kill |
| `ReplicaSafety.QuietRun` | src/local_storage.cpp:158-218 | between writes no run can add to what may be found in either file, and without a power loss both stay as they are |
| `ReplicaSafety.RekeyCrashExact` | src/local_storage.cpp:203-216 | exactly when every power loss that leaves the new file also leaves the new backup: the directory sync went through, or nothing else could have been in the backup |
| `ReplicaSafety.BackupSyncDecides` | src/local_storage.cpp:211-216 | the directory sync after the backup's rename leaves only the new backup; skipped, every older content may come back |
| `ReplicaRefinement.SkippedSyncExposesOldBackup` | src/local_storage.cpp:211-216 | every rekey without that sync passes a state from which a power loss leaves the new file beside any old backup |
| `ReplicaRuns.ServiceSurvives` | src/vault_service.cpp:18-43 | in every run, power losses included, and for files of every version and cost: if everything that may be found in the file holds a service, that stays so, with no older timestamp, until somebody who buried the service commits; what may be found later could be found before or is a package with the service |
| `ReplicaRuns.AllHoldMeans` | src/local_storage.cpp:203-217 | that hypothesis says exactly that no power loss now can leave a file without the service |
| `ReplicaRuns.ServiceStaysLive` | src/vault_service.cpp:18-43 | while the power stays on it is enough that the file itself, of whatever version, holds the service, synced or not |
| `ReplicaRuns.OlderFileHolds` | src/vault.cpp:200-228 | files of versions 1 and 2, with any costs within the limits, satisfy those hypotheses for every entry in them and for their password |
| `ReplicaRuns.CommitHolds` | src/vault_service.cpp:18-43 | a commit over a file that holds a service, of whatever version, writes a package that holds it, unless the committer buried it |
| `ReplicaRuns.AcknowledgedServiceSurvives` | src/vault_service.cpp:34-68 | after a save or rekey whose directory sync went through, every service in memory is in the file at every later moment of the run, until a burier commits |
| `ReplicaRuns.CommitReseals` | src/vault_service.cpp:18-60 | a commit replaces a package by one under its job's password that keeps every entry the committer had not buried, and only a holder of the old password can make it |
| `ReplicaDeletion.GoneStaysGone` | src/vault_service.cpp:18-43 | in every run, power losses included: once no memory, no load in progress and nothing that may be found in the file has a service, that stays so while nobody adds it |
| `ReplicaDeletion.DeletionUndone` | src/vault_service.cpp:18-43 | for every entry and cipher, a run in which one instance deletes the entry, another that changed nothing saves, and it is back |
| `ReplicaDeletion.DeletionUndoneForReal` | src/vault_service.cpp:21-25 | one such run with a given cipher, entry and password |
| `VaultServices.DeletedReturnsIffHeld` | src/vault_service.cpp:21-30 | after an acknowledged deletion, a save by another holder leaves the service in memory and file exactly as that holder had it |
| `Convergence.AgreesUnlessClash` | src/vault_service.cpp:21-30 | after a save of each of two holders they have the same entry for a service if and only if they did not clash on it, and the second has what the first had if and only if it had the same, nothing or something older |
| `Convergence.ClashNeverSettles` | src/vault_service.cpp:26-29 | different entries of one date stay different through any number of saves in any order with any faults, and whoever saved last has put its own into the file |
| `Convergence.FileFlips` | src/vault_service.cpp:26-29 | for any two such entries the file flips between two contents |
| `Convergence.FlipsForReal` | src/vault_service.cpp:26-29 | two given vaults and a cipher for which it does |
| `ReplicaSafety.CommitLosesOnlyWhatWasBuried` | src/vault_service.cpp:18-43 | a commit by any instance replaces the file by one that has every entry it read, no older, except its own tombstones |
| `ReplicaSafety.PasswordAgreement` | src/vault_service.cpp:39-68 | in every run of one instance, with faults, kills and power losses anywhere, the file opens with the password in memory, or, between the rename of a rekey and its memory commit, with the new one |
| `ReplicaSafety.StaleInstanceIsHarmless` | src/vault_service.cpp:18-68 | an instance whose password does not open the file changes neither the file nor the backup by any step |
| `ReplicaSafety.PasswordChangesOnlyByRekey` | src/vault_service.cpp:45-68 | the step after which a password no longer opens the file is a commit by a holder whose own password opened it: a rekey, or a save under another password that opened the same file |
| `ReplicaRuns.PasswordStays` | src/vault_service.cpp:34-68 | in every run, power losses included, and for files of every version and cost: if everything that may be found in the file opens with one password only, that stays so until somebody commits a rekey |
| `ReplicaSafety.OnlyWritersWrite` | src/vault_service.cpp:34-68 | only a rename onto the vault path changes the vault file, and only an instance past its merge changes either file |
| `ReplicaSafety.WritersHoldThePassword` | src/vault_service.cpp:18-68 | whoever writes holds the lock and a password that opens the file it is about to replace |
| `ReplicaSafety.CommittedBlob` | src/vault_service.cpp:34-60 | what a commit puts in place is the package of the merged memory under the password of its job |
| `ReplicaSafety.SurvivorsWereCommitted` | src/local_storage.cpp:158-218 | whatever is found after a power loss was, complete, the file at some earlier moment of the run |
| `ReplicaSafety.SyncedCommitIsDurable` | src/local_storage.cpp:209-217 | after the directory sync a power loss leaves the committed file |
| `ReplicaSafety.MutualExclusion` | src/local_storage.cpp:127-140 | at most one instance is inside a transaction, in every reachable state |
| `Replicas.StepKeepsInv` | src/vault_service.cpp:18-68 | every step, by any instance or by the outside, keeps the invariant of locks, files, memories and the transaction in progress |
| `Replicas.RunInv` | src/vault_service.cpp:18-68 | the invariant holds in every state of every run |
| `ReplicaRefinement.UndisturbedSaveIsSaved` | src/vault_service.cpp:39-43 | a successful save had the lock, and the steps of an undisturbed one, after an edit, a deletion or nothing, have together exactly the effect of the one-call `save` |
| `ReplicaRefinement.ThrowingSaveIsSaved` | src/vault_service.cpp:39-43 | the same for a save that throws, at the lock, the merge, the encryption, the write or the rename |
| `ReplicaRefinement.UndisturbedRekeyIsRekeyed` | src/vault_service.cpp:45-68 | the same for a successful rekey |
| `ReplicaRefinement.ThrowingRekeyIsRekeyed` | src/vault_service.cpp:45-68 | the same for a rekey to a non-empty password that throws, before, between or in its two writes |
| `ReplicaRefinement.EmptyRekeyTakesNoStep` | src/vault_service.cpp:46-48 | a rekey to the empty password has no first step and, in the one call, no effect |
| `ReplicaRefinement.UndisturbedRekey` | src/vault_service.cpp:45-63 | where a rekey stands, in memory and in both files, when it has renamed the vault file |
| `VaultServices.SaveJoins` | src/vault_service.cpp:18-43 | after a successful save, memory is the last-writer-wins join of memory and disk, the file decrypts to memory, no tombstone is left |
| `VaultServices.SecondSaveIsIdle` | src/vault_service.cpp:39-43 | saving again changes no entry and not their order; a file over the limit blocks every later save |
| `VaultServices.FailedSaveKeepsFile` | src/vault_service.cpp:34-43 | a save that throws leaves the file; in memory the edit, the password and the tombstones stay |
| `VaultServices.StalePasswordIsHarmless` | src/vault_service.cpp:18-68 | with a password that does not open the file, save and rekey change no file and nothing in memory |
| `VaultServices.RekeyIsTransactional` | src/vault_service.cpp:45-68 | a rekey that returns has the join under the new password in file, backup and memory; one that throws leaves the file, the password and the tombstones |
| `VaultServices.DeletionIsCommitted` | src/vault_service.cpp:142-149 | an acknowledged deletion is neither in memory nor in the file |
| `Outcomes.SaveSucceedsExactly` | src/vault_service.cpp:39-43 | a save succeeds if and only if the lock is had, the file, if any, is read and opens, a key can be derived, and the write meets no fault |
| `Outcomes.RekeySucceedsExactly` | src/vault_service.cpp:45-68 | a rekey succeeds if and only if the new password is not empty, the lock is had, the file is read and opens, a key can be derived, and neither write meets a fault |
| `Outcomes.NoLockNoChange` | src/local_storage.cpp:127-140 | without the lock a save or rekey fails and changes nothing in memory or on disk |
| `Outcomes.UnreadableNoChange` | src/vault_service.cpp:18-20 | with a file that cannot be read or opened it fails with that failure and changes nothing |
| `Outcomes.EmptyPasswordRefused` | src/vault_service.cpp:46-48 | a rekey to the empty password changes nothing, and no outcome makes the password in memory empty |
| `Outcomes.AddOutcome` | src/vault_service.cpp:70-99 | which check gives which refusal, with nothing changed; else it succeeds exactly if the save does, and then every lookup in memory is the new entry as given or the join, and the file holds that memory |
| `Outcomes.UpdateOutcome` | src/vault_service.cpp:101-128 | likewise: given fields replace the old ones, the others stay, the date is new, every other lookup is the join |
| `Outcomes.DeleteOutcome` | src/vault_service.cpp:142-149 | likewise: the service is gone, every other lookup is the join |
| `Outcomes.CodeOutcome` | src/vault_service.cpp:130-140 | codes have six digits and change every thirty seconds; each refusal has its cause |
| `Outcomes.LoadFileSucceedsExactly` | src/local_storage.cpp:70-100 | a file is loaded exactly if it is there, the kernel reports no failure before it is read, and it loads |
| `VaultServices.ReadVault` | src/local_storage.cpp:70-100 | loads the whole file or fails: missing, too large, read error, or what the package says |
| `VaultServices.OpenService` | src/vault_service.cpp:13-16 | a service starts with exactly the loaded vault and no tombstones, or throws what the load throws |
| `VaultServices.VaultService.MergeDiskState` | src/vault_service.cpp:18-32 | the loop computes the merge of memory and file; a failing load changes nothing |
| `VaultServices.VaultService.Save` | src/vault_service.cpp:34-43 | memory, directory and result are those of the specification, for every environment |
| `VaultServices.VaultService.Rekey` | src/vault_service.cpp:45-68 | likewise: backup first, file second, memory last |
| `VaultServices.VaultService.Add` | src/vault_service.cpp:70-99 | the checks in order, then the entry and a save |
| `VaultServices.VaultService.Update` | src/vault_service.cpp:101-128 | the checks in order, then the replacement with a new date and a save |
| `VaultServices.VaultService.GetTotpCode` | src/vault_service.cpp:130-140 | the code of the stored secret, or not found, or no secret |
| `VaultServices.VaultService.ListEntries` | src/vault_service.cpp:155-188 | everything in order without a query, else the matches by non-increasing score, ties in any order |
| `VaultServices.VaultService.Delete` | src/vault_service.cpp:142-149 | removal, tombstone and save, or nothing if absent |
| `Merging.MergeIsJoin` | src/vault_service.cpp:18-32 | the merge loop is the pointwise join: newer wins, ties go to memory, buried services are not taken from disk |
| `Merging.MergeIgnoresDiskOrder` | src/vault_service.cpp:21-30 | permuting the entries on disk changes no lookup |
| `Merging.MergeWithSelf` | src/vault_service.cpp:21-30 | merging a vault with its own entries changes nothing, not even the order |
| `Merging.MergeKeeps` | src/vault_service.cpp:21-30 | nothing on disk is lost or made older, except what is buried |
| `Storage.WriteIsAtomic` | src/local_storage.cpp:158-218 | success: the target holds exactly the data; failure: it is as before; no temporary file stays; nothing but target and backup is touched |
| `Storage.Disk.WriteFileAtomic` | src/local_storage.cpp:158-218 | for every script of faults it succeeds exactly if a fresh temporary name, open, transfer, fsync and rename all go through; at every moment the target is as before or the data, and then the data is on the medium |
| `Storage.BackupIsPrevious` | src/local_storage.cpp:186-196 | after a write with a backup that was copied, the backup is what the target was |
| `Storage.CompletesMeaning` | src/local_storage.cpp:25-41 | a transfer fails exactly if the kernel reports a failure before all is written |
| `Storage.ArrivesMeaning` | src/local_storage.cpp:47-68 | likewise for reading |
| `Storage.Disk.WriteAll` | src/local_storage.cpp:25-41 | writes all bytes over short writes and interruptions, fails exactly on an error |
| `Storage.ReadAll` | src/local_storage.cpp:47-68 | all bytes of the file or failure, never a part |
| `Storage.HarmlessScriptCompletes` | src/local_storage.cpp:25-41 | without errors every transfer completes |
| `VaultFile.FileRoundTrip` | src/vault.cpp:187-292 | loading a package under its password gives the same entries in the same order if and only if it is at most 500 MiB, and its first 48 bytes are the header it was sealed with |
| `VaultFile.OversizedVaultIsLost` | src/local_storage.cpp:70-100 | a vault that packages and then does not load |
| `VaultFile.OtherPasswordFails` | src/vault.cpp:187-246 | under any other password a package does not load |
| `VaultFile.UnsealPackage` | src/vault.cpp:187-292 | a package opens with exactly one password, to exactly the body it was made from |
| `VaultFile.ParsePackage` | src/vault.cpp:190-235 | the parsed header equals the header used as additional authenticated data |
| `VaultFile.ParseHeader` | src/vault.cpp:190-235 | every header of any version and cost parses back to what it was made from, or is refused exactly for an unknown version or excessive cost |
| `VaultFile.OlderFilesLoad` | src/vault.cpp:187-246 | files of versions 1 and 2, with any costs within the limits, load to their entries and open with their own password only; version 1 without header authentication |
| `VaultFile.HeaderIsAuthenticated` | src/vault.cpp:187-246 | no other 48 bytes before the ciphertext load under any password, not even as an older version |
| `VaultFile.IdealIsInhabited` | src/vault.cpp:251-292 | the assumptions on the cipher are consistent |
| `VaultFile.SerializeAndEncrypt` | src/vault.cpp:251-292 | produces the specified package or the key derivation's failure |
| `VaultFile.LoadVault` | src/vault.cpp:187-246 | the checks in order, all reads in range, the specified result |
| `VaultFile.LoadSucceedsExactly` | src/vault.cpp:187-246 | the exact condition, in bytes, under which a file loads |
| `VaultFile.HeaderExample` | src/vault.cpp:251-292 | the bytes of the header |
| `VaultFormat.ArbitraryBytesAreSafe` | src/vault.cpp:143-170 | every byte sequence under every version is rejected or gives pairwise distinct services with non-zero timestamps |
| `VaultFormat.BodyRoundTrip` | src/vault.cpp:128-170 | a written body of either layout reads back as the same entries in the same order |
| `VaultFormat.ReadStringExactly` | src/vault.cpp:78-89 | a string is read exactly where one was written; what is cut short is rejected |
| `VaultFormat.BodyExample` | src/vault.cpp:128-140 | the bytes of a small vault of versions 3 and 2 |
| `VaultFormat.Version2RoundTrip` | src/vault.cpp:143-170 | a version-2 body reads back as the same entries with empty secrets |
| `VaultFormat.AnyBodyReads` | src/vault.cpp:143-170 | a body with undated entries or repeated services reads as its entries dated and added in turn |
| `VaultFormat.LastEntryCounts` | src/vault.cpp:93-106 | of entries with the same service the last one counts |
| `VaultFormat.MissingDateIsForgiven` | src/vault.cpp:154-159 | at the end of the data the date may be missing, and the entry is dated now |
| `VaultFormat.MissingSecretIsForgiven` | src/vault.cpp:161-164 | so may the secret, in version 3 too |
| `VaultFormat.MissingStringIsRejected` | src/vault.cpp:143-153 | a missing string is not forgiven; no data are an empty vault |
| `VaultFormat.ShortBodyFits32` | src/vault.cpp:128-140 | a body below 4 GiB has no length that the 32-bit casts cut |
| `VaultFormat.Serialize` | src/vault.cpp:128-140 | the buffer is the specified body |
| `VaultFormat.Deserialize` | src/vault.cpp:143-170 | terminates, reads in range only, and yields the specified, well-formed result |
| `VaultFormat.Buffer.WriteUint32` | src/vault.cpp:21-28 | appends the four base-256 digits, least significant first |
| `VaultFormat.Buffer.WriteUint64` | src/vault.cpp:31-40 | appends the eight digits |
| `VaultFormat.Buffer.WriteString` | src/vault.cpp:43-46 | appends the length cut to 32 bits and the bytes |
| `VaultFormat.ReadUint32` | src/vault.cpp:51-62 | the number those digits denote, or rejection past the end |
| `VaultFormat.ReadUint64` | src/vault.cpp:65-75 | likewise for eight digits |
| `VaultFormat.ReadStr` | src/vault.cpp:78-89 | the announced bytes, or rejection if there are fewer |
| `Vaults.PutFind` | src/vault.cpp:93-106 | adding overrides one service and leaves every other lookup alone |
| `Vaults.PutWellFormed` | src/vault.cpp:93-106 | adding keeps services distinct and timestamps non-zero |
| `Vaults.PutOrder` | src/vault.cpp:93-106 | an entry is replaced where it stands or comes last, nothing else moves |
| `Vaults.StampedMeaning` | src/vault.cpp:95-97 | only a missing date is filled in |
| `Vaults.RemoveFind` | src/vault.cpp:108-116 | removing drops one service and leaves every other lookup alone |
| `Vaults.FindByMembership` | src/vault.cpp:118-125 | lookups do not depend on the order of the entries |
| `Vaults.Vault.AddEntry` | src/vault.cpp:93-106 | replaces in place or appends, dates an undated entry, keeps the vault well-formed |
| `Vaults.Vault.RemoveEntry` | src/vault.cpp:108-116 | removes every entry of the service and says whether there was one |
| `Vaults.Vault.GetEntry` | src/vault.cpp:118-125 | the entry of the service, if any |
| `Agents.ServedExactlyWhenLicensed` | src/agent_server.cpp:210-302 | over every trace, whatever other processes do to the files, a data command is refused as locked if and only if no earlier unlock, with a password that opened the file found there, still holds: no LOCK, STOP or signal since, and no loop head after the idle limit |
| `Agents.SessionInvariant` | src/agent_server.cpp:104-144 | in every trace the session is open exactly while such an unlock exists, with the password of the last one, and dates from the last unlock or data command |
| `Agents.IdleExpiryLocks` | src/agent_server.cpp:135-144 | the first loop head at or after the idle limit locks, whatever else was asked meanwhile |
| `Agents.EndsLocked` | src/agent_server.cpp:99-102 | whatever ends the loop leaves the agent locked and not running, for good |
| `Agents.PingAndStatusAreSilent` | src/agent_server.cpp:269-302 | PING and STATUS change nothing, so they do not extend the session |
| `Agents.StatusIsAccurate` | src/agent_server.cpp:281-287 | with idle time d below T the remaining value r satisfies r - 1 < T - d <= r |
| `Agents.HandleKeepsSession` | src/agent_server.cpp:258-536 | which requests open, close, extend or stop, for every packet |
| `Agents.UnlockOutcome` | src/agent_server.cpp:114-133 | UNLOCK is answered OK exactly if its string opens the file, and then the session holds just that vault and password; else the reply is ERROR and the agent is as it was |
| `Agents.WrongPasswordIsRefused` | src/agent_server.cpp:114-133 | a vault file answers to its own password only |
| `Agents.UnlockIsAnswered` | src/agent_server.cpp:303-323 | in a trace the reply OK to UNLOCK is given exactly at such an unlock |
| `Agents.HandleKeepsPassword` | src/agent_server.cpp:334-527 | nothing but UNLOCK changes the password of an open session |
| `Agents.ReplyStatus` | src/agent_server.cpp:258-536 | reply and effect of every other packet by the numbers of the protocol: malformed before locked before served, and which status each outcome has |
| `Agents.StatusOutcome` | src/agent_server.cpp:273-302 | the nine bytes of STATUS: open or not, seconds left, number of entries |
| `Agents.AgentServer.CheckIdleTimeout` | src/agent_server.cpp:135-144 | drops the vault exactly when the truncated idle time has reached the limit |
| `Agents.AgentServer.HandleClient` | src/agent_server.cpp:258-536 | decodes, calls the service object, and leaves the specified state and reply for every opcode and payload; a listing is one that entries and query allow |
| `Agents.AgentServer.Status` | src/agent_server.cpp:273-302 | the open flag, the remaining seconds and the number of entries |
| `Agents.AgentServer.HandleUnlock` | src/agent_server.cpp:114-133 | opens the service object and dates the session, or leaves the session as it was and says why |
| `Agents.AgentServer.HandleGet` | src/agent_server.cpp:334-377 | the entry's four strings, or malformed, locked or not found |
| `Agents.AgentServer.HandleAdd` | src/agent_server.cpp:378-413 | the four strings in order go to the service's add; malformed, locked or its failure otherwise |
| `Agents.AgentServer.HandleDelete` | src/agent_server.cpp:414-448 | likewise for delete |
| `Agents.AgentServer.HandleList` | src/agent_server.cpp:449-487 | calls the service's listing with the query, a missing one being empty, and replies with it; or locked |
| `Agents.AgentServer.HandleTotp` | src/agent_server.cpp:488-527 | the code and its remaining seconds, or malformed, locked or the service's failure |
| `Agents.AgentServer.TakeTurn` | src/agent_server.cpp:210-251 | one iteration: the idle check, then the request on whatever files are found |
| `Agents.AgentServer.ListPayload` | src/agent_server.cpp:466-477 | the count, then service and user name of every entry in order |
| `Agents.AgentServer.Run` | src/agent_server.cpp:207-256 | the loop takes the agent through exactly the specified states and replies; once it is told to stop it ends locked |
| `AgentCalls.AgentEqualsDirect` | src/agent_server.cpp:334-527 | on an open session, a request within 2 MiB leaves memory and disk as the direct call does and gives its result if that takes at most 2 MiB, else a lost connection |
| `AgentCalls.ReplySize` | src/agent_server.cpp:334-527 | the size of every reply, from the result of the direct call: 16 plus four lengths for an entry, 4 plus 8 and two lengths per row for a listing |
| `AgentCalls.LongEntryIsLost` | src/ipc.cpp:119-127 | an entry with a password of 2 MiB, which the service returns and the agent cannot deliver |
| `AgentCalls.SearchThroughAgent` | src/agent_server.cpp:449-487 | a search through the agent returns exactly the matching entries, with multiplicity, best score first |
| `AgentCalls.RequestRoundTrip` | src/ipc.cpp:329-512 | the server decodes every client request to what was meant |
| `AgentCalls.DecodeExactly` | src/agent_server.cpp:334-500 | a packet is taken for a request if and only if it has the opcode and begins with its strings, a listing without a string being one without a query |
| `AgentCalls.ServedIsDirect` | src/agent_server.cpp:334-527 | the client understands every reply as the result of the service |
| `AgentCalls.EntryRoundTrip` | src/ipc.cpp:355-364 | the four strings of an entry survive the wire |
| `AgentCalls.ListingRoundTrip` | src/ipc.cpp:469-486 | a listing survives the wire, all rows in order |
| `AgentCalls.CodeRoundTrip` | src/ipc.cpp:488-530 | a code and its remaining seconds survive the wire |
| `AgentCalls.StatusRoundTrip` | src/ipc.cpp:237-266 | the client learns whether the session is open, the seconds left and the number of entries |
| `AgentCalls.RequestExamples` | src/ipc.cpp:109-117 | the bytes of a request of each kind |
| `AgentCalls.DecodeListing` | src/ipc.cpp:469-486 | the client's loop reads the specified rows from any payload |
| `AgentCalls.Call` | src/ipc.cpp:329-530 | one whole connection over short transfers, interruptions and failures: the request is handled as sent or not at all, and the client gets the agent's answer or the source's error; without failures it gets the answer |
| `Wire.FramingIsUnambiguous` | src/ipc.cpp:109-147 | a stream splits into a first packet and a rest in one way only |
| `Wire.ReceiveAll` | src/ipc.cpp:119-147 | from any packets concatenated, in any splits, exactly those packets come out in order and nothing beyond is consumed |
| `Wire.FrameLayout` | src/ipc.cpp:109-117 | where length, opcode and payload stand in a frame |
| `Wire.OverlongIsRejected` | src/ipc.cpp:124-127 | a packet over 2 MiB and below 4 GiB is never accepted |
| `Wire.WithinLimitIsAccepted` | src/ipc.cpp:119-147 | a packet of at most 2 MiB is accepted as itself |
| `Wire.WritePacket` | src/ipc.cpp:149-154 | the frame goes out whole and in order, or a proper part and failure |
| `Wire.Socket.ReadAll` | src/ipc.cpp:33-49 | exactly the requested bytes in order; without errors it fails only at the end of the stream |
| `Wire.Socket.ReadPacket` | src/ipc.cpp:119-147 | the first packet and nothing after it; without errors it succeeds exactly if the stream begins with one |
| `Wire.ExtractStr` | src/ipc.cpp:51-85 | extracting at an appended string gives it back and moves past it |
| `Wire.ExtractExactly` | src/ipc.cpp:75-85 | a string is extracted if and only if it stands there as appended; the offset afterwards in every case |
| `Wire.ExtractString` | src/ipc.cpp:75-85 | all reads in range; the specified string and offset for any buffer and offset |
| `Wire.ExtractStringRust` | apps/desktop/src-tauri/src/ipc/protocol.rs:50-77 | likewise for the Rust decoder |
| `Wire.DecodersAgree` | apps/desktop/src-tauri/src/ipc/protocol.rs:50-77 | both decoders leave the same offset, and give the same answer if and only if the content is valid UTF-8 |
| `Wire.DecodersDiffer` | apps/desktop/src-tauri/src/ipc/protocol.rs:75-77 | a buffer on which they differ |
| `Totp.DecodeBase32` | src/totp.cpp:11-46 | despite the unmasked 32-bit accumulator, n significant characters give the leading floor(5n/8) bytes of their bits; anything foreign is rejected |
| `Totp.LowBitsSuffice` | src/totp.cpp:33-41 | wrap-around of the accumulator loses no bit that is still to be emitted |
| `Totp.DecodeInvertsEncode` | src/totp.cpp:11-46 | a text with the digits of the encoding of a non-empty byte string decodes to it |
| `Totp.EverySpellingDecodes` | src/totp.cpp:11-46 | the same for either case of every letter and any spaces, hyphens and padding |
| `Totp.DecodesExactly` | src/totp.cpp:11-46 | a text is decoded if and only if all characters are of the alphabet or skipped and at least two are significant |
| `Totp.AlphabetMeaning` | src/totp.cpp:19-31 | the alphabet of section 6 of RFC 4648 in either case |
| `Totp.SkippedMeaning` | src/totp.cpp:17-18 | exactly blank, hyphen and equals sign are skipped |
| `Totp.TruncateMeaning` | src/totp.cpp:84-87 | the four bytes at the offset in the last nibble, big-endian, without the sign bit |
| `Totp.TruncationExample` | src/totp.cpp:84-94 | the example of section 5.4 of RFC 4226 |
| `Totp.TotpSucceedsExactly` | src/totp.cpp:50-55 | a code is produced exactly for a non-zero step, six to eight digits and a secret that decodes |
| `Totp.ZeroMeansNow` | src/totp.cpp:57-59 | a zero timestamp is the present, any other is taken as it is |
| `Totp.TotpMeaning` | src/totp.cpp:48-103 | exactly `digits` decimal digits of the truncated HMAC modulo a power of ten; remaining is in 1..step and ends at the next step |
| `Totp.TimeBytes` | src/totp.cpp:69-74 | the eight big-endian bytes of the time step |
| `Totp.GenerateTotp` | src/totp.cpp:48-103 | the specified code or failure, with every truncation read in range |
| `Fuzzy.PositiveExactlyOnSubsequences` | src/utils.cpp:43-89 | the greedy matcher scores above zero if and only if the query is a case-insensitive subsequence |
| `Fuzzy.ScoreMeaning` | src/utils.cpp:43-89 | the score is what the leftmost embedding is worth: ten per match, five per predecessor in a row, twenty-five at the start of a word, less two per surplus character, at least one |
| `Fuzzy.LowerMeaning` | src/utils.cpp:53-56 | characters match exactly if equal or one letter in both cases |
| `Fuzzy.ScoreBound` | src/utils.cpp:43-89 | at most 35q + 5q(q-1)/2 for a query of length q |
| `Fuzzy.ScoreBoundIsTight` | src/utils.cpp:55-70 | n dots in n dots reach that bound |
| `Fuzzy.SumsFitInt32` | src/utils.cpp:55-70 | the points of every query of length n fit a 32-bit `int` if and only if n is at most 29,302 |
| `Fuzzy.ScoresFitInt32` | src/utils.cpp:48-85 | then, for targets below 1 GiB, so does everything else the matcher computes |
| `Fuzzy.FuzzyMatch` | src/utils.cpp:43-89 | the loop computes the specified score |
| `Fuzzy.MatchingCounts` | src/vault_service.cpp:166-178 | the filter keeps, with multiplicity, exactly the entries of whose service the query is a subsequence |
| `Fuzzy.ListEntries` | src/vault_service.cpp:155-188 | without a query everything in order, else a permutation of the matches by non-increasing score |
| `Export.CsvRoundTrip` | src/export_command.cpp:114-145 | a reader for section 2 of RFC 4180 recovers header, records and fields, each field in its shielded form |
| `Export.RecordAt` | src/export_command.cpp:135-144 | record i has the four shielded fields of entry i |
| `Export.ShieldDisarms` | src/export_command.cpp:116-121 | no recovered field starts with one of = + - @ tab or carriage return; exactly those that did get an apostrophe in front |
| `Export.JsonRoundTrip` | src/export_command.cpp:147-211 | a reader for JSON arrays of objects on bytes, strings by section 7 of RFC 8259, accepts the output and recovers one object per entry |
| `ExportText.JsonTextRoundTrip` | src/export_command.cpp:147-211 | a reader that insists on UTF-8, as section 8.1 of RFC 8259 does, recovers every vault whose fields are UTF-8 and refuses the export of every other |
| `ExportText.JsonIsUtf8` | src/export_command.cpp:147-211 | the document is UTF-8 if and only if every field is |
| `ExportText.ForeignByteIsRefused` | src/export_command.cpp:173-180 | a vault whose export is refused |
| `Export.ObjectAt` | src/export_command.cpp:189-209 | object i has the four fields of entry i, byte for byte, under their names |
| `Export.Output.WriteCsvField` | src/export_command.cpp:114-130 | appends the quoted, shielded field |
| `Export.Output.WriteCsv` | src/export_command.cpp:132-145 | appends the specified table |
| `Export.Output.WriteEscape` | src/export_command.cpp:150-181 | the switch writes the escape of every character |
| `Export.Output.WriteJsonString` | src/export_command.cpp:147-184 | appends the escaped string |
| `Export.Output.WriteJson` | src/export_command.cpp:186-211 | appends the specified document |
| `Audit.ReuseReport` | src/audit_engine.cpp:88-100 | in whatever order the table is walked, `reused_with` of an entry names exactly the others with its hash, in vault order; `reused_passwords` is the number of shared hashes |
| `Audit.OthersMeaning` | src/audit_engine.cpp:91-98 | the list of an entry has the names at exactly the positions of other entries with its hash, ascending |
| `Audit.SharedMeaning` | src/audit_engine.cpp:88-90 | a hash is counted exactly if two different entries have it |
| `Audit.CountMeaning` | src/audit_engine.cpp:31-54 | the size of a group is the number of its positions |
| `Audit.ReuseConservation` | src/audit_engine.cpp:88-100 | the lengths of all lists add up to the sum of k(k-1) over the groups |
| `Audit.GroupByHash` | src/audit_engine.cpp:31-54 | the table maps every hash to the ascending positions of its entries |
| `Audit.LinkGroup` | src/audit_engine.cpp:91-98 | the two inner loops extend exactly the lists of the group's members |
| `Prelude.CStrMeaning` | src/audit_engine.cpp:39-40 | a reported name is the service up to its first NUL |
| `Workers.Parent.Evaluate` | src/entropy_evaluator.cpp:108-310 | every opened pipe end is closed exactly once; killed exactly when not seen to exit in time; reaped once unless killed and the blocking wait failed; how much of the message was sent; which exception; a score exactly when 21 bytes arrived and the exit code was 0, and it is the one in those bytes |
| `Workers.LeavesAZombie` | src/entropy_evaluator.cpp:181-185 | a call after which the child was killed and not reaped |
| `Workers.ReturnedScoreIsTheRating` | src/entropy_evaluator.cpp:152-310 | end to end, a returned score is the worker's rating of exactly the password, which had at most 4096 bytes |
| `Workers.WorkerRatesThePassword` | src/entropy_worker_main.cpp:88-161 | a worker that exits with 0 got the whole message and answers with the rating of the password |
| `Workers.RateMeaning` | src/entropy_worker_main.cpp:103-127 | the thresholds of the score and of weakness; only what is before the first NUL is rated |
| `Workers.WorkerExits` | src/entropy_worker_main.cpp:78-161 | which exit code each case has; 0 exactly with a full answer |
| `Workers.MessageExample` | src/entropy_evaluator.cpp:163-170 | the bytes of a message and of an answer |
| `Workers.ScoreRoundTrip` | src/entropy_worker_main.cpp:129-152 | decoding the 21 bytes gives back the encoded score, signed value, both doubles bit for bit, and flag |
| `Workers.CompleteHasAll` | src/entropy_evaluator.cpp:179-253 | the poll loop completes only if the child wrote enough |
| `Workers.PatienceCompletes` | src/entropy_evaluator.cpp:179-253 | without failures, as many offers of data as bytes are enough, however they are split |
| `Workers.AfterIdling` | src/entropy_evaluator.cpp:179-253 | after turns that bring nothing, what the first other turn brings decides how the loop ends; without one the deadline does |
| `Workers.AwaitMeaning` | src/entropy_evaluator.cpp:264-274 | a status is collected exactly if only running or interrupted answers come before it |
| `Workers.ReturnsExactly` | src/entropy_evaluator.cpp:261-284 | a score needs a complete answer and a collected exit with 0; the kill comes exactly on giving up or if no exit is collected |
| `Workers.PatienceDelivers` | src/entropy_evaluator.cpp:219-240 | as long as the pipe does not break, as many turns that accept data as there are bytes send the whole message |
| `Workers.ClosedSendsNothing` | src/entropy_evaluator.cpp:194-199 | once the pipe is closed nothing more is sent |
| `Workers.Parent.Converse` | src/entropy_evaluator.cpp:172-253 | the loop ends as specified, collects a prefix of the child's output, sends as much of the message as specified, kills exactly when it gives up |
| `Workers.Parent.Feed` | src/entropy_evaluator.cpp:219-240 | what one turn sends and when it closes the pipe to the child |
| `Workers.Parent.Collect` | src/entropy_evaluator.cpp:261-280 | the status before the deadline, or a kill |
| `Workers.WriteScore` | src/entropy_worker_main.cpp:129-152 | assembles the specified 21 bytes |
| `Workers.ReadScore` | src/entropy_evaluator.cpp:286-309 | reads the specified score from any 21 bytes |

## Left out

- OpenSSL, Argon2, HMAC, SHA, zxcvbn and curl: parameters; the random salt and IV are arbitrary.
- Memory hygiene (secure heap, cleansing, protected strings) and allocation failure: secure strings are byte sequences.
- Command line, shell, clipboard, terminal, desktop user interface, configuration file.
- Socket set-up, peer credentials, signal masks, daemonisation, lookup of the worker's path, the connect failures of the client, and its PING, STATUS, UNLOCK, LOCK and STOP calls.
- Online breach check, stale flag and report text of the audit; `is_reused`, which has no initial value, is left to `reused_with`.
- Creation of a first vault; the vault file being removed or replaced by something outside DuckPass while a service runs.
- The test hook before the rename.
- Buffers of 4 GiB and more: packets and strings whose length wraps around on the wire, and the message buffer of a password of 4 GiB in the strength evaluator.
- JSON escapes beyond code point 127, which the printer never writes, and surrogate pairs.
- Temporary files in the step system: their names are unique and `Storage` shows that they are removed; a killed process may leave one behind.
- Listing order among equal scores: the library's sort may return any, so the listing is specified up to ties, and `ListEntries` uses an insertion sort in its place.
- Fuzzy.FuzzyMatch: scores are unbounded integers; `SumsFitInt32` and `ScoresFitInt32` say when that is exact; what the source does on overflow is undefined.
- Workers.WorkerMain: the worker's own read and write loops are represented by their outcome; they are the loops of `Wire` and `Storage`. The worker reads the length of its input in the byte order of its machine; the model reads it little-endian, as it is written.
- Replicas: the lock is one flag, released when its holder dies, as advisory locks are; a power loss keeps no process.
