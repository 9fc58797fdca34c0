# distrilock lock coordinator, in Dafny

distrilock is a lock daemon. Clients hold a connection (a *session*) and
send requests to acquire, release, peek at or verify a named lock. The
daemon backs each lock name with a file in a lock directory and holds a
POSIX `fcntl` write lock on that file. Because the file lock is what other
daemons on the same directory see, several daemons (on one host or over
NFS) exclude each other.

This project models the coordinator at the heart of the daemon:

- `api/core/process.go`, the current coordinator. It keeps two registry
  maps, lock name -> open file and open file -> session. On them it
  implements `ProcessRequest` (name validation and dispatch), `acquire`
  with its `shortAcquire` fast path, `release`, `peek`, `verifyOwnership`
  and `ProcessDisconnect`.
- `cli/distrilock/process.go`, the earlier revision of the same
  coordinator. Its rules differ: no `_` in names, no `.lck` extension, no
  Verify, a `Denied` answer to other sessions, a write of the client
  identity into the file, and a release that unlocks before it checks the
  owner.
- `api/models.go`, the wire vocabulary: the command and result codes, the
  request and response records, the version constants and the two
  `String` renderings.

Files:

- `wrappers.dfy` (`Wrappers`): `Option` and `Result`.
- `protocol.dfy` (`Protocol`): the wire vocabulary.
  - `LockCommand` and `LockCommandResult` are byte-valued, with their named codes.
  - `CommandString` and `ResultString` render codes.
  - `ErrorText` builds the text the client library reports (`api/client/client.go:46-48`).
- `posix.dfy` (`Posix`): the operating system the coordinator calls.
  - A `Kernel` class records which backing files exist, which files
    another process holds a lock on, and which files this process holds a
    lock on.
  - Its methods model `open`, `remove`, `write`, `close` and the three
    `fcntl` calls of `fcntl_locks.go`.
  - A failure the lock state does not explain arrives as a `Faults` record:
    one optional errno per system call.
- `books.dfy` (`Books`): the two registry maps as values.
  - `Indexed` holds when the maps agree: a file has an owner record exactly
    when it is registered under a name, and that name is the one its path
    spells. This makes the "BUG: missing resource acquired by record"
    panics unreachable.
  - Lemmas say what registering, unregistering and disconnecting do to the maps.
- `registry.dfy` (`Registry`): the current coordinator as a state machine
  on values.
  - The state is name -> owner, files on disk, and files locked by other
    processes.
  - It holds the operations, the invariant `Consistent`, and the properties.
- `core.dfy` (`Core`): the `Coordinator` class with the two maps, updated in
  place. Every request-level method (`Acquire`, `Peek`, `Release`,
  `Verify`, `ProcessDisconnect`, `ProcessRequest`) is proved to perform the
  `Registry` step on the abstract view and to keep `Valid()`. The helpers
  `ShortAcquire`, `CloseSessionFiles`, `ForgetFile` and `ForgetFiles` have
  contracts of their own. `ProcessDisconnect` keeps the source's two loops.
- `legacy_registry.dfy` (`LegacyRegistry`) and `legacy.dfy` (`Legacy`): the
  same pair for `cli/distrilock/process.go`. This revision can drop a lock
  while keeping its registration, so the files this process holds a lock on
  are part of its state.

Two facts about the source that a reader might not expect:

- Acquire of a name that another session of the same daemon holds answers
  `Failed` with "resource acquired through a different session"
  (`api/core/process.go:112-113`). The text "resource acquired by different
  process" is only for another process's file lock
  (`api/core/process.go:151-153`).
- The two source files of the earlier revision do not agree with each
  other. `cli/distrilock/process.go:70` calls `isUnlocked`, but the file
  beside it defines only `peekLock`, with the opposite polarity
  (`cli/distrilock/fcntl_locks.go:21-33`). The model gives that call the
  meaning of `isUnlocked` in `api/core/fcntl_locks.go:33-46`, which is what
  the call site expects.

## Model

| member | source | states |
|---|---|---|
| Protocol.Decimal | api/models.go:78 | `%d` of a code: a non-empty digit string that reads back as the number |
| Protocol.CommandString | api/models.go:65-79 | the rendering of a command code: its name for codes 0..4, `UNKNOWN_LOCK_COMMAND(n)` above; its properties are `CommandStringInjective` and `CommandStringUnknown` |
| Protocol.ResultString | api/models.go:82-96 | the rendering of a result code: its name for codes 0..4, `UNKNOWN_LOCK_COMMAND_RESULT(n)` above; its properties are `ResultStringInjective` and `ResultStringUnknown` |
| Protocol.ErrorText | api/client/client.go:46-48 | a client error reads as the result's rendering, ": ", then the reason; `Registry.DoubleRelease` pins down "Failed: lock not found" |
| Protocol.BracketedDecimalInjective | api/models.go:78 | `prefix(n)` renderings of two numbers are equal only when the numbers are |
| Protocol.CommandStringInjective | api/models.go:65-79 | distinct command codes (all 256 byte values) render to distinct strings |
| Protocol.ResultStringInjective | api/models.go:82-96 | distinct result codes render to distinct strings |
| Protocol.CommandStringUnknown | api/models.go:65-79 | a command renders in the `UNKNOWN_LOCK_COMMAND(` form exactly when its code is above Verify (4) |
| Protocol.ResultStringUnknown | api/models.go:82-96 | a result renders in the `UNKNOWN_LOCK_COMMAND_RESULT(` form exactly when its code is above InternalError (4) |
| Posix.Kernel.AcquireLockDirect | api/core/fcntl_locks.go:23-31 | F_SETLK write lock: the injected error, EAGAIN when another process holds the file, otherwise the file is locked by this process |
| Posix.Kernel.IsUnlocked | api/core/fcntl_locks.go:33-46 | F_GETLK: unlocked exactly when no other process holds the file; this process's own lock never shows |
| Posix.Kernel.ReleaseLock | api/core/fcntl_locks.go:48-56 | F_UNLCK: drops this process's lock unless the call fails |
| Posix.Kernel.Open | api/core/process.go:139 | `os.OpenFile`: the injected error; without O_CREATE a missing file is ENOENT; otherwise a fresh file object on the path, which O_CREATE makes exist |
| Posix.Kernel.Close | api/core/process.go:83 | `f.Close()`: drops this process's lock on the file and nothing else |
| Posix.Kernel.Remove | api/core/process.go:247 | `os.Remove`: the injected error, ENOENT for a missing file, otherwise the file is gone |
| Posix.Kernel.Write | cli/distrilock/process.go:133 | `f.Write`: the injected error or nothing; contents are not modelled |
| Books.BackingPathInjective | api/core/process.go:139 | within one directory, distinct lock names have distinct backing files |
| Books.UnregisteredPathFree | api/core/process.go:139 | the backing file of an unregistered name is no registered name's file |
| Books.Register | api/core/process.go:162-163 | adding name -> file and file -> session keeps the maps indexed, gives the name to the session, and adds exactly the file's path to the held paths |
| Books.Unregister | api/core/process.go:244-245 | deleting both entries keeps the maps indexed, removes exactly that name's owner, and frees exactly its path |
| Books.Disconnect | api/core/process.go:76-96 | dropping a session's files and then their names keeps the maps indexed, and removes exactly that session's names and paths |
| Books.DroppedPaths | api/core/process.go:76-88 | the files the first disconnect loop closes are the backing files of exactly the names the session owns |
| Registry.ValidLockName | api/core/process.go:32 | `^[A-Za-z0-9.\-_]+$`: non-empty, and every character in the alphabet |
| Registry.LockPathInjective | api/core/process.go:139 | `directory + name + ".lck"` determines the name |
| Registry.ShortAcquire | api/core/process.go:101-120 | acquire of a registered name: "no-op" Success for the owner, Failed "resource acquired through a different session" for others |
| Registry.Acquire | api/core/process.go:101-168 | the acquire step on the abstract state; characterised by `AcquireRegistered`, `AcquireUnregistered` and `AcquirePreservesConsistent` |
| Registry.Peek | api/core/process.go:170-199 | the peek step, which never changes the state; characterised by `PeekReports` and `PeekPredictsAcquire` |
| Registry.Release | api/core/process.go:201-256 | the release step; characterised by `ReleaseUnregistered`, `ReleaseByOwner`, `DoubleRelease`, `MutualExclusion` and `ReleasePreservesConsistent` |
| Registry.Verify | api/core/process.go:259-310 | the verify step, which never changes the state; characterised by `VerifyReports` and `MutualExclusion` |
| Registry.ProcessDisconnect | api/core/process.go:70-99 | the disconnect step; characterised by `DisconnectDropsExactly`, `DisconnectIdempotentAndCommutes` and `DisconnectReclaims` |
| Registry.ProcessRequest | api/core/process.go:39-67 | validation and dispatch; characterised by `ResponseEchoesRequest`, `BadRequestsChangeNothing`, `OnlyAcquireAndReleaseChangeState` and `ProcessRequestPreservesConsistent` |
| Registry.ForeignRemoveBreaksConsistent | api/core/process.go:238-247 | once another process unlinks the backing file of a registered name (as a second daemon's release does after its unlock), the registry no longer describes the host |
| Registry.AcquirePreservesConsistent | api/core/process.go:122-168 | acquire keeps every registered name's file existing and free of other processes' locks |
| Registry.ReleasePreservesConsistent | api/core/process.go:201-256 | release keeps the registry consistent with the host |
| Registry.DisconnectPreservesConsistent | api/core/process.go:70-99 | disconnect keeps the registry consistent with the host |
| Registry.ForeignStepsPreserveConsistent | api/core/fcntl_locks.go:23-31 | another process locking or unlocking a file keeps the registry consistent, because the kernel refuses it a held file |
| Registry.ProcessRequestPreservesConsistent | api/core/process.go:39-67 | every request, valid or not, keeps the registry consistent |
| Registry.ResponseEchoesRequest | api/core/process.go:40-43 | the response carries the request's command and name, version 0.1, and isLocked only for Peek |
| Registry.BadRequestsChangeNothing | api/core/process.go:45-64 | an invalid name gives BadRequest "invalid lock name", a command outside Peek..Verify gives BadRequest "unknown command", and neither changes anything |
| Registry.OnlyAcquireAndReleaseChangeState | api/core/process.go:52-64 | Peek, Verify and unknown commands leave the state unchanged |
| Registry.AcquireUnregistered | api/core/process.go:138-167 | acquire of a new name: Success exactly when open and F_SETLK succeed, and then the name, and only it, becomes the client's; busy is Failed "resource acquired by different process" and Failed has no other reason; an open error and any other F_SETLK error are InternalError; failures leave the owners unchanged |
| Registry.AcquireRegistered | api/core/process.go:101-136 | acquire of a registered name changes nothing: "no-op" Success for the owner, Failed "resource acquired through a different session" for others |
| Registry.MutualExclusion | api/core/process.go:101-136 | while one session owns a name, another session's Acquire, Release and Verify are all refused and change nothing |
| Registry.ForeignLockExcluded | api/core/process.go:146-158 | no other process can take the file lock of a registered name |
| Registry.ReleaseUnregistered | api/core/process.go:204-208 | release of a name that is not registered is Failed "lock not found", whoever asks, in every state, and changes nothing |
| Registry.ReleaseByOwner | api/core/process.go:238-255 | the owner's release: a failed unlock is InternalError and changes nothing; otherwise the name is purged, and the file is removed (Success) or the remove error is InternalError |
| Registry.DoubleRelease | api/core/process.go:201-208 | a second release finds nothing and changes nothing, and the client's error text is "Failed: lock not found" |
| Registry.ReleaseThenAcquire | api/core/process.go:201-256 | after the owner's release, another session acquires the name |
| Registry.PeekReports | api/core/process.go:170-199 | Peek: true for a registered name; false for a missing file (ENOENT); otherwise whether another process holds the file; any other failure is InternalError and not locked |
| Registry.PeekPredictsAcquire | api/core/process.go:170-199 | without faults, Peek says locked exactly when a non-owner's Acquire would be refused |
| Registry.VerifyReports | api/core/process.go:259-310 | Verify refuses as Release does; for the owner, re-locking gives Success, Failed "resource acquired by different process" on busy, InternalError otherwise |
| Registry.DisconnectDropsExactly | api/core/process.go:70-99 | disconnect removes exactly the session's names and keeps every other session's, files untouched |
| Registry.DisconnectIdempotentAndCommutes | api/core/process.go:70-99 | disconnecting twice is disconnecting once, and disconnects of two sessions commute |
| Registry.DisconnectReclaims | api/core/process.go:70-99 | after the owner disconnects, another session acquires the name even though the backing file stays on disk |
| Registry.Scenario | api/core/process.go:39-67 | A acquires job1; B is refused and peeks it locked; A releases; B acquires and verifies it; B disconnects; C acquires it |
| Core.Coordinator.Valid | api/core/process.go:31-36 | the maps are indexed, the held file locks are exactly the registered files, and this implies `Registry.Consistent` |
| Core.Coordinator.constructor | api/core/process.go:31-36 | a daemon starts with empty maps and no locks |
| Core.Coordinator.ShortAcquire | api/core/process.go:101-120 | the fast path answers as `Registry.ShortAcquire` |
| Core.Coordinator.Acquire | api/core/process.go:122-168 | performs `Registry.Acquire` on the abstract view and keeps `Valid` |
| Core.Coordinator.Peek | api/core/process.go:170-199 | performs `Registry.Peek` and changes neither map nor the abstract state |
| Core.Coordinator.Release | api/core/process.go:201-256 | performs `Registry.Release` and keeps `Valid` |
| Core.Coordinator.Verify | api/core/process.go:259-310 | performs `Registry.Verify` and changes neither map nor the abstract state |
| Core.Coordinator.CloseSessionFiles | api/core/process.go:73-88 | the first loop: closes and disowns exactly the session's files, dropping exactly their locks |
| Core.Coordinator.ForgetFile | api/core/process.go:90-95 | the inner loop: removes the one name registered with the dropped file |
| Core.Coordinator.ForgetFiles | api/core/process.go:89-96 | the second loop: removes exactly the names whose file was dropped |
| Core.Coordinator.ProcessDisconnect | api/core/process.go:70-99 | performs `Registry.ProcessDisconnect` and keeps `Valid` |
| Core.Coordinator.ProcessRequest | api/core/process.go:39-67 | performs `Registry.ProcessRequest` and keeps `Valid` |
| LegacyRegistry.ValidLegacyName | cli/distrilock/process.go:18 | `^[A-Za-z0-9.\-]+$`: non-empty, every character in the alphabet without `_` |
| LegacyRegistry.Acquire | cli/distrilock/process.go:108-160 | the acquire step, with the write of the client identity; characterised by `AcquireRegistered`, `AcquireUnregistered` and the preservation lemmas |
| LegacyRegistry.Peek | cli/distrilock/process.go:49-77 | the peek step, which never changes the state; characterised by `PeekReports` |
| LegacyRegistry.Release | cli/distrilock/process.go:79-106 | the release step as written, unlocking before the ownership check; characterised by `ReleaseRefusals`, `ReleaseByOwner` and `NonOwnerReleaseDropsOwnersLock` |
| LegacyRegistry.ReleaseChecked | api/core/process.go:210-242 | the release with the ownership check first, as the current daemon orders it; characterised by `ReleaseCheckedPreservesConsistent` |
| LegacyRegistry.ProcessDisconnect | cli/distrilock/process.go:162-185 | the disconnect step, dropping the session's names and their locks; characterised by `DisconnectDropsExactly` and the preservation lemmas |
| LegacyRegistry.ProcessRequest | cli/distrilock/process.go:21-47 | validation with the older regex and dispatch of Acquire, Release and Peek only; characterised by `BadRequestsChangeNothing`, `VerifyIsUnknown` and `ProcessRequestPreservesWellFormed` |
| LegacyRegistry.BadRequestsChangeNothing | cli/distrilock/process.go:26-45 | an invalid name, any name with `_` included, gives BadRequest "invalid lock name"; a valid name with a command other than Acquire, Release or Peek gives BadRequest "unknown command"; neither changes anything |
| LegacyRegistry.AcquirePreservesWellFormed | cli/distrilock/process.go:108-160 | acquire never leaves a lock on an unregistered file |
| LegacyRegistry.ReleasePreservesWellFormed | cli/distrilock/process.go:79-106 | release keeps the held locks among the registered files |
| LegacyRegistry.DisconnectPreservesWellFormed | cli/distrilock/process.go:162-185 | disconnect keeps the held locks among the registered files |
| LegacyRegistry.ForeignLockPreservesWellFormed | cli/distrilock/fcntl_locks.go:11-19 | another process's lock attempt keeps the state well formed |
| LegacyRegistry.ProcessRequestPreservesWellFormed | cli/distrilock/process.go:21-47 | every request keeps the revision's own invariant |
| LegacyRegistry.AcquirePreservesConsistent | cli/distrilock/process.go:108-160 | acquire keeps "registered means locked by this process" |
| LegacyRegistry.DisconnectPreservesConsistent | cli/distrilock/process.go:162-185 | disconnect keeps "registered means locked by this process" |
| LegacyRegistry.ReleaseCheckedPreservesConsistent | cli/distrilock/process.go:79-106 | the release with the ownership check first keeps "registered means locked by this process" |
| LegacyRegistry.NonOwnerReleaseDropsOwnersLock | cli/distrilock/process.go:83-99 | a non-owner's release is Denied but unlocks the owner's file: the name stays registered, another process can now lock the file, and the owner still hears "no-op" and Peek still says locked |
| LegacyRegistry.AcquireRegistered | cli/distrilock/process.go:146-159 | acquire of a registered name changes nothing: "no-op" for the owner, Denied "resource acquired in a different session" for others |
| LegacyRegistry.AcquireUnregistered | cli/distrilock/process.go:112-144 | acquire of a new name: Success exactly when open, F_SETLK and the write succeed; busy is Failed "resource acquired by different process" and Failed has no other reason; an open error, any other F_SETLK error and a write error are InternalError; failures leave names and locks unchanged |
| LegacyRegistry.ReleaseRefusals | cli/distrilock/process.go:79-99 | an unregistered name is Failed "lock not found" with nothing changed; a failed F_UNLCK is InternalError with nothing changed, for owner and non-owner alike; another session's release is Denied with the names unchanged but the lock dropped |
| LegacyRegistry.ReleaseByOwner | cli/distrilock/process.go:87-105 | whatever else fails, when the unlock succeeds the owner's release is Success, forgets the name and its lock and leaves the backing file on disk |
| LegacyRegistry.PeekReports | cli/distrilock/process.go:49-77 | Peek: true for a registered name; false for a missing file (ENOENT); otherwise whether another process holds the file at `directory + name`; an open error other than ENOENT or an F_GETLK error is InternalError and not locked |
| LegacyRegistry.DisconnectDropsExactly | cli/distrilock/process.go:162-185 | disconnect removes exactly the session's names and keeps every other session's |
| LegacyRegistry.NameRulesCompared | cli/distrilock/process.go:18 | every name this revision accepts the current daemon accepts, and "job_1" is accepted only by the current daemon |
| LegacyRegistry.VerifyIsUnknown | cli/distrilock/process.go:34-45 | Verify with a valid name is BadRequest "unknown command" and changes nothing |
| LegacyRegistry.OtherSessionAnswers | cli/distrilock/process.go:146-153 | another session's acquire is Denied here and Failed in the current daemon, with no change in either |
| Legacy.DisconnectRefines | cli/distrilock/process.go:162-185 | the two disconnect loops leave the maps indexed, with the owners and held locks of `LegacyRegistry.ProcessDisconnect`, and the result well formed |
| Legacy.Coordinator.Valid | cli/distrilock/process.go:14-19 | the maps are indexed, and every lock this process holds is on a registered, existing file |
| Legacy.Coordinator.constructor | cli/distrilock/process.go:14-19 | a daemon starts with empty maps and no locks |
| Legacy.Coordinator.Acquire | cli/distrilock/process.go:108-160 | performs `LegacyRegistry.Acquire` on the abstract view and keeps `Valid` |
| Legacy.Coordinator.Peek | cli/distrilock/process.go:49-77 | performs `LegacyRegistry.Peek` and changes nothing |
| Legacy.Coordinator.Release | cli/distrilock/process.go:79-106 | performs `LegacyRegistry.Release` (as written) and keeps `Valid` |
| Legacy.Coordinator.CloseSessionFiles | cli/distrilock/process.go:165-174 | the first loop: closes and disowns exactly the session's files |
| Legacy.Coordinator.ForgetFile | cli/distrilock/process.go:176-181 | the inner loop: removes the one name registered with the dropped file |
| Legacy.Coordinator.ForgetFiles | cli/distrilock/process.go:175-182 | the second loop: removes exactly the names whose file was dropped |
| Legacy.Coordinator.ProcessDisconnect | cli/distrilock/process.go:162-185 | performs `LegacyRegistry.ProcessDisconnect` and keeps `Valid` |
| Legacy.Coordinator.ProcessRequest | cli/distrilock/process.go:21-47 | performs `LegacyRegistry.ProcessRequest` and keeps `Valid` |

## Left out

- Concurrency. The readers-writer mutex (`api/core/process.go:35`) and the plain mutex (`cli/distrilock/process.go:17`) are not modelled. Each operation is one atomic step.
- The re-checks under the write lock (`api/core/process.go:132-136`, `222-236`, `278-292`). They see what the first check saw, so each is written once. Written twice, the second copy would be a dead branch.
- Close errors. The source ignores them, and so does the model: closing always drops the process's lock on the file.
- File contents. The legacy acquire writes the client's address into the backing file. The model keeps only whether that write fails.
- Which errors happen. Which errno an I/O failure carries, and when one occurs, is an input (`Posix.Faults`), not predicted. When the OS reports a lock held elsewhere, the model uses EAGAIN; POSIX also allows EACCES, and both are treated alike.
- Other daemons. Processes other than this daemon appear only as the set of files they hold locks on, changed by `Registry.ForeignLock`, `Registry.ForeignUnlock`, `Registry.ForeignRemove` and `LegacyRegistry.ForeignLock`.
- Registry.ForeignLockExcluded: locks belong to a path in the model, not to the opened file (the inode), and no step lets another process unlink a file this daemon holds locked. A second daemon on the same directory does unlink: its release unlocks (`api/core/process.go:238`) and removes the file later (`247`). If this daemon's acquire opens and locks the file in between, the unlink leaves its lock on an orphaned file, and a third process's O_CREATE makes a fresh, unlocked file at the same path, so two holders result. `Registry.ForeignRemoveBreaksConsistent` shows that the invariant this lemma relies on fails after such an unlink.
- Registry.ForeignStepsPreserveConsistent: covers another process's lock and unlock only, for the reason given in the line above; another process's unlink (`Registry.ForeignRemove`) does not keep the invariant.
- The package `bitbucket.org/gdm85/go-distrilock/api` imported by `cli/distrilock/process.go:11` is not part of this model. The earlier revision is given the result codes, the request and response records and the version constants of `api/models.go` (so its responses carry version 0.1 through `Registry.Echo`); the `Denied` result it uses, which that package has and `api/models.go` does not, is added beside them as `LegacyRegistry.LegacyResult`.
- The lock directory. It is a string fixed when the coordinator is constructed. `flags.Parse` (`cli/flags.go:61-66`) makes the path absolute with `filepath.Abs`, which does not touch the file system, and appends "/"; that is not part of this model, and the directory's existence is never checked.
- Sessions. A session is an identity compared for equality. The TCP and websocket transports, request decoding, and the version check that happens before a request reaches the coordinator are not part of this model.
- Pointers. A `*os.File` is a `Posix.File` object compared by identity, and a `*net.TCPConn` is a `Session` value.
- Iteration order. The order in which Go's `range` visits a map is modelled by nondeterministic choice in the loops. The methods' contracts do not depend on it.
- Core.Coordinator.ShortAcquire: takes the lock name as a ghost parameter, so that its contract can speak of the abstract registry. The source passes only the file.

## Findings

| source | as written | input that shows it | evidently intended | confidence | as-written member | corrected member |
|---|---|---|---|---|---|---|
| cli/distrilock/process.go:87-99 | `release` issues F_UNLCK on the file before it checks who owns the name, and a non-owner then gets `Denied` with the registration left in place | session A acquires "job1"; session B sends Release "job1": B gets Denied, but A's fcntl lock is gone while A stays registered, another process can lock the file, and A's Acquire still answers "no-op" | check ownership first and refuse without touching the lock, as `api/core/process.go:210-242` does | high (not executed) | LegacyRegistry.NonOwnerReleaseDropsOwnersLock | LegacyRegistry.ReleaseCheckedPreservesConsistent |
