/**
  The lock coordinator of api/core/process.go as a state machine on
  values. Each request is one atomic step: the coordinator takes its
  registry lock around every operation, so in a sequential model the read
  check and the re-check under the write lock see the same registry.

  The registry's two maps (name -> open file, open file -> session) are
  abstracted here to one map, name -> owning session; the class in
  core.dfy keeps the two maps and is proved to refine these functions.
  The rest of the host is the set of backing files on disk and the set of
  files locked by other processes. Which files this daemon holds an fcntl
  lock on is not recorded: in the daemon it is exactly the backing files of
  the registered names (Core.Coordinator.Valid).
 */
module Registry {
  import opened Wrappers
  import opened Protocol
  import opened Posix
  import Books

  const LockExt := ".lck"

  /** The backing file of a lock name: the directory string, the name, ".lck". */
  function LockPath(directory: string, name: string): string {
    Books.BackingPath(directory, name, LockExt)
  }

  /** Within one directory, distinct names have distinct backing files. */
  lemma LockPathInjective(directory: string, a: string, b: string)
    requires LockPath(directory, a) == LockPath(directory, b)
    ensures a == b
  {
    Books.BackingPathInjective(directory, LockExt, a, b);
  }

  // ---------------------------------------------------------------------------
  // Lock names: ^[A-Za-z0-9.\-_]+$

  predicate IsNameChar(c: char) {
    || 'A' <= c <= 'Z' || 'a' <= c <= 'z' || '0' <= c <= '9'
    || c == '.' || c == '-' || c == '_'
  }

  /** Every character of `s` is in the name alphabet. */
  function AllNameChars(s: string): (ok: bool)
    ensures ok <==> forall i | 0 <= i < |s| :: IsNameChar(s[i])
  {
    s == [] || (IsNameChar(s[0]) && AllNameChars(s[1..]))
  }

  /** The lock-name regular expression: one or more characters of the alphabet, nothing else. */
  function ValidLockName(name: string): (ok: bool)
    ensures ok <==> |name| > 0 && forall i | 0 <= i < |name| :: IsNameChar(name[i])
  {
    |name| > 0 && AllNameChars(name)
  }

  // ---------------------------------------------------------------------------
  // State

  datatype State = State(
    owners: map<string, Session>,   // registered lock name -> session that acquired it
    files: set<string>,             // backing files on disk
    foreign: set<string>)           // files locked by other processes

  /** A registered path: this daemon holds the fcntl lock on it. */
  ghost predicate Registered(directory: string, s: State, path: string) {
    exists n :: n in s.owners && LockPath(directory, n) == path
  }

  /**
    What the daemon's bookkeeping guarantees of the host: every registered
    name's backing file exists and no other process holds its lock (this
    daemon does), and locks of other processes sit on existing files.
   */
  ghost predicate Consistent(directory: string, s: State) {
    && (forall n | n in s.owners :: LockPath(directory, n) in s.files && LockPath(directory, n) !in s.foreign)
    && s.foreign <= s.files
  }

  datatype Outcome = Outcome(result: LockCommandResult, reason: string)

  const NotFound := "lock not found"
  const OtherSession := "resource acquired through a different session"
  const OtherProcess := "resource acquired by different process"

  /** How a failed F_SETLK is reported: contention is Failed, anything else InternalError. */
  function LockFailure(e: Errno): Outcome {
    if IsBusy(e) then Outcome(Failed, OtherProcess) else Outcome(InternalError, ErrnoText(e))
  }

  // ---------------------------------------------------------------------------
  // Operations

  /** `shortAcquire`: Acquire of a name that is already registered. */
  function ShortAcquire(s: State, client: Session, name: string): Outcome
    requires name in s.owners
  {
    if s.owners[name] != client then Outcome(Failed, OtherSession) else Outcome(Success, "no-op")
  }

  /** `acquire`. */
  function Acquire(directory: string, s: State, client: Session, name: string, faults: Faults): (Outcome, State) {
    if name in s.owners then (ShortAcquire(s, client, name), s)
    else
      var path := LockPath(directory, name);
      if faults.open.Some? then (Outcome(InternalError, PathError("open", path, faults.open.value).Text()), s)
      else
        // O_CREATE: the backing file exists from here on, whatever the lock outcome
        var created := s.(files := s.files + {path});
        if faults.lock.Some? then (LockFailure(faults.lock.value), created)
        else if path in s.foreign then (LockFailure(EAGAIN), created)
        else (Outcome(Success, ""), created.(owners := s.owners[name := client]))
  }

  /** `peek`: the outcome and whether the name is locked; it never changes the state. */
  function Peek(directory: string, s: State, name: string, faults: Faults): (Outcome, bool) {
    if name in s.owners then (Outcome(Success, ""), true)
    else
      var path := LockPath(directory, name);
      // opened read-only: a missing file is ENOENT
      var openError := if faults.open.Some? then faults.open else if path !in s.files then Some(ENOENT) else None;
      if openError.Some? then
        if openError.value == ENOENT then (Outcome(Success, ""), false)
        else (Outcome(InternalError, PathError("open", path, openError.value).Text()), false)
      else if faults.query.Some? then (Outcome(InternalError, ErrnoText(faults.query.value)), false)
      else (Outcome(Success, ""), path in s.foreign)
  }

  /** `release`. */
  function Release(directory: string, s: State, client: Session, name: string, faults: Faults): (Outcome, State) {
    if name !in s.owners then (Outcome(Failed, NotFound), s)
    else if s.owners[name] != client then (Outcome(Failed, OtherSession), s)
    else if faults.unlock.Some? then (Outcome(InternalError, ErrnoText(faults.unlock.value)), s)
    else
      var path := LockPath(directory, name);
      var purged := s.(owners := s.owners - {name});
      var removeError := if faults.remove.Some? then faults.remove else if path !in s.files then Some(ENOENT) else None;
      if removeError.Some? then (Outcome(InternalError, PathError("remove", path, removeError.value).Text()), purged)
      else (Outcome(Success, ""), purged.(files := s.files - {path}))
  }

  /** `verifyOwnership`: re-locks the owner's file; it never changes the state. */
  function Verify(directory: string, s: State, client: Session, name: string, faults: Faults): Outcome {
    if name !in s.owners then Outcome(Failed, NotFound)
    else if s.owners[name] != client then Outcome(Failed, OtherSession)
    else if faults.lock.Some? then LockFailure(faults.lock.value)
    else if LockPath(directory, name) in s.foreign then LockFailure(EAGAIN)
    else Outcome(Success, "")
  }

  /** `ProcessDisconnect`: forget every name the session owns; backing files stay on disk. */
  function ProcessDisconnect(s: State, client: Session): State {
    s.(owners := Books.Disown(s.owners, client))
  }

  /** The response header: the request echoed, with the daemon's own version. */
  function Echo(req: LockRequest): LockRequest {
    req.(versionMajor := VersionMajor, versionMinor := VersionMinor)
  }

  /** `ProcessRequest`: validate the name, then dispatch on the command. */
  function ProcessRequest(directory: string, s: State, client: Session, req: LockRequest, faults: Faults): (LockResponse, State) {
    var echo := Echo(req);
    if !ValidLockName(req.lockName) then (LockResponse(echo, BadRequest, "invalid lock name", false), s)
    else if req.command == Protocol.Acquire then
      var (o, next) := Acquire(directory, s, client, req.lockName, faults);
      (LockResponse(echo, o.result, o.reason, false), next)
    else if req.command == Protocol.Release then
      var (o, next) := Release(directory, s, client, req.lockName, faults);
      (LockResponse(echo, o.result, o.reason, false), next)
    else if req.command == Protocol.Peek then
      var (o, locked) := Peek(directory, s, req.lockName, faults);
      (LockResponse(echo, o.result, o.reason, locked), s)
    else if req.command == Protocol.Verify then
      var o := Verify(directory, s, client, req.lockName, faults);
      (LockResponse(echo, o.result, o.reason, false), s)
    else (LockResponse(echo, BadRequest, "unknown command", false), s)
  }

  // ---------------------------------------------------------------------------
  // Other processes on the same directory

  /** Another process tries F_SETLK on a file: it wins unless someone holds the lock. */
  ghost function ForeignLock(directory: string, s: State, path: string): (bool, State) {
    if path in s.foreign || Registered(directory, s, path) then (false, s)
    else (true, s.(files := s.files + {path}, foreign := s.foreign + {path}))
  }

  /** Another process unlocks a file (or exits). */
  function ForeignUnlock(s: State, path: string): State {
    s.(foreign := s.foreign - {path})
  }

  /**
    Another process unlinks a backing file, as a second daemon's release
    does after its unlock. Locks here belong to a path, not to an open file,
    so this step only marks where the exclusion argument stops.
   */
  function ForeignRemove(s: State, path: string): State {
    s.(files := s.files - {path})
  }

  // ---------------------------------------------------------------------------
  // The invariant is kept by every step

  lemma AcquirePreservesConsistent(directory: string, s: State, client: Session, name: string, faults: Faults)
    requires Consistent(directory, s)
    ensures Consistent(directory, Acquire(directory, s, client, name, faults).1)
  {
  }

  lemma ReleasePreservesConsistent(directory: string, s: State, client: Session, name: string, faults: Faults)
    requires Consistent(directory, s)
    ensures Consistent(directory, Release(directory, s, client, name, faults).1)
  {
    var next := Release(directory, s, client, name, faults).1;
    forall n | n in next.owners
      ensures LockPath(directory, n) in next.files && LockPath(directory, n) !in next.foreign
    {
      if LockPath(directory, n) == LockPath(directory, name) {
        LockPathInjective(directory, n, name);
      }
    }
  }

  lemma DisconnectPreservesConsistent(directory: string, s: State, client: Session)
    requires Consistent(directory, s)
    ensures Consistent(directory, ProcessDisconnect(s, client))
  {
  }

  lemma ForeignStepsPreserveConsistent(directory: string, s: State, path: string)
    requires Consistent(directory, s)
    ensures Consistent(directory, ForeignLock(directory, s, path).1)
    ensures Consistent(directory, ForeignUnlock(s, path))
  {
  }

  /** Whatever request arrives, the registry stays consistent with the host. */
  lemma ProcessRequestPreservesConsistent(directory: string, s: State, client: Session, req: LockRequest, faults: Faults)
    requires Consistent(directory, s)
    ensures Consistent(directory, ProcessRequest(directory, s, client, req, faults).1)
  {
    if ValidLockName(req.lockName) && req.command == Protocol.Release {
      ReleasePreservesConsistent(directory, s, client, req.lockName, faults);
    }
  }

  // ---------------------------------------------------------------------------
  // Dispatcher

  /** Every response echoes its request but carries the daemon's version; Peek alone sets isLocked. */
  lemma ResponseEchoesRequest(directory: string, s: State, client: Session, req: LockRequest, faults: Faults)
    ensures var res := ProcessRequest(directory, s, client, req, faults).0;
      && res.request.command == req.command && res.request.lockName == req.lockName
      && res.request.versionMajor == 0 && res.request.versionMinor == 1
      && (res.isLocked ==> req.command == Protocol.Peek)
  {
  }

  /** An invalid name and an unknown command are BadRequest and touch nothing. */
  lemma BadRequestsChangeNothing(directory: string, s: State, client: Session, req: LockRequest, faults: Faults)
    ensures var (res, next) := ProcessRequest(directory, s, client, req, faults);
      && (!ValidLockName(req.lockName) ==> res.result == BadRequest && res.reason == "invalid lock name" && next == s)
      && (ValidLockName(req.lockName) && !(Protocol.Peek <= req.command <= Protocol.Verify) ==>
            res.result == BadRequest && res.reason == "unknown command" && next == s)
      && (res.result == BadRequest ==> next == s)
  {
  }

  /** Only Acquire and Release change the state. */
  lemma OnlyAcquireAndReleaseChangeState(directory: string, s: State, client: Session, req: LockRequest, faults: Faults)
    requires req.command != Protocol.Acquire && req.command != Protocol.Release
    ensures ProcessRequest(directory, s, client, req, faults).1 == s
  {
  }

  // ---------------------------------------------------------------------------
  // Acquire

  /**
    Acquire of an unregistered name: granted exactly when the file opens and
    F_SETLK succeeds, and then the name, and only it, becomes the client's.
    A busy file is Failed "by different process"; an open error and any
    other F_SETLK error are InternalError. A backing file left on disk without a lock (after a disconnect) does not
    get in the way.
   */
  lemma AcquireUnregistered(directory: string, s: State, client: Session, name: string, faults: Faults)
    requires name !in s.owners
    ensures var (o, next) := Acquire(directory, s, client, name, faults);
      var path := LockPath(directory, name);
      && next.foreign == s.foreign
      && (o == Outcome(Success, "") <==> faults.open.None? && faults.lock.None? && path !in s.foreign)
      && (o.result == Success ==> next.owners == s.owners[name := client] && next.files == s.files + {path})
      && (o.result != Success ==> next.owners == s.owners)
      && (o == Outcome(Failed, OtherProcess) <==>
            faults.open.None? && (if faults.lock.Some? then IsBusy(faults.lock.value) else path in s.foreign))
      && (o.result != Success && o.result != Failed ==> o.result == InternalError)
      && (o.result == Failed ==> o.reason == OtherProcess)
      && (faults.open.Some? ==> o.result == InternalError)
      && (faults.open.None? && faults.lock.Some? && !IsBusy(faults.lock.value) ==> o.result == InternalError)
  {
  }

  /** Acquire of a registered name changes nothing: a no-op for the owner, refused for anyone else. */
  lemma AcquireRegistered(directory: string, s: State, client: Session, name: string, faults: Faults)
    requires name in s.owners
    ensures var (o, next) := Acquire(directory, s, client, name, faults);
      && next == s
      && (s.owners[name] == client ==> o == Outcome(Success, "no-op"))
      && (s.owners[name] != client ==> o == Outcome(Failed, OtherSession))
  {
  }

  /** Mutual exclusion: while `a` holds a name, no other session acquires, releases or verifies it. */
  lemma MutualExclusion(directory: string, s: State, a: Session, b: Session, name: string, faults: Faults)
    requires name in s.owners && s.owners[name] == a && b != a
    ensures Acquire(directory, s, b, name, faults) == (Outcome(Failed, OtherSession), s)
    ensures Release(directory, s, b, name, faults) == (Outcome(Failed, OtherSession), s)
    ensures Verify(directory, s, b, name, faults) == Outcome(Failed, OtherSession)
  {
  }

  /** Nor can another process take the fcntl lock of a name the daemon holds. */
  lemma ForeignLockExcluded(directory: string, s: State, name: string)
    requires name in s.owners
    ensures ForeignLock(directory, s, LockPath(directory, name)) == (false, s)
  {
  }

  /**
    Exclusion rests on the backing file of a registered name staying on
    disk: once another process unlinks it, the registry no longer describes
    the host, and an O_CREATE at that path makes a new file nobody locks.
   */
  lemma ForeignRemoveBreaksConsistent(directory: string, s: State, name: string)
    requires Consistent(directory, s) && name in s.owners
    ensures !Consistent(directory, ForeignRemove(s, LockPath(directory, name)))
  {
  }

  // ---------------------------------------------------------------------------
  // Release

  /** Release of a name nobody registered: "lock not found", whoever asks, and nothing changes. */
  lemma ReleaseUnregistered(directory: string, s: State, client: Session, name: string, faults: Faults)
    requires name !in s.owners
    ensures Release(directory, s, client, name, faults) == (Outcome(Failed, NotFound), s)
  {
  }

  /** Release by the owner: InternalError and nothing changes when unlocking fails; otherwise the name is gone. */
  lemma ReleaseByOwner(directory: string, s: State, client: Session, name: string, faults: Faults)
    requires Consistent(directory, s)
    requires name in s.owners && s.owners[name] == client
    ensures var (o, next) := Release(directory, s, client, name, faults);
      && (faults.unlock.Some? ==> o.result == InternalError && next == s)
      && (faults.unlock.None? ==>
            && next.owners == s.owners - {name}
            && next.foreign == s.foreign
            && (faults.remove.None? ==> o == Outcome(Success, "") && next.files == s.files - {LockPath(directory, name)})
            && (faults.remove.Some? ==> o.result == InternalError && next.files == s.files))
  {
  }

  /** Released twice: the second Release finds nothing, which the client reports as "Failed: lock not found". */
  lemma DoubleRelease(directory: string, s: State, client: Session, name: string, faults1: Faults, faults2: Faults)
    requires name in s.owners && s.owners[name] == client && faults1.unlock.None?
    ensures var next := Release(directory, s, client, name, faults1).1;
      var (o, last) := Release(directory, next, client, name, faults2);
      && o == Outcome(Failed, NotFound) && last == next
      && ErrorText(o.result, o.reason) == "Failed: lock not found"
  {
  }

  /** Release then Acquire by another session: the name changes hands. */
  lemma ReleaseThenAcquire(directory: string, s: State, a: Session, b: Session, name: string)
    requires Consistent(directory, s)
    requires name in s.owners && s.owners[name] == a
    ensures var (o1, s1) := Release(directory, s, a, name, NoFaults);
      var (o2, s2) := Acquire(directory, s1, b, name, NoFaults);
      && o1 == Outcome(Success, "") && o2 == Outcome(Success, "")
      && s2.owners == s.owners[name := b]
  {
  }

  // ---------------------------------------------------------------------------
  // Peek and Verify

  /**
    Peek answers "locked" for a registered name, and otherwise asks the OS
    whether another process holds the file, a missing file being unlocked.
   */
  lemma PeekReports(directory: string, s: State, name: string, faults: Faults)
    ensures var (o, locked) := Peek(directory, s, name, faults);
      var path := LockPath(directory, name);
      && (name in s.owners ==> o == Outcome(Success, "") && locked)
      && (name !in s.owners && faults.open.None? && path !in s.files ==> o == Outcome(Success, "") && !locked)
      && (name !in s.owners && faults.open == Some(ENOENT) ==> o == Outcome(Success, "") && !locked)
      && (name !in s.owners && faults.open.None? && path in s.files && faults.query.None? ==>
            o == Outcome(Success, "") && locked == (path in s.foreign))
      && (name !in s.owners && faults.open.Some? && faults.open != Some(ENOENT) ==> o.result == InternalError && !locked)
      && (name !in s.owners && faults.open.None? && path in s.files && faults.query.Some? ==> o.result == InternalError && !locked)
      && (o.result != Success ==> o.result == InternalError && !locked)
  {
  }

  /**
    Without faults, Peek says "locked" exactly when an Acquire by a session
    that does not own the name would be refused.
   */
  lemma PeekPredictsAcquire(directory: string, s: State, client: Session, name: string)
    requires Consistent(directory, s)
    requires name !in s.owners || s.owners[name] != client
    ensures Peek(directory, s, name, NoFaults).1 <==> Acquire(directory, s, client, name, NoFaults).0.result != Success
  {
  }

  /**
    Verify repeats Release's refusals; for the owner it reports only what
    re-locking the held file says, and without a fault that is Success.
   */
  lemma VerifyReports(directory: string, s: State, client: Session, name: string, faults: Faults)
    requires Consistent(directory, s)
    ensures var o := Verify(directory, s, client, name, faults);
      && (name !in s.owners ==> o == Outcome(Failed, NotFound))
      && (name in s.owners && s.owners[name] != client ==> o == Release(directory, s, client, name, faults).0)
      && (name in s.owners && s.owners[name] == client ==>
            (faults.lock.None? ==> o == Outcome(Success, ""))
            && (faults.lock.Some? && IsBusy(faults.lock.value) ==> o == Outcome(Failed, OtherProcess))
            && (faults.lock.Some? && !IsBusy(faults.lock.value) ==> o.result == InternalError))
  {
  }

  // ---------------------------------------------------------------------------
  // Disconnect

  /** Disconnect drops exactly the session's names and keeps every other session's. */
  lemma DisconnectDropsExactly(s: State, client: Session, name: string)
    ensures var next := ProcessDisconnect(s, client);
      && next.files == s.files && next.foreign == s.foreign
      && (name in next.owners <==> name in s.owners && s.owners[name] != client)
      && (name in next.owners ==> next.owners[name] == s.owners[name])
  {
  }

  /** Disconnecting twice is disconnecting once, and disconnects of two sessions commute. */
  lemma DisconnectIdempotentAndCommutes(s: State, a: Session, b: Session)
    ensures ProcessDisconnect(ProcessDisconnect(s, a), a) == ProcessDisconnect(s, a)
    ensures ProcessDisconnect(ProcessDisconnect(s, a), b) == ProcessDisconnect(ProcessDisconnect(s, b), a)
  {
    var ab, ba := ProcessDisconnect(ProcessDisconnect(s, a), b), ProcessDisconnect(ProcessDisconnect(s, b), a);
    assert ab.owners == ba.owners;
  }

  /** After the owner disconnects, another session acquires the name, the stale file notwithstanding. */
  lemma DisconnectReclaims(directory: string, s: State, a: Session, b: Session, name: string)
    requires Consistent(directory, s)
    requires name in s.owners && s.owners[name] == a
    ensures var s1 := ProcessDisconnect(s, a);
      var (o, s2) := Acquire(directory, s1, b, name, NoFaults);
      && LockPath(directory, name) in s1.files
      && o == Outcome(Success, "") && s2.owners == s1.owners[name := b]
  {
  }

  // ---------------------------------------------------------------------------
  // End to end

  /**
    A acquires job1; B is refused and sees it locked; A releases; B
    acquires and verifies it; B disconnects; C acquires it.
   */
  lemma Scenario(directory: string, s0: State, a: Session, b: Session, c: Session)
    requires Consistent(directory, s0)
    requires "job1" !in s0.owners && LockPath(directory, "job1") !in s0.foreign
    requires a != b && b != c
    ensures var job1 := "job1";
      var (r1, s1) := ProcessRequest(directory, s0, a, LockRequest(0, 1, Protocol.Acquire, job1), NoFaults);
      var (r2, s2) := ProcessRequest(directory, s1, b, LockRequest(0, 1, Protocol.Acquire, job1), NoFaults);
      var (r3, s3) := ProcessRequest(directory, s2, b, LockRequest(0, 1, Protocol.Peek, job1), NoFaults);
      var (r4, s4) := ProcessRequest(directory, s3, a, LockRequest(0, 1, Protocol.Release, job1), NoFaults);
      var (r5, s5) := ProcessRequest(directory, s4, b, LockRequest(0, 1, Protocol.Acquire, job1), NoFaults);
      var (r6, s6) := ProcessRequest(directory, s5, b, LockRequest(0, 1, Protocol.Verify, job1), NoFaults);
      var s7 := ProcessDisconnect(s6, b);
      var (r8, s8) := ProcessRequest(directory, s7, c, LockRequest(0, 1, Protocol.Acquire, job1), NoFaults);
      && r1.result == Success
      && r2.result == Failed && r2.reason == OtherSession
      && r3.result == Success && r3.isLocked
      && r4.result == Success
      && r5.result == Success
      && r6.result == Success
      && r8.result == Success && s8.owners[job1] == c
  {
    var job1 := "job1";
    assert ValidLockName(job1);
    var path := LockPath(directory, job1);
    var (_, s1) := ProcessRequest(directory, s0, a, LockRequest(0, 1, Protocol.Acquire, job1), NoFaults);
    AcquirePreservesConsistent(directory, s0, a, job1, NoFaults);
    assert s1.owners == s0.owners[job1 := a] && path in s1.files;
    var s4 := Release(directory, s1, a, job1, NoFaults).1;
    assert s4.owners == s0.owners && path !in s4.foreign;
  }
}
