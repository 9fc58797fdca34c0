/**
  The earlier coordinator of cli/distrilock/process.go as a state machine
  on values, beside the one of registry.dfy. Its rules differ from the
  current daemon's:

  - the backing file of a name is the directory string and the name, with
    no extension, and the name alphabet has no underscore;
  - a request from another session is answered with a `Denied` result
    (a code the current result enumeration does not define);
  - acquire writes the client identity into the backing file;
  - release issues the unlock before it checks who owns the name, and the
    owner's release does not remove the backing file;
  - there is no Verify command.

  Because a non-owner's release drops the fcntl lock while the name stays
  registered, the files this process holds a lock on are part of the state
  here, not a consequence of it.
 */
module LegacyRegistry {
  import opened Wrappers
  import opened Protocol
  import opened Posix
  import Books
  import Registry

  /** The backing file of a lock name: the directory string followed by the name. */
  function LegacyPath(directory: string, name: string): string {
    Books.BackingPath(directory, name, "")
  }

  // ---------------------------------------------------------------------------
  // Lock names: ^[A-Za-z0-9.\-]+$

  predicate IsLegacyNameChar(c: char) {
    Registry.IsNameChar(c) && c != '_'
  }

  /** The lock-name regular expression of this revision. */
  function ValidLegacyName(name: string): (ok: bool)
    ensures ok <==> |name| > 0 && forall i | 0 <= i < |name| :: IsLegacyNameChar(name[i])
  {
    Registry.ValidLockName(name) && '_' !in name
  }

  // ---------------------------------------------------------------------------
  // Results

  /** A result code of the shared enumeration, or this revision's own `Denied`. */
  datatype LegacyResult = Code(code: LockCommandResult) | Denied

  datatype Outcome = Outcome(result: LegacyResult, reason: string)

  datatype LegacyResponse = LegacyResponse(
    request: LockRequest,
    result: LegacyResult,
    reason: string,
    isLocked: bool)

  const DifferentSession := "resource acquired in a different session"

  function Lift(o: Registry.Outcome): Outcome {
    Outcome(Code(o.result), o.reason)
  }

  // ---------------------------------------------------------------------------
  // State

  datatype State = State(
    owners: map<string, Session>,   // registered lock name -> session that acquired it
    files: set<string>,             // backing files on disk
    foreign: set<string>,           // files locked by other processes
    held: set<string>)              // files this process holds an fcntl lock on

  ghost function RegisteredPaths(directory: string, s: State): set<string> {
    Books.PathsOf(directory, "", s.owners)
  }

  /**
    What this revision keeps: it never holds a lock on a file it has not
    registered, registered files exist, and the kernel's locks are exclusive.
   */
  ghost predicate WellFormed(directory: string, s: State) {
    && s.held <= RegisteredPaths(directory, s)
    && RegisteredPaths(directory, s) <= s.files
    && s.held !! s.foreign
    && s.foreign <= s.files
  }

  /**
    What the bookkeeping is meant to guarantee: a registered name is one
    whose lock this process holds, so no other process can take it.
   */
  ghost predicate Consistent(directory: string, s: State) {
    && WellFormed(directory, s)
    && s.held == RegisteredPaths(directory, s)
  }

  // ---------------------------------------------------------------------------
  // Operations

  /** `acquire`. */
  function Acquire(directory: string, s: State, client: Session, name: string, faults: Faults): (Outcome, State) {
    if name in s.owners then
      if s.owners[name] != client then (Outcome(Denied, DifferentSession), s)
      else (Outcome(Code(Success), "no-op"), s)
    else
      var path := LegacyPath(directory, name);
      if faults.open.Some? then (Outcome(Code(InternalError), PathError("open", path, faults.open.value).Text()), s)
      else
        // O_CREATE: the backing file exists from here on; a failure closes it
        var created := s.(files := s.files + {path}, held := s.held - {path});
        if faults.lock.Some? then (Lift(Registry.LockFailure(faults.lock.value)), created)
        else if path in s.foreign then (Lift(Registry.LockFailure(EAGAIN)), created)
        else if faults.write.Some? then (Outcome(Code(InternalError), PathError("write", path, faults.write.value).Text()), created)
        else (Outcome(Code(Success), ""), s.(owners := s.owners[name := client], files := s.files + {path}, held := s.held + {path}))
  }

  /** `peek`: opened read-write without O_CREATE; it never changes the state. */
  function Peek(directory: string, s: State, name: string, faults: Faults): (Outcome, bool) {
    if name in s.owners then (Outcome(Code(Success), ""), true)
    else
      var path := LegacyPath(directory, name);
      var openError := if faults.open.Some? then faults.open else if path !in s.files then Some(ENOENT) else None;
      if openError.Some? then
        if openError.value == ENOENT then (Outcome(Code(Success), ""), false)
        else (Outcome(Code(InternalError), PathError("open", path, openError.value).Text()), false)
      else if faults.query.Some? then (Outcome(Code(InternalError), ErrnoText(faults.query.value)), false)
      else (Outcome(Code(Success), ""), path in s.foreign)
  }

  /** `release`, as written: the unlock comes before the ownership check. */
  function Release(directory: string, s: State, client: Session, name: string, faults: Faults): (Outcome, State) {
    if name !in s.owners then (Outcome(Code(Failed), Registry.NotFound), s)
    else if faults.unlock.Some? then (Outcome(Code(InternalError), ErrnoText(faults.unlock.value)), s)
    else
      var unlocked := s.(held := s.held - {LegacyPath(directory, name)});
      if s.owners[name] != client then (Outcome(Denied, DifferentSession), unlocked)
      else (Outcome(Code(Success), ""), unlocked.(owners := s.owners - {name}))
  }

  /** `release` with the ownership check first, as the current daemon orders it. */
  function ReleaseChecked(directory: string, s: State, client: Session, name: string, faults: Faults): (Outcome, State) {
    if name !in s.owners then (Outcome(Code(Failed), Registry.NotFound), s)
    else if s.owners[name] != client then (Outcome(Denied, DifferentSession), s)
    else Release(directory, s, client, name, faults)
  }

  /** `processDisconnect`: closing the session's files drops their locks and their names. */
  function ProcessDisconnect(directory: string, s: State, client: Session): State {
    var dropped := Books.PathsOf(directory, "", Books.Owned(s.owners, client));
    s.(owners := Books.Disown(s.owners, client), held := s.held - dropped)
  }

  /** `processRequest`: validate the name, then dispatch Acquire, Release or Peek. */
  function ProcessRequest(directory: string, s: State, client: Session, req: LockRequest, faults: Faults): (LegacyResponse, State) {
    var echo := Registry.Echo(req);
    if !ValidLegacyName(req.lockName) then (LegacyResponse(echo, Code(BadRequest), "invalid lock name", false), s)
    else if req.command == Protocol.Acquire then
      var (o, next) := Acquire(directory, s, client, req.lockName, faults);
      (LegacyResponse(echo, o.result, o.reason, false), next)
    else if req.command == Protocol.Release then
      var (o, next) := Release(directory, s, client, req.lockName, faults);
      (LegacyResponse(echo, o.result, o.reason, false), next)
    else if req.command == Protocol.Peek then
      var (o, locked) := Peek(directory, s, req.lockName, faults);
      (LegacyResponse(echo, o.result, o.reason, locked), s)
    else (LegacyResponse(echo, Code(BadRequest), "unknown command", false), s)
  }

  /** Another process tries to lock a file; the kernel refuses while any other process holds it. */
  function ForeignLock(s: State, path: string): (bool, State) {
    if path in s.foreign || path in s.held then (false, s)
    else (true, s.(files := s.files + {path}, foreign := s.foreign + {path}))
  }

  // ---------------------------------------------------------------------------
  // What every step keeps

  lemma AcquirePreservesWellFormed(directory: string, s: State, client: Session, name: string, faults: Faults)
    requires WellFormed(directory, s)
    ensures WellFormed(directory, Acquire(directory, s, client, name, faults).1)
  {
  }

  lemma ReleasePreservesWellFormed(directory: string, s: State, client: Session, name: string, faults: Faults)
    requires WellFormed(directory, s)
    ensures WellFormed(directory, Release(directory, s, client, name, faults).1)
  {
    var next := Release(directory, s, client, name, faults).1;
    if name in s.owners && faults.unlock.None? {
      forall p | p in next.held ensures p in RegisteredPaths(directory, next) {
        var n :| n in s.owners && LegacyPath(directory, n) == p;
        if n != name {
          assert n in next.owners;
        }
      }
    }
  }

  lemma DisconnectPreservesWellFormed(directory: string, s: State, client: Session)
    requires WellFormed(directory, s)
    ensures WellFormed(directory, ProcessDisconnect(directory, s, client))
  {
    var next := ProcessDisconnect(directory, s, client);
    forall p | p in next.held ensures p in RegisteredPaths(directory, next) {
      var n :| n in s.owners && Books.BackingPath(directory, n, "") == p;
      assert n !in Books.Owned(s.owners, client);
    }
  }

  lemma ForeignLockPreservesWellFormed(directory: string, s: State, path: string)
    requires WellFormed(directory, s)
    ensures WellFormed(directory, ForeignLock(s, path).1)
  {
  }

  /** An invalid name, `_` included, and a command other than Acquire, Release and Peek are BadRequest and touch nothing. */
  lemma BadRequestsChangeNothing(directory: string, s: State, client: Session, req: LockRequest, faults: Faults)
    ensures var (res, next) := ProcessRequest(directory, s, client, req, faults);
      && (!ValidLegacyName(req.lockName) ==> res.result == Code(BadRequest) && res.reason == "invalid lock name" && next == s)
      && ('_' in req.lockName ==> res.result == Code(BadRequest) && res.reason == "invalid lock name" && next == s)
      && (ValidLegacyName(req.lockName) && req.command !in {Protocol.Acquire, Protocol.Release, Protocol.Peek} ==>
            res.result == Code(BadRequest) && res.reason == "unknown command" && next == s)
      && (res.result == Code(BadRequest) ==> next == s)
  {
  }

  /** Whatever request arrives, this revision keeps its own invariant. */
  lemma ProcessRequestPreservesWellFormed(directory: string, s: State, client: Session, req: LockRequest, faults: Faults)
    requires WellFormed(directory, s)
    ensures WellFormed(directory, ProcessRequest(directory, s, client, req, faults).1)
  {
    if ValidLegacyName(req.lockName) {
      if req.command == Protocol.Acquire {
        AcquirePreservesWellFormed(directory, s, client, req.lockName, faults);
      } else if req.command == Protocol.Release {
        ReleasePreservesWellFormed(directory, s, client, req.lockName, faults);
      }
    }
  }

  /** Acquire and disconnect also keep the intended invariant. */
  lemma AcquirePreservesConsistent(directory: string, s: State, client: Session, name: string, faults: Faults)
    requires Consistent(directory, s)
    ensures Consistent(directory, Acquire(directory, s, client, name, faults).1)
  {
    var next := Acquire(directory, s, client, name, faults).1;
    if name !in s.owners {
      Books.UnregisteredPathFree(directory, "", s.owners, name);
      if next.owners != s.owners {
        assert RegisteredPaths(directory, next) == RegisteredPaths(directory, s) + {LegacyPath(directory, name)};
      }
    }
  }

  lemma DisconnectPreservesConsistent(directory: string, s: State, client: Session)
    requires Consistent(directory, s)
    ensures Consistent(directory, ProcessDisconnect(directory, s, client))
  {
    var next := ProcessDisconnect(directory, s, client);
    DisconnectPreservesWellFormed(directory, s, client);
    forall p | p in RegisteredPaths(directory, next) ensures p in next.held {
      var n :| n in next.owners && Books.BackingPath(directory, n, "") == p;
      forall m | m in Books.Owned(s.owners, client) ensures Books.BackingPath(directory, m, "") != p {
        if Books.BackingPath(directory, m, "") == p {
          Books.BackingPathInjective(directory, "", m, n);
        }
      }
    }
  }

  /** The corrected release keeps the intended invariant. */
  lemma ReleaseCheckedPreservesConsistent(directory: string, s: State, client: Session, name: string, faults: Faults)
    requires Consistent(directory, s)
    ensures Consistent(directory, ReleaseChecked(directory, s, client, name, faults).1)
  {
    var next := ReleaseChecked(directory, s, client, name, faults).1;
    if name in s.owners && s.owners[name] == client && faults.unlock.None? {
      ReleasePreservesWellFormed(directory, s, client, name, faults);
      forall p | p in RegisteredPaths(directory, next) ensures p in next.held {
        var n :| n in next.owners && Books.BackingPath(directory, n, "") == p;
        if p == LegacyPath(directory, name) {
          Books.BackingPathInjective(directory, "", n, name);
        }
      }
    }
  }

  // ---------------------------------------------------------------------------
  // The release that checks ownership too late

  /**
    Another session's release is refused, yet it has already unlocked the
    file: the name stays registered to its owner, the owner is still told
    "no-op" and Peek still says locked, while another process can now lock
    the backing file. The corrected release refuses without touching the
    lock.
   */
  lemma NonOwnerReleaseDropsOwnersLock(directory: string, s: State, owner: Session, other: Session, name: string)
    requires Consistent(directory, s)
    requires name in s.owners && s.owners[name] == owner && other != owner
    requires LegacyPath(directory, name) !in s.foreign
    ensures var (o, next) := Release(directory, s, other, name, NoFaults);
      var path := LegacyPath(directory, name);
      && o == Outcome(Denied, DifferentSession)
      && next.owners == s.owners
      && path !in next.held
      && !Consistent(directory, next)
      && ForeignLock(next, path).0
      && Acquire(directory, ForeignLock(next, path).1, owner, name, NoFaults).0 == Outcome(Code(Success), "no-op")
      && Peek(directory, ForeignLock(next, path).1, name, NoFaults) == (Outcome(Code(Success), ""), true)
    ensures ReleaseChecked(directory, s, other, name, NoFaults) == (Outcome(Denied, DifferentSession), s)
  {
    var next := Release(directory, s, other, name, NoFaults).1;
    assert LegacyPath(directory, name) in RegisteredPaths(directory, next);
  }

  // ---------------------------------------------------------------------------
  // Acquire

  /** Acquire of a registered name changes nothing: a no-op for the owner, Denied for anyone else. */
  lemma AcquireRegistered(directory: string, s: State, client: Session, name: string, faults: Faults)
    requires name in s.owners
    ensures var (o, next) := Acquire(directory, s, client, name, faults);
      && next == s
      && (s.owners[name] == client ==> o == Outcome(Code(Success), "no-op"))
      && (s.owners[name] != client ==> o == Outcome(Denied, DifferentSession))
  {
  }

  /**
    Acquire of an unregistered name: granted exactly when the open, the
    F_SETLK and the write all succeed, and then the name becomes the
    client's and its file is locked; every failure leaves the names and the
    locks as they were. A busy file is Failed "by different process"; an
    open error, any other F_SETLK error and a write error are InternalError.
   */
  lemma AcquireUnregistered(directory: string, s: State, client: Session, name: string, faults: Faults)
    requires WellFormed(directory, s)
    requires name !in s.owners
    ensures var (o, next) := Acquire(directory, s, client, name, faults);
      var path := LegacyPath(directory, name);
      && next.foreign == s.foreign
      && (o == Outcome(Code(Success), "") <==>
            faults.open.None? && faults.lock.None? && path !in s.foreign && faults.write.None?)
      && (o.result == Code(Success) ==> next.owners == s.owners[name := client] && next.held == s.held + {path})
      && (o.result != Code(Success) ==> next.owners == s.owners && next.held == s.held)
      && (o == Outcome(Code(Failed), Registry.OtherProcess) <==>
            faults.open.None? && (if faults.lock.Some? then IsBusy(faults.lock.value) else path in s.foreign))
      && (o.result != Code(Success) && o.result != Code(Failed) ==> o.result == Code(InternalError))
      && (o.result == Code(Failed) ==> o.reason == Registry.OtherProcess)
      && (faults.open.Some? ==> o.result == Code(InternalError))
      && (faults.open.None? && faults.lock.Some? && !IsBusy(faults.lock.value) ==> o.result == Code(InternalError))
      && (faults.open.None? && faults.lock.None? && path !in s.foreign && faults.write.Some? ==> o.result == Code(InternalError))
  {
    Books.UnregisteredPathFree(directory, "", s.owners, name);
  }

  /**
    Release refusals: an unregistered name is "lock not found" and changes
    nothing; a failed unlock is InternalError and changes nothing, for the
    owner and for anyone else; a name another session owns is Denied with
    the names unchanged, but the unlock has already been issued.
   */
  lemma ReleaseRefusals(directory: string, s: State, client: Session, name: string, faults: Faults)
    ensures name !in s.owners ==> Release(directory, s, client, name, faults) == (Outcome(Code(Failed), Registry.NotFound), s)
    ensures name in s.owners && faults.unlock.Some? ==>
      Release(directory, s, client, name, faults) == (Outcome(Code(InternalError), ErrnoText(faults.unlock.value)), s)
    ensures name in s.owners && s.owners[name] != client && faults.unlock.None? ==>
      Release(directory, s, client, name, faults)
        == (Outcome(Denied, DifferentSession), s.(held := s.held - {LegacyPath(directory, name)}))
  {
  }

  // ---------------------------------------------------------------------------
  // Release, peek and disconnect

  /** Release by the owner forgets the name and its lock when the unlock succeeds; nothing else changes. */
  lemma ReleaseByOwner(directory: string, s: State, client: Session, name: string, faults: Faults)
    requires name in s.owners && s.owners[name] == client
    requires faults.unlock.None?
    ensures Release(directory, s, client, name, faults)
         == (Outcome(Code(Success), ""), s.(owners := s.owners - {name}, held := s.held - {LegacyPath(directory, name)}))
  {
  }

  /**
    A registered name is reported locked; a missing file is unlocked; any
    other name is locked exactly when another process holds its file; an
    open error other than ENOENT and an F_GETLK error are InternalError.
   */
  lemma PeekReports(directory: string, s: State, name: string, faults: Faults)
    ensures var (o, locked) := Peek(directory, s, name, faults);
      var path := LegacyPath(directory, name);
      && (name in s.owners ==> o == Outcome(Code(Success), "") && locked)
      && (name !in s.owners && faults.open.None? && path !in s.files ==> o == Outcome(Code(Success), "") && !locked)
      && (name !in s.owners && faults.open == Some(ENOENT) ==> o == Outcome(Code(Success), "") && !locked)
      && (name !in s.owners && faults.open.None? && path in s.files && faults.query.None? ==>
            o == Outcome(Code(Success), "") && locked == (path in s.foreign))
      && (name !in s.owners && faults.open.Some? && faults.open != Some(ENOENT) ==> o.result == Code(InternalError) && !locked)
      && (name !in s.owners && faults.open.None? && path in s.files && faults.query.Some? ==> o.result == Code(InternalError) && !locked)
      && (o.result != Code(Success) ==> o.result == Code(InternalError) && !locked)
      && (faults == NoFaults ==> o == Outcome(Code(Success), "") && (locked <==> name in s.owners || (path in s.files && path in s.foreign)))
  {
  }

  /** A disconnect forgets exactly the names the session owns. */
  lemma DisconnectDropsExactly(directory: string, s: State, client: Session, name: string)
    ensures var next := ProcessDisconnect(directory, s, client);
      && next.files == s.files && next.foreign == s.foreign
      && (name in next.owners <==> name in s.owners && s.owners[name] != client)
      && (name in next.owners ==> next.owners[name] == s.owners[name])
  {
  }

  // ---------------------------------------------------------------------------
  // Against the current daemon

  /** Every name this revision accepts the current daemon accepts, but not the other way round. */
  lemma NameRulesCompared(name: string)
    ensures ValidLegacyName(name) ==> Registry.ValidLockName(name)
    ensures Registry.ValidLockName("job_1") && !ValidLegacyName("job_1")
  {
    assert "job_1"[3] == '_';
  }

  /** Verify is not a command of this revision. */
  lemma VerifyIsUnknown(directory: string, s: State, client: Session, req: LockRequest, faults: Faults)
    requires ValidLegacyName(req.lockName) && req.command == Protocol.Verify
    ensures ProcessRequest(directory, s, client, req, faults)
         == (LegacyResponse(Registry.Echo(req), Code(BadRequest), "unknown command", false), s)
  {
  }

  /**
    Acquire of a name another session holds: the current daemon answers
    Failed, this revision Denied; neither changes anything.
   */
  lemma OtherSessionAnswers(directory: string, s: State, client: Session, name: string, faults: Faults)
    requires name in s.owners && s.owners[name] != client
    ensures Acquire(directory, s, client, name, faults) == (Outcome(Denied, DifferentSession), s)
    ensures var core := Registry.State(s.owners, s.files, s.foreign);
      Registry.Acquire(directory, core, client, name, faults) == (Registry.Outcome(Failed, Registry.OtherSession), core)
  {
  }
}
