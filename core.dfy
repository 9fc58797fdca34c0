/**
  The lock coordinator of api/core/process.go as the daemon runs it: the two
  registry maps `knownResources` (lock name -> open file) and
  `resourceAcquiredBy` (open file -> session), updated in place, over the
  kernel of posix.dfy. Every request-level method is proved to perform the
  matching step of registry.dfy on the abstract view `Abstract()`, and to
  keep `Valid()`; the loops and the fast path have contracts of their own.

  The source guards the maps with a readers-writer mutex and re-checks the
  registry after trading the read lock for the write lock. Each method here
  is one atomic step, so the re-check sees what the first check saw and is
  written once.
 */
module Core {
  import opened Wrappers
  import opened Protocol
  import opened Posix
  import opened Books
  import Registry

  // ---------------------------------------------------------------------------
  // The coordinator

  class Coordinator {
    /** The lock directory the daemon was started with (a string the name is appended to). */
    const directory: string
    const kernel: Kernel
    var knownResources: map<string, File>
    var resourceAcquiredBy: map<File, Session>

    ghost function Abstract(): Registry.State
      reads this, kernel
    {
      Registry.State(OwnersOf(knownResources, resourceAcquiredBy), kernel.files, kernel.foreign)
    }

    /**
      The registry invariant: the maps are `Indexed`, and the files this
      process holds an fcntl lock on are exactly the registered ones.
     */
    ghost predicate Valid()
      reads this, kernel
      ensures Valid() ==> Registry.Consistent(directory, Abstract())
    {
      && kernel.Valid()
      && Indexed(directory, Registry.LockExt, knownResources, resourceAcquiredBy)
      && kernel.held == PathsOf(directory, Registry.LockExt, knownResources)
      && kernel.held <= kernel.files
      && kernel.foreign <= kernel.files
    }

    /** A daemon that has just started: empty maps, no lock held. */
    constructor (directory: string, kernel: Kernel)
      requires kernel.Valid() && kernel.held == {} && kernel.foreign <= kernel.files
      ensures Valid()
      ensures this.directory == directory && this.kernel == kernel
      ensures Abstract().owners == map[]
    {
      this.directory := directory;
      this.kernel := kernel;
      knownResources := map[];
      resourceAcquiredBy := map[];
    }

    /** `shortAcquire`: the name is registered with file `f`. */
    method ShortAcquire(client: Session, f: File, ghost name: string) returns (result: LockCommandResult, reason: string)
      requires Valid()
      requires name in knownResources && knownResources[name] == f
      ensures Registry.Outcome(result, reason) == Registry.ShortAcquire(Abstract(), client, name)
    {
      // the source panics with "BUG: missing resource acquired by record"
      // when f has no owner; Valid() rules that out
      var owner := resourceAcquiredBy[f];
      if owner != client {
        return Failed, Registry.OtherSession;
      }
      // already acquired by this session; no re-lock (that is what Verify is for)
      return Success, "no-op";
    }

    /** `acquire`. */
    method Acquire(client: Session, lockName: string, faults: Faults) returns (result: LockCommandResult, reason: string)
      requires Valid()
      modifies this, kernel
      ensures Valid()
      ensures (Registry.Outcome(result, reason), Abstract()) == Registry.Acquire(directory, old(Abstract()), client, lockName, faults)
    {
      if lockName in knownResources {
        result, reason := ShortAcquire(client, knownResources[lockName], lockName);
        return;
      }
      var path := Registry.LockPath(directory, lockName);
      UnregisteredPathFree(directory, Registry.LockExt, knownResources, lockName);
      var file := kernel.Open(path, true, faults.open);
      if file.Err? {
        return InternalError, file.error.Text();
      }
      var f := file.value;
      var err := kernel.AcquireLockDirect(f, faults.lock);
      if err.Some? {
        kernel.Close(f);
        if IsBusy(err.value) {
          return Failed, Registry.OtherProcess;
        }
        return InternalError, ErrnoText(err.value);
      }
      Register(directory, Registry.LockExt, knownResources, resourceAcquiredBy, lockName, f, client);
      resourceAcquiredBy := resourceAcquiredBy[f := client];
      knownResources := knownResources[lockName := f];
      return Success, "";
    }

    /** `peek`: reads the maps only; the kernel is touched by an open and a close. */
    method Peek(lockName: string, faults: Faults) returns (result: LockCommandResult, reason: string, isLocked: bool)
      requires Valid()
      modifies kernel
      ensures Valid() && unchanged(this)
      ensures Abstract() == old(Abstract())
      ensures (Registry.Outcome(result, reason), isLocked) == Registry.Peek(directory, old(Abstract()), lockName, faults)
    {
      if lockName in knownResources {
        // the registry is trusted: the lock is assumed to be still held
        return Success, "", true;
      }
      UnregisteredPathFree(directory, Registry.LockExt, knownResources, lockName);
      var file := kernel.Open(Registry.LockPath(directory, lockName), false, faults.open);
      if file.Err? {
        if file.error.errno == ENOENT {
          return Success, "", false;
        }
        return InternalError, file.error.Text(), false;
      }
      var unlocked, err := kernel.IsUnlocked(file.value, faults.query);
      kernel.Close(file.value);
      if err.Some? {
        return InternalError, ErrnoText(err.value), false;
      }
      return Success, "", !unlocked;
    }

    /** `release`. */
    method Release(client: Session, lockName: string, faults: Faults) returns (result: LockCommandResult, reason: string)
      requires Valid()
      modifies this, kernel
      ensures Valid()
      ensures (Registry.Outcome(result, reason), Abstract()) == Registry.Release(directory, old(Abstract()), client, lockName, faults)
    {
      if lockName !in knownResources {
        return Failed, Registry.NotFound;
      }
      var f := knownResources[lockName];
      // "BUG: missing resource acquired by record" is ruled out by Valid()
      if resourceAcquiredBy[f] != client {
        return Failed, Registry.OtherSession;
      }
      var err := kernel.ReleaseLock(f, faults.unlock);
      if err.Some? {
        // a lock that failed to unlock stays in the books
        return InternalError, ErrnoText(err.value);
      }
      Unregister(directory, Registry.LockExt, knownResources, resourceAcquiredBy, lockName);
      knownResources := knownResources - {lockName};
      resourceAcquiredBy := resourceAcquiredBy - {f};
      kernel.Close(f);
      ghost var purged := old(Abstract()).(owners := old(Abstract()).owners - {lockName});
      assert Abstract() == purged;
      assert kernel.held == PathsOf(directory, Registry.LockExt, knownResources) && f.path !in kernel.held;
      var removeErr := kernel.Remove(Registry.LockPath(directory, lockName), faults.remove);
      if removeErr.Some? {
        return InternalError, removeErr.value.Text();
      }
      return Success, "";
    }

    /** `verifyOwnership`: re-lock the owner's file; the maps do not change. */
    method Verify(client: Session, lockName: string, faults: Faults) returns (result: LockCommandResult, reason: string)
      requires Valid()
      modifies kernel
      ensures Valid() && unchanged(this)
      ensures Abstract() == old(Abstract())
      ensures Registry.Outcome(result, reason) == Registry.Verify(directory, old(Abstract()), client, lockName, faults)
    {
      if lockName !in knownResources {
        return Failed, Registry.NotFound;
      }
      var f := knownResources[lockName];
      // "BUG: missing resource acquired by record" is ruled out by Valid()
      if resourceAcquiredBy[f] != client {
        return Failed, Registry.OtherSession;
      }
      var err := kernel.AcquireLockDirect(f, faults.lock);
      if err.Some? {
        if IsBusy(err.value) {
          return Failed, Registry.OtherProcess;
        }
        return InternalError, ErrnoText(err.value);
      }
      return Success, "";
    }

    /** The inner loop of `ProcessDisconnect`: forget the name `dropped` is registered under. */
    method ForgetFile(dropped: File)
      requires forall n | n in knownResources :: knownResources[n].path == Registry.LockPath(directory, n)
      modifies this`knownResources
      ensures knownResources == map n | n in old(knownResources) && old(knownResources)[n] != dropped :: old(knownResources)[n]
    {
      var names := knownResources.Keys;
      while names != {}
        invariant names <= knownResources.Keys
        invariant knownResources == old(knownResources)
        invariant forall n | n in knownResources && n !in names :: knownResources[n] != dropped
        decreases names
      {
        var name :| name in names;
        if knownResources[name] == dropped {
          // no other name has this backing file
          forall n | n in knownResources && n != name ensures knownResources[n] != dropped {
            if knownResources[n] == dropped {
              Registry.LockPathInjective(directory, n, name);
            }
          }
          knownResources := knownResources - {name};
          return;
        }
        names := names - {name};
      }
    }

    /** The first loop of `ProcessDisconnect`: close and disown every file the session owns. */
    method CloseSessionFiles(client: Session) returns (filesToDrop: seq<File>)
      requires kernel.Valid()
      modifies this`resourceAcquiredBy, kernel`held
      ensures kernel.Valid()
      ensures forall f :: f in filesToDrop <==> f in old(resourceAcquiredBy) && old(resourceAcquiredBy)[f] == client
      ensures resourceAcquiredBy == Disown(old(resourceAcquiredBy), client)
      ensures kernel.held == old(kernel.held) - (set f | f in filesToDrop :: f.path)
    {
      filesToDrop := [];
      var pending := resourceAcquiredBy.Keys;
      while pending != {}
        invariant pending <= old(resourceAcquiredBy).Keys
        invariant resourceAcquiredBy == map f | f in old(resourceAcquiredBy) && (f in pending || old(resourceAcquiredBy)[f] != client) :: old(resourceAcquiredBy)[f]
        invariant forall f :: f in filesToDrop <==> f in old(resourceAcquiredBy) && f !in pending && old(resourceAcquiredBy)[f] == client
        invariant kernel.held == old(kernel.held) - (set f | f in filesToDrop :: f.path)
        invariant kernel.Valid()
        decreases pending
      {
        var f :| f in pending;
        if resourceAcquiredBy[f] == client {
          // closing the descriptor releases the fcntl lock
          kernel.Close(f);
          filesToDrop := filesToDrop + [f];
          resourceAcquiredBy := resourceAcquiredBy - {f};
        }
        pending := pending - {f};
      }
    }

    /** The second loop of `ProcessDisconnect`: forget the names of the closed files. */
    method ForgetFiles(filesToDrop: seq<File>)
      requires forall n | n in knownResources :: knownResources[n].path == Registry.LockPath(directory, n)
      modifies this`knownResources
      ensures knownResources == Forget(old(knownResources), filesToDrop)
    {
      var i := 0;
      while i < |filesToDrop|
        invariant 0 <= i <= |filesToDrop|
        invariant knownResources == map n | n in old(knownResources) && old(knownResources)[n] !in filesToDrop[..i] :: old(knownResources)[n]
      {
        ForgetFile(filesToDrop[i]);
        i := i + 1;
      }
      assert filesToDrop[..i] == filesToDrop;
    }

    /** `ProcessDisconnect`: close and forget every file the session owns. */
    method ProcessDisconnect(client: Session)
      requires Valid()
      modifies this, kernel
      ensures Valid()
      ensures Abstract() == Registry.ProcessDisconnect(old(Abstract()), client)
    {
      var filesToDrop := CloseSessionFiles(client);
      ForgetFiles(filesToDrop);
      Disconnect(directory, Registry.LockExt, old(knownResources), old(resourceAcquiredBy), client, filesToDrop);
    }

    /** `ProcessRequest`: validate the name, dispatch, and answer with the request echoed. */
    method ProcessRequest(client: Session, req: LockRequest, faults: Faults) returns (res: LockResponse)
      requires Valid()
      modifies this, kernel
      ensures Valid()
      ensures (res, Abstract()) == Registry.ProcessRequest(directory, old(Abstract()), client, req, faults)
    {
      res := LockResponse(req, InvalidResult, "", false);
      // override with the daemon's own version
      res := res.(request := res.request.(versionMajor := VersionMajor, versionMinor := VersionMinor));
      if !Registry.ValidLockName(req.lockName) {
        res := res.(result := BadRequest, reason := "invalid lock name");
        return;
      }
      var command := res.request.command;
      if command == Protocol.Acquire {
        var result, reason := Acquire(client, req.lockName, faults);
        res := res.(result := result, reason := reason);
      } else if command == Protocol.Release {
        var result, reason := Release(client, req.lockName, faults);
        res := res.(result := result, reason := reason);
      } else if command == Protocol.Peek {
        var result, reason, isLocked := Peek(req.lockName, faults);
        res := res.(result := result, reason := reason, isLocked := isLocked);
      } else if command == Protocol.Verify {
        var result, reason := Verify(client, req.lockName, faults);
        res := res.(result := result, reason := reason);
      } else {
        res := res.(result := BadRequest, reason := "unknown command");
      }
    }
  }
}
