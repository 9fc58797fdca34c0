/**
  The earlier lock coordinator of cli/distrilock/process.go: the same two
  registry maps as core.dfy, updated in place under one mutex, with the
  rules of legacy_registry.dfy. Every request-level method is proved to
  perform the matching step of legacy_registry.dfy on `Abstract()` and to
  keep `Valid()`; the loops have contracts of their own. This `Valid()` is
  weaker than the current daemon's: a registered name need not be locked
  any more.
 */
module Legacy {
  import opened Wrappers
  import opened Protocol
  import opened Posix
  import opened Books
  import Registry
  import opened LegacyRegistry

  /**
    The two loops of `processDisconnect`, which leave the maps `k'` and `r'`
    and the held paths `held'`, perform the disconnect step of
    legacy_registry.dfy on `s`, and the result is again well formed.
   */
  lemma DisconnectRefines(directory: string, k: map<string, File>, r: map<File, Session>, s: LegacyRegistry.State,
                          client: Session, dropped: seq<File>,
                          k': map<string, File>, r': map<File, Session>, held': set<string>)
    requires Indexed(directory, "", k, r) && s.owners == OwnersOf(k, r) && WellFormed(directory, s)
    requires forall g :: g in dropped <==> g in r && r[g] == client
    requires k' == Forget(k, dropped)
    requires r' == Disown(r, client)
    requires held' == s.held - (set g | g in dropped :: g.path)
    ensures Indexed(directory, "", k', r')
    ensures LegacyRegistry.State(OwnersOf(k', r'), s.files, s.foreign, held') == LegacyRegistry.ProcessDisconnect(directory, s, client)
    ensures WellFormed(directory, LegacyRegistry.State(OwnersOf(k', r'), s.files, s.foreign, held'))
  {
    var next := LegacyRegistry.ProcessDisconnect(directory, s, client);
    assert Indexed(directory, "", k', r') by {
      DisconnectIndexed(directory, "", k, r, client, dropped);
    }
    assert OwnersOf(k', r') == next.owners by {
      DisconnectOwners(directory, "", k, r, client, dropped, s.owners);
    }
    assert held' == next.held by {
      DroppedPaths(directory, "", k, r, client, dropped);
    }
    assert WellFormed(directory, next) by {
      DisconnectPreservesWellFormed(directory, s, client);
    }
  }

  class Coordinator {
    /** The lock directory the daemon was started with (a string the name is appended to). */
    const directory: string
    const kernel: Kernel
    var knownResources: map<string, File>
    var resourceAcquiredBy: map<File, Session>

    ghost function Abstract(): LegacyRegistry.State
      reads this, kernel
    {
      LegacyRegistry.State(OwnersOf(knownResources, resourceAcquiredBy), kernel.files, kernel.foreign, kernel.held)
    }

    /**
      The maps are `Indexed`, and the abstract state is well formed: every
      file this process holds a lock on is a registered one, and every
      registered file exists. Each method keeps the second part through the
      matching preservation lemma of legacy_registry.dfy.
     */
    ghost predicate Valid()
      reads this, kernel
    {
      && kernel.Valid()
      && Indexed(directory, "", knownResources, resourceAcquiredBy)
      && WellFormed(directory, Abstract())
    }

    /** A daemon that has just started: empty maps, no lock held. */
    constructor (directory: string, kernel: Kernel)
      requires kernel.Valid() && kernel.held == {} && kernel.foreign <= kernel.files
      ensures Valid()
      ensures this.directory == directory && this.kernel == kernel
      ensures Abstract().owners == map[]
    {
      this.directory := directory;
      this.kernel := kernel;
      knownResources := map[];
      resourceAcquiredBy := map[];
    }

    /** `acquire`: open with O_CREATE, lock, write the client identity, register. */
    method Acquire(client: Session, lockName: string, faults: Faults) returns (result: LegacyResult, reason: string)
      requires Valid()
      modifies this, kernel
      ensures Valid()
      ensures (Outcome(result, reason), Abstract()) == LegacyRegistry.Acquire(directory, old(Abstract()), client, lockName, faults)
    {
      if lockName in knownResources {
        // "BUG: missing resource acquired by record" is ruled out by Valid()
        var owner := resourceAcquiredBy[knownResources[lockName]];
        if owner != client {
          return Denied, DifferentSession;
        }
        // already acquired by this session
        return Code(Success), "no-op";
      }
      AcquirePreservesWellFormed(directory, Abstract(), client, lockName, faults);
      var path := LegacyPath(directory, lockName);
      var file := kernel.Open(path, true, faults.open);
      if file.Err? {
        return Code(InternalError), file.error.Text();
      }
      var f := file.value;
      var err := kernel.AcquireLockDirect(f, faults.lock);
      if err.Some? {
        kernel.Close(f);
        if IsBusy(err.value) {
          return Code(Failed), Registry.OtherProcess;
        }
        return Code(InternalError), ErrnoText(err.value);
      }
      // the file's contents (the client's address) are not modelled, only the failure
      var writeErr := kernel.Write(f, faults.write);
      if writeErr.Some? {
        kernel.Close(f);
        assert kernel.held == old(kernel.held) - {path};
        return Code(InternalError), writeErr.value.Text();
      }
      Register(directory, "", knownResources, resourceAcquiredBy, lockName, f, client);
      resourceAcquiredBy := resourceAcquiredBy[f := client];
      knownResources := knownResources[lockName := f];
      return Code(Success), "";
    }

    /** `peek`: reads the maps only; the kernel is touched by an open and a close. */
    method Peek(lockName: string, faults: Faults) returns (result: LegacyResult, reason: string, isLocked: bool)
      requires Valid()
      modifies kernel
      ensures Valid() && unchanged(this)
      ensures Abstract() == old(Abstract())
      ensures (Outcome(result, reason), isLocked) == LegacyRegistry.Peek(directory, old(Abstract()), lockName, faults)
    {
      if lockName in knownResources {
        return Code(Success), "", true;
      }
      Books.UnregisteredPathFree(directory, "", knownResources, lockName);
      // differently from Acquire, the file must exist already
      var file := kernel.Open(LegacyPath(directory, lockName), false, faults.open);
      if file.Err? {
        if file.error.errno == ENOENT {
          return Code(Success), "", false;
        }
        return Code(InternalError), file.error.Text(), false;
      }
      var unlocked, err := kernel.IsUnlocked(file.value, faults.query);
      kernel.Close(file.value);
      if err.Some? {
        return Code(InternalError), ErrnoText(err.value), false;
      }
      return Code(Success), "", !unlocked;
    }

    /** `release`, as written: unlock, then check who owns the name. */
    method Release(client: Session, lockName: string, faults: Faults) returns (result: LegacyResult, reason: string)
      requires Valid()
      modifies this, kernel
      ensures Valid()
      ensures (Outcome(result, reason), Abstract()) == LegacyRegistry.Release(directory, old(Abstract()), client, lockName, faults)
    {
      if lockName !in knownResources {
        return Code(Failed), Registry.NotFound;
      }
      ReleasePreservesWellFormed(directory, Abstract(), client, lockName, faults);
      var f := knownResources[lockName];
      var err := kernel.ReleaseLock(f, faults.unlock);
      if err.Some? {
        return Code(InternalError), ErrnoText(err.value);
      }
      // "BUG: missing resource acquired by record" is ruled out by Valid()
      if resourceAcquiredBy[f] != client {
        // the lock is already gone, the registration stays
        return Denied, DifferentSession;
      }
      Unregister(directory, "", knownResources, resourceAcquiredBy, lockName);
      knownResources := knownResources - {lockName};
      resourceAcquiredBy := resourceAcquiredBy - {f};
      kernel.Close(f);
      assert kernel.held == old(kernel.held) - {f.path};
      return Code(Success), "";
    }

    /** The inner loop of `processDisconnect`: forget the name `dropped` is registered under. */
    method ForgetFile(dropped: File)
      requires forall n | n in knownResources :: knownResources[n].path == LegacyPath(directory, n)
      modifies this`knownResources
      ensures knownResources == map n | n in old(knownResources) && old(knownResources)[n] != dropped :: old(knownResources)[n]
    {
      var names := knownResources.Keys;
      while names != {}
        invariant names <= knownResources.Keys
        invariant knownResources == old(knownResources)
        invariant forall n | n in knownResources && n !in names :: knownResources[n] != dropped
        decreases names
      {
        var name :| name in names;
        if knownResources[name] == dropped {
          // no other name has this backing file
          forall n | n in knownResources && n != name ensures knownResources[n] != dropped {
            if knownResources[n] == dropped {
              BackingPathInjective(directory, "", n, name);
            }
          }
          knownResources := knownResources - {name};
          return;
        }
        names := names - {name};
      }
    }

    /** The first loop of `processDisconnect`: close and disown every file the session owns. */
    method CloseSessionFiles(client: Session) returns (filesToDrop: seq<File>)
      requires kernel.Valid()
      modifies this`resourceAcquiredBy, kernel`held
      ensures kernel.Valid()
      ensures forall f :: f in filesToDrop <==> f in old(resourceAcquiredBy) && old(resourceAcquiredBy)[f] == client
      ensures resourceAcquiredBy == Disown(old(resourceAcquiredBy), client)
      ensures kernel.held == old(kernel.held) - (set f | f in filesToDrop :: f.path)
    {
      filesToDrop := [];
      var pending := resourceAcquiredBy.Keys;
      while pending != {}
        invariant pending <= old(resourceAcquiredBy).Keys
        invariant resourceAcquiredBy == map f | f in old(resourceAcquiredBy) && (f in pending || old(resourceAcquiredBy)[f] != client) :: old(resourceAcquiredBy)[f]
        invariant forall f :: f in filesToDrop <==> f in old(resourceAcquiredBy) && f !in pending && old(resourceAcquiredBy)[f] == client
        invariant kernel.held == old(kernel.held) - (set f | f in filesToDrop :: f.path)
        invariant kernel.Valid()
        decreases pending
      {
        var f :| f in pending;
        if resourceAcquiredBy[f] == client {
          kernel.Close(f);
          filesToDrop := filesToDrop + [f];
          resourceAcquiredBy := resourceAcquiredBy - {f};
        }
        pending := pending - {f};
      }
    }

    /** The second loop of `processDisconnect`: forget the names of the closed files. */
    method ForgetFiles(filesToDrop: seq<File>)
      requires forall n | n in knownResources :: knownResources[n].path == LegacyPath(directory, n)
      modifies this`knownResources
      ensures knownResources == Forget(old(knownResources), filesToDrop)
    {
      var i := 0;
      while i < |filesToDrop|
        invariant 0 <= i <= |filesToDrop|
        invariant knownResources == map n | n in old(knownResources) && old(knownResources)[n] !in filesToDrop[..i] :: old(knownResources)[n]
      {
        ForgetFile(filesToDrop[i]);
        i := i + 1;
      }
      assert filesToDrop[..i] == filesToDrop;
    }

    /** `processDisconnect`. */
    method ProcessDisconnect(client: Session)
      requires Valid()
      modifies this, kernel
      ensures Valid()
      ensures Abstract() == LegacyRegistry.ProcessDisconnect(directory, old(Abstract()), client)
    {
      ghost var s := Abstract();
      var filesToDrop := CloseSessionFiles(client);
      ForgetFiles(filesToDrop);
      DisconnectRefines(directory, old(knownResources), old(resourceAcquiredBy), s, client, filesToDrop,
                        knownResources, resourceAcquiredBy, kernel.held);
    }

    /** `processRequest`: validate the name, dispatch, and answer with the request echoed. */
    method ProcessRequest(client: Session, req: LockRequest, faults: Faults) returns (res: LegacyResponse)
      requires Valid()
      modifies this, kernel
      ensures Valid()
      ensures (res, Abstract()) == LegacyRegistry.ProcessRequest(directory, old(Abstract()), client, req, faults)
    {
      res := LegacyResponse(req, Code(InvalidResult), "", false);
      // override with the daemon's own version
      res := res.(request := res.request.(versionMajor := VersionMajor, versionMinor := VersionMinor));
      if !ValidLegacyName(req.lockName) {
        res := res.(result := Code(BadRequest), reason := "invalid lock name");
        return;
      }
      var command := res.request.command;
      if command == Protocol.Acquire {
        var result, reason := Acquire(client, req.lockName, faults);
        res := res.(result := result, reason := reason);
      } else if command == Protocol.Release {
        var result, reason := Release(client, req.lockName, faults);
        res := res.(result := result, reason := reason);
      } else if command == Protocol.Peek {
        var result, reason, isLocked := Peek(req.lockName, faults);
        res := res.(result := result, reason := reason, isLocked := isLocked);
      } else {
        res := res.(result := Code(BadRequest), reason := "unknown command");
      }
    }
  }
}
