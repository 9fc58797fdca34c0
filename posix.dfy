/**
  The part of the operating system the coordinator talks to: opening,
  removing and writing backing files, and the three fcntl operations of
  api/core/fcntl_locks.go (F_SETLK with F_WRLCK, F_GETLK, F_SETLK with
  F_UNLCK) on the whole file.

  The kernel state is abstract: which backing files exist, which of them
  carry a lock held by some other process, and which carry a lock held by
  this process. POSIX record locks belong to a (process, file) pair, so a
  lock of this process is keyed by the file's path, and closing any
  descriptor of the file drops it. Failures that the lock state does not
  explain (I/O errors, a full lock table, a missing directory, ...) are not
  predictable: each call takes an oracle `fault` that, when present, is the
  error the system call returns.
 */
module Posix {
  import opened Wrappers

  /** The error numbers the coordinator inspects, and every other one with its text. */
  datatype Errno = EAGAIN | EACCES | ENOENT | OtherErrno(code: nat, text: string)

  /** `syscall.Errno.Error()`: the strerror text. */
  function ErrnoText(e: Errno): string {
    match e
    case EAGAIN => "resource temporarily unavailable"
    case EACCES => "permission denied"
    case ENOENT => "no such file or directory"
    case OtherErrno(_, text) => text
  }

  /** F_SETLK reports a lock held elsewhere with EAGAIN or EACCES (POSIX allows either). */
  predicate IsBusy(e: Errno) {
    e == EAGAIN || e == EACCES
  }

  /** `*os.PathError`: the failed operation, the path and the underlying errno. */
  datatype PathError = PathError(op: string, path: string, errno: Errno) {
    /** `PathError.Error()`. */
    function Text(): string {
      op + " " + path + ": " + ErrnoText(errno)
    }
  }

  /** The unpredictable outcome of each system call a request may make. */
  datatype Faults = Faults(
    open: Option<Errno>,
    lock: Option<Errno>,
    query: Option<Errno>,
    unlock: Option<Errno>,
    remove: Option<Errno>,
    write: Option<Errno>)

  const NoFaults := Faults(None, None, None, None, None, None)

  /** An open descriptor (`*os.File`); its identity is the object's identity. */
  class File {
    const path: string

    constructor (path: string)
      ensures this.path == path
    {
      this.path := path;
    }
  }

  class Kernel {
    /** Backing files present on disk. */
    var files: set<string>
    /** Files on which another process holds an fcntl lock. */
    var foreign: set<string>
    /** Files on which this process holds an fcntl lock. */
    var held: set<string>

    /** Record locks are exclusive: no file is locked by this process and another one. */
    ghost predicate Valid()
      reads this
    {
      held !! foreign
    }

    /** A process that has not locked anything yet, on a host in the given state. */
    constructor (files: set<string>, foreign: set<string>)
      ensures Valid()
      ensures this.files == files && this.foreign == foreign && held == {}
    {
      this.files, this.foreign, held := files, foreign, {};
    }

    /** `os.OpenFile(path, flags, 0664)`; with O_CREATE a missing file is created. */
    method Open(path: string, create: bool, fault: Option<Errno>) returns (r: Result<File, PathError>)
      modifies this`files
      ensures fault.Some? ==> r == Err(PathError("open", path, fault.value)) && files == old(files)
      ensures fault.None? && !create && path !in old(files) ==>
                r == Err(PathError("open", path, ENOENT)) && files == old(files)
      ensures fault.None? && (create || path in old(files)) ==>
                r.Ok? && fresh(r.value) && r.value.path == path && files == old(files) + {path}
    {
      if fault.Some? {
        return Err(PathError("open", path, fault.value));
      }
      if !create && path !in files {
        return Err(PathError("open", path, ENOENT));
      }
      files := files + {path};
      var f := new File(path);
      return Ok(f);
    }

    /** `acquireLockDirect`: non-blocking exclusive lock of the whole file. */
    method AcquireLockDirect(f: File, fault: Option<Errno>) returns (err: Option<Errno>)
      requires Valid()
      modifies this`held
      ensures Valid()
      ensures fault.Some? ==> err == fault && held == old(held)
      ensures fault.None? && f.path in foreign ==> err == Some(EAGAIN) && held == old(held)
      ensures fault.None? && f.path !in foreign ==> err == None && held == old(held) + {f.path}
    {
      if fault.Some? {
        return fault;
      }
      if f.path in foreign {
        return Some(EAGAIN);
      }
      // re-locking a file this process already holds succeeds
      held := held + {f.path};
      return None;
    }

    /**
      `isUnlocked`: F_GETLK reports whether a lock CONFLICTING with a write
      lock of this process exists, so this process's own lock never shows.
     */
    method IsUnlocked(f: File, fault: Option<Errno>) returns (unlocked: bool, err: Option<Errno>)
      ensures err == fault
      ensures unlocked <==> fault.None? && f.path !in foreign
    {
      if fault.Some? {
        return false, fault;
      }
      return f.path !in foreign, None;
    }

    /** `releaseLock`: F_UNLCK of the whole file. */
    method ReleaseLock(f: File, fault: Option<Errno>) returns (err: Option<Errno>)
      requires Valid()
      modifies this`held
      ensures Valid()
      ensures err == fault
      ensures held == if fault.Some? then old(held) else old(held) - {f.path}
    {
      if fault.Some? {
        return fault;
      }
      held := held - {f.path};
      return None;
    }

    /** `f.Close()`: closing a descriptor drops every lock of this process on the file. */
    method Close(f: File)
      requires Valid()
      modifies this`held
      ensures Valid()
      ensures held == old(held) - {f.path}
    {
      held := held - {f.path};
    }

    /** `os.Remove(path)`. */
    method Remove(path: string, fault: Option<Errno>) returns (err: Option<PathError>)
      modifies this`files
      ensures fault.Some? ==> err == Some(PathError("remove", path, fault.value)) && files == old(files)
      ensures fault.None? && path !in old(files) ==>
                err == Some(PathError("remove", path, ENOENT)) && files == old(files)
      ensures fault.None? && path in old(files) ==> err == None && files == old(files) - {path}
    {
      if fault.Some? {
        return Some(PathError("remove", path, fault.value));
      }
      if path !in files {
        return Some(PathError("remove", path, ENOENT));
      }
      files := files - {path};
      return None;
    }

    /** `f.Write(data)`; the file's contents are not part of the model. */
    method Write(f: File, fault: Option<Errno>) returns (err: Option<PathError>)
      ensures err == if fault.Some? then Some(PathError("write", f.path, fault.value)) else None
    {
      if fault.Some? {
        return Some(PathError("write", f.path, fault.value));
      }
      return None;
    }
  }
}
