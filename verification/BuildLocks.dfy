/** The BuildLock object (Unix branch): fields updated in place over the shared kernel. */
module BuildLocks {
  import opened LockProtocol

  datatype Errno = OK | EACCES | ENOSPC | ENOENT | ENAMETOOLONG | EWOULDBLOCK | EAGAIN | EOTHER

  /** What the environment answers to one acquisition. */
  datatype Environment = Environment(parentExists: bool, openError: Errno, lockError: Errno)

  datatype Outcome = Acquired | InProgress | Permission | DiskFull | NoDirectory | LockFailure

  function OpenFailure(e: Errno): Outcome
    requires e != OK
  {
    match e
    case EACCES => Permission
    case ENOSPC => DiskFull
    case ENOENT => NoDirectory
    case _ => LockFailure
  }

  function LockRefusal(e: Errno): Outcome
    requires e != OK
  {
    if e == EWOULDBLOCK || e == EAGAIN || e == EACCES then InProgress else LockFailure
  }

  /** What an acquisition of `path` must answer. */
  function Expected(k: Kernel, path: Path, env: Environment): Outcome {
    if !env.parentExists then NoDirectory
    else if env.openError != OK then OpenFailure(env.openError)
    else if path in k.dir && k.dir[path] in k.locks then InProgress
    else if env.lockError != OK then LockRefusal(env.lockError)
    else Acquired
  }

  /** The kernel after an acquisition: untouched when the open fails, locked when it succeeds,
      with the description closed again when the lock is refused. */
  function Attempted(k: Kernel, path: Path, env: Environment): Kernel {
    var (k', fd) := k.Open(path);
    if !env.parentExists || env.openError != OK then k
    else if fd in k'.open && Expected(k, path, env) == Acquired then k'.Lock(fd)
    else k'.Close(fd)
  }

  /** The description fd owns the lock of its inode. */
  predicate Owns(k: Kernel, fd: Fd) {
    fd in k.open && k.open[fd] in k.locks && k.locks[k.open[fd]] == fd
  }

  class FileSystem {
    var kernel: Kernel

    constructor ()
      ensures kernel == EMPTY_KERNEL
    {
      kernel := EMPTY_KERNEL;
    }
  }

  datatype Descriptor = Closed | Fd(fd: LockProtocol.Fd)

  class BuildLock {
    const fs: FileSystem
    var lockFilePath: Path
    var isLocked: bool
    var fileDescriptor: Descriptor

    /** A locked object owns the lock of its description; an unlocked one has none open. */
    predicate Valid()
      reads this, fs
    {
      && fs.kernel.Valid()
      && (isLocked <==> fileDescriptor.Fd?)
      && (isLocked ==> Owns(fs.kernel, fileDescriptor.fd))
    }

    constructor Unlocked(fs: FileSystem, outputPath: Path)
      requires fs.kernel.Valid()
      ensures this.fs == fs && Valid() && !isLocked && lockFilePath == outputPath + ".building"
    {
      this.fs := fs;
      lockFilePath := outputPath + ".building";
      isLocked := false;
      fileDescriptor := Closed;
    }

    /** acquireLock: open or create, try the lock without blocking, truncate. A refused
        attempt closes its description and leaves every entry and lock as it was. */
    method AcquireLock(env: Environment) returns (r: Outcome)
      requires Valid() && !isLocked
      modifies this`isLocked, this`fileDescriptor, fs
      ensures Valid() && r == Expected(old(fs.kernel), lockFilePath, env)
      ensures !env.parentExists ==> r == NoDirectory
      ensures env.parentExists ==>
        match env.openError
        case EACCES => r == Permission
        case ENOSPC => r == DiskFull
        case ENOENT => r == NoDirectory
        case OK =>
          if lockFilePath in old(fs.kernel).dir && old(fs.kernel).dir[lockFilePath] in old(fs.kernel).locks
          then r == InProgress
          else (match env.lockError
            case OK => r == Acquired
            case EWOULDBLOCK => r == InProgress
            case EAGAIN => r == InProgress
            case EACCES => r == InProgress
            case _ => r == LockFailure)
        case _ => r == LockFailure
      ensures isLocked <==> r == Acquired
      ensures fs.kernel == Attempted(old(fs.kernel), lockFilePath, env)
      ensures r == Acquired ==>
        && fileDescriptor.fd == old(fs.kernel).nextFd
        && lockFilePath in fs.kernel.dir
        && fs.kernel.dir[lockFilePath] == fs.kernel.open[fileDescriptor.fd]
      ensures r != Acquired ==>
        && fs.kernel.locks == old(fs.kernel).locks && fs.kernel.open == old(fs.kernel).open
        && (forall p :: p in old(fs.kernel).dir ==> p in fs.kernel.dir && fs.kernel.dir[p] == old(fs.kernel).dir[p])
        && (forall p :: p in fs.kernel.dir && p != lockFilePath ==> p in old(fs.kernel).dir)
    {
      if !env.parentExists {
        return NoDirectory;
      }
      if env.openError != OK {
        return OpenFailure(env.openError);
      }
      var (k, fd) := fs.kernel.Open(lockFilePath);
      var held := !k.CanLock(fd);
      if held || env.lockError != OK {
        CloseAfterOpen(fs.kernel, lockFilePath);
        fs.kernel := k.Close(fd);
        return if held then InProgress else LockRefusal(env.lockError);
      }
      fs.kernel := k.Lock(fd);
      fileDescriptor := Fd(fd);
      isLocked := true;
      r := Acquired;
    }

    /** cleanup: unlink, then unlock, then close. Nothing happens on an unlocked object. */
    method Cleanup()
      requires Valid()
      modifies this`isLocked, this`fileDescriptor, fs
      ensures Valid() && !isLocked
      ensures !old(isLocked) ==> fs.kernel == old(fs.kernel)
      ensures old(isLocked) ==>
        && fs.kernel == old(fs.kernel).Unlink(lockFilePath).Unlock(old(fileDescriptor).fd).Close(old(fileDescriptor).fd)
        && lockFilePath !in fs.kernel.dir
        && old(fs.kernel).open[old(fileDescriptor).fd] !in fs.kernel.locks
    {
      if !isLocked {
        return;
      }
      var fd := fileDescriptor.fd;
      fs.kernel := fs.kernel.Unlink(lockFilePath);
      fs.kernel := fs.kernel.Unlock(fd);
      fs.kernel := fs.kernel.Close(fd);
      fileDescriptor := Closed;
      isLocked := false;
    }

    /** release, and the destructor: safe to call any number of times. */
    method Release()
      requires Valid()
      modifies this`isLocked, this`fileDescriptor, fs
      ensures Valid() && !isLocked
      ensures !old(isLocked) ==> fs.kernel == old(fs.kernel)
      ensures old(isLocked) ==>
        && fs.kernel == old(fs.kernel).Unlink(lockFilePath).Unlock(old(fileDescriptor).fd).Close(old(fileDescriptor).fd)
        && lockFilePath !in fs.kernel.dir && old(fileDescriptor).fd !in fs.kernel.open
    {
      if isLocked {
        Cleanup();
      }
    }

    /** The move constructor: the new object owns what `other` owned, `other` nothing. */
    constructor Moved(other: BuildLock)
      requires other.Valid()
      modifies other
      ensures this.fs == other.fs && other.fs.kernel == old(other.fs.kernel)
      ensures Valid() && other.Valid()
      ensures lockFilePath == old(other.lockFilePath)
      ensures isLocked == old(other.isLocked) && fileDescriptor == old(other.fileDescriptor)
      ensures !other.isLocked
    {
      fs := other.fs;
      lockFilePath := other.lockFilePath;
      isLocked := other.isLocked;
      fileDescriptor := other.fileDescriptor;
      new;
      other.isLocked := false;
      other.fileDescriptor := Closed;
    }

    /** Move assignment: a lock held here is released first; self-assignment changes nothing. */
    method MoveAssign(other: BuildLock)
      requires Valid() && other.Valid() && other.fs == fs
      requires this != other && isLocked && other.isLocked ==> fileDescriptor != other.fileDescriptor
      modifies this, other, fs
      ensures Valid() && other.Valid()
      ensures this == other ==>
        && fs.kernel == old(fs.kernel) && isLocked == old(isLocked)
        && fileDescriptor == old(fileDescriptor) && lockFilePath == old(lockFilePath)
      ensures this != other ==>
        && !other.isLocked
        && lockFilePath == old(other.lockFilePath)
        && isLocked == old(other.isLocked) && fileDescriptor == old(other.fileDescriptor)
        && fs.kernel == (if old(isLocked)
             then old(fs.kernel).Unlink(old(lockFilePath)).Unlock(old(fileDescriptor).fd).Close(old(fileDescriptor).fd)
             else old(fs.kernel))
    {
      if this != other {
        if isLocked {
          Cleanup();
        }
        lockFilePath := other.lockFilePath;
        isLocked := other.isLocked;
        fileDescriptor := other.fileDescriptor;
        other.fileDescriptor := Closed;
        other.isLocked := false;
      }
    }
  }

  /** Opening and closing at once changes no lock and no description. */
  lemma CloseAfterOpen(k: Kernel, path: Path)
    requires k.Valid()
    ensures var (k', fd) := k.Open(path);
      var k'' := k'.Close(fd);
      k''.Valid() && k''.locks == k.locks && k''.open == k.open && k''.dir == k'.dir
  {
  }

  /** Acquire and release leave descriptions and locks as they were, and the path unlinked. */
  lemma AcquireRelease(k: Kernel, path: Path)
    requires k.Valid() && Free(k, path)
    ensures var (k1, fd) := k.Open(path);
      var k2 := k1.Lock(fd).Unlink(path).Unlock(fd).Close(fd);
      k2.Valid() && k2.open == k.open && k2.locks == k.locks && k2.dir == k.dir - {path}
  {
    var (k1, fd) := k.Open(path);
    var k2 := k1.Lock(fd).Unlink(path).Unlock(fd).Close(fd);
    assert k2.open == k.open;
    assert k2.locks == k.locks;
    assert k2.dir == k.dir - {path};
  }

  // ----- the object's calls are the machine's steps -----

  /** The machine's view of the object: its kernel, and process p holding what the object holds. */
  ghost predicate Represents(lock: BuildLock, s: State, p: Pid)
    reads lock, lock.fs
  {
    && lock.fs.kernel == s.kernel && Consistent(s)
    && s.At(p) == if lock.isLocked && lock.fileDescriptor.Fd?
         then Holding(lock.lockFilePath, lock.fileDescriptor.fd, false) else Idle
  }

  /** What process p does in an acquisition; giving up on a lock error is like dying there. */
  function AttemptSteps(k: Kernel, p: Pid, path: Path, env: Environment): seq<Step> {
    if !env.parentExists || env.openError != OK then []
    else if !Free(k, path) then [OpenFile(p, path, false), Refused(p)]
    else if env.lockError != OK then [OpenFile(p, path, false), LockProtocol.Crash(p)]
    else [OpenFile(p, path, false), TakeLock(p)]
  }

  lemma OpenedBusy(s: State, p: Pid, path: Path)
    requires Consistent(s) && s.At(p).Idle?
    ensures var t := Next(s, OpenFile(p, path, false)); var fd := s.kernel.nextFd;
      && fd in t.kernel.open && (t.kernel.CanLock(fd) <==> Free(s.kernel, path))
      && t.At(p) == Opened(path, fd, false) && t.kernel == s.kernel.Open(path).0 && s.kernel.Open(path).1 == fd
      && (forall q :: q != p ==> t.At(q) == s.At(q))
  {
  }

  lemma Refuses(s: State, p: Pid)
    requires s.At(p).Opened? && s.At(p).fd in s.kernel.open && !s.kernel.CanLock(s.At(p).fd)
    ensures Enabled(s, Refused(p))
    ensures var t := Next(s, Refused(p));
      t.At(p) == Idle && t.kernel == s.kernel.Close(s.At(p).fd) && forall q :: q != p ==> t.At(q) == s.At(q)
  {
  }

  lemma GivesUp(s: State, p: Pid)
    requires s.At(p).Opened?
    ensures Enabled(s, LockProtocol.Crash(p))
    ensures var t := Next(s, LockProtocol.Crash(p));
      t.At(p) == Idle && t.kernel == s.kernel.Close(s.At(p).fd) && forall q :: q != p ==> t.At(q) == s.At(q)
  {
  }

  /** Every acquisition, whatever its outcome, is a run of the machine. */
  lemma AttemptIsSteps(s: State, p: Pid, path: Path, env: Environment)
    requires Consistent(s) && s.At(p).Idle?
    ensures var run := AttemptSteps(s.kernel, p, path, env);
      && IsRun(s, run) && After(s, run).kernel == Attempted(s.kernel, path, env)
      && After(s, run).At(p) == (if Expected(s.kernel, path, env) == Acquired
                                 then Holding(path, s.kernel.nextFd, false) else Idle)
      && (forall q :: q != p ==> After(s, run).At(q) == s.At(q))
  {
    hide IsRun, After, Next, Enabled, Consistent, Kernel.Open, Kernel.Lock, Kernel.Close, Kernel.CanLock, Linked;
    var run := AttemptSteps(s.kernel, p, path, env);
    if run == [] {
      NoSteps(s, run);
    } else {
      OpenedBusy(s, p, path);
      IdleOpens(s, p, path, false);
      var t := Next(s, run[0]);
      if !Free(s.kernel, path) {
        Refuses(t, p);
      } else if env.lockError != OK {
        GivesUp(t, p);
      } else {
        OpenedLocks(t, p);
        TakeFacts(t, p);
      }
      NoSteps(s, run);
      Extend(s, run, 0, s);
      Extend(s, run, 1, t);
      assert run[..2] == run;
    }
  }

  /** AcquireLock moves the machine along those steps. */
  method AcquireBySteps(lock: BuildLock, env: Environment, ghost s: State, ghost p: Pid)
    returns (r: Outcome, ghost run: seq<Step>)
    requires lock.Valid() && !lock.isLocked && Represents(lock, s, p)
    modifies lock`isLocked, lock`fileDescriptor, lock.fs
    ensures lock.Valid() && run == AttemptSteps(s.kernel, p, lock.lockFilePath, env)
    ensures IsRun(s, run) && Represents(lock, After(s, run), p)
    ensures forall q :: q != p ==> After(s, run).At(q) == s.At(q)
  {
    hide IsRun, After, Consistent, Attempted, Expected;
    run := AttemptSteps(s.kernel, p, lock.lockFilePath, env);
    AttemptIsSteps(s, p, lock.lockFilePath, env);
    RunConsistent(s, run);
    r := lock.AcquireLock(env);
  }

  /** Release, on a held lock, is unlink, unlock and close of the machine. */
  method ReleaseBySteps(lock: BuildLock, ghost s: State, ghost p: Pid) returns (ghost run: seq<Step>)
    requires lock.Valid() && Represents(lock, s, p)
    modifies lock`isLocked, lock`fileDescriptor, lock.fs
    ensures lock.Valid() && !lock.isLocked
    ensures run == if old(lock.isLocked) then [UnlinkFile(p), ReleaseLock(p), CloseFile(p)] else []
    ensures IsRun(s, run) && Represents(lock, After(s, run), p)
    ensures forall q :: q != p ==> After(s, run).At(q) == s.At(q)
  {
    hide IsRun, After, Consistent, Kernel.Unlink, Kernel.Unlock, Kernel.Close;
    run := if lock.isLocked then [UnlinkFile(p), ReleaseLock(p), CloseFile(p)] else [];
    if lock.isLocked {
      LeaveRuns(s, p);
    } else {
      NoSteps(s, run);
    }
    RunConsistent(s, run);
    lock.Release();
  }

  /** Moving takes no step: the new object stands for the process the old one stood for. */
  method MoveBySteps(other: BuildLock, ghost s: State, ghost p: Pid) returns (lock: BuildLock)
    requires other.Valid() && Represents(other, s, p)
    modifies other
    ensures fresh(lock) && lock.Valid() && other.Valid() && Represents(lock, s, p) && !other.isLocked
  {
    lock := new BuildLock.Moved(other);
  }

  /** Move assignment is the cleanup of what was held here; then the two objects have changed
      processes: this one stands for the other's, and the other, unlocked, for this one's. */
  method AssignBySteps(lock: BuildLock, other: BuildLock, ghost s: State, ghost p: Pid, ghost q: Pid)
    returns (ghost run: seq<Step>)
    requires lock != other && other.fs == lock.fs && lock.Valid() && other.Valid() && p != q
    requires Represents(lock, s, p) && Represents(other, s, q)
    modifies lock, other, lock.fs
    ensures lock.Valid() && other.Valid()
    ensures run == if old(lock.isLocked) then [UnlinkFile(p), ReleaseLock(p), CloseFile(p)] else []
    ensures IsRun(s, run) && Represents(lock, After(s, run), q) && Represents(other, After(s, run), p)
  {
    run := if lock.isLocked then [UnlinkFile(p), ReleaseLock(p), CloseFile(p)] else [];
    DistinctDescriptors(s, p, q);
    hide IsRun, After, Consistent, Kernel.Unlink, Kernel.Unlock, Kernel.Close;
    if lock.isLocked {
      LeaveRuns(s, p);
    } else {
      NoSteps(s, run);
    }
    RunConsistent(s, run);
    lock.MoveAssign(other);
  }

  lemma DistinctDescriptors(s: State, p: Pid, q: Pid)
    requires Consistent(s) && p != q
    ensures HasFd(s.At(p)) && HasFd(s.At(q)) ==> s.At(p).fd != s.At(q).fd
  {
  }
}
