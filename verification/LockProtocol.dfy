/** The lock-file protocol as a machine of processes over one shared file system: directory
    entries, inodes, open file descriptions and their advisory locks. */
module LockProtocol {

  type Path = string
  type Inode = nat
  type Fd = nat
  type Pid = nat

  // ----- the kernel -----

  /** `dir` holds the directory entries, `open` the inode behind each open description, and
      `locks` the description that owns the exclusive lock on an inode. */
  datatype Kernel = Kernel(dir: map<Path, Inode>, open: map<Fd, Inode>, locks: map<Inode, Fd>,
                           nextInode: Inode, nextFd: Fd)
  {
    /** Descriptors and inodes are numbered below the counters; a lock belongs to an open
        description of the inode it is on. */
    predicate Valid() {
      && (forall p :: p in dir ==> dir[p] < nextInode)
      && (forall f :: f in open ==> f < nextFd && open[f] < nextInode)
      && (forall i :: i in locks ==> locks[i] in open && open[locks[i]] == i)
    }

    /** open(path, O_CREAT | O_WRONLY): the linked inode, or a fresh one linked now. */
    function Open(path: Path): (Kernel, Fd) {
      if path in dir then (this.(open := open[nextFd := dir[path]], nextFd := nextFd + 1), nextFd)
      else
        (this.(dir := dir[path := nextInode], open := open[nextFd := nextInode],
               nextInode := nextInode + 1, nextFd := nextFd + 1), nextFd)
    }

    predicate CanLock(fd: Fd)
      requires fd in open
    {
      open[fd] !in locks
    }

    /** fcntl(F_OFD_SETLK, F_WRLCK) on a free inode. */
    function Lock(fd: Fd): Kernel
      requires fd in open
    {
      this.(locks := locks[open[fd] := fd])
    }

    /** unlink(path): removes the entry, whatever inode it names; ENOENT is ignored. */
    function Unlink(path: Path): Kernel {
      this.(dir := dir - {path})
    }

    /** fcntl(F_OFD_SETLK, F_UNLCK). */
    function Unlock(fd: Fd): Kernel {
      this.(locks := map i | i in locks && locks[i] != fd :: locks[i])
    }

    /** close(fd): also drops the lock of the description. */
    function Close(fd: Fd): Kernel {
      Unlock(fd).(open := open - {fd})
    }
  }

  const EMPTY_KERNEL := Kernel(map[], map[], map[], 0, 0)

  // ----- the processes -----

  /** Where a process stands in acquireLock / cleanup. A probe is the lock attempt of
      isLockFileStale; after it the prober may go on to remove the path (isBuildActive). */
  datatype Proc =
    | Idle
    | Opened(path: Path, fd: Fd, probe: bool)
    | Holding(path: Path, fd: Fd, probe: bool)
    | Unlinked(path: Path, fd: Fd, probe: bool)
    | Unlocked(path: Path, fd: Fd, probe: bool)
    | Probed(path: Path)

  datatype State = State(kernel: Kernel, procs: map<Pid, Proc>) {
    function At(p: Pid): Proc {
      if p in procs then procs[p] else Idle
    }

    function Set(p: Pid, x: Proc, k: Kernel): State {
      State(k, procs[p := x])
    }
  }

  const INIT := State(EMPTY_KERNEL, map[])

  datatype Step =
    | OpenFile(p: Pid, path: Path, probe: bool)
    | TakeLock(p: Pid)
    | Refused(p: Pid)
    | UnlinkFile(p: Pid)
    | ReleaseLock(p: Pid)
    | CloseFile(p: Pid)
    | RemovePath(p: Pid)
    | Crash(p: Pid)

  predicate HasFd(x: Proc) {
    x.Opened? || x.Holding? || x.Unlinked? || x.Unlocked?
  }

  predicate Enabled(s: State, step: Step) {
    var x := s.At(step.p);
    match step
    case OpenFile(_, _, _) => x.Idle?
    case TakeLock(_) => x.Opened? && x.fd in s.kernel.open && s.kernel.CanLock(x.fd)
    case Refused(_) => x.Opened? && x.fd in s.kernel.open && !s.kernel.CanLock(x.fd)
    case UnlinkFile(_) => x.Holding?
    case ReleaseLock(_) => x.Unlinked?
    case CloseFile(_) => x.Unlocked?
    case RemovePath(_) => x.Probed?
    case Crash(_) => true
  }

  function Next(s: State, step: Step): State
    requires Enabled(s, step)
  {
    var k, p, x := s.kernel, step.p, s.At(step.p);
    match step
    case OpenFile(_, path, probe) =>
      var (k', fd) := k.Open(path);
      s.Set(p, Opened(path, fd, probe), k')
    case TakeLock(_) => s.Set(p, Holding(x.path, x.fd, x.probe), k.Lock(x.fd))
    case Refused(_) => s.Set(p, Idle, k.Close(x.fd))
    case UnlinkFile(_) => s.Set(p, Unlinked(x.path, x.fd, x.probe), k.Unlink(x.path))
    case ReleaseLock(_) => s.Set(p, Unlocked(x.path, x.fd, x.probe), k.Unlock(x.fd))
    case CloseFile(_) => s.Set(p, if x.probe then Probed(x.path) else Idle, k.Close(x.fd))
    case RemovePath(_) => s.Set(p, Idle, k.Unlink(x.path))
    case Crash(_) => s.Set(p, Idle, if HasFd(x) then k.Close(x.fd) else k)
  }

  /** The steps can be taken one after the other from s. */
  predicate IsRun(s: State, steps: seq<Step>)
    decreases |steps|
  {
    steps == [] || (Enabled(s, steps[0]) && IsRun(Next(s, steps[0]), steps[1..]))
  }

  function After(s: State, steps: seq<Step>): State
    requires IsRun(s, steps)
    decreases |steps|
  {
    if steps == [] then s else After(Next(s, steps[0]), steps[1..])
  }

  // ----- what every step keeps -----

  /** Each process owns its descriptor alone; the lock of an inode belongs to a process that
      is past the lock step, and a process past it and before unlock owns its lock. */
  ghost predicate Consistent(s: State) {
    s.kernel.Valid() && Descriptors(s) && Ownership(s) && Owners(s)
  }

  /** Every process past open has an open description of its own. */
  ghost predicate Descriptors(s: State) {
    && (forall p :: HasFd(s.At(p)) ==> s.At(p).fd in s.kernel.open)
    && (forall p, q :: HasFd(s.At(p)) && HasFd(s.At(q)) && s.At(p).fd == s.At(q).fd ==> p == q)
  }

  /** Between the lock and the unlock step a process owns the lock of its inode, and at no
      other time. */
  ghost predicate Ownership(s: State) {
    && (forall p :: s.At(p).Holding? || s.At(p).Unlinked? ==> OwnsLock(s, s.At(p).fd))
    && (forall p :: s.At(p).Opened? || s.At(p).Unlocked? ==> !OwnsLock(s, s.At(p).fd))
  }

  /** Every lock belongs to such a process. */
  ghost predicate Owners(s: State) {
    forall i :: i in s.kernel.locks ==> HasOwner(s, s.kernel.locks[i])
  }

  predicate OwnsLock(s: State, fd: Fd) {
    fd in s.kernel.open && s.kernel.open[fd] in s.kernel.locks && s.kernel.locks[s.kernel.open[fd]] == fd
  }

  ghost predicate HasOwner(s: State, fd: Fd) {
    exists p :: (s.At(p).Holding? || s.At(p).Unlinked?) && s.At(p).fd == fd
  }

  lemma InitConsistent()
    ensures Consistent(INIT)
  {
  }

  lemma SetAt(s: State, p: Pid, x: Proc, k: Kernel)
    ensures forall q {:trigger s.Set(p, x, k).At(q)} :: s.Set(p, x, k).At(q) == if q == p then x else s.At(q)
  {
  }

  /** The description of process p is closed and p is left without one. */
  lemma CloseConsistent(s: State, p: Pid, x: Proc)
    requires Consistent(s) && HasFd(s.At(p)) && !HasFd(x)
    ensures Consistent(s.Set(p, x, s.kernel.Close(s.At(p).fd)))
  {
    var fd := s.At(p).fd;
    var t := s.Set(p, x, s.kernel.Close(fd));
    SetAt(s, p, x, s.kernel.Close(fd));
    forall i | i in t.kernel.locks
      ensures HasOwner(t, t.kernel.locks[i])
    {
      var q :| (s.At(q).Holding? || s.At(q).Unlinked?) && s.At(q).fd == s.kernel.locks[i];
      assert q != p && t.At(q) == s.At(q);
    }
  }

  /** A new description is none of the open ones, and opening locks nothing. */
  lemma OpenKernel(k: Kernel, path: Path)
    requires k.Valid()
    ensures var (k', fd) := k.Open(path);
      && k'.Valid() && fd == k.nextFd && fd !in k.open
      && k'.open.Keys == k.open.Keys + {fd} && (forall f :: f in k.open ==> k'.open[f] == k.open[f])
      && k'.locks == k.locks && (k'.open[fd] in k.locks ==> k.locks[k'.open[fd]] != fd)
  {
  }

  /** Unlinking touches neither descriptions nor locks. */
  lemma UnlinkKernel(k: Kernel, path: Path)
    requires k.Valid()
    ensures k.Unlink(path).Valid() && k.Unlink(path).open == k.open && k.Unlink(path).locks == k.locks
  {
  }

  lemma OpenConsistent(s: State, p: Pid, path: Path, probe: bool)
    requires Consistent(s) && s.At(p).Idle?
    ensures Consistent(Next(s, OpenFile(p, path, probe)))
  {
    OpenKernel(s.kernel, path);
    var (k, fd) := s.kernel.Open(path);
    hide Kernel.Valid, Kernel.Open, Descriptors, Ownership, Owners;
    OpenedDescriptors(s, p, path, probe, k);
    OpenedOwnership(s, p, path, probe, k);
    SameOwners(s, p, Opened(path, fd, probe), k);
  }

  lemma OpenedDescriptors(s: State, p: Pid, path: Path, probe: bool, k: Kernel)
    requires Descriptors(s) && s.At(p).Idle? && s.kernel.nextFd !in s.kernel.open
    requires k.open.Keys == s.kernel.open.Keys + {s.kernel.nextFd}
    ensures Descriptors(s.Set(p, Opened(path, s.kernel.nextFd, probe), k))
  {
    SetAt(s, p, Opened(path, s.kernel.nextFd, probe), k);
  }

  lemma OpenedOwnership(s: State, p: Pid, path: Path, probe: bool, k: Kernel)
    requires Descriptors(s) && Ownership(s) && s.At(p).Idle? && k.locks == s.kernel.locks
    requires s.kernel.nextFd in k.open && s.kernel.nextFd !in s.kernel.open
    requires forall f :: f in s.kernel.open ==> f in k.open && k.open[f] == s.kernel.open[f]
    requires k.open[s.kernel.nextFd] in k.locks ==> k.locks[k.open[s.kernel.nextFd]] != s.kernel.nextFd
    ensures Ownership(s.Set(p, Opened(path, s.kernel.nextFd, probe), k))
  {
    SetAt(s, p, Opened(path, s.kernel.nextFd, probe), k);
  }

  /** A step of a process that owns no lock, or keeps the one it owns, changes no owner while
      the locks stay. */
  lemma SameOwners(s: State, p: Pid, x: Proc, k: Kernel)
    requires Owners(s) && k.locks == s.kernel.locks
    requires s.At(p).Holding? || s.At(p).Unlinked? ==> (x.Holding? || x.Unlinked?) && x.fd == s.At(p).fd
    ensures Owners(s.Set(p, x, k))
  {
    var t := s.Set(p, x, k);
    forall i | i in t.kernel.locks
      ensures HasOwner(t, t.kernel.locks[i])
    {
      var q :| (s.At(q).Holding? || s.At(q).Unlinked?) && s.At(q).fd == s.kernel.locks[i];
      assert t.At(q) == if q == p then x else s.At(q);
    }
  }

  lemma LockConsistent(s: State, p: Pid)
    requires Consistent(s) && Enabled(s, TakeLock(p))
    ensures Consistent(Next(s, TakeLock(p)))
  {
    var t := Next(s, TakeLock(p));
    SetAt(s, p, t.At(p), t.kernel);
    forall i | i in t.kernel.locks
      ensures HasOwner(t, t.kernel.locks[i])
    {
      if i == s.kernel.open[s.At(p).fd] {
        assert t.At(p).Holding? && t.At(p).fd == t.kernel.locks[i];
      } else {
        var q :| (s.At(q).Holding? || s.At(q).Unlinked?) && s.At(q).fd == s.kernel.locks[i];
        assert q != p && t.At(q) == s.At(q);
      }
    }
  }

  lemma UnlockConsistent(s: State, p: Pid)
    requires Consistent(s) && Enabled(s, ReleaseLock(p))
    ensures Consistent(Next(s, ReleaseLock(p)))
  {
    var t := Next(s, ReleaseLock(p));
    SetAt(s, p, t.At(p), t.kernel);
    forall i | i in t.kernel.locks
      ensures HasOwner(t, t.kernel.locks[i])
    {
      var q :| (s.At(q).Holding? || s.At(q).Unlinked?) && s.At(q).fd == s.kernel.locks[i];
      assert q != p && t.At(q) == s.At(q);
    }
  }

  /** Removing a directory entry touches neither descriptors nor locks. */
  lemma UnlinkConsistent(s: State, p: Pid, x: Proc, path: Path)
    requires Consistent(s)
    requires if s.At(p).Holding? then x == Unlinked(s.At(p).path, s.At(p).fd, s.At(p).probe)
      else !HasFd(s.At(p)) && !HasFd(x)
    ensures Consistent(s.Set(p, x, s.kernel.Unlink(path)))
  {
    UnlinkKernel(s.kernel, path);
    hide Kernel.Valid, Kernel.Unlink, Descriptors, Ownership, Owners;
    UnlinkedHolders(s, p, x, s.kernel.Unlink(path));
    SameOwners(s, p, x, s.kernel.Unlink(path));
  }

  /** Neither a holder that unlinks nor a process without a description changes who owns what. */
  lemma UnlinkedHolders(s: State, p: Pid, x: Proc, k: Kernel)
    requires Descriptors(s) && Ownership(s) && k.open == s.kernel.open && k.locks == s.kernel.locks
    requires if s.At(p).Holding? then x == Unlinked(s.At(p).path, s.At(p).fd, s.At(p).probe)
      else !HasFd(s.At(p)) && !HasFd(x)
    ensures Descriptors(s.Set(p, x, k)) && Ownership(s.Set(p, x, k))
  {
    SetAt(s, p, x, k);
  }

  lemma NextConsistent(s: State, step: Step)
    requires Consistent(s) && Enabled(s, step)
    ensures Consistent(Next(s, step))
  {
    hide Consistent;
    var p := step.p;
    match step
    case OpenFile(_, path, probe) => OpenConsistent(s, p, path, probe);
    case TakeLock(_) => LockConsistent(s, p);
    case Refused(_) => CloseConsistent(s, p, Idle);
    case UnlinkFile(_) => UnlinkConsistent(s, p, Unlinked(s.At(p).path, s.At(p).fd, s.At(p).probe), s.At(p).path);
    case ReleaseLock(_) => UnlockConsistent(s, p);
    case CloseFile(_) => CloseConsistent(s, p, if s.At(p).probe then Probed(s.At(p).path) else Idle);
    case RemovePath(_) => UnlinkConsistent(s, p, Idle, s.At(p).path);
    case Crash(_) =>
      if HasFd(s.At(p)) {
        CloseConsistent(s, p, Idle);
      } else {
        IdleConsistent(s, p);
      }
  }

  lemma IdleConsistent(s: State, p: Pid)
    requires Consistent(s) && !HasFd(s.At(p))
    ensures Consistent(s.Set(p, Idle, s.kernel))
  {
    var t := s.Set(p, Idle, s.kernel);
    SetAt(s, p, Idle, s.kernel);
    forall i | i in t.kernel.locks
      ensures HasOwner(t, t.kernel.locks[i])
    {
      var q :| (s.At(q).Holding? || s.At(q).Unlinked?) && s.At(q).fd == s.kernel.locks[i];
      assert q != p && t.At(q) == s.At(q);
    }
  }

  lemma {:induction false} RunConsistent(s: State, steps: seq<Step>)
    requires Consistent(s) && IsRun(s, steps)
    ensures Consistent(After(s, steps))
    decreases |steps|
  {
    hide Consistent, Next, Enabled;
    if steps != [] {
      NextConsistent(s, steps[0]);
      RunConsistent(Next(s, steps[0]), steps[1..]);
    }
  }

  // ----- mutual exclusion -----

  /** Process p is between lock and unlink for the path. */
  predicate Holds(s: State, p: Pid, path: Path) {
    s.At(p).Holding? && s.At(p).path == path
  }

  ghost predicate Exclusive(s: State) {
    forall p, q, path :: Holds(s, p, path) && Holds(s, q, path) ==> p == q
  }

  /** The inode process p locked is the one linked at its path. */
  predicate Linked(s: State, p: Pid) {
    HasFd(s.At(p)) && s.At(p).fd in s.kernel.open && s.At(p).path in s.kernel.dir
    && s.kernel.dir[s.At(p).path] == s.kernel.open[s.At(p).fd]
  }

  /** The two conditions exclusion rests on: a successful lock lands on the inode still linked
      at the path, and nobody removes a path while another process holds it. */
  ghost predicate Careful(s: State, step: Step) {
    && (step.TakeLock? ==> Linked(s, step.p))
    && (step.RemovePath? && s.At(step.p).Probed? ==> forall q :: !Holds(s, q, s.At(step.p).path))
  }

  ghost predicate CarefulRun(s: State, steps: seq<Step>)
    requires IsRun(s, steps)
    decreases |steps|
  {
    steps == [] || (Careful(s, steps[0]) && CarefulRun(Next(s, steps[0]), steps[1..]))
  }

  ghost predicate HoldersLinked(s: State) {
    forall p :: s.At(p).Holding? ==> Linked(s, p)
  }

  /** Unconditionally, in every reachable state: among the holders of a path at most one
      holds the inode linked there. */
  lemma LinkedHolderUnique(s: State, p: Pid, q: Pid, path: Path)
    requires Consistent(s) && Holds(s, p, path) && Holds(s, q, path) && Linked(s, p) && Linked(s, q)
    ensures p == q
  {
  }

  lemma CarefulKeepsLinked(s: State, step: Step)
    requires Consistent(s) && HoldersLinked(s) && Enabled(s, step) && Careful(s, step)
    ensures HoldersLinked(Next(s, step))
  {
    var t := Next(s, step);
    forall p | t.At(p).Holding?
      ensures Linked(t, p)
    {
      if p == step.p {
        assert step.TakeLock?;
      } else {
        assert t.At(p) == s.At(p) && Linked(s, p);
        assert Holds(s, p, s.At(p).path);
        if step.UnlinkFile? && s.At(step.p).path == s.At(p).path {
          LinkedHolderUnique(s, p, step.p, s.At(p).path);
        }
      }
    }
  }

  /** A careless step leaves a holder whose inode is not the one at its path. */
  lemma CarelessUnlinks(s: State, step: Step) returns (p: Pid)
    requires Consistent(s) && Enabled(s, step) && !Careful(s, step)
    ensures Next(s, step).At(p).Holding? && !Linked(Next(s, step), p)
  {
    if step.TakeLock? {
      p := step.p;
    } else {
      p :| Holds(s, p, s.At(step.p).path);
      assert p != step.p && Next(s, step).At(p) == s.At(p);
    }
  }

  /** Every holder stays on the linked inode in the next state exactly when the step is careful. */
  lemma CarefulExactly(s: State, step: Step)
    requires Consistent(s) && HoldersLinked(s) && Enabled(s, step)
    ensures HoldersLinked(Next(s, step)) <==> Careful(s, step)
  {
    hide Consistent, Next, Enabled, Careful, Linked;
    if Careful(s, step) {
      CarefulKeepsLinked(s, step);
    } else {
      var p := CarelessUnlinks(s, step);
    }
  }

  /** Every holder is on the linked inode in every state the run passes through. */
  ghost predicate LinkedThroughout(s: State, steps: seq<Step>)
    requires IsRun(s, steps)
    decreases |steps|
  {
    HoldersLinked(s) && (steps != [] ==> LinkedThroughout(Next(s, steps[0]), steps[1..]))
  }

  /** The condition on whole runs is exact. */
  lemma {:induction false} CarefulRunExactly(s: State, steps: seq<Step>)
    requires Consistent(s) && HoldersLinked(s) && IsRun(s, steps)
    ensures LinkedThroughout(s, steps) <==> CarefulRun(s, steps)
    decreases |steps|
  {
    hide Consistent, Next, Enabled, Careful, HoldersLinked;
    if steps != [] {
      var t := Next(s, steps[0]);
      NextConsistent(s, steps[0]);
      CarefulExactly(s, steps[0]);
      if HoldersLinked(t) {
        CarefulRunExactly(t, steps[1..]);
      } else {
        NotThroughout(t, steps[1..]);
      }
    }
  }

  lemma NotThroughout(s: State, steps: seq<Step>)
    requires IsRun(s, steps) && !HoldersLinked(s)
    ensures !LinkedThroughout(s, steps)
  {
  }

  /** Mutual exclusion over every interleaving of any number of processes, crashes included:
      if every step of the run is careful, no two processes ever hold one path. */
  lemma {:induction false} MutualExclusion(s: State, steps: seq<Step>)
    requires Consistent(s) && HoldersLinked(s) && IsRun(s, steps) && CarefulRun(s, steps)
    ensures Exclusive(After(s, steps)) && HoldersLinked(After(s, steps))
    decreases |steps|
  {
    hide Consistent, Next, Enabled, Careful, HoldersLinked;
    if steps == [] {
      LinkedIsExclusive(s);
    } else {
      NextConsistent(s, steps[0]);
      CarefulKeepsLinked(s, steps[0]);
      MutualExclusion(Next(s, steps[0]), steps[1..]);
    }
  }

  lemma LinkedIsExclusive(s: State)
    requires Consistent(s) && HoldersLinked(s)
    ensures Exclusive(s)
  {
    forall p, q, path | Holds(s, p, path) && Holds(s, q, path)
      ensures p == q
    {
      LinkedHolderUnique(s, p, q, path);
    }
  }

  /** From the start, two holders of one path can only appear in a run that took some step
      carelessly. */
  lemma TwoHoldersNeedCarelessStep(steps: seq<Step>, p: Pid, q: Pid, path: Path)
    requires IsRun(INIT, steps) && p != q
    requires Holds(After(INIT, steps), p, path) && Holds(After(INIT, steps), q, path)
    ensures !CarefulRun(INIT, steps)
  {
    InitConsistent();
    if CarefulRun(INIT, steps) {
      MutualExclusion(INIT, steps);
    }
  }

  // ----- each condition is needed -----

  lemma {:induction false} RunAppend(s: State, steps: seq<Step>, step: Step)
    requires IsRun(s, steps) && Enabled(After(s, steps), step)
    ensures IsRun(s, steps + [step]) && After(s, steps + [step]) == Next(After(s, steps), step)
    decreases |steps|
  {
    hide Enabled, Next;
    var all := steps + [step];
    if steps == [] {
      assert all[1..] == [];
    } else {
      RunAppend(Next(s, steps[0]), steps[1..], step);
      assert all[1..] == steps[1..] + [step];
    }
  }

  /** One more step of a given run. */
  lemma Extend(s: State, steps: seq<Step>, i: nat, t: State)
    requires i < |steps| && IsRun(s, steps[..i]) && After(s, steps[..i]) == t && Enabled(t, steps[i])
    ensures IsRun(s, steps[..i + 1]) && After(s, steps[..i + 1]) == Next(t, steps[i])
  {
    RunAppend(s, steps[..i], steps[i]);
    assert steps[..i + 1] == steps[..i] + [steps[i]];
  }

  lemma NoSteps(s: State, steps: seq<Step>)
    ensures IsRun(s, steps[..0]) && After(s, steps[..0]) == s
  {
  }

  /** Steps one process can take on a free path: a whole acquire-and-release cycle. */
  function Cycle(p: Pid, path: Path, probe: bool): seq<Step> {
    [OpenFile(p, path, probe), TakeLock(p), UnlinkFile(p), ReleaseLock(p), CloseFile(p)]
  }

  function CycleKernel(k: Kernel, path: Path): Kernel {
    var (k1, fd) := k.Open(path);
    if fd in k1.open then k1.Lock(fd).Unlink(path).Unlock(fd).Close(fd) else k1
  }

  lemma OpenFacts(s: State, p: Pid, path: Path, probe: bool)
    requires Consistent(s) && s.At(p).Idle? && Free(s.kernel, path)
    ensures var t := Next(s, OpenFile(p, path, probe)); var fd := s.kernel.nextFd;
      && t.At(p) == Opened(path, fd, probe) && t.kernel == s.kernel.Open(path).0
      && fd in t.kernel.open && t.kernel.CanLock(fd) && Linked(t, p)
      && (forall q :: q != p ==> t.At(q) == s.At(q))
  {
  }

  lemma TakeFacts(s: State, p: Pid)
    requires Enabled(s, TakeLock(p))
    ensures var t := Next(s, TakeLock(p)); var x := s.At(p);
      && t.At(p) == Holding(x.path, x.fd, x.probe) && t.kernel == s.kernel.Lock(x.fd)
      && (Linked(s, p) ==> Linked(t, p))
      && (forall q :: q != p ==> t.At(q) == s.At(q))
  {
  }

  lemma LeaveFacts(s: State, p: Pid)
    requires Enabled(s, UnlinkFile(p))
    ensures var t := Next(s, UnlinkFile(p)); var u := Next(t, ReleaseLock(p)); var x := s.At(p);
      && Enabled(t, ReleaseLock(p)) && Enabled(u, CloseFile(p))
      && Next(u, CloseFile(p)).kernel == s.kernel.Unlink(x.path).Unlock(x.fd).Close(x.fd)
      && Next(u, CloseFile(p)).At(p) == (if x.probe then Probed(x.path) else Idle)
      && (forall q :: q != p ==> Next(u, CloseFile(p)).At(q) == s.At(q))
  {
    hide Kernel.Unlink, Kernel.Unlock, Kernel.Close;
    var t := Next(s, UnlinkFile(p));
    var u := Next(t, ReleaseLock(p));
    var v := Next(u, CloseFile(p));
    forall q | q != p
      ensures v.At(q) == s.At(q)
    {
      assert u.At(q) == t.At(q) == s.At(q);
    }
  }

  /** On a free path the whole cycle runs, and every lock in it lands on the linked inode. */
  lemma CycleRuns(s: State, p: Pid, path: Path, probe: bool)
    requires Consistent(s) && s.At(p).Idle? && Free(s.kernel, path)
    ensures var run := Cycle(p, path, probe);
      && IsRun(s, run) && After(s, run).kernel == CycleKernel(s.kernel, path)
      && After(s, run).At(p) == (if probe then Probed(path) else Idle)
      && IsRun(s, run[..1]) && Linked(After(s, run[..1]), p)
      && (forall q :: q != p ==> After(s, run).At(q) == s.At(q))
  {
    hide IsRun, After, Next, Enabled, Kernel.Unlink, Kernel.Unlock, Kernel.Close, Kernel.Lock, Linked;
    var run := Cycle(p, path, probe);
    assert Enabled(s, run[0]) by { IdleOpens(s, p, path, probe); }
    OpenFacts(s, p, path, probe);
    var s1 := Next(s, run[0]);
    assert Enabled(s1, run[1]) by { OpenedLocks(s1, p); }
    TakeFacts(s1, p);
    var s2 := Next(s1, run[1]);
    assert Enabled(s2, run[2]) by { HolderUnlinks(s2, p); }
    LeaveFacts(s2, p);
    var s3 := Next(s2, run[2]);
    var s4 := Next(s3, run[3]);
    NoSteps(s, run);
    Extend(s, run, 0, s);
    Extend(s, run, 1, s1);
    Extend(s, run, 2, s2);
    Extend(s, run, 3, s3);
    Extend(s, run, 4, s4);
    assert run[..5] == run;
  }

  lemma IdleOpens(s: State, p: Pid, path: Path, probe: bool)
    requires s.At(p).Idle?
    ensures Enabled(s, OpenFile(p, path, probe))
  {
  }

  lemma OpenedLocks(s: State, p: Pid)
    requires s.At(p).Opened? && s.At(p).fd in s.kernel.open && s.kernel.CanLock(s.At(p).fd)
    ensures Enabled(s, TakeLock(p))
  {
  }

  lemma HolderUnlinks(s: State, p: Pid)
    requires s.At(p).Holding?
    ensures Enabled(s, UnlinkFile(p))
  {
  }

  /** A process on a free path acquires it, on the linked inode; others do not move. */
  lemma AcquireRuns(s: State, p: Pid, path: Path)
    requires Consistent(s) && s.At(p).Idle? && Free(s.kernel, path)
    ensures var run := [OpenFile(p, path, false), TakeLock(p)];
      && IsRun(s, run) && Holds(After(s, run), p, path) && Linked(After(s, run), p)
      && IsRun(s, run[..1]) && Linked(After(s, run[..1]), p)
      && s.kernel.nextFd in s.kernel.Open(path).0.open
      && After(s, run).At(p) == Holding(path, s.kernel.nextFd, false)
      && After(s, run).kernel == s.kernel.Open(path).0.Lock(s.kernel.nextFd)
      && (forall q :: q != p ==> After(s, run).At(q) == s.At(q))
  {
    hide IsRun, After, Next, Enabled, Linked, Kernel.Lock;
    var run := [OpenFile(p, path, false), TakeLock(p)];
    assert Enabled(s, run[0]) by { IdleOpens(s, p, path, false); }
    OpenFacts(s, p, path, false);
    var s1 := Next(s, run[0]);
    assert Enabled(s1, run[1]) by { OpenedLocks(s1, p); }
    TakeFacts(s1, p);
    NoSteps(s, run);
    Extend(s, run, 0, s);
    Extend(s, run, 1, s1);
    assert run[..2] == run;
  }

  lemma {:induction false} RunsCompose(s: State, a: seq<Step>, b: seq<Step>)
    requires IsRun(s, a) && IsRun(After(s, a), b)
    ensures IsRun(s, a + b) && After(s, a + b) == After(After(s, a), b)
    decreases |a|
  {
    hide Enabled, Next;
    if a == [] {
      assert a + b == b;
    } else {
      assert (a + b)[1..] == a[1..] + b;
      RunsCompose(Next(s, a[0]), a[1..], b);
    }
  }

  /** Opening a path, whoever holds it. */
  lemma OpensAlso(s: State, p: Pid, path: Path)
    requires s.At(p).Idle?
    ensures Enabled(s, OpenFile(p, path, false))
    ensures var t := Next(s, OpenFile(p, path, false));
      && t.At(p) == Opened(path, s.kernel.nextFd, false) && t.kernel == s.kernel.Open(path).0
      && (forall q :: q != p ==> t.At(q) == s.At(q))
  {
  }

  /** The kernel while one process acquires, a second opens, the first leaves and a third
      acquires: the description of the second is left on an inode without a lock. */
  lemma LateKernel(k: Kernel, path: Path)
    requires k.Valid() && Free(k, path)
    ensures var (k1, f1) := k.Open(path);
      f1 == k.nextFd && f1 in k1.open &&
      var (k3, f2) := k1.Lock(f1).Open(path);
      var k4 := k3.Unlink(path).Unlock(f1).Close(f1);
      var (k5, f3) := k4.Open(path);
      && path !in k4.dir && f2 == k1.Lock(f1).nextFd
      && f3 == k4.nextFd && f3 in k5.open
      && f2 in k5.Lock(f3).open && k5.Lock(f3).CanLock(f2)
  {
  }

  /** Without the check that the locked inode is still linked, exclusion is lost from every
      consistent state: q opens the path while p holds it, p leaves, r acquires a fresh inode and
      q locks the old one. Nobody removes the path out of turn. */
  lemma LinkedLockNeeded(s: State, p: Pid, q: Pid, r: Pid, path: Path)
    requires Consistent(s) && Free(s.kernel, path)
    requires s.At(p).Idle? && s.At(q).Idle? && s.At(r).Idle? && p != q && q != r && p != r
    ensures var run := [OpenFile(p, path, false), TakeLock(p)] + [OpenFile(q, path, false)]
        + [UnlinkFile(p), ReleaseLock(p), CloseFile(p)] + [OpenFile(r, path, false), TakeLock(r)] + [TakeLock(q)];
      && IsRun(s, run) && Holds(After(s, run), q, path) && Holds(After(s, run), r, path)
      && forall i :: 0 <= i < |run| ==> !run[i].RemovePath?
  {
    hide IsRun, After, Next, Enabled, Linked, Consistent, Kernel.Open, Kernel.Lock, Kernel.Unlink, Kernel.Unlock,
      Kernel.Close, Kernel.CanLock;
    var take := [OpenFile(p, path, false), TakeLock(p)];
    var leave := [UnlinkFile(p), ReleaseLock(p), CloseFile(p)];
    var again := [OpenFile(r, path, false), TakeLock(r)];
    ValidKernel(s);
    LateKernel(s.kernel, path);
    AcquireRuns(s, p, path);
    var s2 := After(s, take);
    OpensAlso(s2, q, path);
    var s3 := Next(s2, OpenFile(q, path, false));
    RunAppend(s, take, OpenFile(q, path, false));
    LeaveRuns(s3, p);
    RunsCompose(s, take + [OpenFile(q, path, false)], leave);
    var s6 := After(s3, leave);
    RunConsistent(s, take + [OpenFile(q, path, false)] + leave);
    AcquireRuns(s6, r, path);
    RunsCompose(s, take + [OpenFile(q, path, false)] + leave, again);
    var s8 := After(s6, again);
    OpenedLocks(s8, q);
    TakeFacts(s8, q);
    RunAppend(s, take + [OpenFile(q, path, false)] + leave + again, TakeLock(q));
  }

  lemma ValidKernel(s: State)
    requires Consistent(s)
    ensures s.kernel.Valid()
  {
  }

  /** A holder leaves: unlink, unlock, close. */
  lemma LeaveRuns(s: State, p: Pid)
    requires s.At(p).Holding?
    ensures var x := s.At(p); var run := [UnlinkFile(p), ReleaseLock(p), CloseFile(p)];
      && IsRun(s, run) && After(s, run).kernel == s.kernel.Unlink(x.path).Unlock(x.fd).Close(x.fd)
      && After(s, run).At(p) == (if x.probe then Probed(x.path) else Idle)
      && (forall q :: q != p ==> After(s, run).At(q) == s.At(q))
  {
    hide IsRun, After, Next, Enabled, Kernel.Unlink, Kernel.Unlock, Kernel.Close;
    var run := [UnlinkFile(p), ReleaseLock(p), CloseFile(p)];
    HolderUnlinks(s, p);
    LeaveFacts(s, p);
    var s1 := Next(s, run[0]);
    var s2 := Next(s1, run[1]);
    NoSteps(s, run);
    Extend(s, run, 0, s);
    Extend(s, run, 1, s1);
    Extend(s, run, 2, s2);
    assert run[..3] == run;
  }

  /** Whoever owns the lock of the inode linked at the path can crash, which frees the path. */
  lemma OwnerCrashes(s: State, path: Path) returns (r: Pid)
    requires Consistent(s) && !Free(s.kernel, path)
    ensures HasFd(s.At(r)) && s.At(r).fd in s.kernel.open && s.kernel.open[s.At(r).fd] == s.kernel.dir[path]
    ensures Enabled(s, Crash(r)) && Free(Next(s, Crash(r)).kernel, path)
    ensures forall q :: q != r ==> Next(s, Crash(r)).At(q) == s.At(q)
  {
    var fd := s.kernel.locks[s.kernel.dir[path]];
    r :| (s.At(r).Holding? || s.At(r).Unlinked?) && s.At(r).fd == fd;
  }

  /** A holder that is not on the linked inode always leads to two: any idle process can acquire
      the path next to it, once a process that owns the linked inode, if there is one, is gone. */
  lemma UnlinkedHolderDoubles(s: State, p: Pid, q: Pid, path: Path) returns (run: seq<Step>)
    requires Consistent(s) && Holds(s, p, path) && !Linked(s, p) && s.At(q).Idle?
    ensures IsRun(s, run) && Holds(After(s, run), p, path) && Holds(After(s, run), q, path) && p != q
    ensures Free(s.kernel, path) ==> run == [OpenFile(q, path, false), TakeLock(q)]
  {
    var take := [OpenFile(q, path, false), TakeLock(q)];
    HolderOpen(s, p);
    hide Consistent, Next, Enabled, IsRun, After;
    if Free(s.kernel, path) {
      AcquireRuns(s, q, path);
      run := take;
    } else {
      var r := OwnerCrashes(s, path);
      NextConsistent(s, Crash(r));
      AcquireRuns(Next(s, Crash(r)), q, path);
      OneStep(s, Crash(r));
      RunsCompose(s, [Crash(r)], take);
      run := [Crash(r)] + take;
    }
  }

  lemma HolderOpen(s: State, p: Pid)
    requires Consistent(s) && s.At(p).Holding?
    ensures s.At(p).fd in s.kernel.open
  {
  }

  lemma OneStep(s: State, step: Step)
    requires Enabled(s, step)
    ensures IsRun(s, [step]) && After(s, [step]) == Next(s, step)
  {
    hide Enabled, Next;
    assert [step][1..] == [];
    assert IsRun(Next(s, step), []);
  }

  /** Process p probes a free path and afterwards removes it; q acquires in between, r after:
      both hold the path, although each of the three locks landed on the linked inode. */
  lemma OwnerRemovalNeeded(s: State, p: Pid, q: Pid, r: Pid, path: Path)
    requires Consistent(s) && Free(s.kernel, path)
    requires s.At(p).Idle? && s.At(q).Idle? && s.At(r).Idle? && p != q && q != r && p != r
    ensures var probe := Cycle(p, path, true);
      var take := [OpenFile(q, path, false), TakeLock(q)];
      var again := [OpenFile(r, path, false), TakeLock(r)];
      var run := probe + take + [RemovePath(p)] + again;
      && IsRun(s, run)
      && Holds(After(s, run), q, path) && Holds(After(s, run), r, path)
      && IsRun(s, probe) && IsRun(s, probe + take) && IsRun(s, probe + take + [RemovePath(p)])
      && LandsLinked(s, probe) && LandsLinked(After(s, probe), take)
      && LandsLinked(After(s, probe + take + [RemovePath(p)]), again)
  {
    hide IsRun, After, Next, Enabled, Linked, Consistent;
    var probe := Cycle(p, path, true);
    var take := [OpenFile(q, path, false), TakeLock(q)];
    var again := [OpenFile(r, path, false), TakeLock(r)];
    CycleRuns(s, p, path, true);
    var s1 := After(s, probe);
    RunConsistent(s, probe);
    FreeAfterCycle(s, path);
    AcquireRuns(s1, q, path);
    var s2 := After(s1, take);
    RunConsistent(s1, take);
    RunsCompose(s, probe, take);
    RemoveFacts(s2, p);
    var s3 := Next(s2, RemovePath(p));
    NextConsistent(s2, RemovePath(p));
    RunAppend(s, probe + take, RemovePath(p));
    AcquireRuns(s3, r, path);
    RunsCompose(s, probe + take + [RemovePath(p)], again);
  }

  /** The lock taken by the second step of the run is taken on the linked inode. */
  predicate LandsLinked(s: State, run: seq<Step>) {
    |run| >= 2 && run[1].TakeLock? && IsRun(s, run[..1]) && Linked(After(s, run[..1]), run[1].p)
  }

  lemma FreeAfterCycle(s: State, path: Path)
    requires Consistent(s) && Free(s.kernel, path)
    ensures Free(CycleKernel(s.kernel, path), path)
  {
  }

  lemma RemoveFacts(s: State, p: Pid)
    requires s.At(p).Probed?
    ensures Enabled(s, RemovePath(p))
    ensures var t := Next(s, RemovePath(p));
      && Free(t.kernel, s.At(p).path)
      && (forall q :: q != p ==> t.At(q) == s.At(q))
  {
  }

  // ----- crashes -----

  /** The inode linked at the path is unlocked, or nothing is linked there. */
  predicate Free(k: Kernel, path: Path) {
    path !in k.dir || k.dir[path] !in k.locks
  }

  /** A crash never blocks later acquirers: wherever in the protocol p dies, if p was the one
      in the way then the path is free at once, and any idle process can take the lock. */
  lemma CrashNeverBlocks(s: State, p: Pid, q: Pid, path: Path)
    requires Consistent(s) && p != q && s.At(q).Idle?
    requires Free(s.kernel, path) || (HasFd(s.At(p)) && s.kernel.locks[s.kernel.dir[path]] == s.At(p).fd)
    ensures var t := Next(s, Crash(p)); var run := [OpenFile(q, path, false), TakeLock(q)];
      IsRun(t, run) && Holds(After(t, run), q, path) && Linked(After(t, run), q)
  {
    var t := Next(s, Crash(p));
    NextConsistent(s, Crash(p));
    AcquireRuns(t, q, path);
  }

  /** A lock is never left behind by the dead: whoever owns one is a process past the lock
      step, in every reachable state. */
  lemma LocksAreOwned(steps: seq<Step>, i: Inode)
    requires IsRun(INIT, steps) && i in After(INIT, steps).kernel.locks
    ensures HasOwner(After(INIT, steps), After(INIT, steps).kernel.locks[i])
  {
    InitConsistent();
    RunConsistent(INIT, steps);
  }
}
