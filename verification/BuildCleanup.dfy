/** cleanupBuild, phase two: which folders it removes, and which it must leave alone. */
module BuildCleanup {

  import opened Text

  // ----- names -----

  const TEMP := "-temp-"
  const BUILDING := ".building"
  const PENDING := ".pending"

  /** The scratch-folder pattern: a non-empty prefix, "-temp-", a non-empty rest. */
  predicate IsScratch(name: string) {
    var pos := Find(name, TEMP, 0);
    0 < pos < |name| && pos + |TEMP| < |name|
  }

  /** The lock looked up for a scratch folder: everything before the first "-temp-". */
  function LockName(name: string): string
    requires IsScratch(name)
  {
    name[..Find(name, TEMP, 0)] + BUILDING
  }

  predicate EndsWith(s: string, suffix: string) {
    |s| > |suffix| && s[|s| - |suffix|..] == suffix
  }

  predicate IsHexDigit(c: char) {
    '0' <= c <= '9' || 'a' <= c <= 'f' || 'A' <= c <= 'F'
  }

  predicate IsHashLike(s: string) {
    |s| == 64 && forall i :: 0 <= i < |s| ==> IsHexDigit(s[i])
  }

  const HEX_DIGITS := "0123456789abcdefABCDEF"

  /** 64 hexadecimal digits. */
  lemma HashLikeExactly(s: string)
    ensures IsHashLike(s) <==> Hash64(s)
  {
    forall c: char
      ensures IsHexDigit(c) <==> c in HEX_DIGITS
    {
      HexDigits(c);
    }
    if IsHashLike(s) {
      forall c | c in s
        ensures IsHexDigit(c)
      {
        var i :| 0 <= i < |s| && s[i] == c;
      }
    }
  }

  lemma HexDigits(c: char)
    ensures IsHexDigit(c) <==> c in HEX_DIGITS
  {
    assert forall i :: 0 <= i < |HEX_DIGITS| ==> IsHexDigit(HEX_DIGITS[i]);
    if IsHexDigit(c) {
      var i := if '0' <= c <= '9' then (c - '0') as int
        else if 'a' <= c <= 'f' then 10 + (c - 'a') as int else 16 + (c - 'A') as int;
      assert HEX_DIGITS[i] == c;
    }
  }

  lemma EndsWithExactly(s: string, suffix: string)
    ensures EndsWith(s, suffix) <==> exists a :: a != "" && s == a + suffix
  {
    if EndsWith(s, suffix) {
      assert s == s[..|s| - |suffix|] + suffix;
    }
  }

  /** A scratch name is a non-empty prefix, the first "-temp-" of the name, and a non-empty
      rest; its lock is the prefix followed by ".building". */
  lemma ScratchExactly(name: string)
    ensures IsScratch(name) <==> exists a, b :: SplitAtTemp(name, a, b)
    ensures forall a, b :: SplitAtTemp(name, a, b) ==> IsScratch(name) && LockName(name) == a + ".building"
  {
    hide Find, OccursAt;
    if IsScratch(name) {
      var pos := Find(name, TEMP, 0);
      FoundAt(name, pos);
      assert SplitAtTemp(name, name[..pos], name[pos + |TEMP|..]);
    }
    forall a, b | SplitAtTemp(name, a, b)
      ensures IsScratch(name) && LockName(name) == a + ".building"
    {
      SplitFound(name, a, b);
    }
  }

  ghost predicate SplitAtTemp(name: string, a: string, b: string) {
    && name == a + "-temp-" + b && a != "" && b != ""
    && forall x, y :: name == x + "-temp-" + y ==> |a| <= |x|
  }

  lemma OccursAfter(x: string, y: string)
    ensures OccursAt(x + "-temp-" + y, TEMP, |x|)
  {
  }

  lemma OccursSplits(name: string, pos: nat)
    requires OccursAt(name, TEMP, pos)
    ensures pos + |TEMP| <= |name| && name == name[..pos] + "-temp-" + name[pos + |TEMP|..]
  {
    assert name == name[..pos] + name[pos..pos + |TEMP|] + name[pos + |TEMP|..];
  }

  lemma FoundAt(name: string, pos: nat)
    requires pos == Find(name, TEMP, 0) && pos + |TEMP| <= |name|
    ensures name == name[..pos] + "-temp-" + name[pos + |TEMP|..]
    ensures forall x, y :: name == x + "-temp-" + y ==> pos <= |x|
  {
    hide OccursAt, Find;
    OccursSplits(name, pos);
    forall x, y | name == x + "-temp-" + y
      ensures pos <= |x|
    {
      OccursAfter(x, y);
    }
  }

  lemma SplitFound(name: string, a: string, b: string)
    requires SplitAtTemp(name, a, b)
    ensures IsScratch(name) && LockName(name) == a + ".building"
  {
    OccursAfter(a, b);
    var pos := Find(name, TEMP, 0);
    hide OccursAt, Find;
    FoundAt(name, pos);
    assert |a| <= |name[..pos]| && pos <= |a|;
    assert name[..|a|] == a;
  }

  /** A subfolder name without '-' is recovered from every scratch name made of it. */
  lemma ScratchPrefix(subfolder: string, suffix: string)
    requires subfolder != "" && suffix != "" && '-' !in subfolder
    ensures IsScratch(subfolder + TEMP + suffix)
    ensures LockName(subfolder + TEMP + suffix) == subfolder + BUILDING
  {
    var name := subfolder + TEMP + suffix;
    var n := |subfolder|;
    assert OccursAt(name, TEMP, n);
    forall j | 0 <= j < n
      ensures !OccursAt(name, TEMP, j)
    {
      assert name[j] == subfolder[j];
      if j + |TEMP| <= |name| {
        assert name[j..j + |TEMP|][0] == name[j];
      }
    }
    assert Find(name, TEMP, 0) == n;
    assert name[..n] == subfolder;
  }

  // ----- folders and locks -----

  /** One hash directory: its folders and its lock files, each held by a live process or not. */
  datatype HashDir = HashDir(folders: set<string>, locks: map<string, bool>)

  /** isLockFileStale: present and not held by anyone. */
  predicate Stale(d: HashDir, lock: string) {
    lock in d.locks && EndsWith(lock, BUILDING) && !d.locks[lock]
  }

  /** The probe behind it acquires and releases a stale lock, which unlinks the file. */
  function AfterProbe(d: HashDir, lock: string): HashDir {
    if Stale(d, lock) then d.(locks := d.locks - {lock}) else d
  }

  predicate Live(d: HashDir, lock: string) {
    lock in d.locks && !Stale(d, lock)
  }

  /** The scratch folders removeOrphanTempFolders may take. */
  predicate Reclaimable(d: HashDir, name: string) {
    IsScratch(name) && !Live(d, LockName(name))
  }

  lemma ProbeKeepsLive(d: HashDir, lock: string)
    ensures var e := AfterProbe(d, lock);
      && e.folders == d.folders
      && (forall l :: Live(e, l) <==> Live(d, l))
      && (forall l :: l in e.locks <==> l in d.locks && (l != lock || !Stale(d, lock)))
  {
  }

  /** removeOrphanTempFolders. `order` is the directory listing, `fails` the folders whose
      removal the file system refuses. */
  method RemoveOrphanTempFolders(d0: HashDir, order: seq<string>, fails: set<string>)
    returns (d: HashDir, removed: seq<string>)
    requires forall n :: n in d0.folders <==> n in order
    requires forall i, j :: 0 <= i < j < |order| ==> order[i] != order[j]
    ensures d.folders == set n | n in d0.folders && !(Reclaimable(d0, n) && n !in fails)
    ensures forall n :: n in removed <==> n in d0.folders && Reclaimable(d0, n) && n !in fails
    ensures forall l :: Live(d, l) <==> Live(d0, l)
  {
    hide Find, EndsWith;
    d, removed := d0, [];
    for i := 0 to |order|
      invariant d.folders == set n | n in d0.folders && !(n in order[..i] && Reclaimable(d0, n) && n !in fails)
      invariant forall n :: n in removed <==> n in order[..i] && Reclaimable(d0, n) && n !in fails
      invariant forall l :: Live(d, l) <==> Live(d0, l)
    {
      var name := order[i];
      assert order[..i + 1] == order[..i] + [name];
      if !IsScratch(name) {
        continue;
      }
      var lock := LockName(name);
      if lock in d.locks {
        var stale := Stale(d, lock);
        ProbeKeepsLive(d, lock);
        d := AfterProbe(d, lock);
        if !stale {
          continue;
        }
      }
      if name !in fails {
        d := d.(folders := d.folders - {name});
        removed := removed + [name];
      }
    }
    assert order[..|order|] == order;
  }

  lemma NoPattern(name: string, i: nat)
    requires '-' !in name
    ensures !OccursAt(name, TEMP, i)
  {
    if i < |name| {
      assert name[i] != '-';
    }
  }

  /** A published output is never taken: its name has no scratch pattern. */
  lemma OutputKept(d: HashDir, subfolder: string)
    requires '-' !in subfolder
    ensures !Reclaimable(d, subfolder)
  {
    NoPattern(subfolder, Find(subfolder, TEMP, 0));
  }

  const SUBFOLDERS := {"copc", "cog", "nxs", "vec", "gsplat", "3dtiles"}

  lemma SubfolderNames(subfolder: string)
    requires subfolder in SUBFOLDERS
    ensures subfolder != "" && '-' !in subfolder
  {
  }

  /** The scratch folder buildInternal makes is taken exactly when the lock of its own
      subfolder is not live: a running build is never disturbed, and a crashed one is. */
  lemma ScratchTakenExactly(d: HashDir, subfolder: string, suffix: string)
    requires subfolder in SUBFOLDERS && suffix != ""
    ensures Reclaimable(d, subfolder + TEMP + suffix) <==> !Live(d, subfolder + BUILDING)
  {
    SubfolderNames(subfolder);
    ScratchPrefix(subfolder, suffix);
  }

  /** The scratch folder of the 3D Tiles a Model build co-produces is not protected by that
      build: the Model build holds nxs.building, and 3dtiles.building is looked up. */
  lemma ModelTilesUnprotected(suffix: string)
    requires suffix != ""
    ensures var scratch := "3dtiles" + TEMP + suffix;
      var d := HashDir({scratch}, map["nxs.building" := true]);
      Live(d, "nxs.building") && Reclaimable(d, scratch)
  {
    var scratch := "3dtiles" + TEMP + suffix;
    var d := HashDir({scratch}, map["nxs.building" := true]);
    ScratchTakenExactly(d, "3dtiles", suffix);
    assert "3dtiles" + BUILDING != "nxs.building" by {
      assert ("3dtiles" + BUILDING)[0] == '3';
    }
  }

  // ----- the whole build directory -----

  /** How the scan of a directory for lock files goes. By section 30.10.13 of ISO/IEC 14882:2017
      a directory iterator that reports an error equals the end iterator, so a scan that breaks
      off ends the loop like a finished one. */
  datatype Scan = Complete | CannotOpen | BreaksOff(at: nat)

  /** An entry of the build directory; `lockListing` holds its lock files in scan order. */
  datatype Item =
    | Directory(dir: HashDir, listing: seq<string>, lockListing: seq<string>, scan: Scan)
    | RegularFile
    | Other

  ghost predicate ListingOk(x: Item) {
    x.Directory? ==>
      && (forall n :: n in x.dir.folders <==> n in x.listing)
      && (forall i, j :: 0 <= i < j < |x.listing| ==> x.listing[i] != x.listing[j])
      && (forall l :: l in x.dir.locks <==> l in x.lockListing)
      && (forall l :: l in x.dir.locks ==> EndsWith(l, BUILDING))
  }

  /** Some lock file of the directory is held. */
  predicate AnyLive(d: HashDir) {
    exists l :: l in d.locks && Live(d, l)
  }

  /** The lock files the scan gets to see. */
  function Scanned(order: seq<string>, scan: Scan): seq<string> {
    match scan
    case Complete => order
    case CannotOpen => []
    case BreaksOff(at) => if at < |order| then order[..at] else order
  }

  /** The scan cannot start, or meets a live lock. */
  predicate Spared(d: HashDir, order: seq<string>, scan: Scan) {
    scan.CannotOpen? || exists l :: l in Scanned(order, scan) && Live(d, l)
  }

  /** The scan of an unreferenced directory: probe lock after lock, stop at the first live one. */
  method ProbeLocks(d0: HashDir, order: seq<string>, scan: Scan) returns (d: HashDir, skip: bool)
    requires forall l :: l in d0.locks <==> l in order
    requires forall l :: l in d0.locks ==> EndsWith(l, BUILDING)
    ensures skip <==> Spared(d0, order, scan)
    ensures scan.Complete? ==> (skip <==> AnyLive(d0))
    ensures d.folders == d0.folders && forall l :: Live(d, l) <==> Live(d0, l)
  {
    hide EndsWith;
    d, skip := d0, false;
    if scan.CannotOpen? {
      return d, true;
    }
    var seen := Scanned(order, scan);
    for i := 0 to |seen|
      invariant d.folders == d0.folders && forall l :: Live(d, l) <==> Live(d0, l)
      invariant forall l :: l in seen[..i] ==> !Live(d0, l)
    {
      var lock := seen[i];
      assert seen[..i + 1] == seen[..i] + [lock];
      var stale := Stale(d, lock);
      ProbeKeepsLive(d, lock);
      if lock in d.locks && !stale {
        assert Live(d0, lock);
        skip := true;
        return;
      }
      d := AfterProbe(d, lock);
    }
    assert seen[..|seen|] == seen;
  }

  predicate IsPendingName(name: string) {
    EndsWith(name, PENDING) && IsHashLike(name[..|name| - |PENDING|])
  }

  /** What phase two does to one entry: kept as a whole, kept with its scratch folders
      reclaimed, or removed. */
  datatype Fate = Keep | Reclaim | Remove

  function FateOf(name: string, x: Item, valid: set<string>): Fate {
    match x
    case Directory(d, _, locks, scan) =>
      if !IsHashLike(name) then Keep
      else if name in valid then Reclaim
      else if Spared(d, locks, scan) then Keep
      else Remove
    case RegularFile =>
      if IsPendingName(name) && name[..|name| - |PENDING|] !in valid then Remove else Keep
    case Other => Keep
  }

  /** The folders left in an entry that is kept. */
  ghost predicate LeftAs(name: string, x: Item, y: Item, valid: set<string>, fails: set<string>) {
    if !x.Directory? then y == x
    else
      && y.Directory?
      && (forall l :: Live(y.dir, l) <==> Live(x.dir, l))
      && y.dir.folders == if Hash64(name) && name in valid
           then set n | n in x.dir.folders && !(Reclaimable(x.dir, n) && n !in fails)
           else x.dir.folders
  }

  /** 64 hexadecimal digits. */
  predicate Hash64(s: string) {
    |s| == 64 && forall c :: c in s ==> c in HEX_DIGITS
  }

  /** What justifies the removal of an entry as a whole: the name of a directory is a 64-digit
      hex hash that no entry refers to, the scan for locks started, every lock it saw was free
      and, when it was complete, every lock there is; that of a file is such a hash with the
      pending suffix. */
  ghost predicate Justified(name: string, x: Item, valid: set<string>) {
    match x
    case Directory(d, _, locks, scan) =>
      && Hash64(name) && name !in valid && !scan.CannotOpen?
      && (forall l :: l in Scanned(locks, scan) ==> !Live(d, l))
      && (scan.Complete? ==> !AnyLive(d))
    case RegularFile =>
      exists hash :: name == hash + ".pending" && Hash64(hash) && hash !in valid
    case Other => false
  }

  /** It is what decides. */
  lemma RemovalJustified(name: string, x: Item, valid: set<string>)
    requires ListingOk(x)
    ensures FateOf(name, x, valid) == Remove <==> Justified(name, x, valid)
  {
    hide IsHashLike, Stale, Hash64;
    HashLikeExactly(name);
    if x.RegularFile? {
      if IsPendingName(name) {
        var hash := name[..|name| - |PENDING|];
        assert name == hash + name[|name| - |PENDING|..];
        HashLikeExactly(hash);
      }
      forall hash | name == hash + ".pending" && Hash64(hash)
        ensures IsPendingName(name) && name[..|name| - |PENDING|] == hash
      {
        HashLikeExactly(hash);
        HashNotEmpty(hash);
        assert name[..|name| - |PENDING|] == hash;
      }
    }
  }

  lemma HashNotEmpty(s: string)
    requires Hash64(s)
    ensures |s| == 64
  {
  }

  /** An entry that goes as a whole, and the file system lets it. */
  predicate Goes(items: map<string, Item>, n: string, valid: set<string>, rootFails: set<string>) {
    n in items && FateOf(n, items[n], valid) == Remove && n !in rootFails
  }

  /** The directory once the entries in `done` have been treated. */
  ghost predicate Swept(before: map<string, Item>, items: map<string, Item>, removed: seq<string>, done: set<string>,
                        valid: set<string>, rootFails: set<string>, fails: set<string>)
  {
    && (forall n :: n in items <==> n in before && !(n in done && Goes(before, n, valid, rootFails)))
    && (forall n :: n in removed <==> n in done && Goes(before, n, valid, rootFails))
    && (forall n :: n in items && n in done ==> LeftAs(n, before[n], items[n], valid, fails))
    && (forall n :: n in items && n !in done ==> items[n] == before[n])
  }

  lemma SweptGone(before: map<string, Item>, items: map<string, Item>, removed: seq<string>, done: set<string>,
                  valid: set<string>, rootFails: set<string>, fails: set<string>, name: string)
    requires Swept(before, items, removed, done, valid, rootFails, fails)
    requires name !in done && Goes(before, name, valid, rootFails)
    ensures Swept(before, items - {name}, removed + [name], done + {name}, valid, rootFails, fails)
  {
    hide Goes, LeftAs;
  }

  lemma SweptKept(before: map<string, Item>, items: map<string, Item>, removed: seq<string>, done: set<string>,
                  valid: set<string>, rootFails: set<string>, fails: set<string>, name: string, y: Item)
    requires Swept(before, items, removed, done, valid, rootFails, fails)
    requires name !in done && name in before && !Goes(before, name, valid, rootFails)
    requires LeftAs(name, before[name], y, valid, fails)
    ensures Swept(before, items[name := y], removed, done + {name}, valid, rootFails, fails)
  {
    hide Goes, LeftAs;
  }

  class BuildDirectory {
    var items: map<string, Item>

    constructor (items: map<string, Item>)
      ensures this.items == items
    {
      this.items := items;
    }

    /** Phase two of cleanupBuild over the listing of the build directory. `rootFails` and
        `fails` are the removals refused, at the top and inside referenced directories. */
    method RemoveOrphans(valid: set<string>, order: seq<string>, rootFails: set<string>, fails: set<string>)
      returns (removed: seq<string>)
      requires forall n :: n in items <==> n in order
      requires forall i, j :: 0 <= i < j < |order| ==> order[i] != order[j]
      requires forall n :: n in items ==> ListingOk(items[n])
      modifies this
      ensures forall n :: n in items <==> n in old(items) && n !in removed
      ensures forall n :: n in removed <==> Goes(old(items), n, valid, rootFails)
      ensures forall n :: n in removed <==>
        n in old(items) && Justified(n, old(items)[n], valid) && n !in rootFails
      ensures forall n :: n in items ==> n in old(items) && LeftAs(n, old(items)[n], items[n], valid, fails)
    {
      hide Goes, FateOf, ListingOk, LeftAs, Swept, Justified;
      ghost var before := items;
      removed := [];
      SweepStart(items, valid, rootFails, fails);
      for i := 0 to |order|
        invariant Swept(before, items, removed, Elements(order[..i]), valid, rootFails, fails)
      {
        var name := order[i];
        assert order[..i + 1] == order[..i] + [name];
        assert Elements(order[..i + 1]) == Elements(order[..i]) + {name};
        Untreated(before, items, removed, Elements(order[..i]), valid, rootFails, fails, name);
        var y, gone := TreatItem(name, items[name], valid, name in rootFails, fails);
        GoesIs(before, name, valid, rootFails);
        if gone {
          SweptGone(before, items, removed, Elements(order[..i]), valid, rootFails, fails, name);
          items := items - {name};
          removed := removed + [name];
        } else {
          SweptKept(before, items, removed, Elements(order[..i]), valid, rootFails, fails, name, y);
          items := items[name := y];
        }
      }
      assert order[..|order|] == order;
      SweepEnd(before, items, removed, order, valid, rootFails, fails);
    }
  }

  lemma SweepStart(items: map<string, Item>, valid: set<string>, rootFails: set<string>, fails: set<string>)
    ensures Elements([]) == {} && Swept(items, items, [], {}, valid, rootFails, fails)
  {
    hide Goes, LeftAs;
  }

  lemma Untreated(before: map<string, Item>, items: map<string, Item>, removed: seq<string>, done: set<string>,
                  valid: set<string>, rootFails: set<string>, fails: set<string>, name: string)
    requires Swept(before, items, removed, done, valid, rootFails, fails) && name in before && name !in done
    ensures name in items && items[name] == before[name]
  {
    hide Goes, LeftAs;
  }

  lemma GoesIs(items: map<string, Item>, n: string, valid: set<string>, rootFails: set<string>)
    requires n in items
    ensures Goes(items, n, valid, rootFails) <==> FateOf(n, items[n], valid) == Remove && n !in rootFails
  {
    hide FateOf;
  }

  lemma SweepEnd(before: map<string, Item>, items: map<string, Item>, removed: seq<string>, order: seq<string>,
                 valid: set<string>, rootFails: set<string>, fails: set<string>)
    requires forall n :: n in before <==> n in order
    requires forall n :: n in before ==> ListingOk(before[n])
    requires Swept(before, items, removed, Elements(order), valid, rootFails, fails)
    ensures forall n :: n in items <==> n in before && n !in removed
    ensures forall n :: n in removed <==> Goes(before, n, valid, rootFails)
    ensures forall n :: n in removed <==> n in before && Justified(n, before[n], valid) && n !in rootFails
    ensures forall n :: n in items ==> n in before && LeftAs(n, before[n], items[n], valid, fails)
  {
    hide ListingOk, LeftAs, FateOf, Justified;
    forall n | n in before
      ensures FateOf(n, before[n], valid) == Remove <==> Justified(n, before[n], valid)
    {
      RemovalJustified(n, before[n], valid);
    }
  }

  /** One iteration of the loop over the build directory. */
  method TreatItem(name: string, x: Item, valid: set<string>, refused: bool, fails: set<string>)
    returns (y: Item, gone: bool)
    requires ListingOk(x)
    ensures gone <==> FateOf(name, x, valid) == Remove && !refused
    ensures !gone ==> LeftAs(name, x, y, valid, fails)
  {
    hide Find, Reclaimable, Live, IsHashLike, Hash64, Spared;
    HashLikeExactly(name);
    y, gone := x, false;
    match x {
      case Directory(d, listing, lockListing, scan) =>
        if !IsHashLike(name) {
          return;
        }
        if name in valid {
          var d', _ := RemoveOrphanTempFolders(d, listing, fails);
          y := x.(dir := d');
          return;
        }
        var d', skip := ProbeLocks(d, lockListing, scan);
        y := x.(dir := d');
        gone := !skip && !refused;
      case RegularFile =>
        gone := IsPendingName(name) && name[..|name| - |PENDING|] !in valid && !refused;
      case Other =>
    }
  }

  // ----- what the result means -----

  /** A scan that breaks off before it meets the live lock lets the whole directory of a running
      build go, although an error is meant to spare it. */
  lemma BrokenScanTakesLive(name: string, lock: string, valid: set<string>)
    requires Hash64(name) && name !in valid && EndsWith(lock, BUILDING)
    ensures var x := Directory(HashDir({}, map[lock := true]), [], [lock], BreaksOff(0));
      ListingOk(x) && AnyLive(x.dir) && FateOf(name, x, valid) == Remove
  {
    hide IsHashLike, Hash64, EndsWith;
    HashLikeExactly(name);
    var d := HashDir({}, map[lock := true]);
    assert lock in d.locks && Live(d, lock);
  }

  /** A running build's directory is spared exactly when the scan fails at once or gets as far as
      a live lock; a complete scan always does. */
  lemma LiveSparedExactly(name: string, x: Item, valid: set<string>)
    requires x.Directory? && ListingOk(x) && Hash64(name) && name !in valid && AnyLive(x.dir)
    ensures FateOf(name, x, valid) == Keep
      <==> x.scan.CannotOpen? || exists i :: 0 <= i < |Scanned(x.lockListing, x.scan)| && Live(x.dir, x.lockListing[i])
    ensures x.scan.Complete? ==> FateOf(name, x, valid) == Keep
  {
    hide IsHashLike, Hash64, EndsWith, Live;
    HashLikeExactly(name);
    var seen := Scanned(x.lockListing, x.scan);
    assert forall i :: 0 <= i < |seen| ==> seen[i] == x.lockListing[i];
  }

  /** A referenced directory keeps every published output and the scratch folder of every
      build whose lock is live. */
  lemma ReferencedKeeps(name: string, x: Item, y: Item, valid: set<string>, fails: set<string>,
                        subfolder: string, suffix: string)
    requires x.Directory? && name in valid && LeftAs(name, x, y, valid, fails)
    requires subfolder in SUBFOLDERS && suffix != ""
    ensures y.Directory?
    ensures subfolder in x.dir.folders ==> subfolder in y.dir.folders
    ensures Live(x.dir, subfolder + BUILDING) && subfolder + TEMP + suffix in x.dir.folders ==>
      subfolder + TEMP + suffix in y.dir.folders
  {
    hide Find, IsHashLike, Spared;
    SubfolderNames(subfolder);
    OutputKept(x.dir, subfolder);
    ScratchTakenExactly(x.dir, subfolder, suffix);
  }

  /** With no refused removals and scans that start every orphan is gone: no unreferenced hash
      directory without a live lock, and in referenced ones no scratch folder whose lock is not
      live. */
  lemma OrphansReclaimed(name: string, x: Item, y: Item, valid: set<string>, subfolder: string, suffix: string)
    requires x.Directory? && ListingOk(x) && Hash64(name) && !x.scan.CannotOpen?
    requires FateOf(name, x, valid) != Remove && LeftAs(name, x, y, valid, {})
    requires subfolder in SUBFOLDERS && suffix != ""
    ensures y.Directory? && (name in valid || AnyLive(x.dir))
    ensures name in valid && !Live(x.dir, subfolder + BUILDING) ==> subfolder + TEMP + suffix !in y.dir.folders
  {
    hide Find, IsHashLike, Hash64, Live, EndsWith;
    HashLikeExactly(name);
    ScratchTakenExactly(x.dir, subfolder, suffix);
  }
}
