/** addToIndexEx: plan, compute and commit passes over an index that other writers and file
    edits change between the phases. */
module AddIndex {

  import opened Options

  /** A path relative to the index root; the absolute path is the root followed by it. */
  type Path = string

  /** A row of the entries table; `data` stands for type, properties, depth and geometry. */
  datatype Row = Row(hash: string, mtime: int, size: int, data: string)
  type Table = map<Path, Row>

  datatype Code = FS | GDAL | PDAL | JSON | INDEX | CONFLICT
  datatype AddError = AddError(path: Path, code: Code)

  datatype Planned = Planned(path: Path, known: Option<Row>)

  /** The observed mtime and size are those of the row. */
  datatype Computed = Computed(path: Path, row: Row, isUpdate: bool)

  /** An accepted entry with the flag stored beside it. */
  datatype Accepted = Accepted(path: Path, row: Row, flag: bool)

  /** What checkUpdate finds: Unreadable stands for a hash or mtime that throws. */
  datatype Probe = Absent | FolderThere | FileThere(mtime: int, hash: string) | Unreadable

  /** What parseEntry does: a row, an item-scoped exception, or any other exception. */
  datatype Parse = Parsed(row: Row) | ItemError(code: Code) | Fatal

  /** What commit sees of the file: file_size is only asked of what is not a directory. */
  datatype Seen = Gone | Regular(mtime: int, size: int) | Folder(mtime: int)

  /** Everything outside the program's control during one pass: the table that other writers
      left before PLAN and before COMMIT, the file system as each item meets it, and what the
      callback answers. */
  datatype Pass = Pass(atPlan: Table, probe: nat -> Probe, parse: nat -> Parse,
                       atCommit: Table, seen: nat -> Seen, answer: nat -> bool)

  // ----- multisets of paths -----

  function Image<T>(s: seq<T>, f: T -> Path): multiset<Path> {
    multiset(seq(|s|, i requires 0 <= i < |s| => f(s[i])))
  }

  lemma ImageAppend<T>(s: seq<T>, x: T, f: T -> Path)
    ensures Image(s + [x], f) == Image(s, f) + multiset{f(x)}
  {
    var front := seq(|s|, i requires 0 <= i < |s| => f(s[i]));
    var all := seq(|s| + 1, i requires 0 <= i < |s| + 1 => f((s + [x])[i]));
    assert all == front + [f(x)];
  }

  lemma ImageConcat<T>(s: seq<T>, t: seq<T>, f: T -> Path)
    ensures Image(s + t, f) == Image(s, f) + Image(t, f)
  {
    if t == [] {
      assert s + t == s;
    } else {
      var m := |t| - 1;
      assert s + t == (s + t[..m]) + [t[m]];
      assert t == t[..m] + [t[m]];
      ImageConcat(s, t[..m], f);
      ImageAppend(s + t[..m], t[m], f);
      ImageAppend(t[..m], t[m], f);
    }
  }

  lemma ImageEqual<S, T>(s: seq<S>, f: S -> Path, t: seq<T>, g: T -> Path)
    requires |s| == |t| && forall i :: 0 <= i < |s| ==> f(s[i]) == g(t[i])
    ensures Image(s, f) == Image(t, g)
  {
    assert seq(|s|, i requires 0 <= i < |s| => f(s[i])) == seq(|t|, i requires 0 <= i < |t| => g(t[i]));
  }

  const PlanPath := (x: Planned) => x.path
  const ItemPath := (x: Computed) => x.path
  const KeptPath := (x: Accepted) => x.path
  const ErrorPath := (x: AddError) => x.path
  const Itself := (x: Path) => x

  // ----- PLAN -----

  function FileName(p: Path): string {
    if p == "" then "" else if p[|p| - 1] == '/' then "" else FileName(p[..|p| - 1]) + [p[|p| - 1]]
  }

  predicate Skipped(p: Path) {
    '\\' in FileName(p)
  }

  /** A path is skipped exactly when a backslash comes after its last '/'. */
  lemma {:induction false} SkippedExactly(p: Path)
    ensures Skipped(p) <==> exists i :: 0 <= i < |p| && p[i] == '\\' && '/' !in p[i..]
  {
    if p != "" {
      var n := |p| - 1;
      SkippedExactly(p[..n]);
      assert p == p[..n] + [p[n]];
      if p[n] == '/' {
        assert forall i :: 0 <= i < |p| ==> p[i..][n - i] == '/';
      } else {
        forall i | 0 <= i < n
          ensures '/' in p[i..] <==> '/' in p[..n][i..]
        {
          assert p[i..] == p[..n][i..] + [p[n]];
        }
      }
    }
  }

  /** The paths that are not skipped, in order. */
  function Visible(paths: seq<Path>): seq<Path> {
    if paths == [] then []
    else
      var n := |paths| - 1;
      if Skipped(paths[n]) then Visible(paths[..n]) else Visible(paths[..n]) + [paths[n]]
  }

  function Lookup(t: Table, p: Path): Option<Row> {
    if p in t then Some(t[p]) else None
  }

  function PlanOf(t: Table, paths: seq<Path>): seq<Planned> {
    var v := Visible(paths);
    seq(|v|, i requires 0 <= i < |v| => Planned(v[i], Lookup(t, v[i])))
  }

  lemma {:induction false} VisibleExactly(paths: seq<Path>)
    ensures forall p :: p in Visible(paths) <==>
      p in paths && forall i :: 0 <= i < |p| && p[i] == '\\' ==> '/' in p[i..]
  {
    if paths != [] {
      hide Skipped;
      var n := |paths| - 1;
      VisibleExactly(paths[..n]);
      SkippedExactly(paths[n]);
      assert paths == paths[..n] + [paths[n]];
    }
  }

  /** Planned are exactly the paths without a backslash after the last '/', each with its row. */
  ghost predicate PlansAll(t: Table, paths: seq<Path>, planned: seq<Planned>) {
    && (forall p :: (exists x :: x in planned && x.path == p) <==>
          p in paths && forall i :: 0 <= i < |p| && p[i] == '\\' ==> '/' in p[i..])
    && (forall x :: x in planned ==> if x.path in t then x.known == Some(t[x.path]) else x.known == None)
  }

  method PlanAddCandidates(t: Table, paths: seq<Path>) returns (planned: seq<Planned>)
    ensures planned == PlanOf(t, paths) && PlansAll(t, paths, planned)
  {
    hide Skipped;
    planned := [];
    for i := 0 to |paths|
      invariant planned == PlanOf(t, paths[..i])
    {
      assert paths[..i + 1][..i] == paths[..i];
      if Skipped(paths[i]) {
        continue;
      }
      planned := planned + [Planned(paths[i], Lookup(t, paths[i]))];
    }
    assert paths[..|paths|] == paths;
    VisibleExactly(paths);
    PlannedVisible(t, paths);
  }

  lemma PlannedVisible(t: Table, paths: seq<Path>)
    ensures forall p :: (exists x :: x in PlanOf(t, paths) && x.path == p) <==> p in Visible(paths)
  {
    hide Visible, Lookup;
    var v, plan := Visible(paths), PlanOf(t, paths);
    forall p | p in v
      ensures exists x :: x in plan && x.path == p
    {
      var i :| 0 <= i < |v| && v[i] == p;
      assert plan[i].path == p && plan[i] in plan;
    }
  }

  lemma PlanPaths(t: Table, paths: seq<Path>)
    ensures Image(PlanOf(t, paths), PlanPath) == Image(Visible(paths), Itself)
  {
    var plan := PlanOf(t, paths);
    var v := Visible(paths);
    ImageEqual(plan, PlanPath, v, Itself);
  }

  lemma {:induction false} VisibleAll(paths: seq<Path>)
    requires forall p :: p in paths ==> !Skipped(p)
    ensures Visible(paths) == paths
  {
    if paths != [] {
      var n := |paths| - 1;
      VisibleAll(paths[..n]);
      assert paths == paths[..n] + [paths[n]];
    }
  }

  // ----- COMPUTE -----

  datatype Status = Deleted | NotModified | Modified | Raises

  function CheckUpdate(file: Probe, known: Row): (s: Status) {
    match file
    case Absent => Deleted
    case FolderThere => NotModified
    case FileThere(mtime, hash) =>
      if mtime != known.mtime && hash != known.hash then Modified else NotModified
    case Unreadable => Raises
  }

  datatype Batch = Batch(computed: seq<Computed>, errors: seq<AddError>, same: seq<Path>, raised: bool)

  /** One item: unchanged, an error, an exception, or an entry ready to be written. checkUpdate
      runs outside the try block, so what it throws propagates even without stopOnError. */
  function ComputeStep(b: Batch, item: Planned, probe: Probe, parse: Parse, stopOnError: bool): Batch {
    var status := if item.known.Some? then CheckUpdate(probe, item.known.value) else Modified;
    if b.raised then b
    else if status == Raises then b.(raised := true)
    else if status == NotModified then b.(same := b.same + [item.path])
    else
      match parse
      case Parsed(row) => b.(computed := b.computed + [Computed(item.path, row, item.known.Some?)])
      case ItemError(code) =>
        if stopOnError then b.(raised := true)
        else b.(errors := b.errors + [AddError(item.path, code)])
      case Fatal => b.(raised := true)
  }

  function ComputeUpTo(b: Batch, planned: seq<Planned>, w: Pass, stopOnError: bool, n: nat): Batch
    requires n <= |planned|
  {
    if n == 0 then b
    else ComputeStep(ComputeUpTo(b, planned, w, stopOnError, n - 1), planned[n - 1], w.probe(n - 1),
      w.parse(n - 1), stopOnError)
  }

  lemma {:induction false} RaisedStays(b: Batch, planned: seq<Planned>, w: Pass, stopOnError: bool, k: nat, n: nat)
    requires k <= n <= |planned| && ComputeUpTo(b, planned, w, stopOnError, k).raised
    ensures ComputeUpTo(b, planned, w, stopOnError, n) == ComputeUpTo(b, planned, w, stopOnError, k)
    decreases n
  {
    if k < n {
      RaisedStays(b, planned, w, stopOnError, k, n - 1);
    }
  }

  /** A planned path that needs no work: it has a row, and it is a directory, or a file with the
      mtime or the hash of its row. */
  predicate Settled(item: Planned, probe: Probe) {
    && item.known.Some?
    && (probe.FolderThere?
        || (probe.FileThere? && (probe.mtime == item.known.value.mtime || probe.hash == item.known.value.hash)))
  }

  /** The settled paths, in order. */
  function SettledPaths(planned: seq<Planned>, w: Pass, n: nat): seq<Path>
    requires n <= |planned|
  {
    if n == 0 then []
    else SettledPaths(planned, w, n - 1) + if Settled(planned[n - 1], w.probe(n - 1)) then [planned[n - 1].path] else []
  }

  /** The others, in order, as their parses leave them. */
  function ParsedItems(planned: seq<Planned>, w: Pass, n: nat): seq<Computed>
    requires n <= |planned|
  {
    if n == 0 then []
    else
      var item, parse := planned[n - 1], w.parse(n - 1);
      ParsedItems(planned, w, n - 1)
      + if !Settled(item, w.probe(n - 1)) && parse.Parsed? then [Computed(item.path, parse.row, item.known.Some?)]
        else []
  }

  function ParseErrors(planned: seq<Planned>, w: Pass, n: nat): seq<AddError>
    requires n <= |planned|
  {
    if n == 0 then []
    else
      var item, parse := planned[n - 1], w.parse(n - 1);
      ParseErrors(planned, w, n - 1)
      + if !Settled(item, w.probe(n - 1)) && parse.ItemError? then [AddError(item.path, parse.code)] else []
  }

  /** A compute phase that returns lists the settled paths as unchanged and every other path as
      its parse says. */
  lemma {:induction false} ComputeLists(b: Batch, planned: seq<Planned>, w: Pass, stopOnError: bool, n: nat)
    requires n <= |planned| && !ComputeUpTo(b, planned, w, stopOnError, n).raised
    ensures var r := ComputeUpTo(b, planned, w, stopOnError, n);
      && r.same == b.same + SettledPaths(planned, w, n)
      && r.computed == b.computed + ParsedItems(planned, w, n)
      && r.errors == b.errors + ParseErrors(planned, w, n)
  {
    if n > 0 {
      hide ComputeStep, Settled;
      var r := ComputeUpTo(b, planned, w, stopOnError, n - 1);
      StepKeepsRaised(r, planned[n - 1], w.probe(n - 1), w.parse(n - 1), stopOnError);
      ComputeLists(b, planned, w, stopOnError, n - 1);
      StepLists(r, planned[n - 1], w.probe(n - 1), w.parse(n - 1), stopOnError);
    }
  }

  lemma StepLists(b: Batch, item: Planned, probe: Probe, parse: Parse, stopOnError: bool)
    requires !ComputeStep(b, item, probe, parse, stopOnError).raised
    ensures var r := ComputeStep(b, item, probe, parse, stopOnError);
      && r.same == b.same + (if Settled(item, probe) then [item.path] else [])
      && r.computed == b.computed + (if !Settled(item, probe) && parse.Parsed?
                                     then [Computed(item.path, parse.row, item.known.Some?)] else [])
      && r.errors == b.errors + (if !Settled(item, probe) && parse.ItemError?
                                 then [AddError(item.path, parse.code)] else [])
  {
  }

  method ComputeAddEntries(planned: seq<Planned>, w: Pass, stopOnError: bool, errors0: seq<AddError>, same0: seq<Path>)
    returns (b: Batch)
    ensures b == ComputeUpTo(Batch([], errors0, same0, false), planned, w, stopOnError, |planned|)
    ensures !b.raised ==>
      && b.same == same0 + SettledPaths(planned, w, |planned|)
      && b.computed == ParsedItems(planned, w, |planned|)
      && b.errors == errors0 + ParseErrors(planned, w, |planned|)
  {
    ghost var start := Batch([], errors0, same0, false);
    var computed, errors, same := [], errors0, same0;
    for i := 0 to |planned|
      invariant Batch(computed, errors, same, false) == ComputeUpTo(start, planned, w, stopOnError, i)
    {
      var item := planned[i];
      if item.known.Some? {
        var status := CheckUpdate(w.probe(i), item.known.value);
        if status == Raises {
          RaisedStays(start, planned, w, stopOnError, i + 1, |planned|);
          return Batch(computed, errors, same, true);
        }
        if status == NotModified {
          same := same + [item.path];
          continue;
        }
      }
      match w.parse(i) {
        case Parsed(row) =>
          computed := computed + [Computed(item.path, row, item.known.Some?)];
        case ItemError(code) =>
          if stopOnError {
            RaisedStays(start, planned, w, stopOnError, i + 1, |planned|);
            return Batch(computed, errors, same, true);
          }
          errors := errors + [AddError(item.path, code)];
        case Fatal =>
          RaisedStays(start, planned, w, stopOnError, i + 1, |planned|);
          return Batch(computed, errors, same, true);
      }
    }
    b := Batch(computed, errors, same, false);
    ComputeLists(start, planned, w, stopOnError, |planned|);
  }

  ghost function BatchPaths(b: Batch): multiset<Path> {
    Image(b.computed, ItemPath) + Image(b.errors, ErrorPath) + Image(b.same, Itself)
  }

  lemma StepConserves(b: Batch, item: Planned, probe: Probe, parse: Parse, stopOnError: bool)
    requires !ComputeStep(b, item, probe, parse, stopOnError).raised
    ensures BatchPaths(ComputeStep(b, item, probe, parse, stopOnError)) == BatchPaths(b) + multiset{item.path}
  {
    hide Image;
    var status := if item.known.Some? then CheckUpdate(probe, item.known.value) else Modified;
    if status == NotModified {
      ImageAppend(b.same, item.path, Itself);
    } else {
      match parse
      case Parsed(row) => ImageAppend(b.computed, Computed(item.path, row, item.known.Some?), ItemPath);
      case ItemError(code) => ImageAppend(b.errors, AddError(item.path, code), ErrorPath);
    }
  }

  /** A compute phase that returns puts every planned path in exactly one list. */
  lemma {:induction false} ComputeConserves(b: Batch, planned: seq<Planned>, w: Pass, stopOnError: bool, n: nat)
    requires n <= |planned| && !ComputeUpTo(b, planned, w, stopOnError, n).raised
    ensures BatchPaths(ComputeUpTo(b, planned, w, stopOnError, n)) == BatchPaths(b) + Image(planned[..n], PlanPath)
  {
    hide Image, ComputeStep, BatchPaths;
    if n == 0 {
      assert planned[..0] == [];
      EmptyImage(PlanPath);
    } else {
      StepKeepsRaised(ComputeUpTo(b, planned, w, stopOnError, n - 1), planned[n - 1], w.probe(n - 1),
        w.parse(n - 1), stopOnError);
      ComputeConserves(b, planned, w, stopOnError, n - 1);
      StepConserves(ComputeUpTo(b, planned, w, stopOnError, n - 1), planned[n - 1], w.probe(n - 1), w.parse(n - 1),
        stopOnError);
      assert planned[..n] == planned[..n - 1] + [planned[n - 1]];
      ImageAppend(planned[..n - 1], planned[n - 1], PlanPath);
    }
  }

  lemma EmptyImage<T>(f: T -> Path)
    ensures Image([], f) == multiset{}
  {
  }

  lemma StepKeepsRaised(b: Batch, item: Planned, probe: Probe, parse: Parse, stopOnError: bool)
    ensures b.raised ==> ComputeStep(b, item, probe, parse, stopOnError).raised
  {
  }

  /** What lets an exception out of one item: a probe that throws whatever the options say, a
      fatal parse, or an item-scoped failure when the caller wants to stop on errors. */
  predicate Escapes(item: Planned, probe: Probe, parse: Parse, stopOnError: bool) {
    || (item.known.Some? && probe.Unreadable?)
    || (!Settled(item, probe) && (parse.Fatal? || (parse.ItemError? && stopOnError)))
  }

  /** The compute phase raises exactly when some item lets an exception out. */
  lemma {:induction false} RaisesExactly(b: Batch, planned: seq<Planned>, w: Pass, stopOnError: bool, n: nat)
    requires n <= |planned| && !b.raised
    ensures ComputeUpTo(b, planned, w, stopOnError, n).raised
      <==> exists i :: 0 <= i < n && Escapes(planned[i], w.probe(i), w.parse(i), stopOnError)
  {
    hide Escapes, ComputeStep;
    if n > 0 {
      RaisesExactly(b, planned, w, stopOnError, n - 1);
      EscapeStep(ComputeUpTo(b, planned, w, stopOnError, n - 1), planned[n - 1], w.probe(n - 1), w.parse(n - 1),
        stopOnError);
    }
  }

  lemma EscapeStep(b: Batch, item: Planned, probe: Probe, parse: Parse, stopOnError: bool)
    ensures ComputeStep(b, item, probe, parse, stopOnError).raised
      <==> b.raised || Escapes(item, probe, parse, stopOnError)
  {
  }

  /** What error isolation promises: only a parse that fails fatally ends the phase. */
  ghost predicate Isolates(planned: seq<Planned>, w: Pass) {
    var b := ComputeUpTo(Batch([], [], [], false), planned, w, false, |planned|);
    b.raised ==> exists i :: 0 <= i < |planned| && w.parse(i).Fatal?
  }

  /** Isolation holds exactly unless, with no fatal parse about, a listed file cannot be probed. */
  lemma IsolatesExactly(planned: seq<Planned>, w: Pass)
    ensures Isolates(planned, w) <==>
      || (forall i :: 0 <= i < |planned| && planned[i].known.Some? ==> !w.probe(i).Unreadable?)
      || exists i :: 0 <= i < |planned| && w.parse(i).Fatal?
  {
    var b := Batch([], [], [], false);
    RaisesExactly(b, planned, w, false, |planned|);
    hide ComputeUpTo;
    if i :| 0 <= i < |planned| && planned[i].known.Some? && w.probe(i).Unreadable? {
      assert Escapes(planned[i], w.probe(i), w.parse(i), false);
    }
  }

  /** A file that cannot be read ends a run of any number of retries, although the caller asked
      for errors to be isolated. */
  lemma UnreadableRaises(world: nat -> Pass, p: Path, t: Table, result: Result, retries: nat)
    requires !Skipped(p) && p in world(0).atPlan && world(0).probe(0) == Unreadable
    ensures !RunFrom(world, [p], t, result, false, retries, 0).returned
  {
    hide Skipped;
    var w := world(0);
    VisibleAll([p]);
    var planned := PlanOf(w.atPlan, [p]);
    assert planned == [Planned(p, Some(w.atPlan[p]))];
    RaisesExactly(Batch([], result.errors, result.same, false), planned, w, false, 1);
    assert Escapes(planned[0], w.probe(0), w.parse(0), false);
  }

  // ----- COMMIT -----

  predicate Fresh(item: Computed, seen: Seen) {
    match seen
    case Gone => false
    case Regular(mtime, size) => mtime == item.row.mtime && size == item.row.size
    case Folder(mtime) => mtime == item.row.mtime
  }

  datatype Progress = Running | Cancelled | Aborted

  /** The transaction under way. */
  datatype Work = Work(table: Table, tentative: seq<Accepted>, conflicts: seq<Path>, same: seq<Path>,
    progress: Progress)

  /** A planned update keeps the insert flag, so with its row in place it inserts a second row
      under the primary key and the transaction aborts. */
  function CommitStep(k: Work, item: Computed, seen: Seen, answer: bool): Work {
    var present := item.path in k.table;
    if k.progress != Running then k
    else if !Fresh(item, seen) then k.(conflicts := k.conflicts + [item.path])
    else if present && !item.isUpdate && k.table[item.path].mtime == item.row.mtime
      && k.table[item.path].hash == item.row.hash
    then k.(same := k.same + [item.path])
    else if !present && item.isUpdate then k.(conflicts := k.conflicts + [item.path])
    else if present && item.isUpdate then k.(progress := Aborted)
    else k.(table := k.table[item.path := item.row],
            tentative := k.tentative + [Accepted(item.path, item.row, !present)],
            progress := if answer then Running else Cancelled)
  }

  function CommitUpTo(k: Work, items: seq<Computed>, w: Pass, n: nat): Work
    requires n <= |items|
  {
    if n == 0 then k
    else CommitStep(CommitUpTo(k, items, w, n - 1), items[n - 1], w.seen(n - 1), w.answer(n - 1))
  }

  lemma {:induction false} StoppedStays(k: Work, items: seq<Computed>, w: Pass, m: nat, n: nat)
    requires m <= n <= |items| && CommitUpTo(k, items, w, m).progress != Running
    ensures CommitUpTo(k, items, w, n) == CommitUpTo(k, items, w, m)
    decreases n
  {
    if m < n {
      StoppedStays(k, items, w, m, n - 1);
    }
  }

  /** What commit leaves: on anything but a committed transaction the table is rolled back and
      nothing is accepted, while conflicts and unchanged keep what was pushed. */
  function CommitResult(t: Table, accepted: seq<Accepted>, same: seq<Path>, items: seq<Computed>, w: Pass): Work {
    var k := CommitUpTo(Work(t, [], [], same, Running), items, w, |items|);
    if k.progress == Running then k.(tentative := accepted + k.tentative)
    else k.(table := t, tentative := accepted)
  }

  class Database {
    var table: Table

    constructor (table: Table)
      ensures this.table == table
    {
      this.table := table;
    }

    /** commitAddEntries; the returned work holds the new accepted, conflicts and unchanged lists. */
    method CommitAddEntries(items: seq<Computed>, w: Pass, accepted: seq<Accepted>, same0: seq<Path>)
      returns (k: Work)
      modifies this
      ensures k == CommitResult(old(table), accepted, same0, items, w)
      ensures table == k.table
      ensures k.progress != Running ==> table == old(table) && k.tentative == accepted
      ensures |accepted| <= |k.tentative| && FlagsRight(old(table), k.tentative[|accepted|..])
    {
      hide Fresh;
      var before := table;
      ghost var start := Work(table, [], [], same0, Running);
      var tentative, conflicts, same := [], [], same0;
      for i := 0 to |items|
        invariant Work(table, tentative, conflicts, same, Running) == CommitUpTo(start, items, w, i)
      {
        var ci := items[i];
        if !Fresh(ci, w.seen(i)) {
          conflicts := conflicts + [ci.path];
          continue;
        }
        var stillAbsent := ci.path !in table;
        var actuallyInsert := true;
        if !stillAbsent && !ci.isUpdate {
          if table[ci.path].mtime == ci.row.mtime && table[ci.path].hash == ci.row.hash {
            same := same + [ci.path];
            continue;
          }
          actuallyInsert := false;
        } else if stillAbsent && ci.isUpdate {
          conflicts := conflicts + [ci.path];
          continue;
        }
        if actuallyInsert && ci.path in table {
          table := before;
          StoppedStays(start, items, w, i + 1, |items|);
          return Work(before, accepted, conflicts, same, Aborted);
        }
        table := table[ci.path := ci.row];
        tentative := tentative + [Accepted(ci.path, ci.row, actuallyInsert)];
        if !w.answer(i) {
          table := before;
          StoppedStays(start, items, w, i + 1, |items|);
          return Work(before, accepted, conflicts, same, Cancelled);
        }
      }
      FlagsMeanInserted(before, same0, items, w, |items|);
      k := Work(table, accepted + tentative, conflicts, same, Running);
      assert k.tentative[|accepted|..] == tentative;
    }
  }

  // What a commit writes.

  /** The last row accepted for a path, from position m on. */
  function LastRow(kept: seq<Accepted>, p: Path): Option<Row> {
    if kept == [] then None
    else if kept[|kept| - 1].path == p then Some(kept[|kept| - 1].row)
    else LastRow(kept[..|kept| - 1], p)
  }

  ghost predicate TableIs(t: Table, t0: Table, kept: seq<Accepted>) {
    forall p :: Lookup(t, p) == if LastRow(kept, p).Some? then LastRow(kept, p) else Lookup(t0, p)
  }

  /** Accepted entry x came from item j, a planned insert, whose file was seen with the mtime
      and, unless it is a directory, the size of the row. */
  ghost predicate Written(x: Accepted, items: seq<Computed>, w: Pass, j: nat) {
    && j < |items| && x.path == items[j].path && x.row == items[j].row && !items[j].isUpdate
    && (w.seen(j) == Regular(x.row.mtime, x.row.size) || w.seen(j) == Folder(x.row.mtime))
  }

  lemma LastRowAppend(kept: seq<Accepted>, x: Accepted, p: Path)
    ensures LastRow(kept + [x], p) == if x.path == p then Some(x.row) else LastRow(kept, p)
  {
    assert (kept + [x])[..|kept|] == kept;
  }

  lemma WriteStep(k: Work, t0: Table, item: Computed, seen: Seen, answer: bool)
    requires TableIs(k.table, t0, k.tentative)
    ensures var n := CommitStep(k, item, seen, answer); TableIs(n.table, t0, n.tentative)
  {
    hide Fresh;
    var n := CommitStep(k, item, seen, answer);
    if n.tentative != k.tentative {
      forall p
        ensures Lookup(n.table, p) == if LastRow(n.tentative, p).Some? then LastRow(n.tentative, p) else Lookup(t0, p)
      {
        LastRowAppend(k.tentative, n.tentative[|k.tentative|], p);
      }
    }
  }

  /** Throughout a transaction the table is the old one overwritten by the accepted rows, in
      order, so every other path keeps its row; and each accepted row was a planned insert
      whose mtime and size the file still had when it was written. */
  lemma {:induction false} CommitWrites(t: Table, same: seq<Path>, items: seq<Computed>, w: Pass, n: nat)
    requires n <= |items|
    ensures var k := CommitUpTo(Work(t, [], [], same, Running), items, w, n);
      && TableIs(k.table, t, k.tentative)
      && forall x :: x in k.tentative ==> exists j: nat :: j < n && Written(x, items, w, j)
  {
    hide Fresh, TableIs, CommitStep;
    if n == 0 {
      EmptyWrites(t);
    } else {
      CommitWrites(t, same, items, w, n - 1);
      var k := CommitUpTo(Work(t, [], [], same, Running), items, w, n - 1);
      WriteStep(k, t, items[n - 1], w.seen(n - 1), w.answer(n - 1));
      AcceptedStep(k, items, w, n - 1);
      var k' := CommitStep(k, items[n - 1], w.seen(n - 1), w.answer(n - 1));
      forall x | x in k'.tentative
        ensures exists j: nat :: j < n && Written(x, items, w, j)
      {
        if x in k.tentative {
          var j: nat :| j < n - 1 && Written(x, items, w, j);
        } else {
          assert Written(x, items, w, n - 1);
        }
      }
    }
  }

  lemma EmptyWrites(t: Table)
    ensures TableIs(t, t, [])
  {
  }

  lemma AcceptedStep(k: Work, items: seq<Computed>, w: Pass, j: nat)
    requires j < |items|
    ensures var n := CommitStep(k, items[j], w.seen(j), w.answer(j));
      forall x :: x in n.tentative ==> x in k.tentative || Written(x, items, w, j)
  {
  }

  /** Whether p has no row before entry i of a transaction that began with table t. */
  predicate AbsentBefore(t: Table, kept: seq<Accepted>, i: nat, p: Path)
    requires i <= |kept|
  {
    p !in t && forall j :: 0 <= j < i ==> kept[j].path != p
  }

  ghost predicate FlagsRight(t: Table, kept: seq<Accepted>) {
    forall i :: 0 <= i < |kept| ==> (kept[i].flag <==> AbsentBefore(t, kept, i, kept[i].path))
  }

  ghost predicate KeysRight(t: Table, k: Work) {
    forall p :: p in k.table <==> !AbsentBefore(t, k.tentative, |k.tentative|, p)
  }

  /** Throughout a transaction each accepted entry's flag says that its path had no row, neither
      before the transaction nor from an earlier entry, although the flag is declared as "is an
      update". */
  lemma {:induction false} FlagsMeanInserted(t: Table, same: seq<Path>, items: seq<Computed>, w: Pass, n: nat)
    requires n <= |items|
    ensures var k := CommitUpTo(Work(t, [], [], same, Running), items, w, n);
      FlagsRight(t, k.tentative) && KeysRight(t, k)
  {
    hide CommitStep, FlagsRight, KeysRight, Fresh;
    if n == 0 {
      NoFlags(t, same);
    } else {
      FlagsMeanInserted(t, same, items, w, n - 1);
      FlagStep(t, CommitUpTo(Work(t, [], [], same, Running), items, w, n - 1), items[n - 1], w.seen(n - 1),
        w.answer(n - 1));
    }
  }

  lemma NoFlags(t: Table, same: seq<Path>)
    ensures FlagsRight(t, []) && KeysRight(t, Work(t, [], [], same, Running))
  {
  }

  lemma FlagStep(t: Table, k: Work, item: Computed, seen: Seen, answer: bool)
    requires FlagsRight(t, k.tentative) && KeysRight(t, k)
    ensures var n := CommitStep(k, item, seen, answer);
      FlagsRight(t, n.tentative) && KeysRight(t, n)
  {
    hide Fresh, AbsentBefore;
    var n := CommitStep(k, item, seen, answer);
    if n.tentative != k.tentative {
      var x := n.tentative[|k.tentative|];
      assert n.tentative == k.tentative + [x];
      forall i: nat, p | i <= |k.tentative|
        ensures AbsentBefore(t, n.tentative, i, p) <==> AbsentBefore(t, k.tentative, i, p)
      {
        AbsentPrefix(t, k.tentative, x, i, p);
      }
      forall p
        ensures AbsentBefore(t, n.tentative, |n.tentative|, p)
          <==> AbsentBefore(t, k.tentative, |k.tentative|, p) && p != x.path
      {
        AbsentNext(t, k.tentative, x, p);
      }
    }
  }

  lemma AbsentPrefix(t: Table, kept: seq<Accepted>, x: Accepted, i: nat, p: Path)
    requires i <= |kept|
    ensures AbsentBefore(t, kept + [x], i, p) <==> AbsentBefore(t, kept, i, p)
  {
    assert forall j :: 0 <= j < i ==> (kept + [x])[j] == kept[j];
  }

  lemma AbsentNext(t: Table, kept: seq<Accepted>, x: Accepted, p: Path)
    ensures AbsentBefore(t, kept + [x], |kept| + 1, p) <==> AbsentBefore(t, kept, |kept|, p) && p != x.path
  {
    var all := kept + [x];
    assert all[|kept|] == x;
    assert forall j :: 0 <= j < |kept| ==> all[j] == kept[j];
  }

  // Conservation.

  ghost function WorkPaths(k: Work): multiset<Path> {
    Image(k.tentative, KeptPath) + Image(k.conflicts, Itself) + Image(k.same, Itself)
  }

  lemma CommitStepConserves(k: Work, item: Computed, seen: Seen, answer: bool)
    requires k.progress == Running && CommitStep(k, item, seen, answer).progress != Aborted
    ensures WorkPaths(CommitStep(k, item, seen, answer)) == WorkPaths(k) + multiset{item.path}
  {
    hide Image, Fresh;
    ImageAppend(k.conflicts, item.path, Itself);
    ImageAppend(k.same, item.path, Itself);
    ImageAppend(k.tentative, Accepted(item.path, item.row, item.path !in k.table), KeptPath);
  }

  /** A commit that goes through puts every computed path in exactly one of accepted, conflicts
      and unchanged. */
  lemma {:induction false} CommitConserves(k: Work, items: seq<Computed>, w: Pass, n: nat)
    requires n <= |items| && CommitUpTo(k, items, w, n).progress == Running
    ensures WorkPaths(CommitUpTo(k, items, w, n)) == WorkPaths(k) + Image(items[..n], ItemPath)
  {
    hide Image, WorkPaths, CommitStep;
    if n == 0 {
      assert items[..0] == [];
      EmptyImage(ItemPath);
    } else {
      var prev := CommitUpTo(k, items, w, n - 1);
      if prev.progress != Running {
        StoppedStays(k, items, w, n - 1, n);
      }
      CommitConserves(k, items, w, n - 1);
      CommitStepConserves(prev, items[n - 1], w.seen(n - 1), w.answer(n - 1));
      assert items[..n] == items[..n - 1] + [items[n - 1]];
      ImageAppend(items[..n - 1], items[n - 1], ItemPath);
    }
  }

  // Why a path is a conflict or unchanged.

  /** Item j was met with its file altered, or it plans the update of a row that is gone. */
  ghost predicate Conflicting(t: Table, items: seq<Computed>, w: Pass, j: nat, p: Path) {
    && j < |items| && items[j].path == p
    && ((w.seen(j) != Regular(items[j].row.mtime, items[j].row.size) && w.seen(j) != Folder(items[j].row.mtime))
        || (items[j].isUpdate && p !in t))
  }

  /** Item j plans an insert, and a row with its mtime and hash was there before the transaction
      or has been accepted in it. */
  ghost predicate AlreadyThere(t: Table, kept: seq<Accepted>, items: seq<Computed>, j: nat, p: Path) {
    && j < |items| && items[j].path == p && !items[j].isUpdate
    && ((p in t && t[p].mtime == items[j].row.mtime && t[p].hash == items[j].row.hash)
        || exists x :: x in kept && x.path == p && x.row.mtime == items[j].row.mtime && x.row.hash == items[j].row.hash)
  }

  ghost predicate Reasoned(t: Table, same: seq<Path>, k: Work, items: seq<Computed>, w: Pass, n: nat) {
    && |same| <= |k.same| && k.same[..|same|] == same
    && (forall p :: p in k.conflicts ==> exists j: nat :: j < n && Conflicting(t, items, w, j, p))
    && (forall p :: p in k.same[|same|..] ==> exists j: nat :: j < n && AlreadyThere(t, k.tentative, items, j, p))
  }

  /** Throughout a transaction every conflict and every path added to the unchanged ones has its
      reason. */
  lemma {:induction false} CommitReasons(t: Table, same: seq<Path>, items: seq<Computed>, w: Pass, n: nat)
    requires n <= |items|
    ensures Reasoned(t, same, CommitUpTo(Work(t, [], [], same, Running), items, w, n), items, w, n)
  {
    hide CommitStep, Reasoned;
    if n == 0 {
      NoReasons(t, same, items, w);
    } else {
      CommitReasons(t, same, items, w, n - 1);
      CommitWrites(t, same, items, w, n - 1);
      ReasonStep(t, same, CommitUpTo(Work(t, [], [], same, Running), items, w, n - 1), items, w, n - 1);
    }
  }

  lemma NoReasons(t: Table, same: seq<Path>, items: seq<Computed>, w: Pass)
    ensures Reasoned(t, same, Work(t, [], [], same, Running), items, w, 0)
  {
  }

  lemma ReasonStep(t: Table, same: seq<Path>, k: Work, items: seq<Computed>, w: Pass, n: nat)
    requires n < |items| && Reasoned(t, same, k, items, w, n) && TableIs(k.table, t, k.tentative)
    ensures Reasoned(t, same, CommitStep(k, items[n], w.seen(n), w.answer(n)), items, w, n + 1)
  {
    hide TableIs, Conflicting, AlreadyThere, CommitStep;
    var k', p := CommitStep(k, items[n], w.seen(n), w.answer(n)), items[n].path;
    ListsGrow(k, items[n], w.seen(n), w.answer(n));
    forall q | q in k'.conflicts
      ensures exists j: nat :: j < n + 1 && Conflicting(t, items, w, j, q)
    {
      if q in k.conflicts {
        var j: nat :| j < n && Conflicting(t, items, w, j, q);
      } else {
        ConflictReason(t, k, items, w, n);
        assert Conflicting(t, items, w, n, q);
      }
    }
    forall q | q in k'.same[|same|..]
      ensures exists j: nat :: j < n + 1 && AlreadyThere(t, k'.tentative, items, j, q)
    {
      if q in k.same[|same|..] {
        var j: nat :| j < n && AlreadyThere(t, k.tentative, items, j, q);
        ReasonStays(t, k, items, w, n, j, q);
      } else {
        assert k'.same[|same|..] == k.same[|same|..] + k'.same[|k.same|..];
        SameReason(t, k, items, w, n);
        ReasonStays(t, k, items, w, n, n, q);
      }
    }
  }

  /** One step adds at most its own path to the lists. */
  lemma ListsGrow(k: Work, item: Computed, seen: Seen, answer: bool)
    ensures var k' := CommitStep(k, item, seen, answer);
      && (k'.conflicts == k.conflicts || k'.conflicts == k.conflicts + [item.path])
      && (k'.same == k.same || k'.same == k.same + [item.path])
  {
    hide Fresh;
  }

  lemma ReasonStays(t: Table, k: Work, items: seq<Computed>, w: Pass, n: nat, j: nat, q: Path)
    requires n < |items| && AlreadyThere(t, k.tentative, items, j, q)
    ensures AlreadyThere(t, CommitStep(k, items[n], w.seen(n), w.answer(n)).tentative, items, j, q)
  {
    hide Fresh;
    assert k.tentative <= CommitStep(k, items[n], w.seen(n), w.answer(n)).tentative;
  }

  lemma ConflictReason(t: Table, k: Work, items: seq<Computed>, w: Pass, n: nat)
    requires n < |items| && TableIs(k.table, t, k.tentative)
    requires CommitStep(k, items[n], w.seen(n), w.answer(n)).conflicts != k.conflicts
    ensures CommitStep(k, items[n], w.seen(n), w.answer(n)).conflicts == k.conflicts + [items[n].path]
    ensures Conflicting(t, items, w, n, items[n].path)
  {
    assert Lookup(k.table, items[n].path) == if LastRow(k.tentative, items[n].path).Some?
      then LastRow(k.tentative, items[n].path) else Lookup(t, items[n].path);
    hide TableIs, LastRow;
  }

  lemma SameReason(t: Table, k: Work, items: seq<Computed>, w: Pass, n: nat)
    requires n < |items| && TableIs(k.table, t, k.tentative)
    requires CommitStep(k, items[n], w.seen(n), w.answer(n)).same != k.same
    ensures AlreadyThere(t, k.tentative, items, n, items[n].path)
  {
    assert Lookup(k.table, items[n].path) == if LastRow(k.tentative, items[n].path).Some?
      then LastRow(k.tentative, items[n].path) else Lookup(t, items[n].path);
    hide TableIs, LastRow;
    LastRowKept(k.tentative, items[n].path);
  }

  // When a commit is cancelled.

  /** Entry i is accepted, and the callback refuses to go on. */
  ghost predicate Refused(t: Table, same: seq<Path>, items: seq<Computed>, w: Pass, i: nat)
    requires i < |items|
  {
    var start := Work(t, [], [], same, Running);
    CommitUpTo(start, items, w, i).tentative < CommitUpTo(start, items, w, i + 1).tentative && !w.answer(i)
  }

  /** A commit is cancelled exactly when the callback refuses to go on after an accepted entry. */
  lemma {:induction false} CancelledExactly(t: Table, same: seq<Path>, items: seq<Computed>, w: Pass, n: nat)
    requires n <= |items|
    ensures CommitUpTo(Work(t, [], [], same, Running), items, w, n).progress == Cancelled
      <==> exists i :: 0 <= i < n && Refused(t, same, items, w, i)
  {
    hide CommitStep, Refused;
    if n > 0 {
      CancelledExactly(t, same, items, w, n - 1);
      RefusedStep(t, same, items, w, n - 1);
    }
  }

  lemma RefusedStep(t: Table, same: seq<Path>, items: seq<Computed>, w: Pass, i: nat)
    requires i < |items|
    ensures var start := Work(t, [], [], same, Running);
      CommitUpTo(start, items, w, i + 1).progress == Cancelled
      <==> CommitUpTo(start, items, w, i).progress == Cancelled || Refused(t, same, items, w, i)
  {
    hide Fresh;
  }

  // When a commit aborts.

  /** Item i meets its row: in the table before the transaction, or inserted by an earlier item. */
  predicate RowMet(t: Table, items: seq<Computed>, w: Pass, i: nat)
    requires i < |items|
  {
    items[i].path in t
    || exists j :: 0 <= j < i && items[j].path == items[i].path && !items[j].isUpdate && Fresh(items[j], w.seen(j))
  }

  predicate Blocks(t: Table, items: seq<Computed>, w: Pass, i: nat)
    requires i < |items|
  {
    items[i].isUpdate && Fresh(items[i], w.seen(i)) && RowMet(t, items, w, i)
  }

  ghost predicate KeysAre(k: Work, t: Table, items: seq<Computed>, w: Pass, n: nat)
    requires n <= |items|
  {
    forall p :: p in k.table <==>
      p in t || exists j :: 0 <= j < n && items[j].path == p && !items[j].isUpdate && Fresh(items[j], w.seen(j))
  }

  lemma KeysStep(k: Work, t: Table, items: seq<Computed>, w: Pass, i: nat)
    requires i < |items| && k.progress == Running && KeysAre(k, t, items, w, i)
    requires !Blocks(t, items, w, i)
    ensures var n := CommitStep(k, items[i], w.seen(i), w.answer(i));
      KeysAre(n, t, items, w, i + 1) && n.progress != Aborted
  {
    hide Fresh;
    var n := CommitStep(k, items[i], w.seen(i), w.answer(i));
    forall p
      ensures p in n.table <==>
        p in t || exists j :: 0 <= j < i + 1 && items[j].path == p && !items[j].isUpdate && Fresh(items[j], w.seen(j))
    {
      if p != items[i].path {
        assert p in n.table <==> p in k.table;
      }
    }
  }

  lemma BlockedStep(k: Work, t: Table, items: seq<Computed>, w: Pass, i: nat)
    requires i < |items| && k.progress == Running && KeysAre(k, t, items, w, i)
    requires Blocks(t, items, w, i)
    ensures CommitStep(k, items[i], w.seen(i), w.answer(i)).progress == Aborted
  {
    hide Fresh;
  }

  lemma {:induction false} CommitKeys(t: Table, same: seq<Path>, items: seq<Computed>, w: Pass, n: nat)
    requires n <= |items| && forall i: nat :: w.answer(i)
    requires forall i :: 0 <= i < n ==> !Blocks(t, items, w, i)
    ensures var k := CommitUpTo(Work(t, [], [], same, Running), items, w, n);
      KeysAre(k, t, items, w, n) && k.progress == Running
  {
    hide Fresh, Blocks, CommitStep;
    if n == 0 {
      hide Fresh;
    } else {
      CommitKeys(t, same, items, w, n - 1);
      var k := CommitUpTo(Work(t, [], [], same, Running), items, w, n - 1);
      KeysStep(k, t, items, w, n - 1);
      NotCancelled(k, items[n - 1], w.seen(n - 1));
    }
  }

  lemma NotCancelled(k: Work, item: Computed, seen: Seen)
    requires k.progress == Running
    ensures CommitStep(k, item, seen, true).progress != Cancelled
  {
  }

  /** Without a cancelling callback a commit aborts exactly when some planned update finds its
      file unchanged and its row in place: the ordinary update of a modified file. */
  lemma AbortsExactly(t: Table, accepted: seq<Accepted>, same: seq<Path>, items: seq<Computed>, w: Pass)
    requires forall i: nat :: w.answer(i)
    ensures CommitResult(t, accepted, same, items, w).progress == Aborted
      <==> exists i :: 0 <= i < |items| && Blocks(t, items, w, i)
  {
    hide Blocks, CommitStep;
    if exists i :: 0 <= i < |items| && Blocks(t, items, w, i) {
      var i := FirstBlock(t, items, w, 0);
      CommitKeys(t, same, items, w, i);
      var k := CommitUpTo(Work(t, [], [], same, Running), items, w, i);
      BlockedStep(k, t, items, w, i);
      StoppedStays(Work(t, [], [], same, Running), items, w, i + 1, |items|);
    } else {
      CommitKeys(t, same, items, w, |items|);
    }
  }

  lemma FirstBlock(t: Table, items: seq<Computed>, w: Pass, from: nat) returns (i: nat)
    requires exists j :: from <= j < |items| && Blocks(t, items, w, j)
    ensures from <= i < |items| && Blocks(t, items, w, i)
    ensures forall j :: from <= j < i ==> !Blocks(t, items, w, j)
    decreases |items| - from
  {
    hide Blocks;
    if Blocks(t, items, w, from) {
      i := from;
    } else {
      i := FirstBlock(t, items, w, from + 1);
    }
  }

  // ----- the bounded re-plan loop -----

  datatype Result = Result(entries: seq<Accepted>, same: seq<Path>, errors: seq<AddError>)

  datatype Run = Run(result: Result, table: Table, returned: bool, passes: nat)

  function ConflictErrors(paths: seq<Path>): seq<AddError> {
    seq(|paths|, i requires 0 <= i < |paths| => AddError(paths[i], CONFLICT))
  }

  function ComputePhase(w: Pass, paths: seq<Path>, result: Result, stopOnError: bool): Batch {
    var planned := PlanOf(w.atPlan, paths);
    ComputeUpTo(Batch([], result.errors, result.same, false), planned, w, stopOnError, |planned|)
  }

  function CommitPhase(w: Pass, result: Result, b: Batch): Work {
    CommitResult(w.atCommit, result.entries, b.same, b.computed, w)
  }

  /** The passes from `pass` on, with the table `t` and the lists as they stand. */
  function RunFrom(world: nat -> Pass, paths: seq<Path>, t: Table, result: Result, stopOnError: bool, retries: nat,
        pass: nat): Run
    decreases retries + 1 - pass
  {
    if pass > retries || paths == [] then
      Run(result.(errors := result.errors + ConflictErrors(paths)), t, true, pass)
    else
      var b := ComputePhase(world(pass), paths, result, stopOnError);
      if b.raised then Run(result.(errors := b.errors, same := b.same), world(pass).atPlan, false, pass + 1)
      else
        var k := CommitPhase(world(pass), result, b);
        var next := Result(k.tentative, k.same, b.errors);
        if k.progress == Aborted then Run(next, k.table, false, pass + 1)
        else RunFrom(world, k.conflicts, k.table, next, stopOnError, retries, pass + 1)
  }

  class AddResult {
    var entries: seq<Accepted>
    var same: seq<Path>
    var errors: seq<AddError>

    constructor ()
      ensures Value() == Result([], [], [])
    {
      entries, same, errors := [], [], [];
    }

    function Value(): Result
      reads this
    {
      Result(entries, same, errors)
    }
  }

  /** addToIndexEx on an expanded path list. */
  method AddToIndexEx(db: Database, paths: seq<Path>, stopOnError: bool, maxConflictRetries: int, result: AddResult,
                      world: nat -> Pass)
    returns (returned: bool, ghost passes: nat)
    modifies db, result
    ensures Run(result.Value(), db.table, returned, passes)
      == RunFrom(world, paths, old(db.table), old(result.Value()), stopOnError,
           if maxConflictRetries < 0 then 2 else maxConflictRetries, 0)
  {
    hide ComputeUpTo, CommitResult, PlanOf, PlansAll, SettledPaths, ParsedItems, ParseErrors, FlagsRight;
    var retries: nat := if maxConflictRetries < 0 then 2 else maxConflictRetries;
    var pathList, pass := paths, 0;
    ghost var goal := RunFrom(world, paths, db.table, result.Value(), stopOnError, retries, 0);
    while pass <= retries && pathList != []
      invariant 0 <= pass <= retries + 1
      invariant goal == RunFrom(world, pathList, db.table, result.Value(), stopOnError, retries, pass)
      decreases retries + 1 - pass
    {
      var w := world(pass);
      db.table := w.atPlan;
      var planned := PlanAddCandidates(db.table, pathList);
      var b := ComputeAddEntries(planned, w, stopOnError, result.errors, result.same);
      result.errors, result.same := b.errors, b.same;
      if b.raised {
        return false, pass + 1;
      }
      db.table := w.atCommit;
      var k := db.CommitAddEntries(b.computed, w, result.entries, result.same);
      result.entries, result.same := k.tentative, k.same;
      if k.progress == Aborted {
        return false, pass + 1;
      }
      pathList := k.conflicts;
      pass := pass + 1;
    }
    result.errors := result.errors + ConflictErrors(pathList);
    returned, passes := true, pass;
  }

  ghost predicate NeverCancels(world: nat -> Pass) {
    forall k: nat, i: nat :: world(k).answer(i)
  }

  ghost function ResultPaths(r: Result): multiset<Path> {
    Image(r.entries, KeptPath) + Image(r.same, Itself) + Image(r.errors, ErrorPath)
  }

  lemma ConflictErrorPaths(paths: seq<Path>)
    ensures Image(ConflictErrors(paths), ErrorPath) == Image(paths, Itself)
  {
    var e := ConflictErrors(paths);
    ImageEqual(e, ErrorPath, paths, Itself);
  }

  /** Conservation through both phases, as arithmetic of multisets. */
  lemma Rearrange<T(!new)>(accepted: multiset<T>, tentative: multiset<T>, conflicts: multiset<T>, same: multiset<T>,
                     computed: multiset<T>, errors: multiset<T>, same0: multiset<T>,
                     errors0: multiset<T>, same1: multiset<T>, visible: multiset<T>)
    requires computed + errors + same0 == errors0 + same1 + visible
    requires tentative + conflicts + same == same0 + computed
    ensures accepted + tentative + same + errors + conflicts == accepted + same1 + errors0 + visible
  {
    forall x: T
      ensures (accepted + tentative + same + errors + conflicts)[x] == (accepted + same1 + errors0 + visible)[x]
    {
      assert (computed + errors + same0)[x] == (errors0 + same1 + visible)[x];
      assert (tentative + conflicts + same)[x] == (same0 + computed)[x];
    }
  }

  /** The lists after one pass that neither raised nor was cancelled. */
  lemma PassConserves(w: Pass, paths: seq<Path>, result: Result, stopOnError: bool)
    requires forall i: nat :: w.answer(i)
    requires !ComputePhase(w, paths, result, stopOnError).raised
    requires CommitPhase(w, result, ComputePhase(w, paths, result, stopOnError)).progress != Aborted
    ensures var b := ComputePhase(w, paths, result, stopOnError);
      var k := CommitPhase(w, result, b);
      ResultPaths(Result(k.tentative, k.same, b.errors)) + Image(k.conflicts, Itself)
      == ResultPaths(result) + Image(Visible(paths), Itself)
  {
    hide Image, ComputeUpTo, CommitUpTo, PlanOf, Visible;
    var planned := PlanOf(w.atPlan, paths);
    var start := Batch([], result.errors, result.same, false);
    var b := ComputePhase(w, paths, result, stopOnError);
    ComputeConserves(start, planned, w, stopOnError, |planned|);
    assert planned[..|planned|] == planned;
    PlanPaths(w.atPlan, paths);
    EmptyImage(ItemPath);
    var begin := Work(w.atCommit, [], [], b.same, Running);
    RunningUnlessAborted(begin, b.computed, w, |b.computed|);
    CommitConserves(begin, b.computed, w, |b.computed|);
    assert b.computed[..|b.computed|] == b.computed;
    EmptyImage(KeptPath);
    EmptyImage(Itself);
    var k := CommitUpTo(begin, b.computed, w, |b.computed|);
    ImageConcat(result.entries, k.tentative, KeptPath);
    Rearrange(Image(result.entries, KeptPath), Image(k.tentative, KeptPath), Image(k.conflicts, Itself),
      Image(k.same, Itself),
              Image(b.computed, ItemPath), Image(b.errors, ErrorPath), Image(b.same, Itself),
              Image(result.errors, ErrorPath), Image(result.same, Itself), Image(Visible(paths), Itself));
  }

  lemma {:induction false} RunningUnlessAborted(k: Work, items: seq<Computed>, w: Pass, n: nat)
    requires n <= |items| && k.progress == Running && forall i: nat :: w.answer(i)
    ensures CommitUpTo(k, items, w, n).progress != Cancelled
  {
    if n > 0 {
      hide Fresh;
      RunningUnlessAborted(k, items, w, n - 1);
    }
  }

  lemma {:induction false} ComputedVisible(b: Batch, planned: seq<Planned>, w: Pass, stopOnError: bool, n: nat)
    requires n <= |planned| && b.computed == []
    ensures forall x ::
      x in ComputeUpTo(b, planned, w, stopOnError, n).computed ==> exists i :: 0 <= i < n && planned[i].path == x.path
  {
    if n > 0 {
      hide CheckUpdate;
      ComputedVisible(b, planned, w, stopOnError, n - 1);
    }
  }

  lemma {:induction false} ConflictsComputed(k: Work, items: seq<Computed>, w: Pass, n: nat)
    requires n <= |items| && k.conflicts == []
    ensures forall p :: p in CommitUpTo(k, items, w, n).conflicts ==> exists i :: 0 <= i < n && items[i].path == p
  {
    if n > 0 {
      hide Fresh;
      ConflictsComputed(k, items, w, n - 1);
    }
  }

  lemma {:induction false} VisibleNotSkipped(paths: seq<Path>)
    ensures forall p :: p in Visible(paths) ==> !Skipped(p)
  {
    if paths != [] {
      hide Skipped;
      VisibleNotSkipped(paths[..|paths| - 1]);
    }
  }

  /** What a pass leaves to re-plan was planned, so it is not skipped later. */
  lemma ConflictsVisible(w: Pass, paths: seq<Path>, result: Result, stopOnError: bool)
    ensures var k := CommitPhase(w, result, ComputePhase(w, paths, result, stopOnError));
      forall p :: p in k.conflicts ==> !Skipped(p)
  {
    hide Skipped, ComputeUpTo, CommitUpTo, Visible;
    var planned := PlanOf(w.atPlan, paths);
    var b := ComputePhase(w, paths, result, stopOnError);
    ComputedVisible(Batch([], result.errors, result.same, false), planned, w, stopOnError, |planned|);
    ConflictsComputed(Work(w.atCommit, [], [], b.same, Running), b.computed, w, |b.computed|);
    VisibleNotSkipped(paths);
    assert forall x :: x in planned ==> x.path in Visible(paths);
  }

  /** Whatever other writers and file edits do, a run with no cancelling callback makes at most
      retries + 1 passes, and when it returns every expanded path that is not skipped has been
      added to exactly one of entries, unchanged and errors. */
  lemma {:induction false} RunConserves(world: nat -> Pass, paths: seq<Path>, t: Table, result: Result,
      stopOnError: bool, retries: nat, pass: nat)
    requires NeverCancels(world) && pass <= retries + 1
    requires pass <= retries || forall p :: p in paths ==> !Skipped(p)
    ensures var run := RunFrom(world, paths, t, result, stopOnError, retries, pass);
      run.passes <= retries + 1 &&
      (run.returned ==> ResultPaths(run.result) == ResultPaths(result) + Image(Visible(paths), Itself))
    decreases retries + 1 - pass
  {
    hide Image, ComputePhase, CommitPhase, Skipped, Visible;
    if pass > retries || paths == [] {
      NoneSkipped(paths);
      ConflictErrorPaths(paths);
      ImageConcat(result.errors, ConflictErrors(paths), ErrorPath);
    } else {
      var w := world(pass);
      var b := ComputePhase(w, paths, result, stopOnError);
      if !b.raised {
        var k := CommitPhase(w, result, b);
        if k.progress != Aborted {
          assert forall i: nat :: w.answer(i);
          PassConserves(w, paths, result, stopOnError);
          ConflictsVisible(w, paths, result, stopOnError);
          NoneSkipped(k.conflicts);
          RunConserves(world, k.conflicts, k.table, Result(k.tentative, k.same, b.errors), stopOnError, retries,
            pass + 1);
        }
      }
    }
  }

  lemma NoneSkipped(paths: seq<Path>)
    requires forall p :: p in paths ==> !Skipped(p)
    ensures Visible(paths) == paths
  {
    VisibleAll(paths);
  }

  /** Adding one modified file whose row exists, with nothing else going on, does not return
      normally: the planned update inserts under an existing key. The table is left alone. */
  lemma ModifiedFileRaises(world: nat -> Pass, p: Path, t: Table, row: Row, result: Result, stopOnError: bool,
        retries: nat)
    requires !Skipped(p) && p in t && row.mtime != t[p].mtime && row.hash != t[p].hash
    requires var w := world(0);
      && w.atPlan == t && w.atCommit == t && w.answer(0)
      && w.probe(0) == FileThere(row.mtime, row.hash) && w.parse(0) == Parsed(row)
        && w.seen(0) == Regular(row.mtime, row.size)
    ensures var run := RunFrom(world, [p], t, result, stopOnError, retries, 0);
      !run.returned && run.table == t && run.result == result
  {
    hide Skipped;
    var w := world(0);
    assert Visible([p]) == [p] by { VisibleAll([p]); }
    var planned := PlanOf(t, [p]);
    assert planned == [Planned(p, Some(t[p]))];
    var b := ComputePhase(w, [p], result, stopOnError);
    var start := Batch([], result.errors, result.same, false);
    assert ComputeUpTo(start, planned, w, stopOnError, 0) == start;
    assert b == ComputeStep(start, planned[0], w.probe(0), w.parse(0), stopOnError);
    assert CommitUpTo(Work(t, [], [], b.same, Running), b.computed, w, 0).table == t;
    var k := CommitPhase(w, result, b);
    assert k.progress == Aborted;
  }

  /** Nothing happens between the phases of the first pass. */
  predicate Undisturbed(w: Pass, t: Table) {
    w.atPlan == t && w.atCommit == t
  }

  lemma {:induction false} AllSettled(planned: seq<Planned>, w: Pass, n: nat)
    requires n <= |planned| && forall i :: 0 <= i < n ==> Settled(planned[i], w.probe(i))
    ensures ParsedItems(planned, w, n) == [] && ParseErrors(planned, w, n) == []
    ensures |SettledPaths(planned, w, n)| == n
    ensures forall i :: 0 <= i < n ==> SettledPaths(planned, w, n)[i] == planned[i].path
  {
    if n > 0 {
      hide Settled;
      AllSettled(planned, w, n - 1);
    }
  }

  /** Adding a tree that the index already holds, every file of it with the mtime or the hash of
      its row, returns with every path unchanged and leaves the table alone. */
  lemma UnchangedTree(world: nat -> Pass, paths: seq<Path>, t: Table, result: Result, stopOnError: bool, retries: nat)
    requires Undisturbed(world(0), t)
    requires var planned := PlanOf(t, paths);
      forall i :: 0 <= i < |planned| ==> Settled(planned[i], world(0).probe(i))
    ensures var run := RunFrom(world, paths, t, result, stopOnError, retries, 0);
      run.returned && run.table == t && run.result == result.(same := result.same + Visible(paths))
  {
    hide Visible, Settled, Escapes, ComputeUpTo, CommitStep;
    var w, planned := world(0), PlanOf(t, paths);
    NothingMore(world, [], t, result, stopOnError, retries, 0);
    if paths == [] {
      NoneVisible();
    } else {
      var start := Batch([], result.errors, result.same, false);
      AllSettled(planned, w, |planned|);
      RaisesExactly(start, planned, w, stopOnError, |planned|);
      forall i | 0 <= i < |planned|
        ensures !Escapes(planned[i], w.probe(i), w.parse(i), stopOnError)
      {
        SettledStays(planned[i], w.probe(i), w.parse(i), stopOnError);
      }
      ComputeLists(start, planned, w, stopOnError, |planned|);
      assert SettledPaths(planned, w, |planned|) == Visible(paths);
      var next := result.(same := result.same + Visible(paths));
      NothingMore(world, [], t, next, stopOnError, retries, 1);
    }
  }

  lemma SettledStays(item: Planned, probe: Probe, parse: Parse, stopOnError: bool)
    requires Settled(item, probe)
    ensures !Escapes(item, probe, parse, stopOnError)
  {
  }

  lemma NoneVisible()
    ensures Visible([]) == []
  {
  }

  /** A pass over no paths ends the run. */
  lemma NothingMore(world: nat -> Pass, paths: seq<Path>, t: Table, result: Result, stopOnError: bool, retries: nat,
      pass: nat)
    requires paths == []
    ensures RunFrom(world, paths, t, result, stopOnError, retries, pass) == Run(result, t, true, pass)
  {
    assert result.errors + ConflictErrors([]) == result.errors;
  }

  /** File i parses to the row and is still as the row says when it is committed. */
  predicate Steady(w: Pass, i: nat, row: Row) {
    && w.parse(i) == Parsed(row)
    && (w.seen(i) == Regular(row.mtime, row.size) || w.seen(i) == Folder(row.mtime))
  }

  predicate AllSteady(w: Pass, rows: seq<Row>) {
    forall i :: 0 <= i < |rows| ==> Steady(w, i, rows[i])
  }

  predicate AllAnswered(w: Pass, n: nat) {
    forall i :: 0 <= i < n ==> w.answer(i)
  }

  function NewItems(paths: seq<Path>, rows: seq<Row>): (s: seq<Computed>)
    requires |rows| == |paths|
    ensures |s| == |paths|
  {
    seq(|paths|, i requires 0 <= i < |paths| => Computed(paths[i], rows[i], false))
  }

  function NewEntries(paths: seq<Path>, rows: seq<Row>): (s: seq<Accepted>)
    requires |rows| == |paths|
    ensures |s| == |paths|
  {
    seq(|paths|, i requires 0 <= i < |paths| => Accepted(paths[i], rows[i], true))
  }

  lemma {:induction false} AllParsed(planned: seq<Planned>, paths: seq<Path>, rows: seq<Row>, w: Pass, n: nat)
    requires |planned| == |paths| == |rows| && n <= |paths| && AllSteady(w, rows)
    requires forall i :: 0 <= i < |paths| ==> planned[i] == Planned(paths[i], None)
    ensures ParsedItems(planned, w, n) == NewItems(paths, rows)[..n]
    ensures ParseErrors(planned, w, n) == [] && SettledPaths(planned, w, n) == []
  {
    if n > 0 {
      AllParsed(planned, paths, rows, w, n - 1);
      assert Steady(w, n - 1, rows[n - 1]);
      assert NewItems(paths, rows)[..n] == NewItems(paths, rows)[..n - 1] + [NewItems(paths, rows)[n - 1]];
    }
  }

  /** The rows of the first n new files are in, and nothing else changed. */
  ghost predicate Extended(t': Table, t: Table, paths: seq<Path>, rows: seq<Row>, n: nat)
    requires n <= |paths| == |rows|
  {
    && (forall p :: p in t' <==> p in t || p in paths[..n])
    && (forall i :: 0 <= i < n ==> paths[i] in t' && t'[paths[i]] == rows[i])
    && (forall p :: p in t ==> p in t' && t'[p] == t[p])
  }

  lemma {:induction false} NewCommitted(t: Table, same: seq<Path>, paths: seq<Path>, rows: seq<Row>, w: Pass, n: nat)
    requires n <= |paths| == |rows| && AllSteady(w, rows) && AllAnswered(w, n)
    requires forall i, j :: 0 <= i < j < |paths| ==> paths[i] != paths[j]
    requires forall p :: p in paths ==> p !in t
    ensures var k := CommitUpTo(Work(t, [], [], same, Running), NewItems(paths, rows), w, n);
      && k == Work(k.table, NewEntries(paths, rows)[..n], [], same, Running)
      && Extended(k.table, t, paths, rows, n)
  {
    hide NewItems, NewEntries, CommitStep, Extended, AllSteady;
    if n == 0 {
      NothingExtended(t, paths, rows);
    } else {
      NewCommitted(t, same, paths, rows, w, n - 1);
      var k := CommitUpTo(Work(t, [], [], same, Running), NewItems(paths, rows), w, n - 1);
      assert paths[n - 1] !in paths[..n - 1];
      NewInserted(k, t, paths, rows, w, n - 1);
      assert NewEntries(paths, rows)[..n] == NewEntries(paths, rows)[..n - 1] + [NewEntries(paths, rows)[n - 1]];
    }
  }

  lemma NothingExtended(t: Table, paths: seq<Path>, rows: seq<Row>)
    requires |paths| == |rows|
    ensures Extended(t, t, paths, rows, 0)
  {
  }

  lemma NewInserted(k: Work, t: Table, paths: seq<Path>, rows: seq<Row>, w: Pass, n: nat)
    requires n < |paths| == |rows| && AllSteady(w, rows)
    requires k.progress == Running && Extended(k.table, t, paths, rows, n)
    requires paths[n] !in t && paths[n] !in paths[..n]
    ensures CommitStep(k, NewItems(paths, rows)[n], w.seen(n), w.answer(n))
         == k.(table := k.table[paths[n] := rows[n]], tentative := k.tentative + [NewEntries(paths, rows)[n]],
               progress := if w.answer(n) then Running else Cancelled)
    ensures Extended(k.table[paths[n] := rows[n]], t, paths, rows, n + 1)
  {
    assert paths[..n + 1] == paths[..n] + [paths[n]];
    assert Steady(w, n, rows[n]);
  }

  lemma NewComputed(w: Pass, paths: seq<Path>, rows: seq<Row>, result: Result, stopOnError: bool)
    requires |paths| == |rows| && AllSteady(w, rows)
    requires forall p :: p in paths ==> p !in w.atPlan && !Skipped(p)
    ensures ComputePhase(w, paths, result, stopOnError)
         == Batch(NewItems(paths, rows), result.errors, result.same, false)
  {
    hide Visible, Skipped, Escapes, ComputeUpTo, NewItems, AllSteady;
    VisibleAll(paths);
    var planned := PlanOf(w.atPlan, paths);
    assert forall i :: 0 <= i < |paths| ==> planned[i] == Planned(paths[i], None);
    var start := Batch([], result.errors, result.same, false);
    AllParsed(planned, paths, rows, w, |paths|);
    RaisesExactly(start, planned, w, stopOnError, |planned|);
    forall i | 0 <= i < |planned|
      ensures !Escapes(planned[i], w.probe(i), w.parse(i), stopOnError)
    {
      NewStays(planned[i], w, rows, i, stopOnError);
    }
    ComputeLists(start, planned, w, stopOnError, |planned|);
    assert NewItems(paths, rows)[..|paths|] == NewItems(paths, rows);
  }

  lemma NewStays(item: Planned, w: Pass, rows: seq<Row>, i: nat, stopOnError: bool)
    requires item.known == None && i < |rows| && AllSteady(w, rows)
    ensures !Escapes(item, w.probe(i), w.parse(i), stopOnError)
  {
    assert Steady(w, i, rows[i]);
  }

  /** Adding new files that stay as they are while they are added returns with every one of them
      accepted, in order and flagged as inserted, and with exactly their rows added. */
  lemma NewTreeAdded(world: nat -> Pass, paths: seq<Path>, rows: seq<Row>, t: Table, result: Result,
      stopOnError: bool, retries: nat)
    requires Undisturbed(world(0), t) && paths != [] && |paths| == |rows|
    requires AllSteady(world(0), rows) && AllAnswered(world(0), |paths|)
    requires forall i, j :: 0 <= i < j < |paths| ==> paths[i] != paths[j]
    requires forall p :: p in paths ==> p !in t && !Skipped(p)
    ensures var run := RunFrom(world, paths, t, result, stopOnError, retries, 0);
      && run.returned && Extended(run.table, t, paths, rows, |paths|)
      && run.result == result.(entries := result.entries + NewEntries(paths, rows))
  {
    hide ComputePhase, NewItems, NewEntries, Extended, AllSteady, CommitUpTo, Skipped;
    var w := world(0);
    NewComputed(w, paths, rows, result, stopOnError);
    NewCommitted(t, result.same, paths, rows, w, |paths|);
    var k := CommitUpTo(Work(t, [], [], result.same, Running), NewItems(paths, rows), w, |paths|);
    assert NewEntries(paths, rows)[..|paths|] == NewEntries(paths, rows);
    var after := result.(entries := result.entries + NewEntries(paths, rows));
    NothingMore(world, [], k.table, after, stopOnError, retries, 1);
  }

  function FirstRefused(w: Pass, n: nat): (i: nat)
    requires !AllAnswered(w, n)
    ensures i < n && AllAnswered(w, i) && !w.answer(i)
  {
    if AllAnswered(w, n - 1) then n - 1 else FirstRefused(w, n - 1)
  }

  /** If the callback refuses to go on after any of them, none of the new files is in: the call
      returns with the table and the lists as they were. */
  lemma RefusedTreeUndone(world: nat -> Pass, paths: seq<Path>, rows: seq<Row>, t: Table, result: Result,
      stopOnError: bool, retries: nat)
    requires Undisturbed(world(0), t) && |paths| == |rows|
    requires AllSteady(world(0), rows) && !AllAnswered(world(0), |paths|)
    requires forall i, j :: 0 <= i < j < |paths| ==> paths[i] != paths[j]
    requires forall p :: p in paths ==> p !in t && !Skipped(p)
    ensures var run := RunFrom(world, paths, t, result, stopOnError, retries, 0);
      run.returned && run.table == t && run.result == result
  {
    hide ComputePhase, NewItems, NewEntries, Extended, AllSteady, CommitStep, Skipped;
    var w, m := world(0), FirstRefused(world(0), |paths|);
    hide AllAnswered;
    NewComputed(w, paths, rows, result, stopOnError);
    NewCommitted(t, result.same, paths, rows, w, m);
    var start, items := Work(t, [], [], result.same, Running), NewItems(paths, rows);
    assert paths[m] !in paths[..m];
    NewInserted(CommitUpTo(start, items, w, m), t, paths, rows, w, m);
    StoppedStays(start, items, w, m + 1, |items|);
    hide CommitUpTo;
    NothingMore(world, [], t, result, stopOnError, retries, 1);
  }

  /** In every pass the file is new to the plan, parses, and has changed again at the commit. */
  ghost predicate KeepsChanging(world: nat -> Pass, p: Path, rows: nat -> Row) {
    forall k: nat ::
      && p !in world(k).atPlan && world(k).parse(0) == Parsed(rows(k))
      && world(k).seen(0) != Regular(rows(k).mtime, rows(k).size) && world(k).seen(0) != Folder(rows(k).mtime)
  }

  /** A file that changes during every pass is planned again retries times and is then reported
      once as a conflict; the table is what the last commit found. */
  lemma {:induction false} ChangingFileGivesUp(world: nat -> Pass, p: Path, rows: nat -> Row, t: Table, result: Result,
      stopOnError: bool, retries: nat, pass: nat)
    requires KeepsChanging(world, p, rows) && !Skipped(p) && pass <= retries + 1
    ensures var run := RunFrom(world, [p], t, result, stopOnError, retries, pass);
      && run.returned && run.passes == retries + 1
      && run.result == result.(errors := result.errors + [AddError(p, CONFLICT)])
      && run.table == if pass > retries then t else world(retries).atCommit
    decreases retries + 1 - pass
  {
    hide Skipped, KeepsChanging;
    if pass > retries {
      assert ConflictErrors([p]) == [AddError(p, CONFLICT)];
    } else {
      ChangingPass(world, p, rows, result, stopOnError, pass);
      ChangingFileGivesUp(world, p, rows, world(pass).atCommit, result, stopOnError, retries, pass + 1);
    }
  }

  lemma ChangingPass(world: nat -> Pass, p: Path, rows: nat -> Row, result: Result, stopOnError: bool, pass: nat)
    requires KeepsChanging(world, p, rows) && !Skipped(p)
    ensures var b := ComputePhase(world(pass), [p], result, stopOnError);
      && !b.raised && b.errors == result.errors
      && CommitPhase(world(pass), result, b)
         == Work(world(pass).atCommit, result.entries, [p], result.same, Running)
  {
    hide Skipped;
    var w, row := world(pass), rows(pass);
    VisibleAll([p]);
    var planned := PlanOf(w.atPlan, [p]);
    assert planned == [Planned(p, None)];
    var start := Batch([], result.errors, result.same, false);
    assert ComputeUpTo(start, planned, w, stopOnError, 0) == start;
    var b := ComputePhase(w, [p], result, stopOnError);
    assert b == start.(computed := [Computed(p, row, false)]);
    var begin := Work(w.atCommit, [], [], result.same, Running);
    assert CommitUpTo(begin, b.computed, w, 0) == begin;
    assert CommitUpTo(begin, b.computed, w, 1) == begin.(conflicts := [p]);
  }

  // ----- several runs interleaved -----

  /** One commit of some run, whenever it happens. */
  datatype Commit = Commit(items: seq<Computed>, w: Pass)

  function WorkOf(t: Table, c: Commit): Work {
    CommitUpTo(Work(t, [], [], [], Running), c.items, c.w, |c.items|)
  }

  /** What a commit accepted: nothing unless its transaction went through. */
  function AcceptedBy(t: Table, c: Commit): seq<Accepted> {
    if WorkOf(t, c).progress == Running then WorkOf(t, c).tentative else []
  }

  function TableAfter(t: Table, commits: seq<Commit>): Table {
    if commits == [] then t
    else
      var before := TableAfter(t, commits[..|commits| - 1]);
      CommitResult(before, [], [], commits[|commits| - 1].items, commits[|commits| - 1].w).table
  }

  /** Row `row` of path p was written by commit e, from an item whose file had that mtime and
      size, and no later commit accepted p. */
  ghost predicate WrittenAt(t: Table, commits: seq<Commit>, p: Path, row: Row, e: nat) {
    && e < |commits|
    && (exists x, j: nat :: x in AcceptedBy(TableAfter(t, commits[..e]), commits[e]) && x.path == p && x.row == row
                       && Written(x, commits[e].items, commits[e].w, j))
    && forall d :: e < d < |commits| ==> LastRow(AcceptedBy(TableAfter(t, commits[..d]), commits[d]), p) == None
  }

  lemma {:induction false} LastRowKept(kept: seq<Accepted>, p: Path)
    ensures LastRow(kept, p).Some? ==> exists x :: x in kept && x.path == p && x.row == LastRow(kept, p).value
  {
    if kept != [] {
      LastRowKept(kept[..|kept| - 1], p);
    }
  }

  /** One commit: each path keeps its row or takes one written from a fresh item. */
  lemma CommitEffect(t: Table, c: Commit, p: Path)
    ensures var after := CommitResult(t, [], [], c.items, c.w).table;
      var last := LastRow(AcceptedBy(t, c), p);
      && Lookup(after, p) == (if last.Some? then last else Lookup(t, p))
      && (last.Some? ==> exists x, j: nat ::
            x in AcceptedBy(t, c) && x.path == p && x.row == last.value && Written(x, c.items, c.w, j))
  {
    hide CommitUpTo, Written, LastRow, Lookup;
    CommitWrites(t, [], c.items, c.w, |c.items|);
    var k := WorkOf(t, c);
    LastRowKept(k.tentative, p);
    NoLastRow(p);
  }

  lemma NoLastRow(p: Path)
    ensures LastRow([], p) == None
  {
  }

  /** No commit accepted p. */
  ghost predicate Untouched(t: Table, commits: seq<Commit>, p: Path) {
    forall d :: 0 <= d < |commits| ==> LastRow(AcceptedBy(TableAfter(t, commits[..d]), commits[d]), p) == None
  }

  lemma NotTouchedNext(t: Table, commits: seq<Commit>, c: Commit, p: Path)
    requires LastRow(AcceptedBy(TableAfter(t, commits), c), p) == None
    ensures Untouched(t, commits, p) ==> Untouched(t, commits + [c], p)
    ensures forall row, e: nat :: WrittenAt(t, commits, p, row, e) ==> WrittenAt(t, commits + [c], p, row, e)
  {
    hide AcceptedBy, TableAfter, Written, LastRow;
    var all := commits + [c];
    assert all[..|commits|] == commits;
    assert forall d :: 0 <= d < |commits| ==> all[..d] == commits[..d];
  }

  lemma TouchedNext(t: Table, commits: seq<Commit>, c: Commit, p: Path)
    requires LastRow(AcceptedBy(TableAfter(t, commits), c), p).Some?
    ensures var row := Lookup(TableAfter(t, commits + [c]), p);
      row.Some? && WrittenAt(t, commits + [c], p, row.value, |commits|)
  {
    hide AcceptedBy, CommitResult, TableAfter, Written, LastRow, Lookup;
    var all := commits + [c];
    assert all[..|commits|] == commits;
    NextTable(t, commits, c);
    CommitEffect(TableAfter(t, commits), c, p);
    var row := Lookup(TableAfter(t, all), p).value;
    var x, j: nat :| x in AcceptedBy(TableAfter(t, commits), c) && x.path == p && x.row == row
      && Written(x, c.items, c.w, j);
    assert all[|commits|] == c;
  }

  lemma NextTable(t: Table, commits: seq<Commit>, c: Commit)
    ensures TableAfter(t, commits + [c]) == CommitResult(TableAfter(t, commits), [], [], c.items, c.w).table
  {
    hide CommitResult;
    assert (commits + [c])[..|commits|] == commits;
  }

  /** In every interleaving of any number of add runs, each row is the initial one, untouched by
      every commit, or was left by the last commit that accepted its path, with the mtime and
      size the file had at that commit. */
  lemma {:induction false} RowProvenance(t: Table, commits: seq<Commit>, p: Path)
    ensures var row := Lookup(TableAfter(t, commits), p);
      || (row == Lookup(t, p) && Untouched(t, commits, p))
      || (row.Some? && exists e: nat :: WrittenAt(t, commits, p, row.value, e))
  {
    hide AcceptedBy, CommitResult, TableAfter, WrittenAt, Untouched, LastRow, Lookup;
    if commits == [] {
      NothingYet(t, p);
    } else {
      var n := |commits| - 1;
      var front, c := commits[..n], commits[n];
      assert front + [c] == commits;
      RowProvenance(t, front, p);
      NextTable(t, front, c);
      CommitEffect(TableAfter(t, front), c, p);
      if LastRow(AcceptedBy(TableAfter(t, front), c), p).Some? {
        TouchedNext(t, front, c, p);
      } else {
        NotTouchedNext(t, front, c, p);
      }
    }
  }

  lemma NothingYet(t: Table, p: Path)
    ensures TableAfter(t, []) == t && Untouched(t, [], p)
  {
  }
}
