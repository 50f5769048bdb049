/** buildInternal as a machine: builders race on one output folder, fail or crash anywhere,
    and publish by renaming a private scratch folder. */
module Publication {

  import opened Options

  type Pid = nat
  type TempName = nat
  /** A folder's files with their contents. */
  type Files = map<string, string>

  /** The non-vector build types. */
  datatype Kind = PointCloud | GeoRaster | Model | GaussianSplat | Tiles3D

  predicate NonEmptyFile(f: Files, name: string) {
    name in f && f[name] != ""
  }

  /** isBuildOutputComplete for the non-vector types. */
  predicate Complete(kind: Kind, output: Option<Files>) {
    output.Some? &&
    match kind
    case GaussianSplat => NonEmptyFile(output.value, "model.rad")
    case Tiles3D => NonEmptyFile(output.value, "tileset.json")
    case _ => exists name :: name in output.value && output.value[name] != ""
  }

  /** Where a builder stands. */
  datatype Proc =
    | Idle
    | Locked(force: bool)
    | Cleared(force: bool)
    | Building(force: bool, temp: TempName)
    | Built(force: bool, temp: TempName)
    | Removed(force: bool, temp: TempName)
    | Renamed(temp: TempName)
    | Failing(temp: TempName, missingDeps: bool)

  /** `used` are the scratch names ever drawn, `finished` the folders left by builder runs
      that returned normally. */
  datatype State = State(kind: Kind, output: Option<Files>, temps: map<TempName, Files>, pending: bool,
                         procs: map<Pid, Proc>, ghost used: set<TempName>, ghost finished: set<Files>)
  {
    function At(p: Pid): Proc {
      if p in procs then procs[p] else Idle
    }

    ghost function Set(p: Pid, x: Proc): State {
      this.(procs := procs[p := x])
    }
  }

  datatype Step =
    | Start(p: Pid, force: bool)
    | Skip(p: Pid)
    | Proceed(p: Pid)
    | NoSpace(p: Pid)
    | MakeTemp(p: Pid, temp: TempName)
    | Write(p: Pid, files: Files)
    | Finish(p: Pid)
    | Throw(p: Pid, missingDeps: bool)
    | RemoveOld(p: Pid)
    | Rename(p: Pid)
    | Clean(p: Pid)
    | Crash(p: Pid)
    | DeleteAll
    | ReclaimTemp(temp: TempName)

  predicate HasTemp(x: Proc) {
    x.Building? || x.Built? || x.Removed? || x.Renamed? || x.Failing?
  }

  /** Start is acquiring the build lock; nothing here assumes that the lock excludes anyone.
      DeleteAll is deletion of the whole hash folder, ReclaimTemp cleanup's removal of one
      scratch folder. A Tiles3D builder only finishes with a non-empty tileset.json. */
  ghost predicate Enabled(s: State, step: Step) {
    match step
    case Start(p, _) => s.At(p).Idle?
    case Skip(p) => s.At(p).Locked? && Complete(s.kind, s.output) && !s.At(p).force
    case Proceed(p) => s.At(p).Locked? && !(Complete(s.kind, s.output) && !s.At(p).force)
    case NoSpace(p) => s.At(p).Cleared?
    case MakeTemp(p, temp) => s.At(p).Cleared? && temp !in s.used
    case Write(p, _) => s.At(p).Building? && s.At(p).temp in s.temps
    case Finish(p) =>
      && s.At(p).Building?
      && (s.kind.Tiles3D? ==> s.At(p).temp in s.temps && NonEmptyFile(s.temps[s.At(p).temp], "tileset.json"))
    case Throw(p, _) => s.At(p).Building?
    case RemoveOld(p) => s.At(p).Built?
    case Rename(p) => s.At(p).Removed?
    case Clean(p) => s.At(p).Renamed? || s.At(p).Failing?
    case Crash(p) => true
    case DeleteAll => true
    case ReclaimTemp(_) => true
  }

  ghost function Next(s: State, step: Step): State
    requires Enabled(s, step)
  {
    match step
    case Start(p, force) => s.Set(p, Locked(force))
    case Skip(p) => s.Set(p, Idle)
    case Proceed(p) => s.Set(p, Cleared(s.At(p).force))
    case NoSpace(p) => s.Set(p, Idle)
    case MakeTemp(p, temp) =>
      s.Set(p, Building(s.At(p).force, temp)).(
        temps := s.temps[temp := map[]], pending := false, used := s.used + {temp})
    case Write(p, files) => s.(temps := s.temps[s.At(p).temp := files])
    case Finish(p) =>
      var x := s.At(p);
      s.Set(p, Built(x.force, x.temp)).(
        finished := if x.temp in s.temps then s.finished + {s.temps[x.temp]} else s.finished)
    case Throw(p, missing) => s.Set(p, Failing(s.At(p).temp, missing))
    case RemoveOld(p) => s.Set(p, Removed(s.At(p).force, s.At(p).temp)).(output := None)
    case Rename(p) =>
      var t := s.At(p).temp;
      if t in s.temps && s.output.None?
      then s.Set(p, Renamed(t)).(output := Some(s.temps[t]), temps := s.temps - {t})
      else s.Set(p, Failing(t, false))
    case Clean(p) =>
      var x := s.At(p);
      s.Set(p, Idle).(temps := s.temps - {x.temp}, pending := s.pending || (x.Failing? && x.missingDeps))
    case Crash(p) => s.Set(p, Idle)
    case DeleteAll => s.(output := None, temps := map[])
    case ReclaimTemp(t) => s.(temps := s.temps - {t})
  }

  ghost predicate IsRun(s: State, steps: seq<Step>)
    decreases |steps|
  {
    steps == [] || (Enabled(s, steps[0]) && IsRun(Next(s, steps[0]), steps[1..]))
  }

  ghost function After(s: State, steps: seq<Step>): State
    requires IsRun(s, steps)
    decreases |steps|
  {
    if steps == [] then s else After(Next(s, steps[0]), steps[1..])
  }

  function Fresh(kind: Kind): State {
    State(kind, None, map[], false, map[], {}, {})
  }

  // ----- never a partial output -----

  /** Builders own distinct scratch folders; once a builder has returned, its folder is a
      finished result; and so is whatever is published. */
  ghost predicate Sound(s: State) {
    && (forall p :: HasTemp(s.At(p)) ==> s.At(p).temp in s.used)
    && (forall t :: t in s.temps ==> t in s.used)
    && (forall p, q :: HasTemp(s.At(p)) && HasTemp(s.At(q)) && s.At(p).temp == s.At(q).temp ==> p == q)
    && (forall p :: (s.At(p).Built? || s.At(p).Removed?) && s.At(p).temp in s.temps ==>
          s.temps[s.At(p).temp] in s.finished)
    && (s.output.Some? ==> s.output.value in s.finished)
    && (s.kind.Tiles3D? ==> forall f :: f in s.finished ==> NonEmptyFile(f, "tileset.json"))
  }

  lemma SetAt(s: State, p: Pid, x: Proc)
    ensures forall q {:trigger s.Set(p, x).At(q)} :: s.Set(p, x).At(q) == if q == p then x else s.At(q)
  {
  }

  /** Steps that move one builder between stages and leave every folder alone. */
  lemma StageSound(s: State, p: Pid, x: Proc)
    requires Sound(s)
    requires HasTemp(x) ==> HasTemp(s.At(p)) && x.temp == s.At(p).temp
    requires x.Built? || x.Removed? ==> s.At(p).Built? || s.At(p).Removed?
    ensures Sound(s.Set(p, x)) && Sound(s.Set(p, x).(output := None))
  {
    hide NonEmptyFile;
    SetAt(s, p, x);
    var t, u := s.Set(p, x), s.Set(p, x).(output := None);
    assert forall q :: u.At(q) == t.At(q);
  }

  lemma MakeTempSound(s: State, p: Pid, temp: TempName)
    requires Sound(s) && Enabled(s, MakeTemp(p, temp))
    ensures Sound(Next(s, MakeTemp(p, temp)))
  {
    hide NonEmptyFile;
    var t := Next(s, MakeTemp(p, temp));
    assert forall q :: q != p ==> t.At(q) == s.At(q);
  }

  lemma FinishSound(s: State, p: Pid)
    requires Sound(s) && Enabled(s, Finish(p))
    ensures Sound(Next(s, Finish(p)))
  {
    hide NonEmptyFile;
    var t := Next(s, Finish(p));
    assert forall q :: q != p ==> t.At(q) == s.At(q);
  }

  lemma RenameSound(s: State, p: Pid)
    requires Sound(s) && Enabled(s, Rename(p))
    ensures Sound(Next(s, Rename(p)))
  {
    hide NonEmptyFile;
    var t := Next(s, Rename(p));
    assert forall q :: q != p ==> t.At(q) == s.At(q);
  }

  lemma CleanSound(s: State, p: Pid)
    requires Sound(s) && Enabled(s, Clean(p))
    ensures Sound(Next(s, Clean(p)))
  {
    hide NonEmptyFile;
    var t := Next(s, Clean(p));
    assert forall q :: q != p ==> t.At(q) == s.At(q);
  }

  lemma NextSound(s: State, step: Step)
    requires Sound(s) && Enabled(s, step)
    ensures Sound(Next(s, step))
  {
    hide NonEmptyFile, Sound;
    var t := Next(s, step);
    match step
    case Start(p, force) => StageSound(s, p, Locked(force));
    case Skip(p) => StageSound(s, p, Idle);
    case Proceed(p) => StageSound(s, p, Cleared(s.At(p).force));
    case NoSpace(p) => StageSound(s, p, Idle);
    case MakeTemp(p, temp) => MakeTempSound(s, p, temp);
    case Write(p, files) => FoldersSound(s, s.temps[s.At(p).temp := files], s.output, p);
    case Finish(p) => FinishSound(s, p);
    case Throw(p, missing) => StageSound(s, p, Failing(s.At(p).temp, missing));
    case RemoveOld(p) => StageSound(s, p, Removed(s.At(p).force, s.At(p).temp));
    case Rename(p) => RenameSound(s, p);
    case Clean(p) => CleanSound(s, p);
    case Crash(p) => StageSound(s, p, Idle);
    case DeleteAll => FoldersSound(s, map[], None, 0);
    case ReclaimTemp(temp) => FoldersSound(s, s.temps - {temp}, s.output, 0);
  }

  /** Changing folders without moving a builder: only the scratch folder of a builder that is
      still building may get new contents. */
  lemma FoldersSound(s: State, temps: map<TempName, Files>, output: Option<Files>, p: Pid)
    requires Sound(s)
    requires forall t ::
      t in temps ==> t in s.temps && (temps[t] == s.temps[t] || (s.At(p).Building? && t == s.At(p).temp))
    requires output == s.output || output == None
    ensures Sound(s.(temps := temps, output := output))
  {
    hide NonEmptyFile;
    var u := s.(temps := temps, output := output);
    assert forall q :: u.At(q) == s.At(q);
  }

  /** In every state reached by any interleaving of builds, with successes, failures, crashes,
      deletions and reclaimed scratch folders, the output folder is absent or is, whole, what
      one finished builder run left. */
  lemma {:induction false} OutputNeverPartial(s: State, steps: seq<Step>)
    requires Sound(s) && IsRun(s, steps)
    ensures Sound(After(s, steps))
    ensures After(s, steps).output.Some? ==> After(s, steps).output.value in After(s, steps).finished
    decreases |steps|
  {
    hide Sound, Enabled, Next;
    if steps == [] {
      assert Sound(s) ==> (s.output.Some? ==> s.output.value in s.finished) by { SoundOutput(s); }
    } else {
      NextSound(s, steps[0]);
      OutputNeverPartial(Next(s, steps[0]), steps[1..]);
    }
  }

  lemma SoundOutput(s: State)
    ensures Sound(s) && s.output.Some? ==> s.output.value in s.finished
  {
  }

  lemma FreshSound(kind: Kind)
    ensures Sound(Fresh(kind))
  {
  }

  /** Hence a published 3D Tiles archive always counts as complete. */
  lemma PublishedTilesComplete(steps: seq<Step>)
    requires IsRun(Fresh(Tiles3D), steps)
    ensures var t := After(Fresh(Tiles3D), steps); t.output.Some? ==> Complete(Tiles3D, t.output)
  {
    FreshSound(Tiles3D);
    OutputNeverPartial(Fresh(Tiles3D), steps);
    KindKept(Fresh(Tiles3D), steps);
  }

  lemma {:induction false} KindKept(s: State, steps: seq<Step>)
    requires IsRun(s, steps)
    ensures After(s, steps).kind == s.kind
    decreases |steps|
  {
    if steps != [] {
      KindKept(Next(s, steps[0]), steps[1..]);
    }
  }

  // ----- what the lock adds -----

  predicate Active(x: Proc) {
    !x.Idle?
  }

  /** The step respects the build lock: nobody else is inside when a builder starts. */
  ghost predicate Excludes(s: State, step: Step) {
    step.Start? ==> forall q :: !Active(s.At(q))
  }

  ghost predicate Exclusive(s: State) {
    && (forall p, q :: Active(s.At(p)) && Active(s.At(q)) ==> p == q)
    && (forall p :: (s.At(p).Cleared? || s.At(p).Building? || s.At(p).Built?) && !s.At(p).force ==>
          !Complete(s.kind, s.output))
    && (forall p :: s.At(p).Removed? ==> s.output.None?)
  }

  /** With the lock exclusive, a build that is not forced never removes a complete output, and
      its rename never meets an existing one. */
  lemma LockProtectsOutput(s: State, step: Step)
    requires Exclusive(s) && Enabled(s, step) && Excludes(s, step)
    ensures Exclusive(Next(s, step))
    ensures step.RemoveOld? && !s.At(step.p).force ==> !Complete(s.kind, s.output)
    ensures step.Rename? ==> s.output.None?
  {
    hide Complete;
    var t := Next(s, step);
    assert !Complete(s.kind, None) by { NothingIsIncomplete(s.kind); }
    match step
    case DeleteAll =>
      assert forall p :: t.At(p) == s.At(p);
    case ReclaimTemp(_) =>
      assert forall p :: t.At(p) == s.At(p);
    case Write(p, files) =>
      assert forall q :: t.At(q) == s.At(q);
    case _ =>
      assert forall q :: q != step.p ==> t.At(q) == s.At(q);
  }

  lemma NothingIsIncomplete(kind: Kind)
    ensures !Complete(kind, None)
  {
  }

  ghost predicate ExcludingRun(s: State, steps: seq<Step>)
    requires IsRun(s, steps)
    decreases |steps|
  {
    steps == [] || (Excludes(s, steps[0]) && ExcludingRun(Next(s, steps[0]), steps[1..]))
  }

  lemma {:induction false} LockProtectsRun(s: State, steps: seq<Step>, step: Step)
    requires Exclusive(s) && IsRun(s, steps) && ExcludingRun(s, steps)
    requires Enabled(After(s, steps), step)
    ensures var t := After(s, steps);
      && Exclusive(t)
      && (step.RemoveOld? && !t.At(step.p).force ==> !Complete(t.kind, t.output))
      && (step.Rename? ==> t.output.None?)
    decreases |steps|
  {
    hide Enabled, Next, Excludes, Complete, Exclusive;
    if steps == [] {
      UnforcedRemoval(s, step);
    } else {
      LockProtectsOutput(s, steps[0]);
      LockProtectsRun(Next(s, steps[0]), steps[1..], step);
    }
  }

  lemma UnforcedRemoval(s: State, step: Step)
    requires Exclusive(s) && Enabled(s, step)
    ensures step.RemoveOld? && !s.At(step.p).force ==> !Complete(s.kind, s.output)
    ensures step.Rename? ==> s.output.None?
  {
  }

  /** Two unforced builders start before either has published; the first publishes. */
  ghost function RacingRun(files: Files): seq<Step> {
    [Start(0, false), Start(1, false), Proceed(0), Proceed(1), MakeTemp(0, 0), MakeTemp(1, 1),
     Write(0, files), Write(1, files), Finish(0), Finish(1), RemoveOld(0), Rename(0)]
  }

  /** The states in between, with both builders at the given stages. */
  ghost function Racing(output: Option<Files>, temps: map<TempName, Files>, x: Proc, y: Proc,
      used: set<TempName>, finished: set<Files>): State
  {
    State(Tiles3D, output, temps, false, map[0 := x, 1 := y], used, finished)
  }

  lemma RaceStarts(files: Files)
    ensures var s, r := Fresh(Tiles3D), RacingRun(files);
      IsRun(s, r[..4]) && After(s, r[..4]) == Racing(None, map[], Cleared(false), Cleared(false), {}, {})
  {
    hide IsRun, After, Complete;
    var r := RacingRun(files);
    NothingIsIncomplete(Tiles3D);
    var s0 := Fresh(Tiles3D);
    var s1 := Next(s0, r[0]);
    var s2 := Next(s1, r[1]);
    var s3 := Next(s2, r[2]);
    NoSteps(s0, r);
    Extend(s0, r, 0, s0);
    Extend(s0, r, 1, s1);
    Extend(s0, r, 2, s2);
    Extend(s0, r, 3, s3);
    assert Next(s3, r[3]).procs == map[0 := Cleared(false), 1 := Cleared(false)];
  }

  lemma RaceTemps(files: Files)
    ensures var s, r := Fresh(Tiles3D), RacingRun(files);
      IsRun(s, r[..6])
      && After(s, r[..6])
         == Racing(None, map[0 := map[], 1 := map[]], Building(false, 0), Building(false, 1), {0, 1}, {})
  {
    hide IsRun, After, Complete;
    var r := RacingRun(files);
    RaceStarts(files);
    var s0 := Fresh(Tiles3D);
    var s4 := Racing(None, map[], Cleared(false), Cleared(false), {}, {});
    var s5 := Racing(None, map[0 := map[]], Building(false, 0), Cleared(false), {0}, {});
    var s6 := Racing(None, map[0 := map[], 1 := map[]], Building(false, 0), Building(false, 1), {0, 1}, {});
    assert Next(s4, r[4]) == s5 by { assert Next(s4, r[4]).procs == s5.procs; }
    assert Next(s5, r[5]) == s6 by { assert Next(s5, r[5]).procs == s6.procs; }
    Extend(s0, r, 4, s4);
    Extend(s0, r, 5, s5);
  }

  lemma RaceBuilds(files: Files)
    ensures var s, r := Fresh(Tiles3D), RacingRun(files);
      IsRun(s, r[..8])
      && After(s, r[..8])
         == Racing(None, map[0 := files, 1 := files], Building(false, 0), Building(false, 1), {0, 1}, {})
  {
    hide IsRun, After, Complete;
    var r := RacingRun(files);
    RaceTemps(files);
    var s0 := Fresh(Tiles3D);
    var s6 := Racing(None, map[0 := map[], 1 := map[]], Building(false, 0), Building(false, 1), {0, 1}, {});
    var s7 := Racing(None, map[0 := files, 1 := map[]], Building(false, 0), Building(false, 1), {0, 1}, {});
    Extend(s0, r, 6, s6);
    Extend(s0, r, 7, s7);
  }

  lemma RacePublishes(files: Files)
    requires NonEmptyFile(files, "tileset.json")
    ensures var s, r := Fresh(Tiles3D), RacingRun(files);
      IsRun(s, r) && After(s, r) == Racing(Some(files), map[1 := files], Renamed(0), Built(false, 1), {0, 1}, {files})
  {
    hide IsRun, After, Complete, NonEmptyFile;
    var r := RacingRun(files);
    RaceBuilds(files);
    var s0 := Fresh(Tiles3D);
    var both := map[0 := files, 1 := files];
    var s8 := Racing(None, both, Building(false, 0), Building(false, 1), {0, 1}, {});
    var s9 := Racing(None, both, Built(false, 0), Building(false, 1), {0, 1}, {files});
    var s10 := Racing(None, both, Built(false, 0), Built(false, 1), {0, 1}, {files});
    var s11 := Racing(None, both, Removed(false, 0), Built(false, 1), {0, 1}, {files});
    var s12 := Racing(Some(files), map[1 := files], Renamed(0), Built(false, 1), {0, 1}, {files});
    RaceFinishes(files);
    RaceSwaps(files);
    Extend(s0, r, 8, s8);
    Extend(s0, r, 9, s9);
    Extend(s0, r, 10, s10);
    Extend(s0, r, 11, s11);
    assert r[..12] == r;
  }

  lemma RaceFinishes(files: Files)
    requires NonEmptyFile(files, "tileset.json")
    ensures var both := map[0 := files, 1 := files];
      var s8 := Racing(None, both, Building(false, 0), Building(false, 1), {0, 1}, {});
      var s9 := Racing(None, both, Built(false, 0), Building(false, 1), {0, 1}, {files});
      var s10 := Racing(None, both, Built(false, 0), Built(false, 1), {0, 1}, {files});
      && Enabled(s8, Finish(0)) && Next(s8, Finish(0)) == s9
      && Enabled(s9, Finish(1)) && Next(s9, Finish(1)) == s10
  {
    hide NonEmptyFile;
    var both := map[0 := files, 1 := files];
    var s8 := Racing(None, both, Building(false, 0), Building(false, 1), {0, 1}, {});
    var s9 := Racing(None, both, Built(false, 0), Building(false, 1), {0, 1}, {files});
    FinishFrom(s8, 0, files);
    FinishFrom(s9, 1, files);
    assert s8.procs[0 := Built(false, 0)] == s9.procs;
    assert s9.procs[1 := Built(false, 1)] == map[0 := Built(false, 0), 1 := Built(false, 1)];
  }

  lemma FinishFrom(s: State, p: Pid, files: Files)
    requires p in s.procs && s.procs[p].Building? && s.procs[p].temp in s.temps && s.temps[s.procs[p].temp] == files
    requires NonEmptyFile(files, "tileset.json")
    ensures Enabled(s, Finish(p))
    ensures Next(s, Finish(p)) == s.(procs := s.procs[p := Built(s.procs[p].force, s.procs[p].temp)],
      finished := s.finished + {files})
  {
    hide NonEmptyFile;
  }

  lemma RaceSwaps(files: Files)
    ensures var both := map[0 := files, 1 := files];
      var s10 := Racing(None, both, Built(false, 0), Built(false, 1), {0, 1}, {files});
      var s11 := Racing(None, both, Removed(false, 0), Built(false, 1), {0, 1}, {files});
      var s12 := Racing(Some(files), map[1 := files], Renamed(0), Built(false, 1), {0, 1}, {files});
      && Enabled(s10, RemoveOld(0)) && Next(s10, RemoveOld(0)) == s11
      && Enabled(s11, Rename(0)) && Next(s11, Rename(0)) == s12
  {
    var both := map[0 := files, 1 := files];
    var s10 := Racing(None, both, Built(false, 0), Built(false, 1), {0, 1}, {files});
    var s11 := Racing(None, both, Removed(false, 0), Built(false, 1), {0, 1}, {files});
    RemoveFrom(s10, 0);
    RenameFrom(s11, 0);
    assert s10.procs[0 := Removed(false, 0)] == s11.procs;
    assert s11.procs[0 := Renamed(0)] == map[0 := Renamed(0), 1 := Built(false, 1)];
    assert both - {0} == map[1 := files];
  }

  lemma RemoveFrom(s: State, p: Pid)
    requires p in s.procs && s.procs[p].Built?
    ensures Enabled(s, RemoveOld(p))
    ensures Next(s, RemoveOld(p)) == s.(procs := s.procs[p := Removed(s.procs[p].force, s.procs[p].temp)],
      output := None)
  {
  }

  lemma RenameFrom(s: State, p: Pid)
    requires p in s.procs && s.procs[p].Removed? && s.procs[p].temp in s.temps && s.output.None?
    ensures Enabled(s, Rename(p))
    ensures var t := s.procs[p].temp;
      Next(s, Rename(p)) == s.(procs := s.procs[p := Renamed(t)], output := Some(s.temps[t]), temps := s.temps - {t})
  {
  }

  /** Without exclusion that protection is lost: of two unforced builders that both saw no
      output, the second goes on to remove the complete output the first has published. */
  lemma ExclusionNeeded(files: Files)
    requires NonEmptyFile(files, "tileset.json")
    ensures var s, run := Fresh(Tiles3D), RacingRun(files);
      && IsRun(s, run) && Complete(Tiles3D, After(s, run).output)
      && Enabled(After(s, run), RemoveOld(1)) && !After(s, run).At(1).force
  {
    hide IsRun, After, NonEmptyFile;
    RacePublishes(files);
    TilesComplete(files);
  }

  lemma TilesComplete(files: Files)
    requires NonEmptyFile(files, "tileset.json")
    ensures Complete(Tiles3D, Some(files))
  {
  }

  lemma {:induction false} RunAppend(s: State, steps: seq<Step>, step: Step)
    requires IsRun(s, steps) && Enabled(After(s, steps), step)
    ensures IsRun(s, steps + [step]) && After(s, steps + [step]) == Next(After(s, steps), step)
    decreases |steps|
  {
    hide Enabled, Next;
    var all := steps + [step];
    if steps == [] {
      assert all[1..] == [];
    } else {
      RunAppend(Next(s, steps[0]), steps[1..], step);
      assert all[1..] == steps[1..] + [step];
    }
  }

  lemma Extend(s: State, steps: seq<Step>, i: nat, t: State)
    requires i < |steps| && IsRun(s, steps[..i]) && After(s, steps[..i]) == t && Enabled(t, steps[i])
    ensures IsRun(s, steps[..i + 1]) && After(s, steps[..i + 1]) == Next(t, steps[i])
  {
    RunAppend(s, steps[..i], steps[i]);
    assert steps[..i + 1] == steps[..i] + [steps[i]];
  }

  lemma NoSteps(s: State, steps: seq<Step>)
    ensures IsRun(s, steps[..0]) && After(s, steps[..0]) == s
  {
  }

  // ----- one build on its own -----

  /** An output is complete exactly when some file of it that matters to its kind holds
      something. */
  lemma CompleteExactly(kind: Kind, output: Option<Files>)
    ensures Complete(kind, output) <==>
      output.Some? && exists name :: name in output.value && Matters(kind, name) && |output.value[name]| > 0
  {
  }

  predicate Matters(kind: Kind, name: string) {
    (kind == GaussianSplat ==> name == "model.rad") && (kind == Tiles3D ==> name == "tileset.json")
  }

  function BuildSteps(p: Pid, force: bool, t: TempName, files: Files): seq<Step> {
    [Start(p, force), Proceed(p), MakeTemp(p, t), Write(p, files), Finish(p), RemoveOld(p), Rename(p), Clean(p)]
  }

  /** The stages a build passes through, from its scratch folder on. */
  ghost function Staged(s: State, p: Pid, x: Proc, t: TempName, temps: map<TempName, Files>): State {
    s.(procs := s.procs[p := x], temps := temps, pending := false, used := s.used + {t})
  }

  lemma StepsAre(p: Pid, force: bool, t: TempName, files: Files)
    ensures var r := BuildSteps(p, force, t, files);
      && |r| == 8 && r[0] == Start(p, force) && r[1] == Proceed(p) && r[2] == MakeTemp(p, t)
      && r[3] == Write(p, files) && r[4] == Finish(p) && r[5] == RemoveOld(p) && r[6] == Rename(p) && r[7] == Clean(p)
  {
  }

  lemma SetTwice(s: State, p: Pid, x: Proc, y: Proc)
    ensures s.procs[p := x][p := y] == s.procs[p := y]
  {
  }

  lemma ScratchMade(s: State, p: Pid, force: bool, t: TempName)
    requires t !in s.used
    ensures var s2 := s.(procs := s.procs[p := Cleared(force)]);
      && Enabled(s2, MakeTemp(p, t))
      && Next(s2, MakeTemp(p, t)) == Staged(s, p, Building(force, t), t, s.temps[t := map[]])
  {
    SetTwice(s, p, Cleared(force), Building(force, t));
  }

  lemma ScratchWritten(s: State, p: Pid, force: bool, t: TempName, files: Files)
    ensures var s3 := Staged(s, p, Building(force, t), t, s.temps[t := map[]]);
      && Enabled(s3, Write(p, files))
      && Next(s3, Write(p, files)) == Staged(s, p, Building(force, t), t, s.temps[t := files])
  {
    assert s.temps[t := map[]][t := files] == s.temps[t := files];
  }

  lemma LockTaken(s: State, p: Pid, force: bool)
    requires s.At(p).Idle?
    ensures Enabled(s, Start(p, force)) && Next(s, Start(p, force)) == s.(procs := s.procs[p := Locked(force)])
  {
  }

  lemma LockedProceeds(s: State, p: Pid, force: bool)
    requires force || !Complete(s.kind, s.output)
    ensures var s1 := s.(procs := s.procs[p := Locked(force)]);
      Enabled(s1, Proceed(p)) && Next(s1, Proceed(p)) == s.(procs := s.procs[p := Cleared(force)])
  {
    hide Complete;
    SetTwice(s, p, Locked(force), Cleared(force));
  }

  lemma BuildBegins(s: State, p: Pid, force: bool, t: TempName, files: Files)
    requires s.At(p).Idle? && t !in s.used && t !in s.temps && (force || !Complete(s.kind, s.output))
    ensures var r := BuildSteps(p, force, t, files);
      IsRun(s, r[..4]) && After(s, r[..4]) == Staged(s, p, Building(force, t), t, s.temps[t := files])
  {
    var r := BuildSteps(p, force, t, files);
    var s1 := s.(procs := s.procs[p := Locked(force)]);
    var s2 := s.(procs := s.procs[p := Cleared(force)]);
    var s3 := Staged(s, p, Building(force, t), t, s.temps[t := map[]]);
    hide *;
    StepsAre(p, force, t, files);
    LockTaken(s, p, force);
    LockedProceeds(s, p, force);
    ScratchMade(s, p, force, t);
    ScratchWritten(s, p, force, t, files);
    NoSteps(s, r);
    Extend(s, r, 0, s);
    Extend(s, r, 1, s1);
    Extend(s, r, 2, s2);
    Extend(s, r, 3, s3);
  }

  /** A build that is not disturbed, forced or of an incomplete output, runs and ends with its
      files published and its scratch folder gone. */
  lemma BuildRuns(s: State, p: Pid, force: bool, t: TempName, files: Files)
    requires s.At(p).Idle? && t !in s.used && t !in s.temps && (force || !Complete(s.kind, s.output))
    requires s.kind.Tiles3D? ==> NonEmptyFile(files, "tileset.json")
    ensures var r := BuildSteps(p, force, t, files);
      && IsRun(s, r)
      && After(s, r) == s.(output := Some(files), pending := false, procs := s.procs[p := Idle],
           used := s.used + {t}, finished := s.finished + {files})
  {
    hide *;
    var r := BuildSteps(p, force, t, files);
    StepsAre(p, force, t, files);
    BuildBegins(s, p, force, t, files);
    var temps, done := s.temps[t := files], s.finished + {files};
    var s4 := Staged(s, p, Building(force, t), t, temps);
    var s5 := Staged(s, p, Built(force, t), t, temps).(finished := done);
    var s6 := Staged(s, p, Removed(force, t), t, temps).(finished := done, output := None);
    var s7 := Staged(s, p, Renamed(t), t, s.temps).(finished := done, output := Some(files));
    FinishStage(s, p, force, t, files);
    RemoveStage(s, p, force, t, temps, done);
    RenameStage(s, p, force, t, files, done);
    CleanStage(s, p, t, files, done);
    Extend(s, r, 4, s4);
    Extend(s, r, 5, s5);
    Extend(s, r, 6, s6);
    Extend(s, r, 7, s7);
    assert r[..8] == r;
  }

  lemma FinishStage(s: State, p: Pid, force: bool, t: TempName, files: Files)
    requires s.kind.Tiles3D? ==> NonEmptyFile(files, "tileset.json")
    ensures var s4 := Staged(s, p, Building(force, t), t, s.temps[t := files]);
      && Enabled(s4, Finish(p))
      && Next(s4, Finish(p))
         == Staged(s, p, Built(force, t), t, s.temps[t := files]).(finished := s.finished + {files})
  {
    hide NonEmptyFile;
    SetTwice(s, p, Building(force, t), Built(force, t));
  }

  lemma RemoveStage(s: State, p: Pid, force: bool, t: TempName, temps: map<TempName, Files>, done: set<Files>)
    ensures var s5 := Staged(s, p, Built(force, t), t, temps).(finished := done);
      && Enabled(s5, RemoveOld(p))
      && Next(s5, RemoveOld(p)) == Staged(s, p, Removed(force, t), t, temps).(finished := done, output := None)
  {
    SetTwice(s, p, Built(force, t), Removed(force, t));
  }

  lemma RenameStage(s: State, p: Pid, force: bool, t: TempName, files: Files, done: set<Files>)
    requires t !in s.temps
    ensures var s6 := Staged(s, p, Removed(force, t), t, s.temps[t := files]).(finished := done, output := None);
      && Enabled(s6, Rename(p))
      && Next(s6, Rename(p)) == Staged(s, p, Renamed(t), t, s.temps).(finished := done, output := Some(files))
  {
    assert s.temps[t := files] - {t} == s.temps;
    SetTwice(s, p, Removed(force, t), Renamed(t));
  }

  lemma CleanStage(s: State, p: Pid, t: TempName, files: Files, done: set<Files>)
    requires t !in s.temps
    ensures var s7 := Staged(s, p, Renamed(t), t, s.temps).(finished := done, output := Some(files));
      && Enabled(s7, Clean(p))
      && Next(s7, Clean(p)) == s.(output := Some(files), pending := false, procs := s.procs[p := Idle],
           used := s.used + {t}, finished := done)
  {
    assert s.temps - {t} == s.temps;
    SetTwice(s, p, Renamed(t), Idle);
  }

  /** A builder that throws leaves the output as it was and its scratch folder gone, with the
      pending marker exactly when dependencies are missing. */
  lemma FailingBuildRuns(s: State, p: Pid, force: bool, t: TempName, files: Files, missingDeps: bool)
    requires s.At(p).Idle? && t !in s.used && t !in s.temps && (force || !Complete(s.kind, s.output))
    ensures var r := BuildSteps(p, force, t, files)[..4] + [Throw(p, missingDeps), Clean(p)];
      && IsRun(s, r)
      && After(s, r) == s.(pending := missingDeps, procs := s.procs[p := Idle], used := s.used + {t})
  {
    hide *;
    StepsAre(p, force, t, files);
    var b := BuildSteps(p, force, t, files)[..4];
    var r := b + [Throw(p, missingDeps), Clean(p)];
    BuildBegins(s, p, force, t, files);
    assert r[..4] == b;
    ThrowStage(s, p, force, t, files, missingDeps);
    AbandonStage(s, p, t, files, missingDeps);
    Extend(s, r, 4, Staged(s, p, Building(force, t), t, s.temps[t := files]));
    Extend(s, r, 5, Staged(s, p, Failing(t, missingDeps), t, s.temps[t := files]));
    assert r[..6] == r;
  }

  lemma ThrowStage(s: State, p: Pid, force: bool, t: TempName, files: Files, missingDeps: bool)
    ensures var s4 := Staged(s, p, Building(force, t), t, s.temps[t := files]);
      && Enabled(s4, Throw(p, missingDeps))
      && Next(s4, Throw(p, missingDeps)) == Staged(s, p, Failing(t, missingDeps), t, s.temps[t := files])
  {
    SetTwice(s, p, Building(force, t), Failing(t, missingDeps));
  }

  lemma AbandonStage(s: State, p: Pid, t: TempName, files: Files, missingDeps: bool)
    requires t !in s.temps
    ensures var s5 := Staged(s, p, Failing(t, missingDeps), t, s.temps[t := files]);
      && Enabled(s5, Clean(p))
      && Next(s5, Clean(p)) == s.(pending := missingDeps, procs := s.procs[p := Idle], used := s.used + {t})
  {
    assert s.temps[t := files] - {t} == s.temps;
    SetTwice(s, p, Failing(t, missingDeps), Idle);
  }

  /** A rename that meets an output, or finds its scratch folder gone, fails: the builder cleans up
      and gives up, with the output and the pending marker as they were. */
  lemma LateRenameFails(s: State, p: Pid)
    requires s.At(p).Removed? && (s.output.Some? || s.At(p).temp !in s.temps)
    ensures var r := [Rename(p), Clean(p)];
      && IsRun(s, r)
      && After(s, r) == s.(procs := s.procs[p := Idle], temps := s.temps - {s.At(p).temp})
  {
    var t, r := s.At(p).temp, [Rename(p), Clean(p)];
    var s1 := s.(procs := s.procs[p := Failing(t, false)]);
    assert Enabled(s, r[0]) && Next(s, r[0]) == s1;
    SetTwice(s, p, Failing(t, false), Idle);
    assert Enabled(s1, r[1]) && Next(s1, r[1]) == s.(procs := s.procs[p := Idle], temps := s.temps - {t});
    NoSteps(s, r);
    Extend(s, r, 0, s);
    Extend(s, r, 1, s1);
    assert r[..2] == r;
  }

  /** A builder may die, the folders be deleted, or a scratch folder be reclaimed, at any point of
      any run; a forced build that is not disturbed in its turn makes up for it. */
  lemma RecoveryRuns(s: State, d: Step, q: Pid, t: TempName, files: Files)
    requires d.Crash? || d.DeleteAll? || d.ReclaimTemp?
    requires s.At(q).Idle? && t !in s.used && t !in s.temps
    requires s.kind.Tiles3D? ==> NonEmptyFile(files, "tileset.json")
    ensures var r := [d] + BuildSteps(q, true, t, files);
      IsRun(s, r) && After(s, r).output == Some(files) && After(s, r).temps == Next(s, d).temps
  {
    hide Complete, NonEmptyFile;
    var s1 := Next(s, d);
    assert s1.At(q).Idle? && t !in s1.used && t !in s1.temps && s1.kind == s.kind;
    var b := BuildSteps(q, true, t, files);
    hide BuildSteps;
    BuildRuns(s1, q, true, t, files);
    assert ([d] + b)[1..] == b;
  }
}
