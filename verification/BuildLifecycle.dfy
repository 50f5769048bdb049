/** One sequential call of buildInternal: every exit path and what it leaves behind. */
module BuildLifecycle {
  import opened Options
  import opened Publication

  /** What the type-specific builder does with the scratch folder. */
  datatype Builder =
    | Finished(files: Files)
    | MissingDependencies(deps: seq<string>)
    | ApplicationError
    | UnknownError

  datatype Pending = Pending(timestamp: int, deps: seq<string>)

  datatype BuildResult =
    InProgress | AlreadyComplete | DiskFull | Published | DependencyMissing | AppFailure | UnknownFailure

  /** There is an output, and some file of it that matters to its kind holds something. */
  predicate HasOutput(folders: map<string, Files>, kind: Kind, subfolder: string) {
    && subfolder in folders
    && exists name :: name in folders[subfolder] && Matters(kind, name) && |folders[subfolder][name]| > 0
  }

  lemma CompleteHere(folders: map<string, Files>, kind: Kind, subfolder: string)
    ensures HasOutput(folders, kind, subfolder)
      <==> Complete(kind, if subfolder in folders then Some(folders[subfolder]) else None)
  {
    hide Complete, Matters;
    CompleteExactly(kind, if subfolder in folders then Some(folders[subfolder]) else None);
  }

  /** The folder of one content hash, its pending marker, and the build locks held in it. */
  class HashFolder {
    var folders: map<string, Files>
    var pending: Option<Pending>
    var locks: set<string>

    constructor ()
      ensures folders == map[] && pending == None && locks == {}
    {
      folders, pending, locks := map[], None, {};
    }

    function Output(subfolder: string): Option<Files>
      reads this
    {
      if subfolder in folders then Some(folders[subfolder]) else None
    }

    /** Removes one folder if it is there. */
    method AssureRemoved(name: string)
      modifies this`folders
      ensures folders == old(folders) - {name}
    {
      if name in folders {
        folders := folders - {name};
      }
    }

    /** fs::rename of one folder onto a free name. */
    method RenameFolder(from: string, to: string)
      requires from in folders && to !in folders && from != to
      modifies this`folders
      ensures folders == (old(folders) - {from})[to := old(folders)[from]]
    {
      var files := folders[from];
      folders := (folders - {from})[to := files];
    }

    /** buildInternal for the non-vector types. `suffix` is the random part of the scratch
        name; `partial` is whatever the builder has written before it ends. */
    method BuildInternal(kind: Kind, subfolder: string, force: bool, suffix: string, enoughSpace: bool,
        partial: Files, builder: Builder, now: int)
      returns (r: BuildResult)
      requires subfolder + "-temp-" + suffix !in folders
      modifies this
      ensures locks == old(locks)
      ensures r == Expected(old(locks), old(Output(subfolder)), kind, subfolder, force, enoughSpace, builder)
      ensures r == InProgress <==> subfolder in old(locks)
      ensures r == AlreadyComplete <==>
        subfolder !in old(locks) && !force && HasOutput(old(folders), kind, subfolder)
      ensures r == DiskFull <==>
        && subfolder !in old(locks) && (force || !HasOutput(old(folders), kind, subfolder)) && !enoughSpace
      ensures r in {Published, DependencyMissing, AppFailure, UnknownFailure} <==>
        && subfolder !in old(locks) && (force || !HasOutput(old(folders), kind, subfolder)) && enoughSpace
      ensures r == Published ==> builder.Finished?
      ensures r == DependencyMissing ==> builder.MissingDependencies?
      ensures r == UnknownFailure ==> builder.UnknownError?
      ensures r == AppFailure ==>
        || builder.ApplicationError?
        || (builder.Finished? && kind.Tiles3D? && !NonEmptyFile(builder.files, "tileset.json"))
      ensures folders == if r == Published then old(folders)[subfolder := builder.files] else old(folders)
      ensures pending ==
        if r == DependencyMissing then Some(Pending(now, builder.deps))
        else if r in {InProgress, AlreadyComplete, DiskFull} then old(pending)
        else None
      ensures r == Published && kind.Tiles3D? ==> HasOutput(folders, kind, subfolder)
    {
      hide Complete, NonEmptyFile, HasOutput;
      CompleteHere(folders, kind, subfolder);
      if subfolder in locks {
        return InProgress;
      }
      locks := locks + {subfolder};
      if Complete(kind, Output(subfolder)) && !force {
        r := AlreadyComplete;
      } else if !enoughSpace {
        r := DiskFull;
      } else {
        TempNameDiffers(subfolder, suffix);
        r := BuildAndPublish(kind, subfolder, subfolder + "-temp-" + suffix, partial, builder, now);
        if r == Published && kind.Tiles3D? {
          TilesComplete(builder.files);
          CompleteHere(folders, kind, subfolder);
        }
      }
      locks := locks - {subfolder};
    }

    /** The part under both locks: scratch folder, builder, swap, and the exception paths. */
    method BuildAndPublish(kind: Kind, subfolder: string, temp: string, partial: Files, builder: Builder, now: int)
      returns (r: BuildResult)
      requires temp !in folders && temp != subfolder
      modifies this`folders, this`pending
      ensures r == match builder
        case Finished(files) =>
          if kind.Tiles3D? && !NonEmptyFile(files, "tileset.json") then AppFailure else Published
        case MissingDependencies(_) => DependencyMissing
        case ApplicationError => AppFailure
        case UnknownError => UnknownFailure
      ensures folders == if r == Published then old(folders)[subfolder := builder.files] else old(folders)
      ensures pending == if r == DependencyMissing then Some(Pending(now, builder.deps)) else None
    {
      hide NonEmptyFile;
      ghost var before := folders;
      folders := folders[temp := map[]];
      pending := None;
      match builder {
        case Finished(files) =>
          folders := folders[temp := files];
          if kind.Tiles3D? && !NonEmptyFile(files, "tileset.json") {
            Discarded(before, temp, files);
            AssureRemoved(temp);
            r := AppFailure;
          } else {
            Swapped(before, temp, subfolder, files);
            if subfolder in folders {
              AssureRemoved(subfolder);
            }
            RenameFolder(temp, subfolder);
            AssureRemoved(temp);
            r := Published;
          }
        case MissingDependencies(deps) =>
          folders := folders[temp := partial];
          pending := Some(Pending(now, deps));
          Discarded(before, temp, partial);
          AssureRemoved(temp);
          r := DependencyMissing;
        case ApplicationError =>
          folders := folders[temp := partial];
          Discarded(before, temp, partial);
          AssureRemoved(temp);
          r := AppFailure;
        case UnknownError =>
          folders := folders[temp := partial];
          Discarded(before, temp, partial);
          AssureRemoved(temp);
          r := UnknownFailure;
      }
    }
  }

  lemma Discarded(m: map<string, Files>, temp: string, files: Files)
    requires temp !in m
    ensures m[temp := map[]][temp := files] - {temp} == m
  {
  }

  /** Write scratch, remove the old output if any, rename, remove scratch: only the output
      has changed. */
  lemma Swapped(m: map<string, Files>, temp: string, subfolder: string, files: Files)
    requires temp !in m && temp != subfolder
    ensures var scratch := m[temp := map[]][temp := files];
      var cleared := if subfolder in scratch then scratch - {subfolder} else scratch;
      && temp in cleared && cleared[temp] == files && subfolder !in cleared
      && (cleared - {temp})[subfolder := files] - {temp} == m[subfolder := files]
  {
  }

  /** The outcome, in the order the code decides it. */
  function Expected(locks: set<string>, output: Option<Files>, kind: Kind, subfolder: string, force: bool,
      enoughSpace: bool, builder: Builder): BuildResult
  {
    if subfolder in locks then InProgress
    else if Complete(kind, output) && !force then AlreadyComplete
    else if !enoughSpace then DiskFull
    else match builder
      case Finished(files) =>
        if kind.Tiles3D? && !NonEmptyFile(files, "tileset.json") then AppFailure else Published
      case MissingDependencies(_) => DependencyMissing
      case ApplicationError => AppFailure
      case UnknownError => UnknownFailure
  }

  lemma TempNameDiffers(subfolder: string, suffix: string)
    ensures subfolder + "-temp-" + suffix != subfolder
  {
    assert |subfolder + "-temp-" + suffix| > |subfolder|;
  }
}
