/** The persisted engine state (internal/engine/state.go) and the write-temp-then-rename
    protocol that protects it, over an abstract file system. */
module StateFile {
  import opened Common

  /** The engine's persistent record. None stands for the zero time of SuppressedSince. */
  datatype EngineState = EngineState(
    lastRole: string,
    lastPoolSize: int,
    suppressedSince: Option<int>,
    currentPoolSize: int)
  {
    predicate Suppressed() {
      suppressedSince.Some?
    }
  }

  /** A file holds one complete encoding or something that does not decode. */
  datatype FileContent = Whole(state: EngineState) | Torn

  type Files = map<string, FileContent>

  /** What loading comes to; a file that cannot be read at all is an error like one that does
      not decode. */
  datatype LoadResult = NotFound | Loaded(state: EngineState) | Corrupt | ReadFailed
  {
    predicate Error() {
      Corrupt? || ReadFailed?
    }
  }

  /** How far a save gets before an error or a crash stops it: before the temp file is
      touched, part way through writing it, after writing but before renaming it, or to
      the end. */
  datatype SaveStop = BeforeWrite | DuringWrite | BeforeRename | Done

  function TempPath(path: string): string {
    path + ".tmp"
  }

  function Load(files: Files, path: string): LoadResult {
    if path !in files then NotFound
    else match files[path]
      case Whole(state) => Loaded(state)
      case Torn => Corrupt
  }

  /** The files a save leaves behind, given where it stopped. */
  function AfterSave(files: Files, path: string, state: EngineState, stop: SaveStop): Files {
    match stop
    case BeforeWrite => files
    case DuringWrite => files[TempPath(path) := Torn]
    case BeforeRename => files[TempPath(path) := Whole(state)]
    case Done => (files - {TempPath(path)})[path := Whole(state)]
  }

  class Disk {
    var files: Files

    constructor (initial: Files)
      ensures files == initial
    {
      files := initial;
    }

    /** `unreadable` is the environment's: reading fails for another reason than that the file
        is missing. */
    method LoadStateFile(path: string, unreadable: bool) returns (r: LoadResult)
      ensures r == if unreadable then ReadFailed else Load(files, path)
      ensures r.ReadFailed? <==> unreadable
      ensures !unreadable ==> (r.NotFound? <==> path !in files)
      ensures !unreadable ==> (r.Corrupt? <==> path in files && files[path].Torn?)
      ensures !unreadable && r.Loaded? ==> path in files && files[path] == Whole(r.state)
    {
      if unreadable {
        return ReadFailed;
      }
      if path !in files {
        return NotFound;
      }
      match files[path]
      case Whole(state) => r := Loaded(state);
      case Torn => r := Corrupt;
    }

    /** One save, cut short where the environment says. Only a completed rename reports
        success; a stopped save is an error return or a crash. */
    method SaveStateFile(path: string, state: EngineState, stop: SaveStop) returns (ok: bool)
      modifies this
      ensures files == AfterSave(old(files), path, state, stop)
      ensures ok <==> stop.Done?
    {
      if stop.BeforeWrite? {
        return false;
      }
      var tmp := TempPath(path);
      files := files[tmp := Torn];
      if stop.DuringWrite? {
        return false;
      }
      files := files[tmp := Whole(state)];
      if stop.BeforeRename? {
        return false;
      }
      var moved := files[tmp];
      files := (files - {tmp})[path := moved];
      return true;
    }
  }

  /** A stopped save is invisible to a later load; a completed one is all it sees. */
  lemma SaveIsAtomic(files: Files, path: string, state: EngineState, stop: SaveStop)
    ensures Load(AfterSave(files, path, state, stop), path)
            == if stop.Done? then Loaded(state) else Load(files, path)
  {
    assert |TempPath(path)| == |path| + 4;
  }

  /** What a save leaves in the temporary file: an older content if it never got to it, then an
      incomplete one, then the complete new state, and nothing once that has been moved. */
  lemma TempFileAfterSave(files: Files, path: string, state: EngineState, stop: SaveStop)
    ensures var temp, after := path + ".tmp", AfterSave(files, path, state, stop);
            && (stop.BeforeWrite? ==> after == files)
            && (stop.DuringWrite? ==> temp in after && after[temp] == Torn)
            && (stop.BeforeRename? ==> temp in after && after[temp] == Whole(state))
            && (stop.Done? ==> temp !in after)
  {
    assert |TempPath(path)| == |path| + 4;
  }

  datatype Attempt = Attempt(state: EngineState, stop: SaveStop)

  /** Any number of saves one after the other, each stopped anywhere: errors, or crashes
      followed by restarts, since the files are all that survives a crash. */
  function AfterAttempts(files: Files, path: string, attempts: seq<Attempt>): Files {
    if attempts == [] then files
    else
      var last := attempts[|attempts| - 1];
      AfterSave(AfterAttempts(files, path, attempts[..|attempts| - 1]), path, last.state, last.stop)
  }

  /** i is the last attempt that ran to the end. */
  ghost predicate LastCompleted(attempts: seq<Attempt>, i: nat) {
    && i < |attempts|
    && attempts[i].stop.Done?
    && forall j :: i < j < |attempts| ==> !attempts[j].stop.Done?
  }

  /** Over any history of saves and crashes, a load returns the state of the last completed
      save: never a mixture, never a torn file, whatever was attempted after it. */
  lemma {:induction false} LoadSeesLastCompletedSave(files: Files, path: string, attempts: seq<Attempt>, i: nat)
    requires LastCompleted(attempts, i)
    ensures Load(AfterAttempts(files, path, attempts), path) == Loaded(attempts[i].state)
  {
    var n := |attempts| - 1;
    SaveIsAtomic(AfterAttempts(files, path, attempts[..n]), path, attempts[n].state, attempts[n].stop);
    if i < n {
      LoadSeesLastCompletedSave(files, path, attempts[..n], i);
    }
  }

  /** When none completed, a load still returns what was there at the start. */
  lemma {:induction false} StoppedSavesAreInvisible(files: Files, path: string, attempts: seq<Attempt>)
    requires forall j :: 0 <= j < |attempts| ==> !attempts[j].stop.Done?
    ensures Load(AfterAttempts(files, path, attempts), path) == Load(files, path)
  {
    if attempts != [] {
      var n := |attempts| - 1;
      StoppedSavesAreInvisible(files, path, attempts[..n]);
      SaveIsAtomic(AfterAttempts(files, path, attempts[..n]), path, attempts[n].state, attempts[n].stop);
    }
  }

  /** The protocol touches no file but the state file and its own temp file. */
  lemma {:induction false} OtherFilesUntouched(files: Files, path: string, attempts: seq<Attempt>, other: string)
    requires other != path && other != TempPath(path)
    ensures other in AfterAttempts(files, path, attempts) <==> other in files
    ensures other in files ==> AfterAttempts(files, path, attempts)[other] == files[other]
  {
    if attempts != [] {
      OtherFilesUntouched(files, path, attempts[..|attempts| - 1], other);
    }
  }
}
