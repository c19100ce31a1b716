/**
 The validated configuration transactions: back up, change, run the core's own
 `-test`, roll back when it does not pass. Each is given here as a function of
 the world and the host; `ConfigPipeline` has the imperative counterparts.
 */
module ConfigTransactions {
  import opened Basics
  import opened RemoteHost
  import Text

  const NANOS_PER_SECOND: nat := 1_000_000_000

  datatype ConfigSource = SourceNotFound | SourceUnknown | SingleFile(file: string) | ConfigDirectory(dir: string)

  /** What discovery knows: the path of the core's binary and the layout. */
  datatype Hint = Hint(binary: Option<string>, source: ConfigSource) {
    predicate BinaryKnown() {
      binary.Some? && !Text.Blank(binary.value)
    }
  }

  function TargetFor(source: ConfigSource, written: string): TestTarget {
    match source
    case ConfigDirectory(dir) => ConfDir(dir)
    case SingleFile(file) => ConfigFile(file)
    case _ => ConfigFile(written)
  }

  datatype TestResult = Passed | Rejected | TimedOut | ConnectionLost

  datatype ModifyError =
    | BackupFailed
    | AlreadyExists
    | LookupFailed
    | WriteFailed                     // the upload, creation or removal reported an error
    | TestFailed(verdict: TestResult) // the change was rolled back
    | RollbackFailed                  // "... and restore (or cleanup) also failed"
    | ReadFailed
    | ChangedRemotely
    | BackupUnreadable

  datatype BackupRef = BackupRef(name: string, second: nat, size: nat)

  // ---------------------------------------------------------------------
  // Backups

  function CreateBackup(w: World, h: Host, name: string): (Host, Option<BackupRef>) {
    var (h1, read) := ReadFile(w, h, Config(name));
    match read
    case Err(_) => (h1, None)
    case Ok(contents) =>
      var second := w.clock(h1.calls) / NANOS_PER_SECOND;
      var (h2, stored) := WriteFile(w, h1, Backup(name, second), contents);
      (h2, if stored then Some(BackupRef(name, second, |contents|)) else None)
  }

  function RestoreBackup(w: World, h: Host, b: BackupRef): (Host, bool) {
    var (h1, read) := ReadFile(w, h, Backup(b.name, b.second));
    match read
    case Err(_) => (h1, false)
    case Ok(contents) =>
      if |contents| != b.size then (h1, false) else WriteFileAtomic(w, h1, b.name, contents)
  }

  // ---------------------------------------------------------------------
  // Changes without validation

  function WriteConfigSafe(w: World, h: Host, name: string, contents: Bytes): (Host, Result<BackupRef, ModifyError>) {
    var (h1, backup) := CreateBackup(w, h, name);
    match backup
    case None => (h1, Err(BackupFailed))
    case Some(b) =>
      var (h2, written) := WriteFileAtomic(w, h1, name, contents);
      (h2, if written then Ok(b) else Err(WriteFailed))
  }

  function RemoveConfigFile(w: World, h: Host, name: string): (Host, Result<BackupRef, ModifyError>) {
    var (h1, backup) := CreateBackup(w, h, name);
    match backup
    case None => (h1, Err(BackupFailed))
    case Some(b) =>
      var (h2, removed) := RemoveFile(w, h1, Config(name));
      (h2, if removed then Ok(b) else Err(WriteFailed))
  }

  function CreateConfigFile(w: World, h: Host, name: string, contents: Bytes): (Host, Result<(), ModifyError>) {
    var (h1, exists_) := PathIsFile(w, h, Config(name));
    match exists_
    case None => (h1, Err(LookupFailed))
    case Some(true) => (h1, Err(AlreadyExists))
    case Some(false) =>
      var (h2, written) := WriteFile(w, h1, Config(name), contents);
      (h2, if written then Ok(()) else Err(WriteFailed))
  }

  // ---------------------------------------------------------------------
  // The core's verdict

  /** The configuration files the core looks at; which of a directory it loads is up to `accepts`. */
  function View(target: TestTarget, files: Files): Files {
    map p | p in files && p.Config? && (target.ConfigFile? ==> p.name == target.name) :: files[p]
  }

  function RunConfigTest(w: World, h: Host, target: TestTarget): (Host, TestResult) {
    (Host(h.files, h.calls + 1),
     match w.fault(h.calls)
     case Works => if w.accepts(target, View(target, h.files)) then Passed else Rejected
     case Refused => ConnectionLost
     case RefusedAsMissing => ConnectionLost
     case _ => TimedOut)
  }

  predicate Accepted(w: World, source: ConfigSource, name: string, files: Files) {
    w.accepts(TargetFor(source, name), View(TargetFor(source, name), files))
  }

  // ---------------------------------------------------------------------
  // The transactions

  function ValidateOrRestore(w: World, h: Host, b: BackupRef, hint: Hint): (Host, Result<(), ModifyError>) {
    if !hint.BinaryKnown() then (h, Ok(()))
    else
      var (h1, verdict) := RunConfigTest(w, h, TargetFor(hint.source, b.name));
      if verdict.Passed? then (h1, Ok(()))
      else
        var (h2, restored) := RestoreBackup(w, h1, b);
        (h2, Err(if restored then TestFailed(verdict) else RollbackFailed))
  }

  function WriteConfigValidated(w: World, h: Host, name: string, contents: Bytes, hint: Hint)
    : (Host, Result<(), ModifyError>)
  {
    var (h1, written) := WriteConfigSafe(w, h, name, contents);
    match written
    case Err(e) => (h1, Err(e))
    case Ok(b) => ValidateOrRestore(w, h1, b, hint)
  }

  function RemoveConfdirFileValidated(w: World, h: Host, name: string, hint: Hint): (Host, Result<(), ModifyError>) {
    var (h1, removed) := RemoveConfigFile(w, h, name);
    match removed
    case Err(e) => (h1, Err(e))
    case Ok(b) => ValidateOrRestore(w, h1, b, hint)
  }

  function CreateConfdirFileValidated(w: World, h: Host, name: string, contents: Bytes, hint: Hint)
    : (Host, Result<(), ModifyError>)
  {
    var (h1, created) := CreateConfigFile(w, h, name, contents);
    match created
    case Err(e) => (h1, Err(e))
    case Ok(_) =>
      if !hint.BinaryKnown() then (h1, Ok(()))
      else
        var (h2, verdict) := RunConfigTest(w, h1, TargetFor(hint.source, name));
        if verdict.Passed? then (h2, Ok(()))
        else
          var (h3, removed) := RemoveFile(w, h2, Config(name));
          (h3, Err(if removed then TestFailed(verdict) else RollbackFailed))
  }

  /** The convention of every conflict check: equal as JSON, or equal bytes when either is not JSON. */
  function JsonBytesEquivalent(w: World, left: Bytes, right: Bytes): bool {
    match (w.parse(left), w.parse(right))
    case (Some(l), Some(r)) => l == r
    case _ => left == right
  }

  /** Conflict-checked save: `loaded` is the serialized copy the edit started from. */
  function SaveChecked(w: World, h: Host, name: string, loaded: Bytes, contents: Bytes, hint: Hint)
    : (Host, Result<(), ModifyError>)
  {
    var (h1, read) := ReadFile(w, h, Config(name));
    match read
    case Ok(live) =>
      if JsonBytesEquivalent(w, live, loaded) then WriteConfigValidated(w, h1, name, contents, hint)
      else (h1, Err(ChangedRemotely))
    case Err(Missing) => WriteConfigValidated(w, h1, name, contents, hint)
    case Err(Unreadable) => (h1, Err(ReadFailed))
  }

  /** Conflict-checked restore of the backup taken in `second`. */
  function RestoreChecked(w: World, h: Host, name: string, second: nat, loaded: Bytes, hint: Hint)
    : (Host, Result<(), ModifyError>)
  {
    var (h1, read) := ReadFile(w, h, Config(name));
    match read
    case Err(_) => (h1, Err(ReadFailed))
    case Ok(live) =>
      if !JsonBytesEquivalent(w, live, loaded) then (h1, Err(ChangedRemotely))
      else
        var (h2, stored) := ReadFile(w, h1, Backup(name, second));
        match stored
        case Err(_) => (h2, Err(BackupUnreadable))
        case Ok(contents) => WriteConfigValidated(w, h2, name, contents, hint)
  }
}
