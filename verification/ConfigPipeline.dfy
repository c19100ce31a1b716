/**
 The transactions as the program runs them: a session whose files change call by
 call, with early returns. Each method does what its specification function in
 `RemoteHost` or `ConfigTransactions` says; the validated ones also state
 outright what they promise.
 */
module ConfigPipeline {
  import opened Basics
  import opened RemoteHost
  import opened ConfigTransactions
  import opened ConfigGuarantees
  import opened OptimisticSave

  class RemoteAdmin {
    const world: World
    var files: Files
    var calls: nat

    constructor (world: World, files: Files)
      ensures this.world == world && State() == Host(files, 0)
    {
      this.world := world;
      this.files := files;
      this.calls := 0;
    }

    ghost function State(): Host
      reads this
    {
      Host(files, calls)
    }

    // -------------------------------------------------------------------
    // The session

    method Read(p: Path) returns (r: Result<Bytes, ReadError>)
      modifies this
      ensures (State(), r) == ReadFile(world, old(State()), p)
    {
      var fault := world.fault(calls);
      calls := calls + 1;
      match fault {
        case Works => r := if p in files then Ok(files[p]) else Err(Missing);
        case RefusedAsMissing => r := Err(Missing);
        case _ => r := Err(Unreadable);
      }
    }

    method Put(p: Path, contents: Bytes) returns (ok: bool)
      modifies this
      ensures (State(), ok) == WriteFile(world, old(State()), p, contents)
    {
      var fault := world.fault(calls);
      calls := calls + 1;
      ok := fault.Works?;
      match fault {
        case Works => files := files[p := contents];
        case Unacknowledged => files := files[p := contents];
        case Cut(kept) => files := files[p := contents[..Min(kept, |contents|)]];
        case _ =>
      }
    }

    method Delete(p: Path) returns (ok: bool)
      modifies this
      ensures (State(), ok) == RemoveFile(world, old(State()), p)
    {
      var fault := world.fault(calls);
      calls := calls + 1;
      ok := fault.Works? && p in files;
      if fault.Works? || fault.Unacknowledged? {
        files := files - {p};
      }
    }

    method Rename(from: Path, to: Path) returns (ok: bool)
      modifies this
      ensures (State(), ok) == RenameFile(world, old(State()), from, to)
    {
      var fault := world.fault(calls);
      calls := calls + 1;
      ok := false;
      if from in files && (fault.Works? || fault.Unacknowledged?) {
        files := Move(files, from, to);
        ok := fault.Works?;
      }
    }

    method IsFile(p: Path) returns (r: Option<bool>)
      modifies this
      ensures (State(), r) == PathIsFile(world, old(State()), p)
    {
      var fault := world.fault(calls);
      calls := calls + 1;
      match fault {
        case Works => r := Some(p in files);
        case RefusedAsMissing => r := Some(false);
        case _ => r := None;
      }
    }

    /** Never deletes the live file before its replacement is in place. */
    method PutAtomic(name: string, contents: Bytes) returns (ok: bool)
      modifies this
      ensures (State(), ok) == WriteFileAtomic(world, old(State()), name, contents)
      ensures OnlyTouches(name, old(files), files)
      ensures ok ==> Entry(files, Config(name)) == Some(contents)
    {
      AtomicOutcome(world, State(), name, contents);
      var temp := Temp(name, world.clock(calls));
      var written := Put(temp, contents);
      if !written {
        var _ := Delete(temp);
        return false;
      }
      ok := Rename(temp, Config(name));
      if ok {
        return;
      }
      var aside := Aside(name, world.clock(calls));
      var displaced := Rename(Config(name), aside);
      if !displaced {
        return false;
      }
      ok := Rename(temp, Config(name));
      if ok {
        var _ := Delete(aside);
      } else {
        var _ := Rename(aside, Config(name));
      }
    }

    // -------------------------------------------------------------------
    // Backups

    method Backup(name: string) returns (b: Option<BackupRef>)
      modifies this
      ensures (State(), b) == CreateBackup(world, old(State()), name)
    {
      var read := Read(Config(name));
      if read.Err? {
        return None;
      }
      var second := world.clock(calls) / NANOS_PER_SECOND;
      var stored := Put(Path.Backup(name, second), read.value);
      b := if stored then Some(BackupRef(name, second, |read.value|)) else None;
    }

    method RestoreAfterFailedTest(b: BackupRef) returns (ok: bool)
      modifies this
      ensures (State(), ok) == RestoreBackup(world, old(State()), b)
    {
      var read := Read(Path.Backup(b.name, b.second));
      if read.Err? || |read.value| != b.size {
        return false;
      }
      ok := PutAtomic(b.name, read.value);
    }

    // -------------------------------------------------------------------
    // The validated transactions

    method Test(target: TestTarget) returns (verdict: TestResult)
      modifies this
      ensures (State(), verdict) == RunConfigTest(world, old(State()), target)
    {
      var fault := world.fault(calls);
      calls := calls + 1;
      match fault {
        case Works => verdict := if world.accepts(target, View(target, files)) then Passed else Rejected;
        case Refused => verdict := ConnectionLost;
        case RefusedAsMissing => verdict := ConnectionLost;
        case _ => verdict := TimedOut;
      }
    }

    method WriteValidated(name: string, contents: Bytes, hint: Hint) returns (r: Result<(), ModifyError>)
      modifies this
      ensures (State(), r) == WriteConfigValidated(world, old(State()), name, contents, hint)
      ensures WriteVerdict(world, old(State()), name, contents, hint, State(), r)
    {
      WriteOutcome(world, State(), name, contents, hint);
      var backup := Backup(name);
      if backup.None? {
        return Err(BackupFailed);
      }
      var written := PutAtomic(name, contents);
      if !written {
        return Err(WriteFailed);
      }
      if !hint.BinaryKnown() {
        return Ok(());
      }
      var verdict := Test(TargetFor(hint.source, name));
      if verdict.Passed? {
        return Ok(());
      }
      var restored := RestoreAfterFailedTest(backup.value);
      r := Err(if restored then TestFailed(verdict) else RollbackFailed);
    }

    method CreateValidated(name: string, contents: Bytes, hint: Hint) returns (r: Result<(), ModifyError>)
      modifies this
      ensures (State(), r) == CreateConfdirFileValidated(world, old(State()), name, contents, hint)
      ensures CreateVerdict(world, old(State()), name, contents, hint, State(), r)
    {
      CreateOutcome(world, State(), name, contents, hint);
      var present := IsFile(Config(name));
      if present.None? {
        return Err(LookupFailed);
      }
      if present.value {
        return Err(AlreadyExists);
      }
      var written := Put(Config(name), contents);
      if !written {
        return Err(WriteFailed);
      }
      if !hint.BinaryKnown() {
        return Ok(());
      }
      var verdict := Test(TargetFor(hint.source, name));
      if verdict.Passed? {
        return Ok(());
      }
      var removed := Delete(Config(name));
      r := Err(if removed then TestFailed(verdict) else RollbackFailed);
    }

    method RemoveValidated(name: string, hint: Hint) returns (r: Result<(), ModifyError>)
      modifies this
      ensures (State(), r) == RemoveConfdirFileValidated(world, old(State()), name, hint)
      ensures RemoveVerdict(world, old(State()), name, hint, State(), r)
    {
      RemoveOutcome(world, State(), name, hint);
      var backup := Backup(name);
      if backup.None? {
        return Err(BackupFailed);
      }
      var removed := Delete(Config(name));
      if !removed {
        return Err(WriteFailed);
      }
      if !hint.BinaryKnown() {
        return Ok(());
      }
      var verdict := Test(TargetFor(hint.source, name));
      if verdict.Passed? {
        return Ok(());
      }
      var restored := RestoreAfterFailedTest(backup.value);
      r := Err(if restored then TestFailed(verdict) else RollbackFailed);
    }

    // -------------------------------------------------------------------
    // Conflict-checked changes

    method WriteWithConflictCheck(name: string, loaded: Bytes, contents: Bytes, hint: Hint)
      returns (r: Result<(), ModifyError>)
      modifies this
      ensures (State(), r) == SaveChecked(world, old(State()), name, loaded, contents, hint)
      ensures r.Ok? || Entry(files, Config(name)) != Entry(old(files), Config(name)) ==>
                && Config(name) in old(files)
                && (JsonBytesEquivalent(world, old(files)[Config(name)], loaded)
                    || world.fault(old(calls)) == RefusedAsMissing)
      ensures r.Ok? ==> Entry(files, Config(name)) == Some(contents)
    {
      SaveCheckedOutcome(world, State(), name, loaded, contents, hint);
      var read := Read(Config(name));
      match read {
        case Ok(live) =>
          if !JsonBytesEquivalent(world, live, loaded) {
            return Err(ChangedRemotely);
          }
        case Err(Missing) => // a brand-new file: go on
        case Err(Unreadable) => return Err(ReadFailed);
      }
      r := WriteValidated(name, contents, hint);
    }

    method RestoreWithConflictCheck(name: string, second: nat, loaded: Bytes, hint: Hint)
      returns (r: Result<(), ModifyError>)
      modifies this
      ensures (State(), r) == RestoreChecked(world, old(State()), name, second, loaded, hint)
      ensures r.Ok? || Entry(files, Config(name)) != Entry(old(files), Config(name)) ==>
                && Config(name) in old(files) && JsonBytesEquivalent(world, old(files)[Config(name)], loaded)
                && Path.Backup(name, second) in old(files)
      ensures r.Ok? ==> Entry(files, Config(name)) == Some(old(files)[Path.Backup(name, second)])
    {
      RestoreCheckedOutcome(world, State(), name, second, loaded, hint);
      var read := Read(Config(name));
      if read.Err? {
        return Err(ReadFailed);
      }
      if !JsonBytesEquivalent(world, read.value, loaded) {
        return Err(ChangedRemotely);
      }
      var stored := Read(Path.Backup(name, second));
      if stored.Err? {
        return Err(BackupUnreadable);
      }
      r := WriteValidated(name, stored.value, hint);
    }
  }
}
