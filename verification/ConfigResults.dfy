/**
 Exactly when each step and each transaction succeeds, and what it answers
 otherwise: from the faults, the core's verdict and the parser alone.
 */
module ConfigResults {
  import opened Basics
  import opened RemoteHost
  import opened ConfigTransactions
  import opened ConfigGuarantees
  import Text

  // ---------------------------------------------------------------------
  // Single steps

  /** A backup is taken if and only if its read and its write work. */
  lemma BackupSucceeds(w: World, h: Host, name: string)
    ensures CreateBackup(w, h, name).1.Some?
            <==> Config(name) in h.files && w.fault(h.calls).Works? && w.fault(h.calls + 1).Works?
    ensures CreateBackup(w, h, name).1.Some? ==>
              CreateBackup(w, h, name).0
              == Host(h.files[Backup(name, w.clock(h.calls + 1) / 1_000_000_000) := h.files[Config(name)]], h.calls + 2)
  {
  }

  /** The replacement starting at call `t` goes through on its first rename, or by way of the displaced live file. */
  predicate Replaces(w: World, t: nat, present: bool) {
    && w.fault(t).Works?
    && (|| w.fault(t + 1).Works?
        || (present && !w.fault(t + 1).Unacknowledged? && w.fault(t + 2).Works? && w.fault(t + 3).Works?))
  }

  lemma AtomicSucceeds(w: World, h: Host, name: string, contents: Bytes)
    ensures WriteFileAtomic(w, h, name, contents).1 <==> Replaces(w, h.calls, Config(name) in h.files)
  {
  }

  /** The way a replacement succeeds without a trace: its temporary file is gone, and so is the displaced one. */
  lemma AtomicTraceless(w: World, h: Host, name: string, contents: Bytes)
    requires forall p | p in h.files :: !p.Temp? && !p.Aside?
    requires Replaces(w, h.calls, Config(name) in h.files)
    requires w.fault(h.calls + 1).Works? || w.fault(h.calls + 4).Works? || w.fault(h.calls + 4).Unacknowledged?
    ensures WriteFileAtomic(w, h, name, contents).0.files == h.files[Config(name) := contents]
  {
    var temp := Temp(name, w.clock(h.calls));
    var h1 := WriteFile(w, h, temp, contents).0;
    assert h1.files == h.files[temp := contents];
    if w.fault(h.calls + 1).Works? {
      assert Move(h1.files, temp, Config(name)) == h.files[Config(name) := contents];
    } else {
      var h2 := RenameFile(w, h1, temp, Config(name)).0;
      DisplacedTraceless(w, h2, name, temp);
      assert h1.files[Config(name) := contents] - {temp} == h.files[Config(name) := contents];
    }
  }

  lemma DisplacedTraceless(w: World, h: Host, name: string, temp: Path)
    requires temp.Temp? && temp in h.files && Config(name) in h.files && forall p | p in h.files :: !p.Aside?
    requires w.fault(h.calls).Works? && w.fault(h.calls + 1).Works?
    requires w.fault(h.calls + 2).Works? || w.fault(h.calls + 2).Unacknowledged?
    ensures DisplaceAndReplace(w, h, name, temp).0.files == h.files[Config(name) := h.files[temp]] - {temp}
  {
    var aside := Aside(name, w.clock(h.calls));
    var h1 := RenameFile(w, h, Config(name), aside).0;
    var h2 := RenameFile(w, h1, temp, Config(name)).0;
    assert h2.files - {aside} == h.files[Config(name) := h.files[temp]] - {temp};
  }

  /** A refused write removes its temporary file again, when that works. */
  lemma AtomicCleansUp(w: World, h: Host, name: string, contents: Bytes)
    requires forall p | p in h.files :: !p.Temp?
    requires !w.fault(h.calls).Works? && (w.fault(h.calls + 1).Works? || w.fault(h.calls + 1).Unacknowledged?)
    ensures WriteFileAtomic(w, h, name, contents).0.files == h.files
  {
    var temp := Temp(name, w.clock(h.calls));
    assert WriteFile(w, h, temp, contents).0.files - {temp} == h.files;
  }

  /** A refused replacement that could be undone leaves its temporary file for diagnosis, and nothing else. */
  lemma AtomicKeepsTemp(w: World, h: Host, name: string, contents: Bytes)
    requires Config(name) in h.files && forall p | p in h.files :: !p.Temp? && !p.Aside?
    requires var t := h.calls;
             && w.fault(t).Works? && w.fault(t + 1).Refuses()
             && (|| w.fault(t + 2).Refuses()
                 || (w.fault(t + 2).Works? && w.fault(t + 3).Refuses() && !w.fault(t + 4).Refuses()))
    ensures var (h', ok) := WriteFileAtomic(w, h, name, contents);
            !ok && h'.files == h.files[Temp(name, w.clock(h.calls)) := contents]
  {
    var temp := Temp(name, w.clock(h.calls));
    var h1 := WriteFile(w, h, temp, contents).0;
    var h2 := RenameFile(w, h1, temp, Config(name)).0;
    assert h2.files == h.files[temp := contents];
    if !w.fault(h.calls + 2).Refuses() {
      var aside := Aside(name, w.clock(h2.calls));
      var h3 := RenameFile(w, h2, Config(name), aside).0;
      assert Move(h3.files, aside, Config(name)) == h2.files;
    }
  }

  /** A restore succeeds if and only if the backup is read, has its size, and replaces the live file. */
  lemma RestoreSucceeds(w: World, h: Host, b: BackupRef)
    ensures RestoreBackup(w, h, b).1
            <==> && w.fault(h.calls).Works? && Backup(b.name, b.second) in h.files
                 && |h.files[Backup(b.name, b.second)]| == b.size
                 && Replaces(w, h.calls + 1, Config(b.name) in h.files)
  {
    if w.fault(h.calls).Works? && Backup(b.name, b.second) in h.files {
      AtomicSucceeds(w, Host(h.files, h.calls + 1), b.name, h.files[Backup(b.name, b.second)]);
    }
  }

  // ---------------------------------------------------------------------
  // The core's verdict

  /** A directory layout is tested as a directory, a single file as itself, anything else as the file written. */
  predicate CoreAccepts(w: World, source: ConfigSource, name: string, files: Files) {
    match source
    case ConfigDirectory(dir) => w.accepts(ConfDir(dir), Configs(files))
    case SingleFile(file) => w.accepts(ConfigFile(file), Alone(file, files))
    case _ => w.accepts(ConfigFile(name), Alone(name, files))
  }

  /** All configuration files. */
  function Configs(files: Files): Files {
    map p | p in files && p.Config? :: files[p]
  }

  /** One configuration file, if it is there. */
  function Alone(name: string, files: Files): Files {
    if Config(name) in files then map[Config(name) := files[Config(name)]] else map[]
  }

  lemma AcceptedMeans(w: World, source: ConfigSource, name: string, files: Files)
    ensures Accepted(w, source, name, files) <==> CoreAccepts(w, source, name, files)
  {
    assert forall dir: string :: View(ConfDir(dir), files) == Configs(files);
    assert forall file: string :: View(ConfigFile(file), files) == Alone(file, files);
  }

  /** The test run at call `t` passes. */
  predicate TestPasses(w: World, t: nat, source: ConfigSource, name: string, files: Files) {
    w.fault(t).Works? && CoreAccepts(w, source, name, files)
  }

  /** What the test run at call `t` says when it does not pass. */
  predicate Explains(w: World, t: nat, source: ConfigSource, name: string, files: Files, verdict: TestResult) {
    match verdict
    case Passed => false
    case Rejected => w.fault(t).Works? && !CoreAccepts(w, source, name, files)
    case ConnectionLost => w.fault(t).Refused? || w.fault(t).RefusedAsMissing?
    case TimedOut => w.fault(t).Unacknowledged? || w.fault(t).Cut?
  }

  /** A known binary's path is more than white space. */
  lemma BinaryKnownMeans(hint: Hint)
    ensures hint.BinaryKnown() <==> hint.binary.Some? && exists i :: 0 <= i < |hint.binary.value|
                                                                     && !Text.IsWhite(hint.binary.value[i])
  {
    if hint.binary.Some? {
      Text.BlankMeans(hint.binary.value);
    }
  }

  /**
   Validation keeps the change if and only if nobody tests it or the test passes;
   otherwise it answers what the test said, after a restore that worked, or that
   the restore failed too.
   */
  lemma ValidationResult(w: World, h: Host, b: BackupRef, hint: Hint)
    ensures var (h', r) := ValidateOrRestore(w, h, b, hint);
            var passes := !hint.BinaryKnown() || TestPasses(w, h.calls, hint.source, b.name, h.files);
            && (r == Ok(()) <==> passes)
            && (passes ==> h'.files == h.files)
            && (!passes ==>
                  if RestoreBackup(w, Host(h.files, h.calls + 1), b).1
                  then r.error.TestFailed? && Explains(w, h.calls, hint.source, b.name, h.files, r.error.verdict)
                  else r == Err(RollbackFailed))
  {
    AcceptedMeans(w, hint.source, b.name, h.files);
  }

  // ---------------------------------------------------------------------
  // The transactions

  /** The result of a change that went through at call `t`, given how it went on. */
  predicate TestedResult(w: World, t: nat, name: string, hint: Hint, files: Files, r: Result<(), ModifyError>) {
    var passes := !hint.BinaryKnown() || TestPasses(w, t, hint.source, name, files);
    && (r == Ok(()) <==> passes)
    && (!passes ==> r == Err(RollbackFailed)
                    || (r.Err? && r.error.TestFailed? && Explains(w, t, hint.source, name, files, r.error.verdict)))
  }

  /** The whole table of a write: each result if and only if its cause. */
  lemma WriteResult(w: World, h: Host, name: string, contents: Bytes, hint: Hint)
    ensures var (h', r) := WriteConfigValidated(w, h, name, contents, hint);
            var backed := Config(name) in h.files && w.fault(h.calls).Works? && w.fault(h.calls + 1).Works?;
            var written := backed && Replaces(w, h.calls + 2, true);
            && (r == Err(BackupFailed) <==> !backed)
            && (r == Err(WriteFailed) <==> backed && !written)
            && (written ==>
                  var h1 := CreateBackup(w, h, name).0;
                  var h2 := WriteFileAtomic(w, h1, name, contents).0;
                  TestedResult(w, h2.calls, name, hint, h2.files, r) && (r.Ok? ==> h'.files == h2.files))
  {
    BackupSucceeds(w, h, name);
    var (h1, b) := CreateBackup(w, h, name);
    if b.Some? {
      AtomicSucceeds(w, h1, name, contents);
      var (h2, ok) := WriteFileAtomic(w, h1, name, contents);
      if ok {
        ValidationResult(w, h2, b.value, hint);
      }
    }
  }

  lemma RemoveResult(w: World, h: Host, name: string, hint: Hint)
    ensures var (h', r) := RemoveConfdirFileValidated(w, h, name, hint);
            var backed := Config(name) in h.files && w.fault(h.calls).Works? && w.fault(h.calls + 1).Works?;
            var removed := backed && w.fault(h.calls + 2).Works?;
            && (r == Err(BackupFailed) <==> !backed)
            && (r == Err(WriteFailed) <==> backed && !removed)
            && (removed ==>
                  var left := CreateBackup(w, h, name).0.files - {Config(name)};
                  TestedResult(w, h.calls + 3, name, hint, left, r) && (r.Ok? ==> h'.files == left))
  {
    BackupSucceeds(w, h, name);
    var (h1, b) := CreateBackup(w, h, name);
    if b.Some? {
      var (h2, ok) := RemoveFile(w, h1, Config(name));
      if ok {
        ValidationResult(w, h2, b.value, hint);
      }
    }
  }

  lemma CreateResult(w: World, h: Host, name: string, contents: Bytes, hint: Hint)
    ensures var (h', r) := CreateConfdirFileValidated(w, h, name, contents, hint);
            var probe := w.fault(h.calls);
            var absent := probe.RefusedAsMissing? || (probe.Works? && Config(name) !in h.files);
            var created := absent && w.fault(h.calls + 1).Works?;
            var after := h.files[Config(name) := contents];
            && (r == Err(LookupFailed) <==> !probe.Works? && !probe.RefusedAsMissing?)
            && (r == Err(AlreadyExists) <==> probe.Works? && Config(name) in h.files)
            && (r == Err(WriteFailed) <==> absent && !created)
            && (created ==> TestedResult(w, h.calls + 2, name, hint, after, r) && (r.Ok? ==> h'.files == after))
            && (r.Err? && r.error.TestFailed? ==> w.fault(h.calls + 3).Works? && h'.files == after - {Config(name)})
  {
    AcceptedMeans(w, hint.source, name, h.files[Config(name) := contents]);
  }

  // ---------------------------------------------------------------------
  // The conflict check

  /** Two texts that the conflict check lets pass: equal as JSON, or the same bytes. */
  predicate Alike(w: World, live: Bytes, loaded: Bytes) {
    live == loaded || (w.parse(live).Some? && w.parse(live) == w.parse(loaded))
  }

  /** A save over a live file that is read is the validated write exactly when the texts are alike. */
  lemma SaveResult(w: World, h: Host, name: string, loaded: Bytes, contents: Bytes, hint: Hint)
    ensures var next := Host(h.files, h.calls + 1);
            var written := WriteConfigValidated(w, next, name, contents, hint);
            SaveChecked(w, h, name, loaded, contents, hint)
            == match w.fault(h.calls)
               case Works =>
                 if Config(name) !in h.files || Alike(w, h.files[Config(name)], loaded) then written
                 else (next, Err(ChangedRemotely))
               case RefusedAsMissing => written
               case _ => (next, Err(ReadFailed))
  {
  }

  lemma RestoreResult(w: World, h: Host, name: string, second: nat, loaded: Bytes, hint: Hint)
    ensures RestoreChecked(w, h, name, second, loaded, hint)
            == if !w.fault(h.calls).Works? || Config(name) !in h.files then
                 (Host(h.files, h.calls + 1), Err(ReadFailed))
               else if !Alike(w, h.files[Config(name)], loaded) then (Host(h.files, h.calls + 1), Err(ChangedRemotely))
               else if !w.fault(h.calls + 1).Works? || Backup(name, second) !in h.files then
                 (Host(h.files, h.calls + 2), Err(BackupUnreadable))
               else
                 WriteConfigValidated(w, Host(h.files, h.calls + 2), name, h.files[Backup(name, second)], hint)
  {
  }

  // ---------------------------------------------------------------------
  // When every call works

  ghost predicate WorksFrom(w: World, t: nat) {
    forall k: nat | k >= t :: w.fault(k).Works?
  }

  /** A write when nothing fails: kept if and only if untested or accepted, and otherwise the old bytes are back. */
  lemma FaultlessWriteResult(w: World, h: Host, name: string, contents: Bytes, hint: Hint)
    requires WorksFrom(w, h.calls) && Config(name) in h.files
    requires forall p | p in h.files :: !p.Temp? && !p.Aside?
    ensures var (h', r) := WriteConfigValidated(w, h, name, contents, hint);
            var backup := Backup(name, w.clock(h.calls + 1) / 1_000_000_000);
            var kept := h.files[backup := h.files[Config(name)]];
            if !hint.BinaryKnown() || CoreAccepts(w, hint.source, name, kept[Config(name) := contents]) then
              r == Ok(()) && h'.files == kept[Config(name) := contents]
            else
              r == Err(TestFailed(Rejected)) && h'.files == kept
  {
    BackupSucceeds(w, h, name);
    var (h1, b) := CreateBackup(w, h, name);
    AtomicTraceless(w, h1, name, contents);
    AtomicSucceeds(w, h1, name, contents);
    var h2 := WriteFileAtomic(w, h1, name, contents).0;
    FaultlessValidation(w, h2, b.value, h.files[Config(name)], hint);
    assert h2.files[Config(name) := h.files[Config(name)]] == h1.files;
  }

  lemma FaultlessValidation(w: World, h: Host, b: BackupRef, old_: Bytes, hint: Hint)
    requires WorksFrom(w, h.calls) && Holds(h.files, b, old_)
    requires forall p | p in h.files :: !p.Temp? && !p.Aside?
    ensures var (h', r) := ValidateOrRestore(w, h, b, hint);
            if !hint.BinaryKnown() || CoreAccepts(w, hint.source, b.name, h.files) then
              r == Ok(()) && h'.files == h.files
            else r == Err(TestFailed(Rejected)) && h'.files == h.files[Config(b.name) := old_]
  {
    ValidationResult(w, h, b, hint);
    RestoreSucceeds(w, Host(h.files, h.calls + 1), b);
    AtomicTraceless(w, Host(h.files, h.calls + 2), b.name, old_);
  }

  lemma FaultlessRemoveResult(w: World, h: Host, name: string, hint: Hint)
    requires WorksFrom(w, h.calls) && Config(name) in h.files
    requires forall p | p in h.files :: !p.Temp? && !p.Aside?
    ensures var (h', r) := RemoveConfdirFileValidated(w, h, name, hint);
            var backup := Backup(name, w.clock(h.calls + 1) / 1_000_000_000);
            var kept := h.files[backup := h.files[Config(name)]];
            if !hint.BinaryKnown() || CoreAccepts(w, hint.source, name, kept - {Config(name)}) then
              r == Ok(()) && h'.files == kept - {Config(name)}
            else
              r == Err(TestFailed(Rejected)) && h'.files == kept
  {
    BackupSucceeds(w, h, name);
    var (h1, b) := CreateBackup(w, h, name);
    var h2 := RemoveFile(w, h1, Config(name)).0;
    FaultlessValidation(w, h2, b.value, h.files[Config(name)], hint);
    assert h2.files[Config(name) := h.files[Config(name)]] == h1.files;
  }

  /** A copy formatted otherwise than the live file is no conflict; a copy with another meaning is one. */
  lemma ReformattedCopySaves(w: World, h: Host, name: string, loaded: Bytes, contents: Bytes, hint: Hint)
    requires WorksFrom(w, h.calls) && Config(name) in h.files && !hint.BinaryKnown()
    requires w.parse(h.files[Config(name)]).Some? && w.parse(loaded).Some?
    requires forall p | p in h.files :: !p.Temp? && !p.Aside?
    ensures SaveChecked(w, h, name, loaded, contents, hint).1
            == if w.parse(h.files[Config(name)]) == w.parse(loaded) then Ok(()) else Err(ChangedRemotely)
  {
    SaveResult(w, h, name, loaded, contents, hint);
    if w.parse(h.files[Config(name)]) == w.parse(loaded) {
      FaultlessWriteResult(w, Host(h.files, h.calls + 1), name, contents, hint);
    }
  }
}
