/** What the validated transactions guarantee under every fault schedule. */
module ConfigGuarantees {
  import opened Basics
  import opened RemoteHost
  import opened ConfigTransactions
  import Text

  /** The second in which a transaction starting at call `t` stamps its backup. */
  function Slot(w: World, t: nat): nat {
    w.clock(t + 1) / NANOS_PER_SECOND
  }

  /** Every configuration file and backup other than these two is as before. */
  ghost predicate OthersSame(name: string, slot: nat, before: Files, after: Files) {
    forall p: Path | (p.Config? || p.Backup?) && p != Config(name) && p != Backup(name, slot) ::
      Entry(after, p) == Entry(before, p)
  }

  ghost predicate ConfigsSame(before: Files, after: Files) {
    forall p: Path | p.Config? :: Entry(after, p) == Entry(before, p)
  }

  // ---------------------------------------------------------------------
  // Building blocks

  lemma CreateBackupOutcome(w: World, h: Host, name: string)
    ensures var (h', b) := CreateBackup(w, h, name);
            && OthersSame(name, Slot(w, h.calls), h.files, h'.files)
            && Entry(h'.files, Config(name)) == Entry(h.files, Config(name))
            && (b.Some? ==>
                  && h'.calls == h.calls + 2
                  && Config(name) in h.files
                  && b.value == BackupRef(name, Slot(w, h.calls), |h.files[Config(name)]|)
                  && Entry(h'.files, Backup(name, b.value.second)) == Some(h.files[Config(name)]))
            && (h'.files != h.files ==> Config(name) in h.files)
  {
  }

  /** The backup `b` holds `contents`, whole. */
  ghost predicate Holds(files: Files, b: BackupRef, contents: Bytes) {
    Entry(files, Backup(b.name, b.second)) == Some(contents) && b.size == |contents|
  }

  lemma RestoreBackupOutcome(w: World, h: Host, b: BackupRef, contents: Bytes)
    requires Holds(h.files, b, contents)
    ensures var (h', ok) := RestoreBackup(w, h, b);
            && OnlyTouches(b.name, h.files, h'.files)
            && (ok ==> Entry(h'.files, Config(b.name)) == Some(contents))
            && (Entry(h'.files, Config(b.name)) == Entry(h.files, Config(b.name))
                || Entry(h'.files, Config(b.name)) == Some(contents)
                || Entry(h'.files, Config(b.name)) == None)
  {
    var (h1, read) := ReadFile(w, h, Backup(b.name, b.second));
    if read.Ok? {
      AtomicOutcome(w, h1, b.name, contents);
    }
  }

  /** A failed restore leaves the rejected change in place unless its own replacement derails. */
  lemma RestoreBackupFailure(w: World, h: Host, b: BackupRef, contents: Bytes)
    requires Holds(h.files, b, contents) && !RestoreBackup(w, h, b).1
    requires Config(b.name) in h.files && h.files[Config(b.name)] != contents
    ensures Entry(RestoreBackup(w, h, b).0.files, Config(b.name)) == Entry(h.files, Config(b.name))
            <==> !(w.fault(h.calls).Works? && Derails(w, h.calls + 1))
  {
    var (h1, read) := ReadFile(w, h, Backup(b.name, b.second));
    if read.Ok? {
      AtomicFailureHarmless(w, h1, b.name, contents);
    }
  }

  /**
   From a host whose change of `b.name` is made and backed up: either the core
   accepts and the change stays, or the old bytes are back, or a failed rollback
   is reported and the old bytes are in the backup.
   */
  lemma ValidateOutcome(w: World, h: Host, b: BackupRef, old_: Bytes, hint: Hint)
    requires Holds(h.files, b, old_)
    ensures var (h', r) := ValidateOrRestore(w, h, b, hint);
            && OnlyTouches(b.name, h.files, h'.files)
            && (r.Ok? ==> h'.files == h.files
                          && (hint.BinaryKnown() ==> Accepted(w, hint.source, b.name, h'.files)))
            && (r.Err? ==> r.error.TestFailed? || r.error == RollbackFailed)
            && (r.Err? && r.error.TestFailed? ==> Entry(h'.files, Config(b.name)) == Some(old_))
            && (r.Err? ==> (Entry(h'.files, Config(b.name)) == Entry(h.files, Config(b.name))
                            || Entry(h'.files, Config(b.name)) == Some(old_)
                            || Entry(h'.files, Config(b.name)) == None))
  {
    if hint.BinaryKnown() {
      var (h1, verdict) := RunConfigTest(w, h, TargetFor(hint.source, b.name));
      if !verdict.Passed? {
        RestoreBackupOutcome(w, h1, b, old_);
      }
    }
  }

  // ---------------------------------------------------------------------
  // One transaction

  /** What a caller learns from the result of a write, and what it never has to fear. */
  ghost predicate WriteVerdict(w: World, h: Host, name: string, contents: Bytes, hint: Hint,
                               h': Host, r: Result<(), ModifyError>) {
    var slot := Slot(w, h.calls);
    var before, after := Entry(h.files, Config(name)), Entry(h'.files, Config(name));
    && OthersSame(name, slot, h.files, h'.files)
    && (r.Ok? ==> after == Some(contents) && before.Some?
                  && (hint.BinaryKnown() ==> Accepted(w, hint.source, name, h'.files)))
    && (r.Err? ==> r.error == BackupFailed || r.error == WriteFailed
                   || r.error.TestFailed? || r.error == RollbackFailed)
    && (r.Err? && (r.error == BackupFailed || r.error.TestFailed?) ==> after == before)
    && (after == before || after == Some(contents) || after == None)
    && (after != before ==> Entry(h'.files, Backup(name, slot)) == before && before.Some?)
    && (r == Err(RollbackFailed) ==> Entry(h'.files, Backup(name, slot)) == before && before.Some?)
  }

  /** For every schedule. */
  lemma WriteOutcome(w: World, h: Host, name: string, contents: Bytes, hint: Hint)
    ensures var (h', r) := WriteConfigValidated(w, h, name, contents, hint);
            WriteVerdict(w, h, name, contents, hint, h', r)
  {
    CreateBackupOutcome(w, h, name);
    var (h1, backup) := CreateBackup(w, h, name);
    if backup.Some? {
      AtomicOutcome(w, h1, name, contents);
      var (h2, written) := WriteFileAtomic(w, h1, name, contents);
      if written {
        ValidateOutcome(w, h2, backup.value, h.files[Config(name)], hint);
      }
    }
  }

  /** A write that reports a failed upload left the file alone exactly when its replacement did not derail. */
  lemma FailedUpload(w: World, h: Host, name: string, contents: Bytes, hint: Hint)
    requires WriteConfigValidated(w, h, name, contents, hint).1 == Err(WriteFailed)
    requires Entry(h.files, Config(name)) != Some(contents)
    ensures Entry(WriteConfigValidated(w, h, name, contents, hint).0.files, Config(name))
              == Entry(h.files, Config(name))
            <==> !Derails(w, h.calls + 2)
  {
    CreateBackupOutcome(w, h, name);
    var (h1, backup) := CreateBackup(w, h, name);
    AtomicFailureHarmless(w, h1, name, contents);
  }

  ghost predicate RemoveVerdict(w: World, h: Host, name: string, hint: Hint,
                                h': Host, r: Result<(), ModifyError>) {
    var slot := Slot(w, h.calls);
    var before, after := Entry(h.files, Config(name)), Entry(h'.files, Config(name));
    && OthersSame(name, slot, h.files, h'.files)
    && (r.Ok? ==> after == None && before.Some? && Entry(h'.files, Backup(name, slot)) == before
                  && (hint.BinaryKnown() ==> Accepted(w, hint.source, name, h'.files)))
    && (r.Err? ==> r.error == BackupFailed || r.error == WriteFailed
                   || r.error.TestFailed? || r.error == RollbackFailed)
    && (r.Err? && (r.error == BackupFailed || r.error.TestFailed?) ==> after == before)
    && (after == before || after == None)
    && (after != before ==> Entry(h'.files, Backup(name, slot)) == before && before.Some?)
    && (r == Err(WriteFailed) ==> (after == before <==> !w.fault(h.calls + 2).Unacknowledged?))
    && (r == Err(RollbackFailed) ==> Entry(h'.files, Backup(name, slot)) == before && before.Some?)
  }

  lemma RemoveOutcome(w: World, h: Host, name: string, hint: Hint)
    ensures var (h', r) := RemoveConfdirFileValidated(w, h, name, hint);
            RemoveVerdict(w, h, name, hint, h', r)
  {
    CreateBackupOutcome(w, h, name);
    var (h1, backup) := CreateBackup(w, h, name);
    if backup.Some? {
      var (h2, removed) := RemoveFile(w, h1, Config(name));
      if removed {
        ValidateOutcome(w, h2, backup.value, h.files[Config(name)], hint);
      }
    }
  }

  /** The existence probe of a creation starting now takes a live file for missing. */
  predicate Misled(w: World, h: Host, name: string) {
    Config(name) in h.files && w.fault(h.calls) == RefusedAsMissing
  }

  /** A creation starting now writes over a live file. */
  predicate Overwrites(w: World, h: Host, name: string) {
    Misled(w, h, name) && !w.fault(h.calls + 1).Refused? && !w.fault(h.calls + 1).RefusedAsMissing?
  }

  /** Creation writes in place: a creation that stops half-way reports an error and leaves an untested file. */
  ghost predicate CreateVerdict(w: World, h: Host, name: string, contents: Bytes, hint: Hint,
                                h': Host, r: Result<(), ModifyError>) {
    var before, after := Entry(h.files, Config(name)), Entry(h'.files, Config(name));
    && (forall p: Path | p != Config(name) :: Entry(h'.files, p) == Entry(h.files, p))
    && (r.Ok? ==> (before == None || Misled(w, h, name)) && after == Some(contents)
                  && (hint.BinaryKnown() ==> Accepted(w, hint.source, name, h'.files)))
    && (r.Err? ==> r.error == LookupFailed || r.error == AlreadyExists || r.error == WriteFailed
                   || r.error.TestFailed? || r.error == RollbackFailed)
    && (r == Err(LookupFailed) || r == Err(AlreadyExists) ==> after == before)
    && (r.Err? && r.error.TestFailed? ==> after == None)
    && (before.Some? && !Misled(w, h, name) ==> r.Err? && after == before)
    && (r == Err(WriteFailed) && before == None ==>
          (after == None <==> !w.fault(h.calls + 1).Unacknowledged? && !w.fault(h.calls + 1).Cut?))
    && (after != before ==> before == None || Overwrites(w, h, name))
    && (r == Err(RollbackFailed) ==>
          (after == Some(contents) <==> !w.fault(h.calls + 3).Unacknowledged?))
  }

  lemma CreateOutcome(w: World, h: Host, name: string, contents: Bytes, hint: Hint)
    ensures var (h', r) := CreateConfdirFileValidated(w, h, name, contents, hint);
            CreateVerdict(w, h, name, contents, hint, h', r)
  {
  }

  /** Coincidence only: what a misled creation leaves is what was there. */
  predicate Coincides(w: World, h: Host, name: string, contents: Bytes, hint: Hint)
    requires Config(name) in h.files
  {
    var live := h.files[Config(name)];
    match w.fault(h.calls + 1)
    case Cut(n) => contents[..Min(n, |contents|)] == live
    case Unacknowledged => contents == live
    case _ =>
      && contents == live
      && (|| !hint.BinaryKnown()
          || (w.fault(h.calls + 2).Works? && Accepted(w, hint.source, name, h.files))
          || w.fault(h.calls + 3).Refuses())
  }

  /**
   "Never an overwrite" holds exactly as long as the probe is not misled or the
   write is refused. Otherwise the live bytes are gone, without a backup, unless
   the new ones happen to be the same.
   */
  lemma CreationDestroys(w: World, h: Host, name: string, contents: Bytes, hint: Hint)
    requires Config(name) in h.files
    ensures Entry(CreateConfdirFileValidated(w, h, name, contents, hint).0.files, Config(name))
              != Entry(h.files, Config(name))
            <==> Overwrites(w, h, name) && !Coincides(w, h, name, contents, hint)
  {
    if contents == h.files[Config(name)] {
      assert h.files[Config(name) := contents] == h.files;
    }
  }

  // ---------------------------------------------------------------------
  // Failed rollbacks

  /** After a change that is made and backed up: the rejected bytes, and the failed restore. */
  lemma FailedValidation(w: World, h: Host, b: BackupRef, old_: Bytes, hint: Hint)
    requires Holds(h.files, b, old_) && ValidateOrRestore(w, h, b, hint).1 == Err(RollbackFailed)
    requires Config(b.name) in h.files && h.files[Config(b.name)] != old_
    ensures Entry(ValidateOrRestore(w, h, b, hint).0.files, Config(b.name)) == Entry(h.files, Config(b.name))
            <==> !(w.fault(h.calls + 1).Works? && Derails(w, h.calls + 2))
  {
    var (h1, _) := RunConfigTest(w, h, TargetFor(hint.source, b.name));
    RestoreBackupFailure(w, h1, b, old_);
  }

  /** "Restore also failed" means the rejected bytes are still live, unless the restore itself derailed. */
  lemma FailedWriteRollback(w: World, h: Host, name: string, contents: Bytes, hint: Hint)
    requires WriteConfigValidated(w, h, name, contents, hint).1 == Err(RollbackFailed)
    requires Entry(h.files, Config(name)) != Some(contents)
    ensures var test := WriteConfigSafe(w, h, name, contents).0.calls;
            Entry(WriteConfigValidated(w, h, name, contents, hint).0.files, Config(name)) == Some(contents)
            <==> !(w.fault(test + 1).Works? && Derails(w, test + 2))
  {
    CreateBackupOutcome(w, h, name);
    var (h1, backup) := CreateBackup(w, h, name);
    AtomicOutcome(w, h1, name, contents);
    var (h2, written) := WriteConfigSafe(w, h, name, contents);
    FailedValidation(w, h2, written.value, h.files[Config(name)], hint);
  }

  /** The same after a removal: the file stays removed, unless the restore took effect unacknowledged. */
  lemma FailedRemoveRollback(w: World, h: Host, name: string, hint: Hint)
    requires RemoveConfdirFileValidated(w, h, name, hint).1 == Err(RollbackFailed)
    ensures var test := RemoveConfigFile(w, h, name).0.calls;
            Entry(RemoveConfdirFileValidated(w, h, name, hint).0.files, Config(name)) == None
            <==> !(w.fault(test + 1).Works? && Resurrects(w, test + 2))
  {
    CreateBackupOutcome(w, h, name);
    var (h1, backup) := CreateBackup(w, h, name);
    var (h2, _) := RemoveFile(w, h1, Config(name));
    var (h3, _) := RunConfigTest(w, h2, TargetFor(hint.source, name));
    var (h4, read) := ReadFile(w, h3, Backup(name, backup.value.second));
    if read.Ok? {
      AtomicFailureAbsent(w, h4, name, h.files[Config(name)]);
    }
  }

  // ---------------------------------------------------------------------
  // Runs that show it

  const UNTESTED: Hint := Hint(None, SourceUnknown)
  const TESTED: Hint := Hint(Some("/usr/local/bin/xray"), SourceUnknown)

  /** An upload reported as failed, and no live file; the old bytes are in the backup. */
  lemma FailedUploadLosesFile(name: string)
    ensures var w := Scheduled([Works, Works, Works, Refused, Works, Refused, Refused], true);
            var (h', r) := WriteConfigValidated(w, OneFile(name), name, NEW, UNTESTED);
            r == Err(WriteFailed) && Config(name) !in h'.files && Entry(h'.files, Backup(name, 0)) == Some(OLD)
  {
  }

  /** A creation cut off after one byte: an error, and a torn, untested file. */
  lemma CutCreationStays(name: string)
    ensures var w := Scheduled([Works, Cut(1)], true);
            var (h', r) := CreateConfdirFileValidated(w, Host(map[], 0), name, NEW, UNTESTED);
            r == Err(WriteFailed) && Entry(h'.files, Config(name)) == Some([2])
  {
    assert NEW[..Min(1, |NEW|)] == [2];
  }

  /**
   A creation misled by its probe: the live file is truncated without a backup,
   the rejected new one is deleted, and the report says the change was rolled back.
   */
  lemma MisledCreationDestroys(name: string)
    ensures var (h', r) := CreateConfdirFileValidated(Scheduled([RefusedAsMissing], false), OneFile(name), name,
                                                      NEW, TESTED);
            r == Err(TestFailed(Rejected)) && h'.files == map[]
  {
    Text.TrimIsTrimmed("/usr/local/bin/xray");
    assert Text.Trimmed("/usr/local/bin/xray");
  }
}
