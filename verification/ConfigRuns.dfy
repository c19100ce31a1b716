/** Whole runs of configuration transactions. */
module ConfigRuns {
  import opened Basics
  import opened RemoteHost
  import opened ConfigTransactions
  import opened ConfigGuarantees

  datatype Transaction =
    | Write(name: string, contents: Bytes)
    | Create(name: string, contents: Bytes)
    | Remove(name: string)
    | Save(name: string, loaded: Bytes, contents: Bytes)
    | Restore(name: string, second: nat, loaded: Bytes)

  function Execute(w: World, h: Host, tx: Transaction, hint: Hint): (Host, Result<(), ModifyError>) {
    match tx
    case Write(name, contents) => WriteConfigValidated(w, h, name, contents, hint)
    case Create(name, contents) => CreateConfdirFileValidated(w, h, name, contents, hint)
    case Remove(name) => RemoveConfdirFileValidated(w, h, name, hint)
    case Save(name, loaded, contents) => SaveChecked(w, h, name, loaded, contents, hint)
    case Restore(name, second, loaded) => RestoreChecked(w, h, name, second, loaded, hint)
  }

  /** The call at which the transaction starts its own backup (or, for a creation, its lookup). */
  function Begins(h: Host, tx: Transaction): nat {
    match tx
    case Save(_, _, _) => h.calls + 1
    case Restore(_, _, _) => h.calls + 2
    case _ => h.calls
  }

  function Run(w: World, h: Host, txs: seq<Transaction>, hint: Hint): Host
    decreases |txs|
  {
    if txs == [] then h else Run(w, Execute(w, h, txs[0], hint).0, txs[1..], hint)
  }

  // ---------------------------------------------------------------------
  // What any transaction does to the files

  /** The weakest thing all five share. */
  ghost predicate Harmless(w: World, h: Host, tx: Transaction, h': Host) {
    var before, after := Entry(h.files, Config(tx.name)), Entry(h'.files, Config(tx.name));
    && OthersSame(tx.name, Slot(w, Begins(h, tx)), h.files, h'.files)
    && (after != before && before.Some? ==>
          || Entry(h'.files, Backup(tx.name, Slot(w, Begins(h, tx)))) == before
          || (tx.Create? && Overwrites(w, h, tx.name)))
  }

  lemma SaveHarmless(w: World, h: Host, name: string, loaded: Bytes, contents: Bytes, hint: Hint)
    ensures Harmless(w, h, Save(name, loaded, contents), SaveChecked(w, h, name, loaded, contents, hint).0)
  {
    WriteOutcome(w, ReadFile(w, h, Config(name)).0, name, contents, hint);
  }

  lemma RestoreHarmless(w: World, h: Host, name: string, second: nat, loaded: Bytes, hint: Hint)
    ensures Harmless(w, h, Restore(name, second, loaded), RestoreChecked(w, h, name, second, loaded, hint).0)
  {
    var (h1, _) := ReadFile(w, h, Config(name));
    var (h2, stored) := ReadFile(w, h1, Backup(name, second));
    if stored.Ok? {
      WriteOutcome(w, h2, name, stored.value, hint);
    }
  }

  lemma CreateHarmless(w: World, h: Host, name: string, contents: Bytes, hint: Hint)
    ensures Harmless(w, h, Create(name, contents), CreateConfdirFileValidated(w, h, name, contents, hint).0)
  {
    CreateOutcome(w, h, name, contents, hint);
  }

  lemma ExecuteHarmless(w: World, h: Host, tx: Transaction, hint: Hint)
    ensures Harmless(w, h, tx, Execute(w, h, tx, hint).0)
  {
    match tx {
      case Write(name, contents) => WriteOutcome(w, h, name, contents, hint);
      case Create(name, contents) => CreateHarmless(w, h, name, contents, hint);
      case Remove(name) => RemoveOutcome(w, h, name, hint);
      case Save(name, loaded, contents) => SaveHarmless(w, h, name, loaded, contents, hint);
      case Restore(name, second, loaded) => RestoreHarmless(w, h, name, second, loaded, hint);
    }
  }

  // ---------------------------------------------------------------------
  // The configuration keeps passing the core's test

  /** Every test the installation's layout calls for passes. */
  ghost predicate Healthy(w: World, source: ConfigSource, files: Files) {
    forall name: string | Config(name) in files :: Accepted(w, source, name, files)
  }

  /**
   A transaction ends in trouble when it reports a failed rollback, or reports a
   failed change although the change (or a part of it) took effect, or rolls a
   creation back that had written over a live file.
   */
  predicate Trouble(w: World, h: Host, tx: Transaction, hint: Hint) {
    var r, t := Execute(w, h, tx, hint).1, Begins(h, tx);
    || r == Err(RollbackFailed)
    || (tx.Create? && r.Err? && r.error.TestFailed? && Config(tx.name) in h.files)
    || (r == Err(WriteFailed) &&
        match tx
        case Create(_, _) => w.fault(t + 1).Unacknowledged? || w.fault(t + 1).Cut?
        case Remove(_) => w.fault(t + 2).Unacknowledged?
        case _ => Derails(w, t + 2))
  }

  /** What a trouble-free transaction leaves behind: a tested change, or no change. */
  ghost predicate Settled(w: World, h: Host, tx: Transaction, hint: Hint) {
    var (h', r) := Execute(w, h, tx, hint);
    if r.Ok? then (hint.BinaryKnown() ==> Accepted(w, hint.source, tx.name, h'.files))
    else ConfigsSame(h.files, h'.files)
  }

  lemma WriteSettled(w: World, h: Host, name: string, contents: Bytes, hint: Hint)
    requires var r := WriteConfigValidated(w, h, name, contents, hint).1;
             r != Err(RollbackFailed) && (r == Err(WriteFailed) ==> !Derails(w, h.calls + 2))
    ensures var (h', r) := WriteConfigValidated(w, h, name, contents, hint);
            if r.Ok? then (hint.BinaryKnown() ==> Accepted(w, hint.source, name, h'.files))
            else ConfigsSame(h.files, h'.files)
  {
    var (h', r) := WriteConfigValidated(w, h, name, contents, hint);
    WriteOutcome(w, h, name, contents, hint);
    if r == Err(WriteFailed) {
      if Entry(h.files, Config(name)) != Some(contents) {
        FailedUpload(w, h, name, contents, hint);
      } else {
        SameBytesUpload(w, h, name, contents, hint);
      }
    }
  }

  /** Rewriting the bytes that are already there. */
  lemma SameBytesUpload(w: World, h: Host, name: string, contents: Bytes, hint: Hint)
    requires WriteConfigValidated(w, h, name, contents, hint).1 == Err(WriteFailed)
    requires Entry(h.files, Config(name)) == Some(contents) && !Derails(w, h.calls + 2)
    ensures Entry(WriteConfigValidated(w, h, name, contents, hint).0.files, Config(name)) == Some(contents)
  {
    CreateBackupOutcome(w, h, name);
    AtomicSameBytes(w, CreateBackup(w, h, name).0, name, contents);
  }

  lemma CreateSettled(w: World, h: Host, name: string, contents: Bytes, hint: Hint)
    requires !Trouble(w, h, Create(name, contents), hint)
    ensures Settled(w, h, Create(name, contents), hint)
  {
    CreateOutcome(w, h, name, contents, hint);
  }

  lemma TroubleFreeSettles(w: World, h: Host, tx: Transaction, hint: Hint)
    requires !Trouble(w, h, tx, hint)
    ensures Settled(w, h, tx, hint)
  {
    match tx {
      case Write(name, contents) => WriteSettled(w, h, name, contents, hint);
      case Create(name, contents) => CreateSettled(w, h, name, contents, hint);
      case Remove(name) => RemoveOutcome(w, h, name, hint);
      case Save(name, loaded, contents) =>
        var (h1, read) := ReadFile(w, h, Config(name));
        if SaveChecked(w, h, name, loaded, contents, hint) == WriteConfigValidated(w, h1, name, contents, hint) {
          WriteSettled(w, h1, name, contents, hint);
        }
      case Restore(name, second, loaded) =>
        var (h1, read) := ReadFile(w, h, Config(name));
        var (h2, stored) := ReadFile(w, h1, Backup(name, second));
        if stored.Ok? && RestoreChecked(w, h, name, second, loaded, hint)
                         == WriteConfigValidated(w, h2, name, stored.value, hint) {
          WriteSettled(w, h2, name, stored.value, hint);
        }
    }
  }

  /** The transaction may write what is already there; then even a derailed write can change nothing. */
  predicate MayRewrite(h: Host, tx: Transaction) {
    match tx
    case Write(name, contents) => Entry(h.files, Config(name)) == Some(contents)
    case Save(name, _, contents) => Entry(h.files, Config(name)) == Some(contents)
    case Restore(name, second, _) =>
      Config(name) in h.files && Entry(h.files, Backup(name, second)) == Some(h.files[Config(name)])
    case Create(name, contents) => Config(name) in h.files && h.files[Config(name)] <= contents
    case Remove(_) => false
  }

  lemma WriteUnsettles(w: World, h: Host, name: string, contents: Bytes, hint: Hint)
    requires WriteConfigValidated(w, h, name, contents, hint).1 == Err(WriteFailed)
    requires Derails(w, h.calls + 2) && Entry(h.files, Config(name)) != Some(contents)
    ensures !ConfigsSame(h.files, WriteConfigValidated(w, h, name, contents, hint).0.files)
  {
    FailedUpload(w, h, name, contents, hint);
  }

  lemma CreateUnsettles(w: World, h: Host, name: string, contents: Bytes, hint: Hint)
    requires var tx := Create(name, contents);
             Trouble(w, h, tx, hint) && !MayRewrite(h, tx) && Execute(w, h, tx, hint).1 != Err(RollbackFailed)
    ensures !Settled(w, h, Create(name, contents), hint)
  {
    CreateOutcome(w, h, name, contents, hint);
    if Config(name) in h.files {
      CreationDestroys(w, h, name, contents, hint);
    }
  }

  /** Unless a rollback failed, the listed troubles are exactly the ways not to settle. */
  lemma TroubleUnsettles(w: World, h: Host, tx: Transaction, hint: Hint)
    requires Execute(w, h, tx, hint).1 != Err(RollbackFailed) && !MayRewrite(h, tx)
    ensures Settled(w, h, tx, hint) <==> !Trouble(w, h, tx, hint)
  {
    if !Trouble(w, h, tx, hint) {
      TroubleFreeSettles(w, h, tx, hint);
    } else {
      match tx {
        case Write(name, contents) => WriteUnsettles(w, h, name, contents, hint);
        case Create(name, contents) => CreateUnsettles(w, h, name, contents, hint);
        case Remove(name) => RemoveOutcome(w, h, name, hint);
        case Save(name, loaded, contents) =>
          WriteUnsettles(w, ReadFile(w, h, Config(name)).0, name, contents, hint);
        case Restore(name, second, loaded) =>
          var h2 := ReadFile(w, ReadFile(w, h, Config(name)).0, Backup(name, second)).0;
          WriteUnsettles(w, h2, name, h.files[Backup(name, second)], hint);
      }
    }
  }

  lemma SameView(target: TestTarget, before: Files, after: Files)
    requires forall p: Path | p.Config? && (target.ConfigFile? ==> p.name == target.name) ::
               Entry(after, p) == Entry(before, p)
    ensures View(target, after) == View(target, before)
  {
    forall p: Path ensures (p in View(target, after)) == (p in View(target, before)) {
      if p.Config? && (target.ConfigFile? ==> p.name == target.name) {
        assert Entry(after, p) == Entry(before, p);
      }
    }
    forall p: Path | p in View(target, after) ensures View(target, after)[p] == View(target, before)[p] {
      assert Entry(after, p) == Entry(before, p);
    }
  }

  lemma UnchangedHealthy(w: World, source: ConfigSource, before: Files, after: Files)
    requires Healthy(w, source, before) && ConfigsSame(before, after)
    ensures Healthy(w, source, after)
  {
    forall name: string | Config(name) in after ensures Accepted(w, source, name, after) {
      assert Entry(after, Config(name)) == Entry(before, Config(name));
      SameView(TargetFor(source, name), before, after);
    }
  }

  /** A change of one file that passes the file's own test breaks no other file's test. */
  lemma ChangedHealthy(w: World, source: ConfigSource, name: string, before: Files, after: Files)
    requires Healthy(w, source, before) && Accepted(w, source, name, after)
    requires forall p: Path | p.Config? && p != Config(name) :: Entry(after, p) == Entry(before, p)
    ensures Healthy(w, source, after)
  {
    forall other: string | Config(other) in after ensures Accepted(w, source, other, after) {
      if other != name && (source.SourceNotFound? || source.SourceUnknown?) {
        assert Entry(after, Config(other)) == Entry(before, Config(other));
        SameView(TargetFor(source, other), before, after);
      }
    }
  }

  lemma ExecuteHealthy(w: World, h: Host, tx: Transaction, hint: Hint)
    requires hint.BinaryKnown() && Healthy(w, hint.source, h.files) && !Trouble(w, h, tx, hint)
    ensures Healthy(w, hint.source, Execute(w, h, tx, hint).0.files)
  {
    TroubleFreeSettles(w, h, tx, hint);
    ExecuteHarmless(w, h, tx, hint);
    var (h', r) := Execute(w, h, tx, hint);
    if r.Ok? {
      ChangedHealthy(w, hint.source, tx.name, h.files, h'.files);
    } else {
      UnchangedHealthy(w, hint.source, h.files, h'.files);
    }
  }

  ghost predicate RunsWithoutTrouble(w: World, h: Host, txs: seq<Transaction>, hint: Hint)
    decreases |txs|
  {
    txs == [] || (!Trouble(w, h, txs[0], hint)
                  && RunsWithoutTrouble(w, Execute(w, h, txs[0], hint).0, txs[1..], hint))
  }

  /** Validation pays: over any trouble-free run, whatever else fails, the core accepts what is on the host. */
  lemma {:induction false} RunHealthy(w: World, h: Host, txs: seq<Transaction>, hint: Hint)
    requires hint.BinaryKnown() && Healthy(w, hint.source, h.files) && RunsWithoutTrouble(w, h, txs, hint)
    ensures Healthy(w, hint.source, Run(w, h, txs, hint).files)
    decreases |txs|
  {
    if txs != [] {
      ExecuteHealthy(w, h, txs[0], hint);
      RunHealthy(w, Execute(w, h, txs[0], hint).0, txs[1..], hint);
    }
  }

  // ---------------------------------------------------------------------
  // No version is lost

  /** The bytes `v` are a version of `name` the host still has: live, or in some backup. */
  ghost predicate Stored(files: Files, name: string, v: Bytes) {
    || Entry(files, Config(name)) == Some(v)
    || exists second: nat :: Entry(files, Backup(name, second)) == Some(v)
  }

  /** The backup name of this second is free, or what it holds is also stored elsewhere. */
  ghost predicate SlotExpendable(files: Files, name: string, slot: nat) {
    Backup(name, slot) in files ==>
      var kept := files[Backup(name, slot)];
      || Entry(files, Config(name)) == Some(kept)
      || exists second: nat | second != slot :: Entry(files, Backup(name, second)) == Some(kept)
  }

  /**
   The backup starting now changes what its name holds: the read answers, and the
   write is not refused and leaves other bytes, all of them or the beginning.
   */
  predicate OverwritesBackup(w: World, h: Host, name: string) {
    var slot := Slot(w, h.calls);
    && w.fault(h.calls).Works? && Config(name) in h.files && Backup(name, slot) in h.files
    && var live, kept := h.files[Config(name)], h.files[Backup(name, slot)];
       match w.fault(h.calls + 1)
       case Works => live != kept
       case Unacknowledged => live != kept
       case Cut(n) => live[..Min(n, |live|)] != kept
       case _ => false
  }

  lemma BackupEntry(w: World, h: Host, name: string)
    ensures var (h', slot) := (CreateBackup(w, h, name).0, Slot(w, h.calls));
            && (Backup(name, slot) in h.files ==>
                  (Entry(h'.files, Backup(name, slot)) != Entry(h.files, Backup(name, slot))
                   <==> OverwritesBackup(w, h, name)))
            && (forall p: Path | p != Backup(name, slot) :: Entry(h'.files, p) == Entry(h.files, p))
  {
  }

  /** The live version, if any, is also in some backup. */
  ghost predicate BackedUp(files: Files, name: string) {
    Config(name) in files ==> exists second: nat :: Entry(files, Backup(name, second)) == Some(files[Config(name)])
  }

  /**
   What the transaction writes over is stored elsewhere: for a creation a live
   file it does not see, for the others the backup of the same second, if its
   own backup touches that at all.
   */
  ghost predicate Expendable(w: World, h: Host, tx: Transaction) {
    if tx.Create? then Overwrites(w, h, tx.name) ==> BackedUp(h.files, tx.name)
    else
      || SlotExpendable(h.files, tx.name, Slot(w, Begins(h, tx)))
      || !OverwritesBackup(w, Host(h.files, Begins(h, tx)), tx.name)
  }

  /** Behind its backup a write or removal touches no backup any more. */
  lemma OnlyBackupWrites(w: World, h: Host, name: string, contents: Bytes, hint: Hint)
    ensures var slot := Backup(name, Slot(w, h.calls));
            var taken := Entry(CreateBackup(w, h, name).0.files, slot);
            && Entry(WriteConfigValidated(w, h, name, contents, hint).0.files, slot) == taken
            && Entry(RemoveConfdirFileValidated(w, h, name, hint).0.files, slot) == taken
  {
    CreateBackupOutcome(w, h, name);
    var (h1, backup) := CreateBackup(w, h, name);
    if backup.Some? {
      AtomicOutcome(w, h1, name, contents);
      var h2 := WriteFileAtomic(w, h1, name, contents).0;
      ValidateOutcome(w, h2, backup.value, h.files[Config(name)], hint);
      var h3 := RemoveFile(w, h1, Config(name)).0;
      ValidateOutcome(w, h3, backup.value, h.files[Config(name)], hint);
    }
  }

  /** Two hosts with the same entry under the backup name of the second `slot`. */
  predicate SlotSame(name: string, slot: nat, before: Files, after: Files) {
    Entry(after, Backup(name, slot)) == Entry(before, Backup(name, slot))
  }

  lemma WriteSlotKept(w: World, h: Host, name: string, contents: Bytes, hint: Hint)
    requires !OverwritesBackup(w, h, name) && Backup(name, Slot(w, h.calls)) in h.files
    ensures SlotSame(name, Slot(w, h.calls), h.files, WriteConfigValidated(w, h, name, contents, hint).0.files)
    ensures SlotSame(name, Slot(w, h.calls), h.files, RemoveConfdirFileValidated(w, h, name, hint).0.files)
  {
    BackupEntry(w, h, name);
    OnlyBackupWrites(w, h, name, contents, hint);
  }

  /** A save changes nothing, or is the write of its contents one call later. */
  lemma SaveIsWrite(w: World, h: Host, name: string, loaded: Bytes, contents: Bytes, hint: Hint)
    ensures var h' := SaveChecked(w, h, name, loaded, contents, hint).0;
            h'.files == h.files
            || h' == WriteConfigValidated(w, Host(h.files, h.calls + 1), name, contents, hint).0
  {
    assert ReadFile(w, h, Config(name)).0 == Host(h.files, h.calls + 1);
  }

  lemma SaveSlotKept(w: World, h: Host, name: string, loaded: Bytes, contents: Bytes, hint: Hint)
    requires !OverwritesBackup(w, Host(h.files, h.calls + 1), name) && Backup(name, Slot(w, h.calls + 1)) in h.files
    ensures SlotSame(name, Slot(w, h.calls + 1), h.files, SaveChecked(w, h, name, loaded, contents, hint).0.files)
  {
    SaveIsWrite(w, h, name, loaded, contents, hint);
    if SaveChecked(w, h, name, loaded, contents, hint).0.files != h.files {
      WriteSlotKept(w, Host(h.files, h.calls + 1), name, contents, hint);
    }
  }

  /** A restore changes nothing, or is the write of the backup's bytes two calls later. */
  lemma RestoreIsWrite(w: World, h: Host, name: string, second: nat, loaded: Bytes, hint: Hint)
    ensures var h' := RestoreChecked(w, h, name, second, loaded, hint).0;
            || h'.files == h.files
            || (Backup(name, second) in h.files
                && h' == WriteConfigValidated(w, Host(h.files, h.calls + 2), name,
                                              h.files[Backup(name, second)], hint).0)
  {
    var (h1, read) := ReadFile(w, h, Config(name));
    var (h2, stored) := ReadFile(w, h1, Backup(name, second));
    assert h2 == Host(h.files, h.calls + 2);
    if stored.Ok? {
      assert stored.value == h.files[Backup(name, second)];
    }
  }

  lemma RestoreSlotKept(w: World, h: Host, name: string, second: nat, loaded: Bytes, hint: Hint)
    requires !OverwritesBackup(w, Host(h.files, h.calls + 2), name) && Backup(name, Slot(w, h.calls + 2)) in h.files
    ensures SlotSame(name, Slot(w, h.calls + 2), h.files, RestoreChecked(w, h, name, second, loaded, hint).0.files)
  {
    RestoreIsWrite(w, h, name, second, loaded, hint);
    var h' := RestoreChecked(w, h, name, second, loaded, hint).0;
    if h'.files != h.files {
      WriteSlotKept(w, Host(h.files, h.calls + 2), name, h.files[Backup(name, second)], hint);
    }
  }

  /** A transaction whose backup leaves its name alone leaves it alone. */
  lemma SlotKept(w: World, h: Host, tx: Transaction, hint: Hint)
    requires !tx.Create? && !OverwritesBackup(w, Host(h.files, Begins(h, tx)), tx.name)
    requires Backup(tx.name, Slot(w, Begins(h, tx))) in h.files
    ensures SlotSame(tx.name, Slot(w, Begins(h, tx)), h.files, Execute(w, h, tx, hint).0.files)
  {
    match tx {
      case Write(name, contents) => WriteSlotKept(w, h, name, contents, hint);
      case Remove(name) => WriteSlotKept(w, h, name, [], hint);
      case Save(name, loaded, contents) => SaveSlotKept(w, h, name, loaded, contents, hint);
      case Restore(name, second, loaded) => RestoreSlotKept(w, h, name, second, loaded, hint);
    }
  }

  lemma CreateKeepsVersions(w: World, h: Host, tx: Transaction, hint: Hint, name: string, v: Bytes)
    requires tx.Create? && Expendable(w, h, tx) && Stored(h.files, name, v)
    ensures Stored(Execute(w, h, tx, hint).0.files, name, v)
  {
    CreateOutcome(w, h, tx.name, tx.contents, hint);
    var after := Execute(w, h, tx, hint).0.files;
    if Entry(after, Config(name)) != Some(v) {
      var second: nat :| Entry(h.files, Backup(name, second)) == Some(v);
      assert Entry(after, Backup(name, second)) == Some(v);
    }
  }

  lemma ExecuteKeepsVersions(w: World, h: Host, tx: Transaction, hint: Hint, name: string, v: Bytes)
    requires Expendable(w, h, tx) && Stored(h.files, name, v)
    ensures Stored(Execute(w, h, tx, hint).0.files, name, v)
  {
    if tx.Create? {
      CreateKeepsVersions(w, h, tx, hint, name, v);
    } else {
      ExecuteHarmless(w, h, tx, hint);
      if !SlotExpendable(h.files, tx.name, Slot(w, Begins(h, tx))) {
        SlotKept(w, h, tx, hint);
      }
      HarmlessKeeps(w, h, tx, Execute(w, h, tx, hint).0, name, v);
    }
  }

  lemma HarmlessKeeps(w: World, h: Host, tx: Transaction, h': Host, name: string, v: Bytes)
    requires !tx.Create? && Harmless(w, h, tx, h') && Stored(h.files, name, v)
    requires var slot := Slot(w, Begins(h, tx));
             || SlotExpendable(h.files, tx.name, slot)
             || Entry(h'.files, Backup(tx.name, slot)) == Entry(h.files, Backup(tx.name, slot))
    ensures Stored(h'.files, name, v)
  {
    var slot := Slot(w, Begins(h, tx));
    if Entry(h.files, Config(name)) == Some(v) {
      assert name != tx.name ==> Entry(h'.files, Config(name)) == Entry(h.files, Config(name));
    } else {
      var second: nat :| Entry(h.files, Backup(name, second)) == Some(v);
      var kept := name != tx.name || second != slot || Entry(h'.files, Backup(name, slot)) == Some(v);
      var other: nat := if kept then second
                        else var o: nat :| o != slot && Entry(h.files, Backup(name, o)) == Some(v); o;
      assert Entry(h'.files, Backup(name, other)) == Some(v);
    }
  }

  ghost predicate RunsExpendably(w: World, h: Host, txs: seq<Transaction>, hint: Hint)
    decreases |txs|
  {
    txs == [] || (Expendable(w, h, txs[0])
                  && RunsExpendably(w, Execute(w, h, txs[0], hint).0, txs[1..], hint))
  }

  /**
   As long as no transaction writes over the only copy of a version, every
   version that is live or backed up at any point of a run is live or backed up
   at its end, whatever fails in between: failed rollbacks, derailed
   replacements, unacknowledged calls.
   */
  lemma {:induction false} NoVersionLost(w: World, h: Host, txs: seq<Transaction>, hint: Hint, name: string, v: Bytes)
    requires RunsExpendably(w, h, txs, hint) && Stored(h.files, name, v)
    ensures Stored(Run(w, h, txs, hint).files, name, v)
    decreases |txs|
  {
    if txs != [] {
      ExecuteKeepsVersions(w, h, txs[0], hint, name, v);
      NoVersionLost(w, Execute(w, h, txs[0], hint).0, txs[1..], hint, name, v);
    }
  }

  /** The backup name the transaction will use is not taken, and its probe, if it is a creation, is not misled. */
  predicate SlotFree(w: World, h: Host, tx: Transaction) {
    if tx.Create? then !Overwrites(w, h, tx.name) else Backup(tx.name, Slot(w, Begins(h, tx))) !in h.files
  }

  ghost predicate RunsInFreeSlots(w: World, h: Host, txs: seq<Transaction>, hint: Hint)
    decreases |txs|
  {
    txs == [] || (SlotFree(w, h, txs[0])
                  && RunsInFreeSlots(w, Execute(w, h, txs[0], hint).0, txs[1..], hint))
  }

  /** At most one backup of a file per second, and no misled creation, are enough for that. */
  lemma {:induction false} FreeSlotsAreExpendable(w: World, h: Host, txs: seq<Transaction>, hint: Hint)
    requires RunsInFreeSlots(w, h, txs, hint)
    ensures RunsExpendably(w, h, txs, hint)
    decreases |txs|
  {
    if txs != [] {
      FreeSlotsAreExpendable(w, Execute(w, h, txs[0], hint).0, txs[1..], hint);
    }
  }

  ghost predicate KeepsVersions(name: string, before: Files, after: Files) {
    forall v: Bytes | Stored(before, name, v) :: Stored(after, name, v)
  }

  lemma UntouchedKeeps(name: string, slot: nat, before: Files, after: Files)
    requires forall p: Path | p != Backup(name, slot) :: Entry(after, p) == Entry(before, p)
    requires SlotExpendable(before, name, slot)
             || Entry(after, Backup(name, slot)) == Entry(before, Backup(name, slot))
    ensures KeepsVersions(name, before, after)
  {
    forall v: Bytes | Stored(before, name, v) ensures Stored(after, name, v) {
      if Entry(before, Config(name)) == Some(v) {
        assert Entry(after, Config(name)) == Some(v);
      } else {
        var second: nat :| Entry(before, Backup(name, second)) == Some(v);
        var other: nat := if second != slot || Entry(after, Backup(name, slot)) == Some(v) then second
                          else var o: nat :| o != slot && Entry(before, Backup(name, o)) == Some(v); o;
        assert Entry(after, Backup(name, other)) == Some(v);
      }
    }
  }

  lemma OverwrittenLoses(name: string, slot: nat, before: Files, after: Files)
    requires forall p: Path | p != Backup(name, slot) :: Entry(after, p) == Entry(before, p)
    requires Backup(name, slot) in before && !SlotExpendable(before, name, slot)
    requires Entry(after, Backup(name, slot)) != Entry(before, Backup(name, slot))
    ensures !KeepsVersions(name, before, after)
  {
    var lost := before[Backup(name, slot)];
    assert Stored(before, name, lost);
    assert Entry(after, Config(name)) == Entry(before, Config(name));
    forall second: nat ensures Entry(after, Backup(name, second)) != Some(lost) {
      if second != slot {
        assert Entry(after, Backup(name, second)) == Entry(before, Backup(name, second));
      }
    }
    assert !Stored(after, name, lost);
  }

  /**
   Exactly when a backup, taken or failed, loses no version: names carry whole
   seconds, and a backup writes over one that has its name.
   */
  lemma BackupKeepsVersions(w: World, h: Host, name: string)
    ensures KeepsVersions(name, h.files, CreateBackup(w, h, name).0.files)
            <==> SlotExpendable(h.files, name, Slot(w, h.calls)) || !OverwritesBackup(w, h, name)
  {
    var slot, after := Slot(w, h.calls), CreateBackup(w, h, name).0.files;
    BackupEntry(w, h, name);
    if SlotExpendable(h.files, name, slot) || !OverwritesBackup(w, h, name) {
      UntouchedKeeps(name, slot, h.files, after);
    } else {
      OverwrittenLoses(name, slot, h.files, after);
    }
  }

  /** A backup cut off over one of the same second: only "backup failed" is reported, and a version is gone. */
  lemma CutBackupDestroys(name: string)
    ensures var w := Scheduled([Works, Cut(0)], true);
            var files := map[Config(name) := NEW, Backup(name, 0) := OLD];
            var (h', b) := CreateBackup(w, Host(files, 0), name);
            b == None && Stored(files, name, OLD) && !Stored(h'.files, name, OLD)
  {
    var w := Scheduled([Works, Cut(0)], true);
    var files := map[Config(name) := NEW, Backup(name, 0) := OLD];
    var (h', b) := CreateBackup(w, Host(files, 0), name);
    assert NEW[..Min(0, |NEW|)] == [];
    assert Entry(files, Backup(name, 0)) == Some(OLD);
    assert h'.files == map[Config(name) := NEW, Backup(name, 0) := []];
  }

  /** Two faultless saves within one second: the version before the first is gone. */
  lemma TwoWritesInOneSecond(w: World, name: string, v0: Bytes, v1: Bytes, v2: Bytes, hint: Hint)
    requires forall k: nat :: w.fault(k) == Works && w.clock(k) / NANOS_PER_SECOND == 0
    requires !hint.BinaryKnown()
    requires v0 != v1 && v0 != v2
    ensures var h := Host(map[Config(name) := v0], 0);
            var h' := Run(w, h, [Write(name, v1), Write(name, v2)], hint);
            && Execute(w, h, Write(name, v1), hint).1 == Ok(())
            && Execute(w, Execute(w, h, Write(name, v1), hint).0, Write(name, v2), hint).1 == Ok(())
            && Entry(h'.files, Config(name)) == Some(v2)
            && !Stored(h'.files, name, v0)
  {
    var h := Host(map[Config(name) := v0], 0);
    var txs := [Write(name, v1), Write(name, v2)];
    FaultlessWrite(w, h, name, v1, hint);
    var (h1, r1) := WriteConfigValidated(w, h, name, v1, hint);
    assert h1.files == map[Config(name) := v1, Backup(name, 0) := v0];
    FaultlessWrite(w, h1, name, v2, hint);
    var (h2, r2) := WriteConfigValidated(w, h1, name, v2, hint);
    assert h2.files == map[Config(name) := v2, Backup(name, 0) := v1];
    assert txs[1..] == [Write(name, v2)] && txs[1..][1..] == [];
    assert Run(w, h, txs, hint) == Run(w, h1, txs[1..], hint) == Run(w, h2, [], hint);
  }

  /** A write when nothing goes wrong, within second 0. */
  lemma FaultlessWrite(w: World, h: Host, name: string, contents: Bytes, hint: Hint)
    requires forall k: nat :: w.fault(k) == Works && w.clock(k) / NANOS_PER_SECOND == 0
    requires !hint.BinaryKnown() && Config(name) in h.files
    requires forall p | p in h.files :: !p.Temp?
    ensures var (h', r) := WriteConfigValidated(w, h, name, contents, hint);
            r == Ok(()) && h'.files == h.files[Backup(name, 0) := h.files[Config(name)]][Config(name) := contents]
  {
    var (h1, _) := CreateBackup(w, h, name);
    assert h1.files == h.files[Backup(name, 0) := h.files[Config(name)]];
    var temp := Temp(name, w.clock(h1.calls));
    var h2 := WriteFile(w, h1, temp, contents).0;
    assert Move(h2.files, temp, Config(name)) == h1.files[Config(name) := contents];
  }
}
