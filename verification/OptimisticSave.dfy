/** Many clients editing one configuration file: the optimistic conflict check. */
module OptimisticSave {
  import opened Basics
  import opened RemoteHost
  import opened ConfigTransactions
  import opened ConfigGuarantees

  // ---------------------------------------------------------------------
  // The comparison

  /** Whatever the parser is, and also where it fails, the comparison is an equivalence relation. */
  lemma EquivalenceRelation(w: World, a: Bytes, b: Bytes, c: Bytes)
    ensures JsonBytesEquivalent(w, a, a)
    ensures JsonBytesEquivalent(w, a, b) ==> JsonBytesEquivalent(w, b, a)
    ensures JsonBytesEquivalent(w, a, b) && JsonBytesEquivalent(w, b, c) ==> JsonBytesEquivalent(w, a, c)
  {
  }

  // ---------------------------------------------------------------------
  // One save, one restore

  /**
   A save that changes the file, acknowledged or not, replaces a version
   equivalent to the copy its edit started from, unless the read of the live
   file failed with a text that says it is missing.
   */
  lemma SaveReplacesLoaded(w: World, h: Host, name: string, loaded: Bytes, contents: Bytes, hint: Hint)
    requires var (h', r) := SaveChecked(w, h, name, loaded, contents, hint);
             r.Ok? || Entry(h'.files, Config(name)) != Entry(h.files, Config(name))
    ensures Config(name) in h.files
    ensures w.fault(h.calls) != RefusedAsMissing ==>
              JsonBytesEquivalent(w, h.files[Config(name)], loaded)
  {
    var (h1, _) := ReadFile(w, h, Config(name));
    WriteOutcome(w, h1, name, contents, hint);
  }

  lemma WriteNeverConflicts(w: World, h: Host, name: string, contents: Bytes, hint: Hint)
    ensures var r := WriteConfigValidated(w, h, name, contents, hint).1;
            r != Err(ChangedRemotely) && r != Err(ReadFailed)
  {
    WriteOutcome(w, h, name, contents, hint);
  }

  lemma SaveCheckedOutcome(w: World, h: Host, name: string, loaded: Bytes, contents: Bytes, hint: Hint)
    ensures var (h', r) := SaveChecked(w, h, name, loaded, contents, hint);
            && (r.Ok? || Entry(h'.files, Config(name)) != Entry(h.files, Config(name)) ==>
                  && Config(name) in h.files
                  && (JsonBytesEquivalent(w, h.files[Config(name)], loaded) || w.fault(h.calls) == RefusedAsMissing))
            && (r.Ok? ==> Entry(h'.files, Config(name)) == Some(contents))
  {
    WriteOutcome(w, ReadFile(w, h, Config(name)).0, name, contents, hint);
  }

  lemma RestoreCheckedOutcome(w: World, h: Host, name: string, second: nat, loaded: Bytes, hint: Hint)
    ensures var (h', r) := RestoreChecked(w, h, name, second, loaded, hint);
            && (r.Ok? || Entry(h'.files, Config(name)) != Entry(h.files, Config(name)) ==>
                  && Config(name) in h.files && JsonBytesEquivalent(w, h.files[Config(name)], loaded)
                  && Backup(name, second) in h.files)
            && (r.Ok? ==> Entry(h'.files, Config(name)) == Some(h.files[Backup(name, second)]))
  {
    var (h', r) := RestoreChecked(w, h, name, second, loaded, hint);
    if r.Ok? || Entry(h'.files, Config(name)) != Entry(h.files, Config(name)) {
      RestoreReplacesLoaded(w, h, name, second, loaded, hint);
    }
  }

  /** The exception is real: such a read switches the check off, whatever copy the client holds. */
  lemma MisreadSkipsCheck(w: World, h: Host, name: string, loaded: Bytes, contents: Bytes, hint: Hint)
    requires Config(name) in h.files && !JsonBytesEquivalent(w, h.files[Config(name)], loaded)
    ensures SaveChecked(w, h, name, loaded, contents, hint)
              == WriteConfigValidated(w, Host(h.files, h.calls + 1), name, contents, hint)
            <==> w.fault(h.calls) == RefusedAsMissing
  {
    var h1 := Host(h.files, h.calls + 1);
    WriteNeverConflicts(w, h1, name, contents, hint);
  }

  /** A save from a stale copy, misread as that of a new file: somebody else's version is replaced. */
  lemma MisreadReplaces(name: string, stale: Bytes)
    requires stale != OLD
    ensures var w := Scheduled([RefusedAsMissing], true);
            var (h', r) := SaveChecked(w, OneFile(name), name, stale, NEW, UNTESTED);
            !JsonBytesEquivalent(w, OLD, stale) && r == Ok(()) && Entry(h'.files, Config(name)) == Some(NEW)
  {
  }

  /**
   A file that is really missing is never created by a save: the branch that
   goes on to write fails while taking the backup, and nothing changes.
   */
  lemma SaveNeverCreates(w: World, h: Host, name: string, loaded: Bytes, contents: Bytes, hint: Hint)
    requires Config(name) !in h.files
    ensures var (h', r) := SaveChecked(w, h, name, loaded, contents, hint);
            && h'.files == h.files
            && (r == Err(BackupFailed) || r == Err(ReadFailed))
  {
  }

  lemma RestoreReplacesLoaded(w: World, h: Host, name: string, second: nat, loaded: Bytes, hint: Hint)
    requires var (h', r) := RestoreChecked(w, h, name, second, loaded, hint);
             r.Ok? || Entry(h'.files, Config(name)) != Entry(h.files, Config(name))
    ensures Config(name) in h.files && JsonBytesEquivalent(w, h.files[Config(name)], loaded)
    ensures Backup(name, second) in h.files
    ensures var (h', r) := RestoreChecked(w, h, name, second, loaded, hint);
            && (r.Ok? ==> Entry(h'.files, Config(name)) == Some(h.files[Backup(name, second)]))
            && (Config(name) in h'.files && h'.files[Config(name)] != h.files[Config(name)] ==>
                  h'.files[Config(name)] == h.files[Backup(name, second)])
  {
    var (h1, _) := ReadFile(w, h, Config(name));
    var (h2, stored) := ReadFile(w, h1, Backup(name, second));
    if stored.Ok? {
      WriteOutcome(w, h2, name, stored.value, hint);
    }
  }

  // ---------------------------------------------------------------------
  // Any number of clients

  /**
   What clients do with one file. `text` is how a client serializes what it
   parsed; `contents` is the text of an edit of its loaded copy, and `edit`
   identifies the edit.
   */
  datatype ClientOp =
    | Load(client: nat, text: Bytes)
    | SaveEdit(client: nat, edit: nat, contents: Bytes)
    | RestoreBackupOf(client: nat, second: nat)

  /** The host, the copies the clients hold, and (history) the edits committed and not reverted. */
  datatype System = System(host: Host, loaded: map<nat, Bytes>, committed: set<nat>)

  /** `carries(bytes)` is the set of edits a text contains; equivalent texts contain the same. */
  ghost predicate CarriesMeaning(w: World, carries: Bytes -> set<nat>) {
    forall a, b :: JsonBytesEquivalent(w, a, b) ==> carries(a) == carries(b)
  }

  /** A client edits the copy it holds: the new text keeps the copy's edits and adds its own. */
  predicate Legal(w: World, s: System, op: ClientOp, carries: Bytes -> set<nat>) {
    match op
    case Load(_, _) => true
    case SaveEdit(client, edit, contents) =>
      client in s.loaded && carries(s.loaded[client]) + {edit} <= carries(contents)
    case RestoreBackupOf(client, _) => client in s.loaded
  }

  function Step(w: World, name: string, s: System, op: ClientOp, hint: Hint, carries: Bytes -> set<nat>): System
    requires Legal(w, s, op, carries)
  {
    match op
    case Load(client, text) =>
      var (h, read) := ReadFile(w, s.host, Config(name));
      if read.Ok? && JsonBytesEquivalent(w, read.value, text) then
        s.(host := h, loaded := s.loaded[client := text])
      else
        s.(host := h)
    case SaveEdit(client, edit, contents) =>
      var (h, r) := SaveChecked(w, s.host, name, s.loaded[client], contents, hint);
      if r.Ok? then
        System(h, s.loaded[client := contents], s.committed + {edit})
      else
        s.(host := h)
    case RestoreBackupOf(client, second) =>
      var (h, r) := RestoreChecked(w, s.host, name, second, s.loaded[client], hint);
      if r.Ok? || Entry(h.files, Config(name)) != Entry(s.host.files, Config(name)) then
        s.(host := h, committed := if Backup(name, second) in s.host.files
                                   then s.committed * carries(s.host.files[Backup(name, second)])
                                   else s.committed)
      else
        s.(host := h)
  }

  ghost predicate Reaches(w: World, name: string, s: System, ops: seq<ClientOp>, hint: Hint,
                          carries: Bytes -> set<nat>, t: System)
    decreases |ops|
  {
    if ops == [] then s == t
    else Legal(w, s, ops[0], carries)
         && Reaches(w, name, Step(w, name, s, ops[0], hint, carries), ops[1..], hint, carries, t)
  }

  /** Some backup of the file contains every committed edit. */
  ghost predicate BackedUp(name: string, s: System, carries: Bytes -> set<nat>) {
    exists second: nat ::
      Backup(name, second) in s.host.files && s.committed <= carries(s.host.files[Backup(name, second)])
  }

  /** The live file contains every committed edit; when there is none, a backup does (or no edit is committed). */
  ghost predicate NothingLost(name: string, s: System, carries: Bytes -> set<nat>) {
    if Config(name) in s.host.files then s.committed <= carries(s.host.files[Config(name)])
    else s.committed == {} || BackedUp(name, s, carries)
  }

  /** A save whose conflict check is switched off by a misread, although it would have found a conflict. */
  predicate Blind(w: World, name: string, s: System, op: ClientOp) {
    && op.SaveEdit? && op.client in s.loaded && Config(name) in s.host.files
    && w.fault(s.host.calls) == RefusedAsMissing
    && !JsonBytesEquivalent(w, s.host.files[Config(name)], s.loaded[op.client])
  }

  ghost predicate NeverBlind(w: World, name: string, s: System, ops: seq<ClientOp>, hint: Hint,
                             carries: Bytes -> set<nat>)
    decreases |ops|
  {
    ops != [] && Legal(w, s, ops[0], carries) ==>
      && !Blind(w, name, s, ops[0])
      && NeverBlind(w, name, Step(w, name, s, ops[0], hint, carries), ops[1..], hint, carries)
  }

  /** A change of the live file, in place or away, leaves the version before it in a backup. */
  lemma SaveLeavesBackup(w: World, h: Host, name: string, loaded: Bytes, contents: Bytes, hint: Hint)
    requires Config(name) in h.files
    ensures var (h', r) := SaveChecked(w, h, name, loaded, contents, hint);
            Entry(h'.files, Config(name)) != Entry(h.files, Config(name)) ==>
              && (Config(name) in h'.files ==> h'.files[Config(name)] == contents)
              && exists second: nat :: Entry(h'.files, Backup(name, second)) == Entry(h.files, Config(name))
  {
    WriteOutcome(w, ReadFile(w, h, Config(name)).0, name, contents, hint);
  }

  lemma RestoreLeavesBackup(w: World, h: Host, name: string, second: nat, loaded: Bytes, hint: Hint)
    requires Config(name) in h.files
    ensures var (h', r) := RestoreChecked(w, h, name, second, loaded, hint);
            Entry(h'.files, Config(name)) != Entry(h.files, Config(name)) ==>
              && Backup(name, second) in h.files
              && (Config(name) in h'.files ==> h'.files[Config(name)] == h.files[Backup(name, second)])
              && exists later: nat :: Entry(h'.files, Backup(name, later)) == Entry(h.files, Config(name))
  {
    var (h1, _) := ReadFile(w, h, Config(name));
    var (h2, stored) := ReadFile(w, h1, Backup(name, second));
    if stored.Ok? {
      WriteOutcome(w, h2, name, stored.value, hint);
    }
  }

  lemma RestoreNeverCreates(w: World, h: Host, name: string, second: nat, loaded: Bytes, hint: Hint)
    requires Config(name) !in h.files
    ensures var (h', r) := RestoreChecked(w, h, name, second, loaded, hint);
            h'.files == h.files && r == Err(ReadFailed)
  {
  }

  lemma SaveStep(w: World, name: string, s: System, op: ClientOp, hint: Hint, carries: Bytes -> set<nat>)
    requires CarriesMeaning(w, carries) && op.SaveEdit? && Legal(w, s, op, carries)
    requires NothingLost(name, s, carries) && !Blind(w, name, s, op)
    ensures NothingLost(name, Step(w, name, s, op, hint, carries), carries)
  {
    var mine, files := s.loaded[op.client], s.host.files;
    var (h, r) := SaveChecked(w, s.host, name, mine, op.contents, hint);
    if Config(name) !in files {
      SaveNeverCreates(w, s.host, name, mine, op.contents, hint);
    } else {
      SaveCheckedOutcome(w, s.host, name, mine, op.contents, hint);
      SaveLeavesBackup(w, s.host, name, mine, op.contents, hint);
      if r.Ok? || Entry(h.files, Config(name)) != Entry(files, Config(name)) {
        assert JsonBytesEquivalent(w, files[Config(name)], mine);
        assert carries(files[Config(name)]) == carries(mine);
      }
    }
  }

  lemma RestoreStep(w: World, name: string, s: System, op: ClientOp, hint: Hint, carries: Bytes -> set<nat>)
    requires op.RestoreBackupOf? && Legal(w, s, op, carries)
    requires NothingLost(name, s, carries)
    ensures NothingLost(name, Step(w, name, s, op, hint, carries), carries)
  {
    var mine, files := s.loaded[op.client], s.host.files;
    var (h, r) := RestoreChecked(w, s.host, name, op.second, mine, hint);
    if Config(name) !in files {
      RestoreNeverCreates(w, s.host, name, op.second, mine, hint);
    } else {
      RestoreCheckedOutcome(w, s.host, name, op.second, mine, hint);
      RestoreLeavesBackup(w, s.host, name, op.second, mine, hint);
    }
  }

  /**
   No update is lost: take any number of clients, loading, editing, saving and
   restoring in any order, with any faults, as long as no misread switches off a
   conflict check that would have found a conflict. An edit whose save was
   acknowledged stays in the live file until some client restores a backup
   without it; and when a replacement leaves no live file, one backup contains
   all of them.
   */
  lemma {:induction false} NoUpdateLost(w: World, name: string, s: System, ops: seq<ClientOp>, hint: Hint,
                                        carries: Bytes -> set<nat>, t: System)
    requires CarriesMeaning(w, carries)
    requires NeverBlind(w, name, s, ops, hint, carries)
    requires Reaches(w, name, s, ops, hint, carries, t) && NothingLost(name, s, carries)
    ensures NothingLost(name, t, carries)
    decreases |ops|
  {
    if ops != [] {
      match ops[0] {
        case SaveEdit(_, _, _) => SaveStep(w, name, s, ops[0], hint, carries);
        case RestoreBackupOf(_, _) => RestoreStep(w, name, s, ops[0], hint, carries);
        case Load(_, _) =>
      }
      NoUpdateLost(w, name, Step(w, name, s, ops[0], hint, carries), ops[1..], hint, carries, t);
    }
  }

  const DERAILED: World := Scheduled([Works, Works, Works, Works, Refused, Works, Refused, Refused], true)

  lemma SaveLosesFile(name: string)
    ensures var (h, r) := SaveChecked(DERAILED, OneFile(name), name, OLD, NEW, UNTESTED);
            r.Err? && Config(name) !in h.files && Entry(h.files, Backup(name, 0)) == Some(OLD)
  {
    var h1 := ReadFile(DERAILED, OneFile(name), Config(name)).0;
    var h3 := CreateBackup(DERAILED, h1, name).0;
    assert h3.files == map[Config(name) := OLD, Backup(name, 0) := OLD] && h3.calls == 3;
  }

  /** One save from the live copy, its replacement derailed: no live file, and the committed edit in the backup. */
  lemma EditSurvivesInBackup(name: string, carries: Bytes -> set<nat>)
    requires carries(OLD) == {1} && carries(NEW) == {1, 2}
    ensures var s := System(OneFile(name), map[0 := OLD], {1});
            Legal(DERAILED, s, SaveEdit(0, 2, NEW), carries) &&
            var t := Step(DERAILED, name, s, SaveEdit(0, 2, NEW), UNTESTED, carries);
            && t.committed == {1} && Config(name) !in t.host.files && NothingLost(name, t, carries)
  {
    SaveLosesFile(name);
    var s := System(OneFile(name), map[0 := OLD], {1});
    assert carries(s.loaded[0]) + {2} == carries(NEW);
    var t := Step(DERAILED, name, s, SaveEdit(0, 2, NEW), UNTESTED, carries);
    assert t.host == SaveChecked(DERAILED, OneFile(name), name, OLD, NEW, UNTESTED).0;
    assert Backup(name, 0) in t.host.files && t.committed <= carries(t.host.files[Backup(name, 0)]);
  }
}
