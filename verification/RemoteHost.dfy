/**
 The files of the managed host as one SSH session sees them, call by call, and
 the "atomic" replacement of a file that is built from four renames.

 Every call may go wrong in its own way. The world fixes, for call number `k`,
 how it goes (`fault(k)`) and what the clock shows (`clock(k)`, nanoseconds), so
 a statement for all worlds is a statement for all fault schedules. A lost
 connection is a schedule that refuses everything from some call on.
 */
module RemoteHost {
  import opened Basics

  newtype byte = x: int | 0 <= x < 256

  type Bytes = seq<byte>

  /**
   Remote files by role: a configuration file, the temporary and the set-aside
   sibling of one (stamped in nanoseconds), and a backup of one (stamped in
   seconds). `BackupNames` shows that the rendered names keep the roles apart.
   */
  datatype Path =
    | Config(name: string)
    | Temp(name: string, nanos: nat)
    | Aside(name: string, nanos: nat)
    | Backup(name: string, second: nat)

  datatype Fault =
    | Works
    | Refused            // no effect, an error is reported
    | RefusedAsMissing   // the same, and the error text says "not found"
    | Unacknowledged     // the effect happens, an error is reported all the same
    | Cut(kept: nat)     // a write stops after `kept` bytes; any other call has no effect
  {
    predicate Refuses() {
      Refused? || RefusedAsMissing? || Cut?
    }
  }

  datatype Json =
    | Null
    | Boolean(b: bool)
    | Number(digits: string)
    | Str(text: string)
    | Array(items: seq<Json>)
    | Object(members: map<string, Json>)

  /** What `xray run -test` is pointed at. */
  datatype TestTarget = ConfigFile(name: string) | ConfDir(dir: string)

  /** The environment: faults, clock, the core's verdict on a set of files, the JSON parser. */
  datatype World = World(
    fault: nat -> Fault,
    clock: nat -> nat,
    accepts: (TestTarget, Files) -> bool,
    parse: Bytes -> Option<Json>)

  type Files = map<Path, Bytes>

  /** The host's files and the number of calls made so far. */
  datatype Host = Host(files: Files, calls: nat)

  function Entry(files: Files, p: Path): Option<Bytes> {
    if p in files then Some(files[p]) else None
  }

  datatype ReadError = Missing | Unreadable

  // ---------------------------------------------------------------------
  // Single calls

  function ReadFile(w: World, h: Host, p: Path): (Host, Result<Bytes, ReadError>) {
    (Host(h.files, h.calls + 1),
     match w.fault(h.calls)
     case Works => if p in h.files then Ok(h.files[p]) else Err(Missing)
     case RefusedAsMissing => Err(Missing)
     case _ => Err(Unreadable))
  }

  /** Create or truncate, then write: not atomic. */
  function WriteFile(w: World, h: Host, p: Path, contents: Bytes): (Host, bool) {
    match w.fault(h.calls)
    case Works => (Host(h.files[p := contents], h.calls + 1), true)
    case Unacknowledged => (Host(h.files[p := contents], h.calls + 1), false)
    case Cut(kept) => (Host(h.files[p := contents[..Min(kept, |contents|)]], h.calls + 1), false)
    case _ => (Host(h.files, h.calls + 1), false)
  }

  function RemoveFile(w: World, h: Host, p: Path): (Host, bool) {
    match w.fault(h.calls)
    case Works => (Host(h.files - {p}, h.calls + 1), p in h.files)
    case Unacknowledged => (Host(h.files - {p}, h.calls + 1), false)
    case _ => (Host(h.files, h.calls + 1), false)
  }

  function Move(files: Files, from: Path, to: Path): Files
    requires from in files
  {
    files[to := files[from]] - (if from == to then {} else {from})
  }

  /** A server that refuses to rename onto an existing file is a world that refuses this call. */
  function RenameFile(w: World, h: Host, from: Path, to: Path): (Host, bool) {
    if from in h.files && (w.fault(h.calls).Works? || w.fault(h.calls).Unacknowledged?) then
      (Host(Move(h.files, from, to), h.calls + 1), w.fault(h.calls).Works?)
    else
      (Host(h.files, h.calls + 1), false)
  }

  /** A "no such file" status is taken for an answer, not for a failure. */
  function PathIsFile(w: World, h: Host, p: Path): (Host, Option<bool>) {
    (Host(h.files, h.calls + 1),
     match w.fault(h.calls)
     case Works => Some(p in h.files)
     case RefusedAsMissing => Some(false)
     case _ => None)
  }

  // ---------------------------------------------------------------------
  // The atomic replacement

  /**
   Write a temporary sibling and rename it into place; when that rename fails,
   move the live file aside, rename again, and on failure try to move it back.
   */
  function WriteFileAtomic(w: World, h: Host, name: string, contents: Bytes): (Host, bool) {
    var temp := Temp(name, w.clock(h.calls));
    var (h1, written) := WriteFile(w, h, temp, contents);
    if !written then
      (RemoveFile(w, h1, temp).0, false)
    else
      var (h2, replaced) := RenameFile(w, h1, temp, Config(name));
      if replaced then (h2, true) else DisplaceAndReplace(w, h2, name, temp)
  }

  function DisplaceAndReplace(w: World, h: Host, name: string, temp: Path): (Host, bool) {
    var aside := Aside(name, w.clock(h.calls));
    var (h1, displaced) := RenameFile(w, h, Config(name), aside);
    if !displaced then (h1, false)
    else
      var (h2, replaced) := RenameFile(w, h1, temp, Config(name));
      if replaced then (RemoveFile(w, h2, aside).0, true)
      else (RenameFile(w, h2, aside, Config(name)).0, false)
  }

  /**
   The schedules under which the replacement starting at call `t` can report
   failure and still not leave the live file as it was: a rename whose effect
   is not acknowledged, or a refused rename followed by a refused undo.
   */
  predicate Derails(w: World, t: nat) {
    && w.fault(t).Works?
    && (|| w.fault(t + 1).Unacknowledged?
        || (w.fault(t + 1).Refuses() && w.fault(t + 2).Unacknowledged?)
        || (w.fault(t + 1).Refuses() && w.fault(t + 2).Works?
            && !w.fault(t + 3).Works? && w.fault(t + 4).Refuses()))
  }

  /** Everything but the live file and its temporary and set-aside siblings. */
  ghost predicate OnlyTouches(name: string, before: Files, after: Files) {
    forall p: Path | p != Config(name) && (p.Config? || p.Backup?) :: Entry(after, p) == Entry(before, p)
  }

  lemma DisplaceOutcome(w: World, h: Host, name: string, temp: Path)
    requires temp.Temp?
    ensures var (h', ok) := DisplaceAndReplace(w, h, name, temp);
            && OnlyTouches(name, h.files, h'.files)
            && (ok ==> Entry(h'.files, Config(name)) == Entry(h.files, temp) != None)
            && (Entry(h'.files, Config(name)) == Entry(h.files, Config(name))
                || Entry(h'.files, Config(name)) == Entry(h.files, temp)
                || Entry(h'.files, Config(name)) == None)
            && (!ok && Config(name) !in h.files ==> Config(name) !in h'.files)
  {
  }

  /** For every schedule: success means the new bytes are live; the live file holds old, new or nothing. */
  lemma AtomicOutcome(w: World, h: Host, name: string, contents: Bytes)
    ensures var (h', ok) := WriteFileAtomic(w, h, name, contents);
            && OnlyTouches(name, h.files, h'.files)
            && (ok ==> Entry(h'.files, Config(name)) == Some(contents))
            && (Entry(h'.files, Config(name)) == Entry(h.files, Config(name))
                || Entry(h'.files, Config(name)) == Some(contents)
                || Entry(h'.files, Config(name)) == None)
  {
    var temp := Temp(name, w.clock(h.calls));
    var (h1, written) := WriteFile(w, h, temp, contents);
    if written {
      var (h2, replaced) := RenameFile(w, h1, temp, Config(name));
      if !replaced {
        DisplaceOutcome(w, h2, name, temp);
      }
    }
  }

  /** The second half, after a refused rename: the temporary file is there, and the live one is untouched. */
  lemma DisplaceHarmless(w: World, h: Host, name: string, temp: Path)
    requires temp.Temp? && temp in h.files && Config(name) in h.files && h.files[temp] != h.files[Config(name)]
    requires !DisplaceAndReplace(w, h, name, temp).1
    ensures Entry(DisplaceAndReplace(w, h, name, temp).0.files, Config(name)) == Entry(h.files, Config(name))
            <==> !(|| w.fault(h.calls).Unacknowledged?
                   || (w.fault(h.calls).Works? && !w.fault(h.calls + 1).Works? && w.fault(h.calls + 2).Refuses()))
  {
  }

  /** An unacknowledged rename: the temporary file is gone, so no later rename brings the old bytes back in time. */
  lemma UnacknowledgedRename(w: World, h: Host, name: string, temp: Path, live: Bytes)
    requires temp.Temp? && temp !in h.files && Config(name) in h.files && h.files[Config(name)] != live
    requires !DisplaceAndReplace(w, h, name, temp).1
    ensures Entry(DisplaceAndReplace(w, h, name, temp).0.files, Config(name)) != Some(live)
  {
  }

  /** Exactly when a failed replacement of an existing file by other bytes is harmless. */
  lemma AtomicFailureHarmless(w: World, h: Host, name: string, contents: Bytes)
    requires Config(name) in h.files && h.files[Config(name)] != contents
    requires !WriteFileAtomic(w, h, name, contents).1
    ensures Entry(WriteFileAtomic(w, h, name, contents).0.files, Config(name)) == Entry(h.files, Config(name))
            <==> !Derails(w, h.calls)
  {
    var temp := Temp(name, w.clock(h.calls));
    var (h1, written) := WriteFile(w, h, temp, contents);
    if written {
      var (h2, _) := RenameFile(w, h1, temp, Config(name));
      if w.fault(h1.calls).Unacknowledged? {
        UnacknowledgedRename(w, h2, name, temp, h.files[Config(name)]);
      } else {
        DisplaceHarmless(w, h2, name, temp);
      }
    }
  }

  /** The same bytes stay live at any rate when nothing derails. */
  lemma AtomicSameBytes(w: World, h: Host, name: string, contents: Bytes)
    requires Entry(h.files, Config(name)) == Some(contents)
    requires !WriteFileAtomic(w, h, name, contents).1 && !Derails(w, h.calls)
    ensures Entry(WriteFileAtomic(w, h, name, contents).0.files, Config(name)) == Some(contents)
  {
  }

  /** The schedules under which a failed replacement of an absent file still puts it there. */
  predicate Resurrects(w: World, t: nat) {
    && w.fault(t).Works?
    && w.fault(t + 1).Unacknowledged?
    && (w.fault(t + 2).Refuses() || (w.fault(t + 2).Works? && !w.fault(t + 4).Refuses()))
  }

  lemma AtomicFailureAbsent(w: World, h: Host, name: string, contents: Bytes)
    requires Config(name) !in h.files
    requires !WriteFileAtomic(w, h, name, contents).1
    ensures Config(name) !in WriteFileAtomic(w, h, name, contents).0.files <==> !Resurrects(w, h.calls)
  {
  }

  // ---------------------------------------------------------------------
  // Schedules that show it

  /** A world in which the first calls go as listed and all later ones work. */
  function Scheduled(faults: seq<Fault>, accepts: bool): World {
    World((k: nat) => if k < |faults| then faults[k] else Works, _ => 0, (_, _) => accepts, _ => None)
  }

  const OLD: Bytes := [1]
  const NEW: Bytes := [2, 3]

  function OneFile(name: string): Host {
    Host(map[Config(name) := OLD], 0)
  }

  /** A refused rename, and the undo refused as well: no live file is left. */
  lemma AtomicLosesFile(name: string)
    ensures var w := Scheduled([Works, Refused, Works, Refused, Refused], true);
            var (h', ok) := WriteFileAtomic(w, OneFile(name), name, NEW);
            !ok && Config(name) !in h'.files
  {
  }

  /** A rename that is not acknowledged: failure is reported, the new bytes are live. */
  lemma AtomicFailsAfterEffect(name: string)
    ensures var w := Scheduled([Works, Unacknowledged, Refused], true);
            var (h', ok) := WriteFileAtomic(w, OneFile(name), name, NEW);
            !ok && Entry(h'.files, Config(name)) == Some(NEW)
  {
  }
}
