/**
 The WARP integration: a device registration, an outbound in the Xray
 configuration built from it, and an ownership marker naming that outbound.
 The three live in different remote files, and every step between them may fail.
 */
module Warp {
  import opened Basics
  import opened Text

  datatype Outbound = Outbound(tag: Option<string>, body: string)

  /** The configuration as the program edits it: its outbounds, and the routing that may refer to them. */
  datatype Config = Config(outbounds: seq<Outbound>, routing: string)

  datatype Marker = Marker(tag: string, managed: bool)

  datatype Remote = Remote(registration: Option<string>, config: Option<Config>, marker: Option<Marker>)

  /**
   What the helper and the scanners compute: the outbound body generated from a
   registration, whether a body has the required WireGuard fields, and whether
   the routing refers to a tag.
   */
  datatype Env = Env(
    credentials: string -> string,
    wireguard: string -> bool,
    referenced: (string, string) -> bool)

  /** How replacing a file can end; `WarpWrites` shows there is no fifth way. */
  datatype Replacing =
    | Done
    | Undone          // reported as failed, old contents in place
    | DoneUnreported  // reported as failed, new contents in place
    | Displaced       // reported as failed, no file in place

  function Written<T>(how: Replacing, before: Option<T>, next: T): Option<T> {
    match how
    case Done => Some(next)
    case Undone => before
    case DoneUnreported => Some(next)
    case Displaced => None
  }

  datatype Removing = Removed | NotRemoved | RemovedUnreported

  datatype Check = Compared | MisreadAsMissing | ReadRefused

  /** `test -f` over the shell: any other exit than 0 reads as "absent". */
  datatype Probe = Answered | FalselyAbsent | ProbeFailed

  /** One answer for each remote call an operation may make. */
  datatype Faults = Faults(
    markerRead: bool,
    helperFound: bool,
    backupProbe: Probe,
    backup: bool,
    prepare: bool,              // the work directory
    probe: Probe,               // is a device registered?
    removeOld: Removing,
    left: Option<string>,       // the registration file after the helper ran
    registered: bool,           // the helper exited with 0
    chmod: bool,
    generate: bool,
    check: Check,
    commit: Replacing,
    restore: Replacing,
    marker: Replacing,
    report: bool)

  // ---------------------------------------------------------------------
  // Editing the configuration

  predicate Tagged(o: Outbound, tag: string) {
    o.tag.Some? && EqIgnoreCase(o.tag.value, tag)
  }

  /** The position of the first outbound with this tag, or the number of outbounds. */
  function Find(outbounds: seq<Outbound>, tag: string): (i: nat)
    ensures i <= |outbounds|
    ensures i < |outbounds| ==> Tagged(outbounds[i], tag)
    ensures forall j :: 0 <= j < i ==> !Tagged(outbounds[j], tag)
  {
    if outbounds == [] || Tagged(outbounds[0], tag) then 0 else 1 + Find(outbounds[1..], tag)
  }

  predicate Has(c: Config, tag: string) {
    Find(c.outbounds, tag) < |c.outbounds|
  }

  function AddOutbound(c: Config, tag: string, body: string): Option<Config> {
    if Trim(tag) == [] || Has(c, Trim(tag)) then None
    else Some(c.(outbounds := c.outbounds + [Outbound(Some(tag), body)]))
  }

  function ReplaceOutbound(c: Config, tag: string, body: string): Option<Config> {
    var i := Find(c.outbounds, Trim(tag));
    if Trim(tag) == [] || i == |c.outbounds| then None
    else if exists j | 0 <= j < |c.outbounds| :: j != i && Tagged(c.outbounds[j], Trim(tag)) then None
    else Some(c.(outbounds := c.outbounds[i := Outbound(Some(tag), body)]))
  }

  /** Refused while the routing still refers to the outbound. */
  function RemoveOutbound(env: Env, c: Config, tag: string): Option<Config> {
    var i := Find(c.outbounds, Trim(tag));
    if Trim(tag) == [] || i == |c.outbounds| || env.referenced(c.routing, Trim(tag)) then None
    else Some(c.(outbounds := c.outbounds[..i] + c.outbounds[i + 1..]))
  }

  // ---------------------------------------------------------------------
  // Proposed tags

  const DEFAULT_TAG: string := "warp-out"
  const LAST_CANDIDATE: nat := 10_000

  predicate Taken(existing: seq<string>, tag: string) {
    exists i | 0 <= i < |existing| :: EqIgnoreCase(existing[i], tag)
  }

  function Base(preferred: string): string {
    if Trim(preferred) == [] then DEFAULT_TAG else Trim(preferred)
  }

  function Candidate(base: string, n: nat): string {
    base + "-" + Decimal(n)
  }

  /** The first free candidate from number `n` on, or the fallback. */
  function FreeCandidate(existing: seq<string>, base: string, suffix: string, n: nat): string
    decreases LAST_CANDIDATE + 1 - n
  {
    if n > LAST_CANDIDATE then base + "-" + suffix
    else if !Taken(existing, Candidate(base, n)) then Candidate(base, n)
    else FreeCandidate(existing, base, suffix, n + 1)
  }

  /** `suffix` is the hexadecimal clock reading of the last resort. */
  function SuggestedTag(existing: seq<string>, preferred: string, suffix: string): string {
    if !Taken(existing, Base(preferred)) then Base(preferred)
    else FreeCandidate(existing, Base(preferred), suffix, 2)
  }

  function Tags(outbounds: seq<Outbound>): seq<string> {
    if outbounds == [] then []
    else (if outbounds[0].tag.Some? then [outbounds[0].tag.value] else []) + Tags(outbounds[1..])
  }

  // ---------------------------------------------------------------------
  // Remote steps

  /** What the probe of the registration file answers. */
  function Found(s: Remote, p: Probe): bool {
    p.Answered? && s.registration.Some?
  }

  /** Registers a device; `force` removes an existing registration first. */
  function Register(s: Remote, f: Faults, force: bool): (Remote, bool) {
    if !f.prepare || f.probe.ProbeFailed? then (s, false)
    else if Found(s, f.probe) && !force then (s, true)
    else if Found(s, f.probe) && f.removeOld.NotRemoved? then (s, false)
    else if Found(s, f.probe) && f.removeOld.RemovedUnreported? then (s.(registration := None), false)
    else (s.(registration := f.left), f.registered && f.chmod)
  }

  /** Copies the registration aside: fails, or yields the copy, or nothing when it sees no registration. */
  function BackUpRegistration(s: Remote, f: Faults): Option<Option<string>> {
    if f.backupProbe.ProbeFailed? then None
    else if !Found(s, f.backupProbe) then Some(None)
    else if f.backup then Some(s.registration)
    else None
  }

  /** The outbound body for the registration that is there. */
  function Generate(env: Env, s: Remote, f: Faults): Option<string> {
    if s.registration.Some? && f.generate then Some(env.credentials(s.registration.value)) else None
  }

  /** Conflict check against the loaded copy, then the validated write. */
  function Commit(s: Remote, f: Faults, loaded: Config, next: Config): (Remote, bool) {
    if s.config.None? || f.check.ReadRefused? || (f.check.Compared? && s.config != Some(loaded)) then (s, false)
    else (s.(config := Written(f.commit, s.config, next)), f.commit.Done?)
  }

  function WriteMarker(s: Remote, f: Faults, m: Marker): (Remote, bool) {
    (s.(marker := Written(f.marker, s.marker, m)), f.marker.Done?)
  }

  /** Best effort: puts the backed-up registration back, when there was one. */
  function RestoreRegistration(s: Remote, f: Faults, backup: Option<string>): Remote {
    if backup.None? then s
    else s.(registration := Written(f.restore, s.registration, backup.value))
  }

  /** Commit, then write the marker: the write's success, and the whole step's. */
  function CommitAndMark(s: Remote, f: Faults, loaded: Config, next: Config, m: Marker): (Remote, bool, bool) {
    var (s1, committed) := Commit(s, f, loaded, next);
    if !committed then (s1, false, false)
    else
      var (s2, marked) := WriteMarker(s1, f, m);
      (s2, true, marked && f.report)
  }

  // ---------------------------------------------------------------------
  // Operations: the new remote state and, on success, the copy the client now holds

  datatype Proposal = Proposal(tag: string, config: Config)

  /** Registers if needed, generates an outbound and adds it to the loaded copy under a fresh tag. */
  function PrepareSetup(env: Env, s: Remote, loaded: Config, preferred: string, suffix: string, f: Faults)
    : (Remote, Option<Proposal>)
  {
    if !f.helperFound then (s, None)
    else
      var (s1, registered) := Register(s, f, false);
      var body := Generate(env, s1, f);
      if !registered || body.None? then (s1, None)
      else
        var tag := SuggestedTag(Tags(loaded.outbounds), preferred, suffix);
        var next := AddOutbound(loaded, tag, body.value);
        (s1, if next.Some? then Some(Proposal(tag, next.value)) else None)
  }

  function Setup(env: Env, s: Remote, loaded: Config, preferred: string, suffix: string, f: Faults)
    : (Remote, Option<Config>)
  {
    var (s1, p) := PrepareSetup(env, s, loaded, preferred, suffix, f);
    if p.None? then (s1, None)
    else
      var (s2, _, done) := CommitAndMark(s1, f, loaded, p.value.config, Marker(p.value.tag, true));
      (s2, if done then Some(p.value.config) else None)
  }

  /** The tag to mark, when the loaded copy has a fit outbound under it. */
  function PrepareAdoption(env: Env, loaded: Config, wanted: Option<string>): Option<string> {
    if wanted.None? then None
    else
      var tag := Trim(wanted.value);
      if tag == [] || !Has(loaded, tag) || !env.wireguard(loaded.outbounds[Find(loaded.outbounds, tag)].body) then None
      else Some(tag)
  }

  function Adopt(env: Env, s: Remote, loaded: Config, wanted: Option<string>, f: Faults): (Remote, Option<Config>) {
    var tag := PrepareAdoption(env, loaded, wanted);
    if tag.None? then (s, None)
    else
      var (s1, marked) := WriteMarker(s, f, Marker(tag.value, true));
      (s1, if marked && f.report then Some(loaded) else None)
  }

  /** The marker the operation acts on, when it can be read and marks a managed outbound. */
  function ManagedMarker(s: Remote, f: Faults): Option<Marker> {
    if f.markerRead && s.marker.Some? && s.marker.value.managed then s.marker else None
  }

  /** A new registration and the configuration carrying its credentials; the registration may change either way. */
  function PrepareRegenerate(env: Env, s: Remote, loaded: Config, tag: string, f: Faults)
    : (Remote, Option<Config>)
  {
    var (s1, registered) := Register(s, f, true);
    var body := Generate(env, s1, f);
    (s1, if registered && body.Some? then ReplaceOutbound(loaded, tag, body.value) else None)
  }

  function Regenerate(env: Env, s: Remote, loaded: Config, f: Faults): (Remote, Option<Config>) {
    var m := ManagedMarker(s, f);
    var taken := BackUpRegistration(s, f);
    if m.None? || !f.helperFound || taken.None? then (s, None)
    else
      var backup := taken.value;
      var (s1, next) := PrepareRegenerate(env, s, loaded, m.value.tag, f);
      if next.None? then (RestoreRegistration(s1, f, backup), None)
      else
        var (s2, committed, done) := CommitAndMark(s1, f, loaded, next.value, m.value);
        if !committed then (RestoreRegistration(s2, f, backup), None)
        else (s2, if done then next else None)
  }

  function RemoveIntegration(env: Env, s: Remote, loaded: Config, f: Faults): (Remote, Option<Config>) {
    var m := ManagedMarker(s, f);
    if m.None? then (s, None)
    else
      var next := RemoveOutbound(env, loaded, m.value.tag);
      if next.None? then (s, None)
      else
        var (s1, _, done) := CommitAndMark(s, f, loaded, next.value, Marker(m.value.tag, false));
        (s1, if done then next else None)
  }

  datatype Op =
    | SetupOp(preferred: string, suffix: string)
    | AdoptOp(wanted: Option<string>)
    | RegenerateOp
    | RemoveOp

  /** An operation, the copy of the configuration it starts from, and how its remote calls go. */
  datatype Call = Call(op: Op, loaded: Option<Config>, faults: Faults)

  function Step(env: Env, s: Remote, call: Call): (Remote, Option<Config>) {
    if call.loaded.None? then (s, None)
    else
      var loaded := call.loaded.value;
      match call.op
      case SetupOp(preferred, suffix) => Setup(env, s, loaded, preferred, suffix, call.faults)
      case AdoptOp(wanted) => Adopt(env, s, loaded, wanted, call.faults)
      case RegenerateOp => Regenerate(env, s, loaded, call.faults)
      case RemoveOp => RemoveIntegration(env, s, loaded, call.faults)
  }

  function Run(env: Env, s: Remote, calls: seq<Call>): Remote
    decreases |calls|
  {
    if calls == [] then s else Run(env, Step(env, s, calls[0]).0, calls[1..])
  }
}
