/** The WARP operations as the program performs them: remote state changed step by step, with early returns. */
module WarpSession {
  import opened Basics
  import opened Text
  import opened Warp
  import opened WarpConsistency
  import opened WarpGuarantees
  import WarpTags

  /** What a success report of setup or regeneration can be trusted for. */
  lemma TrustSetup(env: Env, s: Remote, call: Call)
    requires (call.op.SetupOp? || call.op.RegenerateOp?) && OpFits(call.op) && MarkerFits(s)
    ensures var (s', copy) := Step(env, s, call);
            copy.Some? ==> Managed(s') && Matching(env, s', s'.marker.value.tag) && s'.config == copy
  {
    if Step(env, s, call).1.Some? {
      SuccessMatches(env, s, call);
    }
  }

  class Session {
    const env: Env
    var registration: Option<string>
    var config: Option<Config>
    var marker: Option<Marker>

    function State(): Remote
      reads this
    {
      Remote(registration, config, marker)
    }

    constructor (env: Env, start: Remote)
      ensures this.env == env && State() == start
    {
      this.env := env;
      registration, config, marker := start.registration, start.config, start.marker;
    }

    // -------------------------------------------------------------------
    // Remote steps

    method Register(f: Faults, force: bool) returns (ok: bool)
      modifies this`registration
      ensures (State(), ok) == Warp.Register(old(State()), f, force)
    {
      if !f.prepare {
        return false;
      }
      var present := ProbeRegistration(f.probe);
      if present.None? {
        return false;
      }
      if present.value && !force {
        return true;
      }
      if present.value && force {
        if f.removeOld.NotRemoved? {
          return false;
        }
        registration := None;
        if f.removeOld.RemovedUnreported? {
          return false;
        }
      }
      registration := f.left;
      ok := f.registered && f.chmod;
    }

    method ProbeRegistration(p: Probe) returns (present: Option<bool>)
      ensures present == if p.ProbeFailed? then None else Some(Found(State(), p))
    {
      match p {
        case ProbeFailed => present := None;
        case FalselyAbsent => present := Some(false);
        case Answered => present := Some(registration.Some?);
      }
    }

    method BackUpRegistration(f: Faults) returns (taken: Option<Option<string>>)
      ensures taken == Warp.BackUpRegistration(State(), f)
    {
      var present := ProbeRegistration(f.backupProbe);
      if present.None? {
        return None;
      }
      if !present.value {
        return Some(None);
      }
      taken := if f.backup then Some(registration) else None;
    }

    method GenerateOutbound(f: Faults) returns (body: Option<string>)
      ensures body == Generate(env, State(), f)
    {
      if registration.None? || !f.generate {
        return None;
      }
      body := Some(env.credentials(registration.value));
    }

    method WriteWithConflictCheck(f: Faults, loaded: Config, next: Config) returns (ok: bool)
      modifies this`config
      ensures (State(), ok) == Commit(old(State()), f, loaded, next)
    {
      match f.check {
        case ReadRefused => return false;
        case Compared =>
          if config != Some(loaded) {
            return false;
          }
        case MisreadAsMissing => // taken for a brand-new file
      }
      if config.None? {
        return false; // no file to back up
      }
      config := Written(f.commit, config, next);
      ok := f.commit.Done?;
    }

    method WriteOwnership(f: Faults, m: Marker) returns (ok: bool)
      modifies this`marker
      ensures (State(), ok) == WriteMarker(old(State()), f, m)
    {
      marker := Written(f.marker, marker, m);
      ok := f.marker.Done?;
    }

    method RestoreBackupBestEffort(f: Faults, backup: Option<string>)
      modifies this`registration
      ensures State() == RestoreRegistration(old(State()), f, backup)
    {
      if backup.Some? {
        registration := Written(f.restore, registration, backup.value);
      }
    }

    // -------------------------------------------------------------------
    // Operations

    method Setup(loaded: Config, preferred: string, suffix: string, f: Faults) returns (copy: Option<Config>)
      modifies this
      ensures (State(), copy) == Warp.Setup(env, old(State()), loaded, preferred, suffix, f)
      ensures MarkerFits(old(State())) && SuffixFits(suffix) && copy.Some? ==>
                Managed(State()) && Matching(env, State(), marker.value.tag) && config == copy
    {
      if MarkerFits(State()) && SuffixFits(suffix) {
        TrustSetup(env, State(), Call(SetupOp(preferred, suffix), Some(loaded), f));
      }
      if !f.helperFound {
        return None;
      }
      var registered := Register(f, false);
      if !registered {
        return None;
      }
      var body := GenerateOutbound(f);
      if body.None? {
        return None;
      }
      var tag := WarpTags.SuggestUniqueTag(Tags(loaded.outbounds), preferred, suffix);
      var editable := AddOutbound(loaded, tag, body.value);
      if editable.None? {
        return None;
      }
      var committed := WriteWithConflictCheck(f, loaded, editable.value);
      if !committed {
        return None;
      }
      var marked := WriteOwnership(f, Marker(tag, true));
      copy := if marked && f.report then editable else None;
    }

    method Adopt(loaded: Config, wanted: Option<string>, f: Faults) returns (copy: Option<Config>)
      modifies this
      ensures (State(), copy) == Warp.Adopt(env, old(State()), loaded, wanted, f)
      ensures MarkerFits(old(State())) && Covered(old(State())) ==>
                (Covered(State()) <==> !Exposes(env, old(State()), Call(AdoptOp(wanted), Some(loaded), f)))
    {
      if MarkerFits(State()) && Covered(State()) {
        StepCovers(env, State(), Call(AdoptOp(wanted), Some(loaded), f));
      }
      if wanted.None? {
        return None;
      }
      var tag := Trim(wanted.value);
      if tag == [] {
        return None;
      }
      var i := Find(loaded.outbounds, tag);
      if i == |loaded.outbounds| || !env.wireguard(loaded.outbounds[i].body) {
        return None;
      }
      var marked := WriteOwnership(f, Marker(tag, true));
      copy := if marked && f.report then Some(loaded) else None;
    }

    method RegenerateCredentials(loaded: Config, tag: string, f: Faults) returns (editable: Option<Config>)
      modifies this`registration
      ensures (State(), editable) == PrepareRegenerate(env, old(State()), loaded, tag, f)
    {
      var registered := Register(f, true);
      if !registered {
        return None;
      }
      var body := GenerateOutbound(f);
      if body.None? {
        return None;
      }
      editable := ReplaceOutbound(loaded, tag, body.value);
    }

    method Regenerate(loaded: Config, f: Faults) returns (copy: Option<Config>)
      modifies this
      ensures (State(), copy) == Warp.Regenerate(env, old(State()), loaded, f)
      ensures MarkerFits(old(State())) && copy.Some? ==>
                Managed(State()) && Matching(env, State(), marker.value.tag) && config == copy
    {
      if MarkerFits(State()) {
        TrustSetup(env, State(), Call(RegenerateOp, Some(loaded), f));
      }
      if !f.markerRead || marker.None? || !marker.value.managed {
        return None;
      }
      if !f.helperFound {
        return None;
      }
      var ownership := marker.value;
      var taken := BackUpRegistration(f);
      if taken.None? {
        return None;
      }
      var backup := taken.value;
      var editable := RegenerateCredentials(loaded, ownership.tag, f);
      if editable.None? {
        RestoreBackupBestEffort(f, backup);
        return None;
      }
      var committed := WriteWithConflictCheck(f, loaded, editable.value);
      if !committed {
        RestoreBackupBestEffort(f, backup);
        return None;
      }
      var marked := WriteOwnership(f, ownership);
      copy := if marked && f.report then editable else None;
    }

    method RemoveIntegration(loaded: Config, f: Faults) returns (copy: Option<Config>)
      modifies this
      ensures (State(), copy) == Warp.RemoveIntegration(env, old(State()), loaded, f)
      ensures MarkerFits(old(State())) && Covered(old(State())) ==>
                (Covered(State()) <==> !Exposes(env, old(State()), Call(RemoveOp, Some(loaded), f)))
    {
      if MarkerFits(State()) && Covered(State()) {
        StepCovers(env, State(), Call(RemoveOp, Some(loaded), f));
      }
      if !f.markerRead || marker.None? || !marker.value.managed {
        return None;
      }
      var ownership := marker.value;
      var editable := RemoveOutbound(env, loaded, ownership.tag);
      if editable.None? {
        return None;
      }
      var committed := WriteWithConflictCheck(f, loaded, editable.value);
      if !committed {
        return None;
      }
      var cleared := WriteOwnership(f, Marker(ownership.tag, false));
      copy := if cleared && f.report then editable else None;
    }
  }
}
