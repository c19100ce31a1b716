/** Why `Warp` knows four ways for a file replacement to end: the remote calls underneath have no other. */
module WarpWrites {
  import opened Basics
  import opened RemoteHost
  import opened ConfigTransactions
  import opened ConfigGuarantees
  import Warp

  /** The ownership marker and the restored registration are replaced atomically. */
  lemma AtomicWays(w: World, h: Host, name: string, contents: Bytes)
    ensures var (h', ok) := WriteFileAtomic(w, h, name, contents);
            exists how: Warp.Replacing ::
              && Entry(h'.files, Config(name)) == Warp.Written(how, Entry(h.files, Config(name)), contents)
              && (ok <==> how.Done?)
  {
    AtomicOutcome(w, h, name, contents);
    var (h', ok) := WriteFileAtomic(w, h, name, contents);
    var how := Way(Entry(h.files, Config(name)), contents, Entry(h'.files, Config(name)), ok);
    assert Entry(h'.files, Config(name)) == Warp.Written(how, Entry(h.files, Config(name)), contents);
  }

  function Way(before: Option<Bytes>, contents: Bytes, after: Option<Bytes>, ok: bool): Warp.Replacing {
    if ok then Warp.Done
    else if after == before then Warp.Undone
    else if after == Some(contents) then Warp.DoneUnreported
    else Warp.Displaced
  }

  /** The outbound change goes through the conflict-checked, validated write. */
  lemma CommitWays(w: World, h: Host, name: string, loaded: Bytes, contents: Bytes, hint: Hint)
    ensures var (h', r) := SaveChecked(w, h, name, loaded, contents, hint);
            exists how: Warp.Replacing ::
              && Entry(h'.files, Config(name)) == Warp.Written(how, Entry(h.files, Config(name)), contents)
              && (r.Ok? <==> how.Done?)
  {
    var (h1, read) := ReadFile(w, h, Config(name));
    WriteOutcome(w, h1, name, contents, hint);
    var (h', r) := SaveChecked(w, h, name, loaded, contents, hint);
    var how := Way(Entry(h.files, Config(name)), contents, Entry(h'.files, Config(name)), r.Ok?);
    assert Entry(h'.files, Config(name)) == Warp.Written(how, Entry(h.files, Config(name)), contents);
  }

  /** A differing or unreadable live file is left alone; a missing one is not created. */
  lemma CommitRefusals(w: World, h: Host, name: string, loaded: Bytes, contents: Bytes, hint: Hint)
    requires Config(name) !in h.files || (!w.fault(h.calls).Works? && w.fault(h.calls) != RefusedAsMissing)
             || (w.fault(h.calls).Works? && !JsonBytesEquivalent(w, h.files[Config(name)], loaded))
    ensures var (h', r) := SaveChecked(w, h, name, loaded, contents, hint);
            r.Err? && Entry(h'.files, Config(name)) == Entry(h.files, Config(name))
  {
    var (h1, read) := ReadFile(w, h, Config(name));
    WriteOutcome(w, h1, name, contents, hint);
  }

  function CheckOf(fault: Fault): Warp.Check {
    match fault
    case Works => Warp.Compared
    case RefusedAsMissing => Warp.MisreadAsMissing
    case _ => Warp.ReadRefused
  }

  /** The live configuration file as the WARP model sees it. */
  function Live(decode: Bytes -> Warp.Config, files: Files, name: string): Option<Warp.Config> {
    if Config(name) in files then Some(decode(files[Config(name)])) else None
  }

  /**
   The commit of the WARP model is the conflict-checked, validated write, seen
   through any reading of the bytes that agrees with the comparison: every world
   gives an answer of the check and an ending of the write that fit.
   */
  lemma CommitRefines(w: World, h: Host, name: string, loaded: Bytes, contents: Bytes, hint: Hint,
                      decode: Bytes -> Warp.Config, s: Warp.Remote, f: Warp.Faults)
    requires Config(name) in h.files ==>
               (JsonBytesEquivalent(w, h.files[Config(name)], loaded)
                <==> decode(h.files[Config(name)]) == decode(loaded))
    requires s.config == Live(decode, h.files, name)
    ensures var (h', r) := SaveChecked(w, h, name, loaded, contents, hint);
            var how := Way(Entry(h.files, Config(name)), contents, Entry(h'.files, Config(name)), r.Ok?);
            var g := f.(check := CheckOf(w.fault(h.calls)), commit := how);
            Warp.Commit(s, g, decode(loaded), decode(contents))
              == (s.(config := Live(decode, h'.files, name)), r.Ok?)
  {
    CommitWays(w, h, name, loaded, contents, hint);
    CommitFits(w, h, name, loaded, contents, hint);
    if Config(name) !in h.files || CheckOf(w.fault(h.calls)).ReadRefused?
       || (w.fault(h.calls).Works? && !JsonBytesEquivalent(w, h.files[Config(name)], loaded)) {
      CommitRefusals(w, h, name, loaded, contents, hint);
    }
  }

  lemma CommitFits(w: World, h: Host, name: string, loaded: Bytes, contents: Bytes, hint: Hint)
    ensures var (h', r) := SaveChecked(w, h, name, loaded, contents, hint);
            var how := Way(Entry(h.files, Config(name)), contents, Entry(h'.files, Config(name)), r.Ok?);
            Entry(h'.files, Config(name)) == Warp.Written(how, Entry(h.files, Config(name)), contents)
  {
    var (h1, read) := ReadFile(w, h, Config(name));
    WriteOutcome(w, h1, name, contents, hint);
  }
}
