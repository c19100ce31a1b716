/** Share material kept per inbound: merged field by field, found by tag or, failing that, by position. */
module ShareMaterial {
  import opened Basics
  import opened Text

  datatype Material = Material(
    publicKey: Option<string>,
    clientEncryption: Option<string>,
    mldsa65Verify: Option<string>,
    certPinSha256: Option<string>)
  {
    function Get(f: Field): Option<string> {
      match f
      case PublicKey => publicKey
      case ClientEncryption => clientEncryption
      case Mldsa65Verify => mldsa65Verify
      case CertPin => certPinSha256
    }
  }

  datatype Field = PublicKey | ClientEncryption | Mldsa65Verify | CertPin

  const EMPTY: Material := Material(None, None, None, None)

  type Entries = map<string, Material>

  // ---------------------------------------------------------------------
  // Keys

  predicate Named(tag: Option<string>) {
    tag.Some? && !Blank(tag.value)
  }

  function IndexKey(index: nat): string {
    "idx:" + Decimal(index)
  }

  function Key(tag: Option<string>, index: nat): string {
    if Named(tag) then "tag:" + Trim(tag.value) else IndexKey(index)
  }

  /** Exactly which inbounds share an entry: the same tag up to trimming, or no tag and the same position. */
  lemma KeySame(tag: Option<string>, index: nat, tag': Option<string>, index': nat)
    ensures Key(tag, index) == Key(tag', index')
            <==> (if Named(tag) then Named(tag') && Trim(tag.value) == Trim(tag'.value)
                  else !Named(tag') && index == index')
  {
    var a, b := Key(tag, index), Key(tag', index');
    assert a[4..] == if Named(tag) then Trim(tag.value) else Decimal(index);
    assert b[4..] == if Named(tag') then Trim(tag'.value) else Decimal(index');
    assert (a[0] == 't' <==> Named(tag)) && (b[0] == 't' <==> Named(tag'));
    if a == b && !Named(tag) {
      DecimalInjective(index, index');
    }
  }

  // ---------------------------------------------------------------------
  // Merging

  datatype Merge =
    | Keys(tag: Option<string>, index: nat, publicKey: Option<string>, clientEncryption: Option<string>,
           mldsa65Verify: Option<string>)
    | Pin(tag: Option<string>, index: nat, certPinSha256: Option<string>)
  {
    function Target(): string {
      Key(tag, index)
    }

    /** The value offered for a field, blank values not counting. */
    function Offers(f: Field): Option<string> {
      match f
      case PublicKey => if Keys? then NonBlank(publicKey) else None
      case ClientEncryption => if Keys? then NonBlank(clientEncryption) else None
      case Mldsa65Verify => if Keys? then NonBlank(mldsa65Verify) else None
      case CertPin => if Pin? then NonBlank(certPinSha256) else None
    }
  }

  function NonBlank(value: Option<string>): Option<string> {
    if value.Some? && Blank(value.value) then None else value
  }

  function Or<T>(first: Option<T>, second: Option<T>): Option<T> {
    if first.Some? then first else second
  }

  function EntryOrDefault(entries: Entries, key: string): Material {
    if key in entries then entries[key] else EMPTY
  }

  function Apply(entries: Entries, m: Merge): Entries {
    var entry := EntryOrDefault(entries, m.Target());
    entries[m.Target() := Material(Or(m.Offers(PublicKey), entry.publicKey),
                                   Or(m.Offers(ClientEncryption), entry.clientEncryption),
                                   Or(m.Offers(Mldsa65Verify), entry.mldsa65Verify),
                                   Or(m.Offers(CertPin), entry.certPinSha256))]
  }

  function ApplyAll(entries: Entries, merges: seq<Merge>): Entries {
    if merges == [] then entries
    else Apply(ApplyAll(entries, merges[..|merges| - 1]), merges[|merges| - 1])
  }

  /** The last non-blank value written for the field under the key. */
  function LastWritten(merges: seq<Merge>, key: string, f: Field): Option<string> {
    if merges == [] then None
    else
      var n := |merges| - 1;
      var earlier := LastWritten(merges[..n], key, f);
      if merges[n].Target() == key then Or(merges[n].Offers(f), earlier) else earlier
  }

  predicate Addressed(merges: seq<Merge>, key: string) {
    exists i | 0 <= i < |merges| :: merges[i].Target() == key
  }

  /**
   After any merges: an entry exists exactly if it did or was addressed, and each
   of its fields is the last non-blank value written under its key, or what it was.
   */
  lemma {:induction false} FieldIsLastWritten(entries: Entries, merges: seq<Merge>, key: string, f: Field)
    ensures key in ApplyAll(entries, merges) <==> key in entries || Addressed(merges, key)
    ensures EntryOrDefault(ApplyAll(entries, merges), key).Get(f)
              == Or(LastWritten(merges, key, f), EntryOrDefault(entries, key).Get(f))
  {
    if merges != [] {
      var n := |merges| - 1;
      FieldIsLastWritten(entries, merges[..n], key, f);
      AddressedSplit(merges, key);
      ApplyField(ApplyAll(entries, merges[..n]), merges[n], key, f);
    }
  }

  lemma ApplyField(entries: Entries, m: Merge, key: string, f: Field)
    ensures key in Apply(entries, m) <==> key in entries || m.Target() == key
    ensures var before := EntryOrDefault(entries, key).Get(f);
            EntryOrDefault(Apply(entries, m), key).Get(f)
              == if m.Target() == key then Or(m.Offers(f), before) else before
  {
  }

  lemma AddressedSplit(merges: seq<Merge>, key: string)
    requires merges != []
    ensures var n := |merges| - 1;
            Addressed(merges, key) <==> Addressed(merges[..n], key) || merges[n].Target() == key
  {
    var n := |merges| - 1;
    assert forall i :: 0 <= i < n ==> merges[..n][i] == merges[i];
  }

  /** A value that says something: not missing, and not white space only. */
  predicate Says(value: Option<string>) {
    value.Some? && exists i :: 0 <= i < |value.value| && !IsWhite(value.value[i])
  }

  /** What one merge of keys leaves in its entry, field by field; every other entry stays. */
  lemma KeysMerged(entries: Entries, tag: Option<string>, index: nat, publicKey: Option<string>,
                   clientEncryption: Option<string>, mldsa65Verify: Option<string>)
    ensures var before := EntryOrDefault(entries, Key(tag, index));
            Apply(entries, Keys(tag, index, publicKey, clientEncryption, mldsa65Verify))
            == entries[Key(tag, index) :=
                 Material(if Says(publicKey) then publicKey else before.publicKey,
                          if Says(clientEncryption) then clientEncryption else before.clientEncryption,
                          if Says(mldsa65Verify) then mldsa65Verify else before.mldsa65Verify,
                          before.certPinSha256)]
  {
    SaysMeans(publicKey);
    SaysMeans(clientEncryption);
    SaysMeans(mldsa65Verify);
  }

  lemma PinMerged(entries: Entries, tag: Option<string>, index: nat, certPinSha256: Option<string>)
    ensures var before := EntryOrDefault(entries, Key(tag, index));
            Apply(entries, Pin(tag, index, certPinSha256))
            == entries[Key(tag, index) :=
                 before.(certPinSha256 := if Says(certPinSha256) then certPinSha256 else before.certPinSha256)]
  {
    SaysMeans(certPinSha256);
  }

  lemma SaysMeans(value: Option<string>)
    ensures Says(value) <==> NonBlank(value) == value != None
  {
    if value.Some? {
      BlankMeans(value.value);
    }
  }

  /** A field once set is never erased, whatever is merged. */
  lemma NeverErased(entries: Entries, merges: seq<Merge>, key: string, f: Field)
    requires EntryOrDefault(entries, key).Get(f).Some?
    ensures EntryOrDefault(ApplyAll(entries, merges), key).Get(f).Some?
  {
    FieldIsLastWritten(entries, merges, key, f);
  }

  // ---------------------------------------------------------------------
  // Lookup

  function Lookup(entries: Entries, tag: Option<string>, index: nat): Option<Material> {
    if Key(tag, index) in entries then Some(entries[Key(tag, index)])
    else if IndexKey(index) in entries then Some(entries[IndexKey(index)])
    else None
  }

  /** The entry of the tag, if there is one; else that of the position; else nothing. */
  lemma LookupOrder(entries: Entries, tag: string, index: nat)
    ensures var byTag := if Says(Some(tag)) then Found(entries, "tag:" + Trim(tag)) else None;
            Lookup(entries, Some(tag), index)
            == if byTag.Some? then byTag else Found(entries, "idx:" + Decimal(index))
    ensures Lookup(entries, None, index) == Found(entries, "idx:" + Decimal(index))
  {
    SaysMeans(Some(tag));
  }

  function Found(entries: Entries, key: string): Option<Material> {
    if key in entries then Some(entries[key]) else None
  }

  /** What merges under other inbounds' keys cannot change. */
  lemma LookupUnaffected(entries: Entries, m: Merge, tag: Option<string>, index: nat)
    requires m.Target() != Key(tag, index) && m.Target() != IndexKey(index)
    ensures Lookup(Apply(entries, m), tag, index) == Lookup(entries, tag, index)
  {
  }

  /** Any merge for a named inbound, even one that offers nothing, ends the fallback to its position. */
  lemma MergeEndsFallback(entries: Entries, m: Merge, index: nat)
    requires Named(m.tag) && forall f: Field :: m.Offers(f).None?
    ensures Lookup(Apply(entries, m), m.tag, index) == Lookup(entries, m.tag, index)
            <==> m.Target() in entries || (IndexKey(index) in entries && entries[IndexKey(index)] == EMPTY)
  {
    KeySame(m.tag, m.index, m.tag, index);
    var key := m.Target();
    assert m.Offers(PublicKey).None? && m.Offers(ClientEncryption).None?
           && m.Offers(Mldsa65Verify).None? && m.Offers(CertPin).None?;
    assert Apply(entries, m)[key] == EntryOrDefault(entries, key);
  }

  /** Material kept by position, then a tag and an empty merge under it: the material is no longer found. */
  lemma EmptyMergeHides()
    ensures var entries := map[IndexKey(0) := EMPTY.(publicKey := Some("pk"))];
            var m := Keys(Some("in"), 0, None, None, None);
            Lookup(entries, Some("in"), 0) == Some(EMPTY.(publicKey := Some("pk")))
            && Lookup(Apply(entries, m), Some("in"), 0) == Some(EMPTY)
  {
    TrimIsTrimmed("in");
    assert Trimmed("in");
    KeySame(Some("in"), 0, None, 0);
  }

  // ---------------------------------------------------------------------
  // The store

  class Store {
    var byKey: Entries

    constructor ()
      ensures byKey == map[]
    {
      byKey := map[];
    }

    /** Merges the non-blank values into the inbound's entry. */
    method MergeKeys(tag: Option<string>, index: nat, publicKey: Option<string>, clientEncryption: Option<string>,
                     mldsa65Verify: Option<string>)
      modifies this
      ensures byKey == Apply(old(byKey), Keys(tag, index, publicKey, clientEncryption, mldsa65Verify))
    {
      var key := Key(tag, index);
      var entry := if key in byKey then byKey[key] else EMPTY;
      if publicKey.Some? && !Blank(publicKey.value) {
        entry := entry.(publicKey := publicKey);
      }
      if clientEncryption.Some? && !Blank(clientEncryption.value) {
        entry := entry.(clientEncryption := clientEncryption);
      }
      if mldsa65Verify.Some? && !Blank(mldsa65Verify.value) {
        entry := entry.(mldsa65Verify := mldsa65Verify);
      }
      byKey := byKey[key := entry];
    }

    method MergeCertPin(tag: Option<string>, index: nat, certPinSha256: Option<string>)
      modifies this
      ensures byKey == Apply(old(byKey), Pin(tag, index, certPinSha256))
    {
      var key := Key(tag, index);
      var entry := if key in byKey then byKey[key] else EMPTY;
      if certPinSha256.Some? && !Blank(certPinSha256.value) {
        entry := entry.(certPinSha256 := certPinSha256);
      }
      byKey := byKey[key := entry];
    }

    method RetainFromSession(tag: Option<string>, index: nat, publicKey: Option<string>,
                             clientEncryption: Option<string>, mldsa65Verify: Option<string>)
      modifies this
      ensures byKey == Apply(old(byKey), Keys(tag, index, publicKey, clientEncryption, mldsa65Verify))
    {
      MergeKeys(tag, index, publicKey, clientEncryption, mldsa65Verify);
    }
  }
}
