/** Reading an autonomous-system record out of a whois response, and choosing an address of a host. */
module Netinfo {
  import opened Basics
  import opened Text

  const U32_MAX: nat := 0xFFFF_FFFF

  datatype AsnRecord = AsnRecord(
    asn: Option<nat>,
    bgpPrefix: string,
    countryCode: string,
    registry: string,
    allocatedOn: string,
    asName: string)

  // ---------------------------------------------------------------------
  // Fields

  function TrimAll(fields: seq<string>): seq<string> {
    seq(|fields|, i requires 0 <= i < |fields| => Trim(fields[i]))
  }

  /** `NA`, or a number that fits 32 bits. */
  function ParseAsn(field: string): Option<Option<nat>> {
    if EqIgnoreCase(field, "NA") then Some(None)
    else
      match ParseUnsigned(field, U32_MAX)
      case Some(asn) => Some(Some(asn))
      case None => None
  }

  /** A data line has seven fields, the first of them a system number. */
  function ParseLine(line: string): Option<AsnRecord> {
    var fields := TrimAll(Split(line, '|'));
    if |fields| != 7 then None
    else
      match ParseAsn(fields[0])
      case None => None
      case Some(asn) => Some(AsnRecord(asn, fields[2], fields[3], fields[4], fields[5], fields[6]))
  }

  function FirstRecord(lines: seq<string>): Option<AsnRecord> {
    if lines == [] then None
    else if ParseLine(lines[0]).Some? then ParseLine(lines[0])
    else FirstRecord(lines[1..])
  }

  /** The first data line decides; there is no record exactly if there is no data line. */
  method ParseWhoisResponse(body: string) returns (r: Option<AsnRecord>)
    ensures r == FirstRecord(Lines(body))
    ensures r.None? <==> forall i :: 0 <= i < |Lines(body)| ==> ParseLine(Lines(body)[i]).None?
    ensures r.Some? ==> exists i ::
              && 0 <= i < |Lines(body)| && ParseLine(Lines(body)[i]) == r
              && forall j :: 0 <= j < i ==> ParseLine(Lines(body)[j]).None?
  {
    var lines := Lines(body);
    for k := 0 to |lines|
      invariant FirstRecord(lines) == FirstRecord(lines[k..])
      invariant forall i :: 0 <= i < k ==> ParseLine(lines[i]).None?
    {
      assert lines[k..][1..] == lines[k + 1..];
      var fields := TrimAll(Split(lines[k], '|'));
      if |fields| != 7 {
        continue;
      }
      var asn;
      if EqIgnoreCase(fields[0], "NA") {
        asn := None;
      } else {
        var parsed := ParseUnsigned(fields[0], U32_MAX);
        if parsed.None? {
          continue;
        }
        asn := parsed;
      }
      return Some(AsnRecord(asn, fields[2], fields[3], fields[4], fields[5], fields[6]));
    }
    r := None;
  }

  /** The first field says "not announced" in whatever case, or a number of at most 32 bits. */
  lemma AsnMeans(field: string)
    ensures ParseAsn(field) == Some(None) <==> SameLetters(field, "NA")
    ensures !SameLetters(field, "NA") ==>
              ParseAsn(field) == match ParseUnsigned(field, 4_294_967_295)
                                 case Some(n) => Some(Some(n))
                                 case None => None
  {
    EqIgnoreCaseMeans(field, "NA");
  }

  /** A data line has exactly six separators, and a system number in front. */
  lemma DataLine(line: string)
    ensures ParseLine(line).Some? <==> multiset(line)['|'] == 6 && ParseAsn(Trim(Split(line, '|')[0])).Some?
  {
    SplitCount(line, '|');
  }

  // ---------------------------------------------------------------------
  // Printing and reading back

  predicate Padding(p: string) {
    forall i :: 0 <= i < |p| ==> IsWhite(p[i]) && p[i] != '\n'
  }

  predicate PlainField(s: string) {
    Trimmed(s) && '|' !in s && '\n' !in s
  }

  predicate PlainRecord(r: AsnRecord) {
    && (r.asn.Some? ==> r.asn.value <= U32_MAX)
    && PlainField(r.bgpPrefix) && PlainField(r.countryCode) && PlainField(r.registry)
    && PlainField(r.allocatedOn) && PlainField(r.asName)
  }

  function AsnText(asn: Option<nat>): string {
    if asn.None? then "NA" else Decimal(asn.value)
  }

  function Fields(r: AsnRecord, ip: string): (fields: seq<string>)
    ensures |fields| == 7
  {
    [AsnText(r.asn), ip, r.bgpPrefix, r.countryCode, r.registry, r.allocatedOn, r.asName]
  }

  /** The field between white space. */
  datatype Pad = Pad(before: string, after: string) {
    function Around(s: string): string {
      before + s + after
    }

    predicate Fits() {
      Padding(before) && Padding(after)
    }
  }

  function Padded(fields: seq<string>, pads: seq<Pad>): (padded: seq<string>)
    requires |pads| == |fields|
    ensures |padded| == |fields|
  {
    seq(|fields|, i requires 0 <= i < |fields| => pads[i].Around(fields[i]))
  }

  /** A record as a line of seven fields, padded in any way. */
  function PrintLine(r: AsnRecord, ip: string, pads: seq<Pad>): string
    requires |pads| == 7
  {
    Join(Padded(Fields(r, ip), pads), '|')
  }

  lemma {:induction false} TrimStartPadded(p: string, s: string)
    requires Padding(p)
    ensures TrimStart(p + s) == TrimStart(s)
  {
    if p == [] {
      assert p + s == s;
    } else {
      TrimStartPadded(p[1..], s);
      assert (p + s)[1..] == p[1..] + s;
    }
  }

  lemma {:induction false} TrimEndPadded(s: string, p: string)
    requires Padding(p)
    ensures TrimEnd(s + p) == TrimEnd(s)
    decreases |p|
  {
    if p == [] {
      assert s + p == s;
    } else {
      var n := |p| - 1;
      TrimEndPadded(s, p[..n]);
      assert (s + p)[..|s| + n] == s + p[..n];
    }
  }

  lemma {:induction false} TrimStartAll(p: string)
    requires Padding(p)
    ensures TrimStart(p) == []
  {
    if p != [] {
      TrimStartAll(p[1..]);
    }
  }

  /** Trimming removes the padding of a trimmed field and nothing more. */
  lemma TrimPadded(pad: Pad, s: string)
    requires pad.Fits() && Trimmed(s)
    ensures Trim(pad.Around(s)) == s
  {
    assert pad.Around(s) == pad.before + (s + pad.after);
    TrimStartPadded(pad.before, s + pad.after);
    if s == [] {
      assert s + pad.after == pad.after;
      TrimStartAll(pad.after);
    } else {
      TrimEndPadded(s, pad.after);
    }
  }

  lemma AsnRoundTrip(asn: Option<nat>)
    requires asn.Some? ==> asn.value <= U32_MAX
    ensures PlainField(AsnText(asn)) && ParseAsn(AsnText(asn)) == Some(asn)
  {
    if asn.Some? {
      DecimalValue(asn.value);
      ParseDecimal(asn.value, U32_MAX);
      var s := Decimal(asn.value);
      assert LowerAll(s)[0] == s[0] && LowerAll("NA")[0] == 'n';
    }
  }

  lemma AroundPlain(pad: Pad, s: string)
    requires pad.Fits() && PlainField(s)
    ensures '|' !in pad.Around(s) && '\n' !in pad.Around(s)
  {
  }

  lemma PrintedFields(r: AsnRecord, ip: string, pads: seq<Pad>)
    requires PlainRecord(r) && PlainField(ip) && |pads| == 7 && (forall i :: 0 <= i < 7 ==> pads[i].Fits())
    ensures TrimAll(Split(PrintLine(r, ip, pads), '|')) == Fields(r, ip)
  {
    AsnRoundTrip(r.asn);
    var fields := Fields(r, ip);
    var padded := Padded(fields, pads);
    forall i | 0 <= i < 7 ensures '|' !in padded[i] && Trim(padded[i]) == fields[i] {
      assert PlainField(fields[i]);
      AroundPlain(pads[i], fields[i]);
      TrimPadded(pads[i], fields[i]);
    }
    SplitJoin(padded, '|');
  }

  /** A printed line reads back as its record. */
  lemma LineRoundTrip(r: AsnRecord, ip: string, pads: seq<Pad>)
    requires PlainRecord(r) && PlainField(ip) && |pads| == 7 && (forall i :: 0 <= i < 7 ==> pads[i].Fits())
    ensures ParseLine(PrintLine(r, ip, pads)) == Some(r)
  {
    PrintedFields(r, ip, pads);
    AsnRoundTrip(r.asn);
  }

  lemma PrintedLinePlain(r: AsnRecord, ip: string, pads: seq<Pad>)
    requires PlainRecord(r) && PlainField(ip) && |pads| == 7 && (forall i :: 0 <= i < 7 ==> pads[i].Fits())
    ensures '\n' !in PrintLine(r, ip, pads) && PrintLine(r, ip, pads) != []
  {
    AsnRoundTrip(r.asn);
    var fields := Fields(r, ip);
    var padded := Padded(fields, pads);
    forall i | 0 <= i < 7 ensures '\n' !in padded[i] {
      assert PlainField(fields[i]);
      AroundPlain(pads[i], fields[i]);
    }
    JoinWithout(padded, '|', '\n');
    assert PrintLine(r, ip, pads)[|padded[0]|] == '|';
  }

  lemma {:induction false} TrimStartEnd(s: string, c: char)
    requires IsWhite(c)
    ensures TrimStart(s + [c]) == if TrimStart(s) == [] then [] else TrimStart(s) + [c]
  {
    if s == [] {
      assert s + [c] == [c] && [c][1..] == [];
    } else if IsWhite(s[0]) {
      TrimStartEnd(s[1..], c);
      assert (s + [c])[1..] == s[1..] + [c];
    }
  }

  /** White space at the end of a field is no part of it. */
  lemma TrimEndWhite(s: string, c: char)
    requires IsWhite(c)
    ensures Trim(s + [c]) == Trim(s)
  {
    TrimStartEnd(s, c);
    var t := TrimStart(s);
    assert (t + [c])[..|t|] == t;
  }

  /** A carriage return at the end of a line goes with its last field, where it is trimmed. */
  lemma ReturnIgnored(line: string)
    ensures ParseLine(line + "\r") == ParseLine(line)
  {
    SplitLast(line, '|', '\r');
    var parts := Split(line, '|');
    TrimEndWhite(parts[|parts| - 1], '\r');
    assert TrimAll(Split(line + "\r", '|')) == TrimAll(parts);
  }

  lemma StripIgnored(line: string)
    ensures ParseLine(StripReturn(line)) == ParseLine(line)
  {
    if StripReturn(line) != line {
      assert line == StripReturn(line) + "\r";
      ReturnIgnored(StripReturn(line));
    }
  }

  lemma {:induction false} FirstRecordAfter(noise: seq<string>, tail: seq<string>)
    requires FirstRecord(noise).None? && tail != [] && ParseLine(tail[0]).Some?
    ensures FirstRecord(noise + tail) == ParseLine(tail[0])
  {
    var lines := noise + tail;
    if noise == [] {
      assert lines == tail;
    } else {
      FirstRecordAfter(noise[1..], tail);
      assert lines[0] == noise[0] && lines[1..] == noise[1..] + tail;
    }
  }

  /**
   Reading undoes printing: whatever lines without a record come first, in
   whatever padding and with whichever line ending it is printed, and whatever follows.
   */
  lemma WhoisRoundTrip(noise: string, r: AsnRecord, ip: string, pads: seq<Pad>, ending: string, rest: string)
    requires noise == [] || noise[|noise| - 1] == '\n'
    requires FirstRecord(Lines(noise)).None?
    requires PlainRecord(r) && PlainField(ip) && |pads| == 7 && (forall i :: 0 <= i < 7 ==> pads[i].Fits())
    requires ending == "\n" || ending == "\r\n" || (ending == [] && rest == [])
    ensures FirstRecord(Lines(noise + (PrintLine(r, ip, pads) + ending + rest))) == Some(r)
  {
    var line := PrintLine(r, ip, pads);
    PrintedLinePlain(r, ip, pads);
    LineRoundTrip(r, ip, pads);
    StripIgnored(line);
    LineInFront(line, ending, rest);
    LinesAfter(noise, line + ending + rest);
    FirstRecordAfter(Lines(noise), Lines(line + ending + rest));
  }

  // ---------------------------------------------------------------------
  // Choosing an address

  datatype Address = V4(bits: nat) | V6(bits: nat)

  /** The position of the first address of the family, or the number of addresses. */
  function FirstOf(addrs: seq<Address>, v4: bool): (i: nat)
    ensures i <= |addrs|
    ensures i < |addrs| ==> addrs[i].V4? == v4
    ensures forall j :: 0 <= j < i ==> addrs[j].V4? != v4
  {
    if addrs == [] || addrs[0].V4? == v4 then 0 else 1 + FirstOf(addrs[1..], v4)
  }

  /** The first IPv4 address if there is one, else the first address of all, else none. */
  method ChooseAddress(addrs: seq<Address>) returns (r: Option<Address>)
    ensures r == if FirstOf(addrs, true) < |addrs| then Some(addrs[FirstOf(addrs, true)])
                 else if addrs != [] then Some(addrs[0])
                 else None
  {
    var firstV6: Option<Address> := None;
    for i := 0 to |addrs|
      invariant forall j :: 0 <= j < i ==> addrs[j].V6?
      invariant firstV6 == if i == 0 then None else Some(addrs[0])
    {
      if addrs[i].V4? {
        return Some(addrs[i]);
      }
      if firstV6.None? {
        firstV6 := Some(addrs[i]);
      }
    }
    r := firstV6;
  }
}
