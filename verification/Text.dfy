/** The few string operations the program leans on. */
module Text {
  import opened Basics

  /** The Unicode White_Space property, which is what trimming removes. */
  predicate IsWhite(c: char) {
    || '\t' <= c <= '\r'
    || c == ' ' || c == '\U{85}' || c == '\U{A0}' || c == '\U{1680}'
    || '\U{2000}' <= c <= '\U{200A}'
    || c == '\U{2028}' || c == '\U{2029}' || c == '\U{202F}' || c == '\U{205F}' || c == '\U{3000}'
  }

  function TrimStart(s: string): string {
    if s != [] && IsWhite(s[0]) then TrimStart(s[1..]) else s
  }

  function TrimEnd(s: string): string {
    if s != [] && IsWhite(s[|s| - 1]) then TrimEnd(s[..|s| - 1]) else s
  }

  function Trim(s: string): string {
    TrimEnd(TrimStart(s))
  }

  predicate Trimmed(s: string) {
    s == [] || (!IsWhite(s[0]) && !IsWhite(s[|s| - 1]))
  }

  lemma TrimEndKeepsStart(s: string)
    requires s == [] || !IsWhite(s[0])
    ensures TrimEnd(s) == [] || !IsWhite(TrimEnd(s)[0])
    decreases |s|
  {
    if s != [] && IsWhite(s[|s| - 1]) {
      TrimEndKeepsStart(s[..|s| - 1]);
    }
  }

  lemma {:induction false} TrimStartClean(s: string)
    ensures TrimStart(s) == [] || !IsWhite(TrimStart(s)[0])
  {
    if s != [] && IsWhite(s[0]) {
      TrimStartClean(s[1..]);
    }
  }

  lemma {:induction false} TrimEndClean(s: string)
    ensures TrimEnd(s) == [] || !IsWhite(TrimEnd(s)[|TrimEnd(s)| - 1])
  {
    if s != [] && IsWhite(s[|s| - 1]) {
      TrimEndClean(s[..|s| - 1]);
    }
  }

  /** Trimming yields a trimmed string and leaves trimmed strings alone. */
  lemma TrimIsTrimmed(s: string)
    ensures Trimmed(Trim(s))
    ensures Trimmed(s) ==> Trim(s) == s
    ensures Trim(Trim(s)) == Trim(s)
  {
    TrimStartClean(s);
    TrimEndClean(TrimStart(s));
    TrimEndKeepsStart(TrimStart(s));
  }

  predicate Blank(s: string) {
    Trim(s) == []
  }

  lemma {:induction false} TrimStartBlank(s: string)
    ensures TrimStart(s) == [] <==> forall i :: 0 <= i < |s| ==> IsWhite(s[i])
  {
    if s != [] && IsWhite(s[0]) {
      TrimStartBlank(s[1..]);
      assert forall i :: 1 <= i < |s| ==> s[i] == s[1..][i - 1];
    }
  }

  lemma {:induction false} TrimEndNonempty(s: string)
    requires s != [] && !IsWhite(s[0])
    ensures TrimEnd(s) != []
  {
    if IsWhite(s[|s| - 1]) {
      TrimEndNonempty(s[..|s| - 1]);
    }
  }

  /** Blank means nothing but white space. */
  lemma BlankMeans(s: string)
    ensures Blank(s) <==> forall i :: 0 <= i < |s| ==> IsWhite(s[i])
  {
    TrimStartBlank(s);
    TrimStartClean(s);
    if TrimStart(s) != [] {
      TrimEndNonempty(TrimStart(s));
    }
  }

  function Lower(c: char): char {
    if 'A' <= c <= 'Z' then (c as int + 32) as char else c
  }

  function LowerAll(s: string): string {
    seq(|s|, i requires 0 <= i < |s| => Lower(s[i]))
  }

  predicate EqIgnoreCase(s: string, t: string) {
    LowerAll(s) == LowerAll(t)
  }

  /** The same character, or the two cases of one ASCII letter. */
  predicate SameLetter(a: char, b: char) {
    || a == b
    || ('A' <= a <= 'Z' && b as int == a as int + 32)
    || ('A' <= b <= 'Z' && a as int == b as int + 32)
  }

  predicate SameLetters(s: string, t: string) {
    |s| == |t| && forall i :: 0 <= i < |s| ==> SameLetter(s[i], t[i])
  }

  lemma LowerSame(a: char, b: char)
    ensures Lower(a) == Lower(b) <==> SameLetter(a, b)
  {
  }

  /** Comparing without case compares letter by letter. */
  lemma EqIgnoreCaseMeans(s: string, t: string)
    ensures EqIgnoreCase(s, t) <==> SameLetters(s, t)
  {
    if EqIgnoreCase(s, t) {
      assert |LowerAll(s)| == |s| && |LowerAll(t)| == |t|;
      forall i | 0 <= i < |s| ensures SameLetter(s[i], t[i]) {
        assert LowerAll(s)[i] == Lower(s[i]) && LowerAll(t)[i] == Lower(t[i]);
        LowerSame(s[i], t[i]);
      }
    }
    if SameLetters(s, t) {
      forall i | 0 <= i < |s| ensures LowerAll(s)[i] == LowerAll(t)[i] {
        LowerSame(s[i], t[i]);
      }
    }
  }

  /** The needle occurs in the text, whatever the case of either. */
  predicate Mentions(text: string, needle: string) {
    exists i | 0 <= i <= |text| :: MentionsAt(text, needle, i)
  }

  predicate MentionsAt(text: string, needle: string, i: nat) {
    i + |needle| <= |text| && SameLetters(text[i..i + |needle|], needle)
  }

  lemma SliceLower(s: string, i: nat, n: nat)
    requires i + n <= |s|
    ensures LowerAll(s)[i..i + n] == LowerAll(s[i..i + n])
  {
  }

  predicate OccursAt(s: string, needle: string, i: nat) {
    i + |needle| <= |s| && s[i..i + |needle|] == needle
  }

  predicate Contains(s: string, needle: string) {
    exists i | 0 <= i <= |s| :: OccursAt(s, needle, i)
  }

  lemma ContainsMeans(text: string, needle: string)
    ensures Contains(LowerAll(text), LowerAll(needle)) <==> Mentions(text, needle)
  {
    if Contains(LowerAll(text), LowerAll(needle)) {
      var i: nat :| i <= |text| && OccursAt(LowerAll(text), LowerAll(needle), i);
      SliceLower(text, i, |needle|);
      EqIgnoreCaseMeans(text[i..i + |needle|], needle);
      assert MentionsAt(text, needle, i);
    }
    if Mentions(text, needle) {
      var i: nat :| i <= |text| && MentionsAt(text, needle, i);
      SliceLower(text, i, |needle|);
      EqIgnoreCaseMeans(text[i..i + |needle|], needle);
      assert OccursAt(LowerAll(text), LowerAll(needle), i);
    }
  }

  // ---------------------------------------------------------------------
  // Decimal numbers

  predicate IsDigit(c: char) {
    '0' <= c <= '9'
  }

  function Digit(n: nat): char
    requires n < 10
  {
    ('0' as int + n) as char
  }

  /** How a natural number is displayed. */
  function Decimal(n: nat): string {
    if n < 10 then [Digit(n)] else Decimal(n / 10) + [Digit(n % 10)]
  }

  /** The number a string of digits denotes. */
  function DigitsValue(s: string): nat
    requires forall i :: 0 <= i < |s| ==> IsDigit(s[i])
  {
    if s == [] then 0
    else
      assert IsDigit(s[|s| - 1]);
      DigitsValue(s[..|s| - 1]) * 10 + (s[|s| - 1] as int - '0' as int)
  }

  lemma {:induction false} DecimalValue(n: nat)
    ensures Decimal(n) != []
    ensures forall i :: 0 <= i < |Decimal(n)| ==> IsDigit(Decimal(n)[i])
    ensures DigitsValue(Decimal(n)) == n
  {
    if n >= 10 {
      DecimalValue(n / 10);
      assert Decimal(n)[..|Decimal(n)| - 1] == Decimal(n / 10);
    }
  }

  lemma DecimalInjective(m: nat, n: nat)
    requires Decimal(m) == Decimal(n)
    ensures m == n
  {
    DecimalValue(m);
    DecimalValue(n);
  }

  predicate AllDigits(s: string) {
    s != [] && forall i :: 0 <= i < |s| ==> IsDigit(s[i])
  }

  /** `str::parse` for an unsigned integer with maximum `max`: an optional plus sign, then digits. */
  function ParseUnsigned(s: string, max: nat): Option<nat> {
    var digits := if s != [] && s[0] == '+' then s[1..] else s;
    if AllDigits(digits) && DigitsValue(digits) <= max then
      Some(DigitsValue(digits))
    else
      None
  }

  /** Parsing undoes printing, as far as the type reaches. */
  lemma ParseDecimal(n: nat, max: nat)
    ensures ParseUnsigned(Decimal(n), max) == if n <= max then Some(n) else None
  {
    DecimalValue(n);
    assert IsDigit(Decimal(n)[0]);
  }

  lemma {:induction false} LeadingZero(s: string)
    requires forall i :: 0 <= i < |s| ==> IsDigit(s[i])
    ensures DigitsValue("0" + s) == DigitsValue(s)
  {
    if s == [] {
      assert "0" + s == "0" && "0"[..0] == [];
    } else {
      LeadingZero(s[..|s| - 1]);
      assert ("0" + s)[..|s|] == "0" + s[..|s| - 1];
    }
  }

  /** Digits, with or without a plus sign, up to the maximum; nothing else. */
  lemma UnsignedMeans(digits: string, max: nat)
    requires AllDigits(digits)
    ensures ParseUnsigned(digits, max) == if DigitsValue(digits) <= max then Some(DigitsValue(digits)) else None
    ensures ParseUnsigned("+" + digits, max) == ParseUnsigned(digits, max)
  {
    assert ("+" + digits)[1..] == digits;
    assert IsDigit(digits[0]);
  }

  lemma UnsignedOnly(s: string, max: nat)
    requires ParseUnsigned(s, max).Some?
    ensures AllDigits(s) || (s != [] && s[0] == '+' && AllDigits(s[1..]))
  {
  }

  // ---------------------------------------------------------------------
  // Cutting strings apart

  /** The parts of `s` between the occurrences of `c`; always at least one part. */
  function Split(s: string, c: char): (parts: seq<string>)
    ensures |parts| >= 1
  {
    if s == [] then [[]]
    else
      var rest := Split(s[1..], c);
      if s[0] == c then [[]] + rest else [[s[0]] + rest[0]] + rest[1..]
  }

  /** The parts joined by `c`. */
  function Join(parts: seq<string>, c: char): string {
    if parts == [] then []
    else if |parts| == 1 then parts[0]
    else parts[0] + [c] + Join(parts[1..], c)
  }

  lemma {:induction false} SplitPlain(s: string, c: char)
    requires c !in s
    ensures Split(s, c) == [s]
  {
    if s != [] {
      SplitPlain(s[1..], c);
      assert [s[0]] + s[1..] == s;
    }
  }

  lemma {:induction false} SplitFirst(s: string, c: char, t: string)
    requires c !in s
    ensures Split(s + [c] + t, c) == [s] + Split(t, c)
  {
    var u := s + [c] + t;
    if s == [] {
      assert u[1..] == t;
    } else {
      SplitFirst(s[1..], c, t);
      assert u[1..] == s[1..] + [c] + t;
      assert [s[0]] + s[1..] == s;
    }
  }

  /** Splitting undoes joining parts that do not contain the separator. */
  lemma {:induction false} SplitJoin(parts: seq<string>, c: char)
    requires parts != [] && forall i :: 0 <= i < |parts| ==> c !in parts[i]
    ensures Split(Join(parts, c), c) == parts
  {
    if |parts| == 1 {
      SplitPlain(parts[0], c);
    } else {
      SplitJoin(parts[1..], c);
      SplitFirst(parts[0], c, Join(parts[1..], c));
    }
  }

  /** One part more than separators. */
  lemma {:induction false} SplitCount(s: string, c: char)
    ensures |Split(s, c)| == multiset(s)[c] + 1
  {
    if s != [] {
      SplitCount(s[1..], c);
      assert s == [s[0]] + s[1..];
    }
  }

  /** Joining undoes splitting. */
  lemma {:induction false} JoinSplit(s: string, c: char)
    ensures Join(Split(s, c), c) == s
  {
    if s != [] {
      JoinSplit(s[1..], c);
      var rest := Split(s[1..], c);
      if s[0] == c {
        assert ([[]] + rest)[1..] == rest;
      } else {
        var parts := [[s[0]] + rest[0]] + rest[1..];
        assert parts[1..] == rest[1..];
        assert |rest| > 1 ==> [s[0]] + rest[0] + [c] + Join(rest[1..], c) == [s[0]] + Join(rest, c);
      }
    }
  }

  lemma {:induction false} JoinWithout(parts: seq<string>, sep: char, c: char)
    requires c != sep && forall i :: 0 <= i < |parts| ==> c !in parts[i]
    ensures c !in Join(parts, sep)
  {
    if |parts| > 1 {
      JoinWithout(parts[1..], sep, c);
    }
  }

  /** The parts have no characters of their own. */
  lemma {:induction false} SplitChars(s: string, c: char, x: char)
    requires x !in s
    ensures forall i :: 0 <= i < |Split(s, c)| ==> x !in Split(s, c)[i]
  {
    if s != [] {
      SplitChars(s[1..], c, x);
    }
  }

  // ---------------------------------------------------------------------
  // Lines

  function StripReturn(line: string): string {
    if line != [] && line[|line| - 1] == '\r' then line[..|line| - 1] else line
  }

  function StripReturns(lines: seq<string>): seq<string> {
    seq(|lines|, i requires 0 <= i < |lines| => StripReturn(lines[i]))
  }

  /** Lines end in a newline, optionally preceded by a carriage return; the last one may be unterminated. */
  function Lines(body: string): seq<string> {
    LinesOf(Split(body, '\n'))
  }

  function LinesOf(parts: seq<string>): seq<string>
    requires parts != []
  {
    var n := |parts| - 1;
    StripReturns(parts[..n]) + (if parts[n] == [] then [] else [parts[n]])
  }

  /** What splitting does with one more character in front. */
  function SplitMore(x: char, c: char, parts: seq<string>): seq<string>
    requires parts != []
  {
    if x == c then [[]] + parts else [[x] + parts[0]] + parts[1..]
  }

  lemma SplitMoreConcat(x: char, c: char, a: seq<string>, b: seq<string>)
    requires a != []
    ensures SplitMore(x, c, a + b) == SplitMore(x, c, a) + b
  {
  }

  lemma SplitStep(s: string, c: char)
    requires s != []
    ensures Split(s, c) == SplitMore(s[0], c, Split(s[1..], c))
  {
  }

  lemma {:induction false} SplitConcat(a: string, c: char, b: string)
    ensures Split(a + [c] + b, c) == Split(a, c) + Split(b, c)
  {
    var s := a + [c] + b;
    SplitStep(s, c);
    if a == [] {
      assert s[1..] == b;
    } else {
      SplitConcat(a[1..], c, b);
      SplitStep(a, c);
      assert s[1..] == a[1..] + [c] + b && s[0] == a[0];
      SplitMoreConcat(a[0], c, Split(a[1..], c), Split(b, c));
    }
  }

  lemma LinesOfConcat(a: seq<string>, b: seq<string>)
    requires b != []
    ensures LinesOf(a + b) == StripReturns(a) + LinesOf(b)
  {
    assert (a + b)[..|a + b| - 1] == a + b[..|b| - 1];
    assert StripReturns(a + b[..|b| - 1]) == StripReturns(a) + StripReturns(b[..|b| - 1]);
  }

  lemma SplitTerminated(a: string, c: char)
    ensures Split(a + [c], c) == Split(a, c) + [[]]
  {
    SplitConcat(a, c, []);
    assert a + [c] + [] == a + [c];
  }

  /** Text after a newline adds its own lines. */
  lemma LinesConcat(a: string, b: string)
    ensures Lines(a + "\n" + b) == Lines(a + "\n") + Lines(b)
  {
    var pa, pb := Split(a, '\n'), Split(b, '\n');
    SplitConcat(a, '\n', b);
    SplitTerminated(a, '\n');
    LinesOfConcat(pa, pb);
    LinesOfConcat(pa, [[]]);
    assert LinesOf([[]]) == [];
  }

  /** One more character at the end, other than the separator, goes to the last part. */
  lemma {:induction false} SplitLast(s: string, c: char, x: char)
    requires x != c
    ensures Split(s + [x], c) == Lengthened(Split(s, c), x)
  {
    SplitStep(s + [x], c);
    if s == [] {
      assert s + [x] == [x] && (s + [x])[1..] == [];
      var none: string := [];
      assert [x] + none == [x] == none + [x];
      assert SplitMore(x, c, [none]) == [[x]] == Lengthened([none], x);
    } else {
      SplitLast(s[1..], c, x);
      SplitStep(s, c);
      assert (s + [x])[1..] == s[1..] + [x];
      LengthenMore(s[0], c, Split(s[1..], c), x);
    }
  }

  function Lengthened(parts: seq<string>, x: char): seq<string>
    requires parts != []
  {
    parts[|parts| - 1 := parts[|parts| - 1] + [x]]
  }

  lemma LengthenMore(y: char, c: char, parts: seq<string>, x: char)
    requires parts != []
    ensures SplitMore(y, c, Lengthened(parts, x)) == Lengthened(SplitMore(y, c, parts), x)
  {
    if y != c && |parts| == 1 {
      assert [y] + (parts[0] + [x]) == [y] + parts[0] + [x];
    }
  }

  lemma OneLine(line: string)
    requires '\n' !in line && line != []
    ensures Lines(line) == [line] && Lines(line + "\n") == [StripReturn(line)] && Lines(line + "\r\n") == [line]
  {
    SplitPlain(line, '\n');
    SplitConcat(line, '\n', []);
    assert line + ['\n'] + [] == line + "\n";
    var returned := line + "\r";
    SplitPlain(returned, '\n');
    SplitConcat(returned, '\n', []);
    assert returned + ['\n'] + [] == line + "\r\n";
    assert StripReturn(returned) == line;
  }

  /** Whole lines in front are lines in front. */
  lemma LinesAfter(noise: string, tail: string)
    requires noise == [] || noise[|noise| - 1] == '\n'
    ensures Lines(noise + tail) == Lines(noise) + Lines(tail)
  {
    if noise == [] {
      assert noise + tail == tail;
      assert Lines(noise) == [];
    } else {
      assert noise == noise[..|noise| - 1] + "\n";
      LinesConcat(noise[..|noise| - 1], tail);
    }
  }

  /** A line in front, with any ending, is the first line up to a carriage return. */
  lemma LineInFront(line: string, ending: string, rest: string)
    requires '\n' !in line && line != []
    requires ending == "\n" || ending == "\r\n" || (ending == [] && rest == [])
    ensures var lines := Lines(line + ending + rest);
            lines != [] && (lines[0] == line || lines[0] == StripReturn(line))
  {
    OneLine(line);
    if ending == [] {
      assert line + ending + rest == line;
    } else {
      var a := if ending == "\n" then line else line + "\r";
      assert line + ending + rest == a + "\n" + rest && a + "\n" == line + ending;
      LinesConcat(a, rest);
    }
  }

  /** No line contains a newline. */
  lemma {:induction false} SplitWithout(s: string, c: char)
    ensures forall i :: 0 <= i < |Split(s, c)| ==> c !in Split(s, c)[i]
  {
    if s != [] {
      SplitWithout(s[1..], c);
    }
  }

  lemma LinesPlain(body: string)
    ensures forall i :: 0 <= i < |Lines(body)| ==> '\n' !in Lines(body)[i]
  {
    SplitWithout(body, '\n');
  }
}
