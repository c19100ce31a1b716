/**
 The names behind the structured paths of `RemoteHost`: where a backup of a
 file goes, how a directory listing is turned back into backups, and why names
 of different roles and stamps never meet.
 */
module BackupNames {
  import opened Basics
  import opened Text

  const BACKUP_SUFFIX: string := ".feldjaeger.bak"
  const U64_MAX: nat := 0xFFFF_FFFF_FFFF_FFFF

  /** The position after the last slash among the first `n` characters. */
  function AfterSlash(path: string, n: nat): (k: nat)
    requires n <= |path|
    ensures k <= n
    ensures '/' !in path[k..n]
    ensures k > 0 ==> path[k - 1] == '/'
  {
    if n == 0 || path[n - 1] == '/' then n else AfterSlash(path, n - 1)
  }

  /** What follows the last slash. */
  function FileName(path: string): string {
    path[AfterSlash(path, |path|)..]
  }

  /** The directory of an absolute file path; the root stays "/". */
  function ParentDir(path: string): string {
    var cut := AfterSlash(path, |path|);
    if cut <= 1 then "/" else path[..cut - 1]
  }

  function JoinPath(dir: string, name: string): string {
    if dir != [] && dir[|dir| - 1] == '/' then dir + name else dir + "/" + name
  }

  function BackupFileName(name: string, second: nat): string {
    name + BACKUP_SUFFIX + "." + Decimal(second)
  }

  /** Where the backup of `original` taken in `second` is stored: next to the original. */
  function ResolveBackupPath(original: string, second: nat): Option<string>
    requires original != [] && original[0] == '/'
  {
    if FileName(original) == [] then None
    else Some(JoinPath(ParentDir(original), BackupFileName(FileName(original), second)))
  }

  datatype ListedBackup = ListedBackup(path: string, second: nat, size: nat)

  /** One line `<size>\t<name>` of the remote listing of `original`'s directory. */
  function ParseListing(original: string, line: string): Option<ListedBackup>
    requires original != [] && original[0] == '/'
  {
    var parts := Split(line, '\t');
    if |parts| < 2 then None
    else
      var size := ParseUnsigned(parts[0], U64_MAX);
      var name := Join(parts[1..], '\t');
      var prefix := FileName(original) + BACKUP_SUFFIX + ".";
      if size.None? || !(prefix <= name) then None
      else
        var second := ParseUnsigned(name[|prefix|..], U64_MAX);
        if second.None? || '/' in name then None
        else Some(ListedBackup(JoinPath(ParentDir(original), name), second.value, size.value))
  }

  function ListingLine(size: nat, name: string): string {
    Decimal(size) + "\t" + name
  }

  lemma DecimalPlain(n: nat, c: char)
    requires !IsDigit(c)
    ensures c !in Decimal(n)
  {
    DecimalValue(n);
  }

  /** The size ends at the first tab; the name may contain more of them. */
  lemma LineParts(size: nat, name: string)
    ensures var parts := Split(ListingLine(size, name), '\t');
            |parts| >= 2 && parts[0] == Decimal(size) && Join(parts[1..], '\t') == name
  {
    DecimalPlain(size, '\t');
    SplitFirst(Decimal(size), '\t', name);
    JoinSplit(name, '\t');
    assert ListingLine(size, name) == Decimal(size) + ['\t'] + name;
    assert ([Decimal(size)] + Split(name, '\t'))[1..] == Split(name, '\t');
  }

  lemma BackupFileNamePlain(file: string, second: nat, c: char)
    requires c !in file && c !in BACKUP_SUFFIX + "." && !IsDigit(c)
    ensures c !in BackupFileName(file, second)
  {
    DecimalPlain(second, c);
    assert BackupFileName(file, second) == file + (BACKUP_SUFFIX + ".") + Decimal(second);
  }

  /** What each line `<size>\t<name>` of the remote listing of `original`'s directory says. */
  function ParsedLines(original: string, lines: seq<string>): seq<Option<ListedBackup>>
    requires original != [] && original[0] == '/'
  {
    seq(|lines|, i requires 0 <= i < |lines| => ParseListing(original, lines[i]))
  }

  /** The backups among the lines. */
  function ListBackups(original: string, lines: seq<string>): seq<ListedBackup>
    requires original != [] && original[0] == '/'
  {
    Somes(ParsedLines(original, lines))
  }

  method ListBackupsOf(original: string, stdout: string) returns (backups: seq<ListedBackup>)
    requires original != [] && original[0] == '/'
    ensures backups == ListBackups(original, Lines(stdout))
  {
    var lines := Lines(stdout);
    ghost var parsed := ParsedLines(original, lines);
    backups := [];
    for i := 0 to |lines|
      invariant backups == Somes(parsed[..i])
    {
      assert parsed[..i + 1][..i] == parsed[..i];
      var b := ParseListing(original, lines[i]);
      if b.Some? {
        backups := backups + [b.value];
      }
    }
    assert parsed[..|lines|] == parsed;
  }

  lemma ListedIffParsed(original: string, lines: seq<string>, b: ListedBackup)
    requires original != [] && original[0] == '/'
    ensures b in ListBackups(original, lines)
            <==> exists i :: 0 <= i < |lines| && ParseListing(original, lines[i]) == Some(b)
  {
    var parsed := ParsedLines(original, lines);
    InSomes(parsed, b);
    if i :| 0 <= i < |lines| && ParseListing(original, lines[i]) == Some(b) {
      assert parsed[i] == Some(b);
    }
  }

  lemma LineParsed(original: string, second: nat, size: nat)
    requires original != [] && original[0] == '/' && FileName(original) != []
    requires second <= U64_MAX && size <= U64_MAX
    ensures ParseListing(original, ListingLine(size, BackupFileName(FileName(original), second)))
              == Some(ListedBackup(ResolveBackupPath(original, second).value, second, size))
  {
    var file := FileName(original);
    var name := BackupFileName(file, second);
    var prefix := file + BACKUP_SUFFIX + ".";
    assert '/' !in file;
    BackupFileNamePlain(file, second, '/');
    LineParts(size, name);
    assert name == prefix + Decimal(second);
    assert name[|prefix|..] == Decimal(second);
    ParseDecimal(size, U64_MAX);
    ParseDecimal(second, U64_MAX);
  }

  lemma ListingLineShape(original: string, second: nat, size: nat)
    requires '\n' !in FileName(original)
    ensures var line := ListingLine(size, BackupFileName(FileName(original), second));
            '\n' !in line && line != [] && StripReturn(line) == line
  {
    var name := BackupFileName(FileName(original), second);
    DecimalPlain(size, '\n');
    BackupFileNamePlain(FileName(original), second, '\n');
    DecimalValue(second);
    var line := ListingLine(size, name);
    assert line[|line| - 1] == name[|name| - 1] == Decimal(second)[|Decimal(second)| - 1];
  }

  lemma JoinedPlain(prefix: string, parts: seq<string>, c: char)
    requires c != '\t' && c in prefix && forall i :: 0 <= i < |parts| ==> c !in parts[i]
    ensures !(prefix <= Join(parts, '\t'))
  {
    JoinWithout(parts, '\t', c);
  }

  /** A line is never a backup of a file whose name contains a newline. */
  lemma NewlineNeverParses(original: string, line: string)
    requires original != [] && original[0] == '/' && '\n' in FileName(original) && '\n' !in line
    ensures ParseListing(original, line) == None
  {
    var parts := Split(line, '\t');
    var prefix := FileName(original) + BACKUP_SUFFIX + ".";
    SplitChars(line, '\t', '\n');
    if |parts| >= 2 {
      JoinedPlain(prefix, parts[1..], '\n');
    }
  }

  /**
   Listing undoes naming, exactly for files without a newline in their name: of
   those every stored backup is read back, whatever else is listed; of the
   others none ever is.
   */
  lemma ListingFindsBackup(original: string, second: nat, size: nat, before: string, after: string)
    requires original != [] && original[0] == '/' && FileName(original) != []
    requires second <= U64_MAX && size <= U64_MAX
    requires before == [] || before[|before| - 1] == '\n'
    ensures var line := ListingLine(size, BackupFileName(FileName(original), second));
            ListedBackup(ResolveBackupPath(original, second).value, second, size)
              in ListBackups(original, Lines(before + (line + "\n" + after)))
            <==> '\n' !in FileName(original)
  {
    var line := ListingLine(size, BackupFileName(FileName(original), second));
    var b := ListedBackup(ResolveBackupPath(original, second).value, second, size);
    var lines := Lines(before + (line + "\n" + after));
    ListedIffParsed(original, lines, b);
    if '\n' in FileName(original) {
      LinesPlain(before + (line + "\n" + after));
      forall i | 0 <= i < |lines| ensures ParseListing(original, lines[i]) == None {
        NewlineNeverParses(original, lines[i]);
      }
    } else {
      ListingLineShape(original, second, size);
      LineParsed(original, second, size);
      LineInFront(line, "\n", after);
      LinesAfter(before, line + "\n" + after);
      assert lines[|Lines(before)|] == line;
    }
  }

  /** A backup of a file named `a`, newline, `b`: it is stored, and never listed. */
  lemma NewlineHidesBackup()
    ensures var original := "/a\nb";
            && ResolveBackupPath(original, 7).Some?
            && ListBackups(original, Lines(ListingLine(5, BackupFileName(FileName(original), 7)) + "\n")) == []
  {
    var original := "/a\nb";
    var line := ListingLine(5, BackupFileName(FileName(original), 7));
    assert AfterSlash(original, 1) == AfterSlash(original, 2) == AfterSlash(original, 3) == AfterSlash(original, 4);
    assert '\n' in FileName(original) by {
      assert FileName(original)[1] == '\n';
    }
    NothingListed(original, line + "\n");
  }

  lemma NothingListed(original: string, stdout: string)
    requires original != [] && original[0] == '/' && '\n' in FileName(original)
    ensures ListBackups(original, Lines(stdout)) == []
  {
    var listed := ListBackups(original, Lines(stdout));
    LinesPlain(stdout);
    if listed != [] {
      ListedIffParsed(original, Lines(stdout), listed[0]);
      var i :| 0 <= i < |Lines(stdout)| && ParseListing(original, Lines(stdout)[i]) == Some(listed[0]);
      NewlineNeverParses(original, Lines(stdout)[i]);
    }
  }

  predicate NamedAfter(original: string, b: ListedBackup, stamp: string)
    requires original != [] && original[0] == '/'
  {
    && b.path == JoinPath(ParentDir(original), FileName(original) + BACKUP_SUFFIX + "." + stamp)
    && ParseUnsigned(stamp, U64_MAX) == Some(b.second)
  }

  lemma LineOnlyBackup(original: string, line: string)
    requires original != [] && original[0] == '/' && ParseListing(original, line).Some?
    ensures var name := Join(Split(line, '\t')[1..], '\t');
            var prefix := FileName(original) + BACKUP_SUFFIX + ".";
            prefix <= name && NamedAfter(original, ParseListing(original, line).value, name[|prefix|..])
  {
    var name := Join(Split(line, '\t')[1..], '\t');
    var prefix := FileName(original) + BACKUP_SUFFIX + ".";
    assert name == prefix + name[|prefix|..];
  }

  /** Only names of this very file's backups are listed: the rest of the name is a number. */
  lemma ListingOnlyBackups(original: string, stdout: string, b: ListedBackup)
    requires original != [] && original[0] == '/'
    requires b in ListBackups(original, Lines(stdout))
    ensures exists stamp: string :: NamedAfter(original, b, stamp)
  {
    var lines := Lines(stdout);
    ListedIffParsed(original, lines, b);
    var i :| 0 <= i < |lines| && ParseListing(original, lines[i]) == Some(b);
    LineOnlyBackup(original, lines[i]);
  }

  lemma OnlyDot(a: string, n: nat, s: string)
    requires s == a + "." + Decimal(n)
    ensures |a| < |s| && s[|a|] == '.'
    ensures forall i :: |a| < i < |s| ==> s[i] != '.'
    ensures s[..|a|] == a && s[|a| + 1..] == Decimal(n)
  {
    DecimalPlain(n, '.');
    assert forall i :: |a| < i < |s| ==> s[i] == Decimal(n)[i - |a| - 1];
  }

  /** A dot followed by a number: both sides of the last dot are determined. */
  lemma LastDot(a: string, b: string, m: nat, n: nat)
    requires a + "." + Decimal(m) == b + "." + Decimal(n)
    ensures a == b && m == n
  {
    var s := a + "." + Decimal(m);
    OnlyDot(a, m, s);
    OnlyDot(b, n, s);
    assert |a| == |b|;
    DecimalInjective(m, n);
  }

  /** The path with a repeated slash before the file name reduced by one; most paths are their own. */
  function OneSlash(path: string): string {
    JoinPath(ParentDir(path), FileName(path))
  }

  lemma JoinBack(path: string, cut: nat)
    requires 2 <= cut <= |path| && path[cut - 1] == '/'
    ensures JoinPath(path[..cut - 1], path[cut..]) == path <==> path[cut - 2] != '/'
  {
    var dir, name := path[..cut - 1], path[cut..];
    assert path == dir + "/" + name;
    assert dir[|dir| - 1] == path[cut - 2];
    assert |dir + name| != |path|;
  }

  lemma OneSlashSame(path: string)
    requires path != [] && path[0] == '/'
    ensures var cut := AfterSlash(path, |path|);
            OneSlash(path) == path <==> !(cut >= 2 && path[cut - 2] == '/')
  {
    var cut := AfterSlash(path, |path|);
    SlashFound(path, |path|);
    if cut == 1 {
      assert path == "/" + path[1..];
    } else {
      JoinBack(path, cut);
    }
  }

  lemma {:induction false} SlashFound(path: string, n: nat)
    requires 1 <= n <= |path| && path[0] == '/'
    ensures AfterSlash(path, n) >= 1
  {
    if path[n - 1] != '/' {
      SlashFound(path, n - 1);
    }
  }

  lemma BackupPathShape(original: string, second: nat)
    requires original != [] && original[0] == '/' && FileName(original) != []
    ensures ResolveBackupPath(original, second).value
              == OneSlash(original) + BACKUP_SUFFIX + "." + Decimal(second)
  {
    var dir, name := ParentDir(original), FileName(original);
    var tail := BACKUP_SUFFIX + "." + Decimal(second);
    assert BackupFileName(name, second) == name + tail;
    assert JoinPath(dir, name + tail) == JoinPath(dir, name) + tail;
    assert OneSlash(original) + tail == OneSlash(original) + BACKUP_SUFFIX + "." + Decimal(second);
  }

  /** Whole backup paths determine the second and the original, up to a repeated slash before its file name. */
  lemma BackupPathsInjective(original: string, other: string, second: nat, later: nat)
    requires original != [] && original[0] == '/' && FileName(original) != []
    requires other != [] && other[0] == '/' && FileName(other) != []
    ensures ResolveBackupPath(original, second) == ResolveBackupPath(other, later)
            <==> OneSlash(original) == OneSlash(other) && second == later
  {
    BackupPathShape(original, second);
    BackupPathShape(other, later);
    if ResolveBackupPath(original, second) == ResolveBackupPath(other, later) {
      BackupNamesInjective(OneSlash(original), OneSlash(other), second, later);
    }
  }

  /** A file name with suffix and second determines both. */
  lemma BackupNamesInjective(name: string, other: string, second: nat, later: nat)
    requires BackupFileName(name, second) == BackupFileName(other, later)
    ensures name == other && second == later
  {
    LastDot(name + BACKUP_SUFFIX, other + BACKUP_SUFFIX, second, later);
    var s := name + BACKUP_SUFFIX;
    assert s[..|s| - |BACKUP_SUFFIX|] == name && (other + BACKUP_SUFFIX)[..|s| - |BACKUP_SUFFIX|] == other;
  }

  /** The siblings of an atomic replacement: `kind` is "tmp" or "old". */
  function SiblingName(path: string, kind: string, nanos: nat): string {
    path + ".feldjaeger." + kind + "." + Decimal(nanos)
  }

  /** Temporary, set-aside and backup files never share a name, whatever files they belong to. */
  lemma RolesApart(path: string, other: string, file: string, nanos: nat, later: nat, second: nat)
    ensures SiblingName(path, "tmp", nanos) != SiblingName(other, "old", later)
    ensures SiblingName(path, "tmp", nanos) != BackupFileName(file, second)
    ensures SiblingName(path, "old", nanos) != BackupFileName(file, second)
    ensures SiblingName(path, "tmp", nanos) == SiblingName(other, "tmp", later) ==> path == other && nanos == later
  {
    var tmp, old_ := path + ".feldjaeger." + "tmp", path + ".feldjaeger." + "old";
    var old' := other + ".feldjaeger." + "old";
    var bak := file + BACKUP_SUFFIX;
    var tmp' := other + ".feldjaeger." + "tmp";
    assert tmp[|tmp| - 1] == 'p' && old_[|old_| - 1] == 'd' && old'[|old'| - 1] == 'd' && bak[|bak| - 1] == 'k';
    if SiblingName(path, "tmp", nanos) == SiblingName(other, "old", later) {
      LastDot(tmp, old', nanos, later);
    }
    if SiblingName(path, "tmp", nanos) == BackupFileName(file, second) {
      LastDot(tmp, bak, nanos, second);
    }
    if SiblingName(path, "old", nanos) == BackupFileName(file, second) {
      LastDot(old_, bak, nanos, second);
    }
    if SiblingName(path, "tmp", nanos) == SiblingName(other, "tmp", later) {
      LastDot(tmp, tmp', nanos, later);
      assert tmp[..|path|] == path && tmp'[..|other|] == other && |tmp| == |tmp'|;
    }
  }
}
