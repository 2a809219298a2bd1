/** Directory listings (lib/ftp/parse.go): the four line formats, tried in turn.

    Reading numbers and calendar texts is left to parameters with a specification. */
module FtpListing {
  import opened Calendar
  import opened FtpScanner
  import opened FtpTime
  import opened Options
  import opened Texts

  datatype EntryType = FileType | FolderType | LinkType

  datatype Entry = Entry(name: string, target: string, kind: EntryType, size: nat, time: Option<int>)

  const EMPTY_ENTRY := Entry("", "", FileType, 0, None)

  datatype Reason = DateShape | UnknownType | NumberSyntax | TimeSyntax

  // `Unsupported` lets the next format try; a failure ends the attempt.
  datatype Parsed = Ok(entry: Entry) | Unsupported | Failed(reason: Reason)

  datatype Lib = Lib(parseTime: TimeParser, parseUint: string -> Option<nat>, parseUint10: string -> Option<nat>,
                     parseModify: string -> Option<int>, parseDirTime: (nat, string) -> Option<int>)

  const UINT64 := 0x1_0000_0000_0000_0000

  ghost predicate ReadsNumbers(lib: Lib) {
    forall n: nat :: n < UINT64 ==> lib.parseUint(Decimal(n)) == Some(n)
  }

  /* ---- RFC 3659 ---- */

  function Lower(c: char): char {
    if 'A' <= c <= 'Z' then (c as int + 32) as char else c
  }

  function ToLower(s: string): string {
    seq(|s|, i requires 0 <= i < |s| => Lower(s[i]))
  }

  function ApplyFact(lib: Lib, field: string, e: Entry): Parsed {
    var i := IndexByte(field, '=');
    if i < 1 then Unsupported
    else
      var key, value := ToLower(field[..i]), field[i + 1..];
      if key == "modify" then
        match lib.parseModify(value)
        case None => Failed(TimeSyntax)
        case Some(t) => Ok(e.(time := Some(t)))
      else if key == "type" then
        if value == "dir" || value == "cdir" || value == "pdir" then Ok(e.(kind := FolderType))
        else if value == "file" then Ok(e.(kind := FileType))
        else Ok(e)
      else if key == "size" then
        match lib.parseUint(value)
        case None => Failed(NumberSyntax)
        case Some(n) => Ok(e.(size := n))
      else Ok(e)
  }

  function ApplyFacts(lib: Lib, fields: seq<string>, e: Entry): Parsed {
    if fields == [] then Ok(e)
    else
      match ApplyFact(lib, fields[0], e)
      case Ok(next) => ApplyFacts(lib, fields[1..], next)
      case failure => failure
  }

  function ParseNextRFC3659(lib: Lib, line: string, e: Entry): Parsed {
    var iSemicolon, iWhitespace := IndexByte(line, ';'), IndexByte(line, ' ');
    if iSemicolon < 0 || iSemicolon > iWhitespace then Unsupported
    else
      var name := line[iWhitespace + 1..];
      if e.name != "" && e.name != name then Unsupported
      else ApplyFacts(lib, Split(line[..iWhitespace - 1], ';'), e.(name := name))
  }

  // The loop of the source, updating the entry fact by fact.
  method ParseNextRFC3659ListLine(lib: Lib, line: string, entry: Entry) returns (r: Parsed)
    ensures r == ParseNextRFC3659(lib, line, entry)
  {
    var e := entry;
    var iSemicolon, iWhitespace := IndexByte(line, ';'), IndexByte(line, ' ');
    if iSemicolon < 0 || iSemicolon > iWhitespace {
      return Unsupported;
    }
    var name := line[iWhitespace + 1..];
    if e.name == "" {
      e := e.(name := name);
    } else if e.name != name {
      return Unsupported;
    }
    var fields := Split(line[..iWhitespace - 1], ';');
    for k := 0 to |fields|
      invariant ApplyFacts(lib, fields[k..], e) == ApplyFacts(lib, fields, entry.(name := name))
    {
      r := ApplyFact(lib, fields[k], e);
      if !r.Ok? {
        return;
      }
      e := r.entry;
    }
    return Ok(e);
  }

  /* ---- ls -l ---- */

  function Dated(e: Entry, t: TimeResult): Parsed {
    match t
    case Read(instant) => Ok(e.(time := Some(instant)))
    case BadTime => Failed(TimeSyntax)
    case UnsupportedDate => Failed(DateShape)
  }

  // A link's name and target; a line that starts with the arrow has no target.
  function SplitLink(e: Entry): Entry {
    var i := Index(e.name, " -> ");
    if i > 0 then e.(target := e.name[i + 4..], name := e.name[..i]) else e
  }

  function ParseLs(lib: Lib, line: string, now: Now): Parsed
    requires now.Valid()
  {
    var i := IndexByte(line, ' ');
    if !(i == 10 || (i == 11 && line[10] == '+')) then Unsupported
    else
      var (fields, pos) := Fields(line, 0, 6);
      if |fields| < 6 then Unsupported
      else if fields[1] == "folder" && fields[2] == "0" then
        Dated(Entry(line[pos..], "", FolderType, 0, None), SetTime(lib.parseTime, fields[3..6], now))
      else if fields[1] == "0" then
        var (field, after) := NextField(line, pos);
        match lib.parseUint(fields[2])
        case None => Unsupported
        case Some(n) =>
          Dated(Entry(line[after..], "", FileType, n, None), SetTime(lib.parseTime, (fields + [field])[4..7], now))
      else
        var (more, after) := Fields(line, pos, 2);
        if |more| < 2 then Unsupported
        else
          FirstField(line);
          UnixEntry(lib, fields + more, line[after..], now)
  }

  // The eight columns and the name of a Unix line.
  function UnixEntry(lib: Lib, fields: seq<string>, name: string, now: Now): Parsed
    requires now.Valid() && |fields| == 8 && fields[0] != ""
  {
    var e := Entry(name, "", FileType, 0, None);
    var t := SetTime(lib.parseTime, fields[5..8], now);
    match fields[0][0]
    case '-' =>
      (match lib.parseUint(fields[4])
       case None => Failed(NumberSyntax)
       case Some(n) => Dated(e.(size := n), t))
    case 'd' => Dated(e.(kind := FolderType), t)
    case 'l' => Dated(SplitLink(e.(kind := LinkType)), t)
    case _ => Failed(UnknownType)
  }

  // The parser as the source runs it, drawing its columns from a scanner.
  method ParseLsListLine(lib: Lib, line: string, now: Now) returns (r: Parsed)
    requires now.Valid()
    ensures r == ParseLs(lib, line, now)
  {
    hide Fields, NextField, SetTime, IndexByte, SplitLink;
    var i := IndexByte(line, ' ');
    if !(i == 10 || (i == 11 && line[10] == '+')) {
      return Unsupported;
    }
    var scanner := new Scanner(line);
    var fields := scanner.NextFields(6);
    if |fields| < 6 {
      return Unsupported;
    }
    if fields[1] == "folder" && fields[2] == "0" {
      var name := scanner.Remaining();
      return Dated(Entry(name, "", FolderType, 0, None), SetTime(lib.parseTime, fields[3..6], now));
    }
    if fields[1] == "0" {
      var field := scanner.Next();
      fields := fields + [field];
      var name := scanner.Remaining();
      var size := lib.parseUint(fields[2]);
      if size.None? {
        return Unsupported;
      }
      return Dated(Entry(name, "", FileType, size.value, None), SetTime(lib.parseTime, fields[4..7], now));
    }
    FirstField(line);
    var more := scanner.NextFields(2);
    fields := fields + more;
    if |fields| < 8 {
      return Unsupported;
    }
    var name := scanner.Remaining();
    var e := Entry(name, "", FileType, 0, None);
    if fields[0][0] == '-' {
      var size := lib.parseUint(fields[4]);
      if size.None? {
        return Failed(NumberSyntax);
      }
      e := e.(size := size.value);
    } else if fields[0][0] == 'd' {
      e := e.(kind := FolderType);
    } else if fields[0][0] == 'l' {
      e := SplitLink(e.(kind := LinkType));
    } else {
      return Failed(UnknownType);
    }
    return Dated(e, SetTime(lib.parseTime, fields[5..8], now));
  }

  lemma FirstField(line: string)
    ensures forall count :: count > 0 && |Fields(line, 0, count).0| > 0 ==> Fields(line, 0, count).0[0] != ""
  {
  }

  /* ---- MS-DOS dir, hostedftp.com ---- */

  const DIR_FORMAT_LENGTHS: seq<nat> := [17, 17, 19, 17]

  function TrimLeft(s: string): string {
    if s != "" && s[0] == ' ' then TrimLeft(s[1..]) else s
  }

  // The first format that is shorter than the line and reads its head; `failed` says that the last
  // one tried did not.
  function DirTime(lib: Lib, line: string, format: nat, failed: bool): (r: (Option<int>, nat, bool))
    requires format <= 4
    ensures r.1 <= |line|
    decreases 4 - format
  {
    if format == 4 then (None, 0, failed)
    else
      var n := DIR_FORMAT_LENGTHS[format];
      if |line| > n then
        match lib.parseDirTime(format, line[..n])
        case Some(t) => (Some(t), n, false)
        case None => DirTime(lib, line, format + 1, true)
      else DirTime(lib, line, format + 1, failed)
  }

  function ParseDir(lib: Lib, line: string): Parsed {
    var (t, n, failed) := DirTime(lib, line, 0, false);
    if failed then Unsupported
    else
      var rest := TrimLeft(line[n..]);
      if |rest| >= 5 && rest[..5] == "<DIR>" then
        Ok(Entry(TrimLeft(rest[5..]), "", FolderType, 0, t))
      else
        var space := IndexByte(rest, ' ');
        if space < 0 then Unsupported
        else
          match lib.parseUint10(rest[..space])
          case None => Unsupported
          case Some(size) => Ok(Entry(TrimLeft(rest[space..]), "", FileType, size, t))
  }

  // The source's loop over the formats.
  method ParseDirListLine(lib: Lib, line: string) returns (r: Parsed)
    ensures r == ParseDir(lib, line)
  {
    hide TrimLeft, IndexByte;
    var t: Option<int>, n, err := None, 0, false;
    var format := 0;
    while format < 4
      invariant format <= 4 && n == 0 && t == None
      invariant DirTime(lib, line, format, err) == DirTime(lib, line, 0, false)
    {
      var m := DIR_FORMAT_LENGTHS[format];
      if |line| > m {
        var read := lib.parseDirTime(format, line[..m]);
        err := read.None?;
        if !err {
          t, n := read, m;
          break;
        }
      }
      format := format + 1;
    }
    if err {
      return Unsupported;
    }
    var rest := TrimLeft(line[n..]);
    if |rest| >= 5 && rest[..5] == "<DIR>" {
      return Ok(Entry(TrimLeft(rest[5..]), "", FolderType, 0, t));
    }
    var space := IndexByte(rest, ' ');
    if space < 0 {
      return Unsupported;
    }
    var size := lib.parseUint10(rest[..space]);
    if size.None? {
      return Unsupported;
    }
    return Ok(Entry(TrimLeft(rest[space..]), "", FileType, size.value, t));
  }

  function ParseHosted(lib: Lib, line: string, now: Now): Parsed
    requires now.Valid()
  {
    if IndexByte(line, ' ') != 10 then Unsupported
    else
      var (fields, pos) := Fields(line, 0, 2);
      if |fields| < 2 || fields[1] != "0" then Unsupported
      else ParseLs(lib, fields[0] + " 1 " + line[pos..], now)
  }

  method ParseHostedFTPLine(lib: Lib, line: string, now: Now) returns (r: Parsed)
    requires now.Valid()
    ensures r == ParseHosted(lib, line, now)
  {
    hide Fields, NextField, IndexByte, ParseLs;
    if IndexByte(line, ' ') != 10 {
      return Unsupported;
    }
    var scanner := new Scanner(line);
    var fields := scanner.NextFields(2);
    if |fields| < 2 || fields[1] != "0" {
      return Unsupported;
    }
    var rest := scanner.Remaining();
    r := ParseLsListLine(lib, fields[0] + " 1 " + rest, now);
  }

  // The formats in turn; the first one that does not call the line unsupported decides.
  function ParseListLine(lib: Lib, line: string, now: Now): Parsed
    requires now.Valid()
  {
    var first := ParseNextRFC3659(lib, line, EMPTY_ENTRY);
    if first != Unsupported then first
    else
      var second := ParseLs(lib, line, now);
      if second != Unsupported then second
      else
        var third := ParseDir(lib, line);
        if third != Unsupported then third else ParseHosted(lib, line, now)
  }

  /* ---- Round trips ---- */

  predicate Permissions(s: string) {
    Lacks(s, ' ') && Lacks(s, ';') && (|s| == 10 || (|s| == 11 && s[10] == '+'))
  }

  // One line of `ls -l`: eight columns with any padding between them, one space, and the name.
  datatype LsLine = LsLine(perm: string, links: nat, owner: string, group: string, size: nat,
                           when: seq<string>, pads: seq<string>, tail: string) {
    ghost predicate Valid() {
      && Permissions(perm) && links >= 1 && Field(owner) && Field(group) && size < UINT64
      && |when| == 3 && Field(when[0]) && Field(when[1]) && Field(when[2])
      && |pads| == 7 && forall i :: 0 <= i < 7 ==> Spaces(pads[i])
    }

    function Columns(): seq<string> {
      [perm, Decimal(links), owner, group, Decimal(size)] + when
    }

    function Text(): string
      requires |pads| == 7 && |when| == 3
    {
      Padded([""] + pads, Columns()) + tail
    }
  }

  lemma DecimalField(n: nat)
    ensures Field(Decimal(n)) && (n >= 1 ==> Decimal(n) != "0" && Decimal(n) != "folder")
  {
    assert "folder"[0] == 'f';
  }

  lemma {:induction false} PaddedSplits(pads: seq<string>, fields: seq<string>, n: nat)
    requires |pads| == |fields| && n <= |fields|
    ensures Padded(pads, fields) == Padded(pads[..n], fields[..n]) + Padded(pads[n..], fields[n..])
    decreases n
  {
    if n > 0 {
      PaddedSplits(pads[1..], fields[1..], n - 1);
      assert pads[..n][1..] == pads[1..][..n - 1] && fields[..n][1..] == fields[1..][..n - 1];
      assert pads[1..][n - 1..] == pads[n..] && fields[1..][n - 1..] == fields[n..];
    } else {
      assert pads[0..] == pads && fields[0..] == fields;
    }
  }

  // The scanner takes the columns apart, six and then two, and leaves the name as it is.
  lemma ColumnsScanned(l: LsLine)
    requires l.Valid()
    ensures var line := l.Text(); var (fields, pos) := Fields(line, 0, 6); var (more, after) := Fields(line, pos, 2);
            fields == l.Columns()[..6] && more == l.Columns()[6..] && line[after..] == l.tail
    ensures IndexByte(l.Text(), ' ') == |l.perm|
    ensures ParseNextRFC3659Declines(l.Text())
  {
    var line, columns, pads := l.Text(), l.Columns(), [""] + l.pads;
    DecimalField(l.links);
    DecimalField(l.size);
    assert Field(l.perm);
    forall i | 0 <= i < 8
      ensures Spaces(pads[i]) && Field(columns[i])
    {
    }
    PaddedSplits(pads, columns, 6);
    var second := Padded(pads[6..], columns[6..]) + l.tail;
    assert line[0..] == line == Padded(pads[..6], columns[..6]) + second;
    FieldsOfPadded(line, 0, pads[..6], columns[..6], second);
    var pos := Fields(line, 0, 6).1;
    FieldsOfPadded(line, pos, pads[6..], columns[6..], l.tail);
    FirstSpace(line, l.perm);
  }

  // The RFC 3659 format wants a semicolon before the first space.
  predicate ParseNextRFC3659Declines(line: string) {
    IndexByte(line, ';') < 0 || IndexByte(line, ';') > IndexByte(line, ' ')
  }

  lemma FirstSpace(line: string, perm: string)
    requires Permissions(perm) && |line| > |perm| && line[..|perm|] == perm && line[|perm|] == ' '
    ensures IndexByte(line, ' ') == |perm| && ParseNextRFC3659Declines(line)
  {
    hide IndexByte, ParseNextRFC3659Declines, Lacks;
    var rest := line[|perm| + 1..];
    assert line == perm + " " + rest;
    FirstBlank(perm, rest);
    DeclinedEarly(perm, rest);
  }

  lemma DeclinedEarly(date: string, rest: string)
    requires Lacks(date, ';') && IndexByte(date + " " + rest, ' ') == |date|
    ensures ParseNextRFC3659Declines(date + " " + rest)
  {
    hide IndexByte;
    var line := date + " " + rest;
    assert forall i :: 0 <= i < |date| ==> line[i] == date[i];
    assert line[|date|] == ' ';
  }

  // What the line says, column by column.
  function Expected(l: LsLine, kind: EntryType, instant: int): Entry {
    var e := Entry(l.tail, "", kind, if kind.FileType? then l.size else 0, Some(instant));
    if kind.LinkType? then SplitLink(e) else e
  }

  function KindOf(c: char): Option<EntryType> {
    if c == '-' then Some(FileType) else if c == 'd' then Some(FolderType) else if c == 'l' then Some(LinkType) else None
  }

  lemma SplitLinkTime(e: Entry, t: Option<int>)
    ensures SplitLink(e.(time := t)) == SplitLink(e).(time := t)
  {
  }

  lemma SizeRead(lib: Lib, n: nat)
    requires ReadsNumbers(lib) && n < UINT64
    ensures lib.parseUint(Decimal(n)) == Some(n)
  {
  }

  lemma ColumnsMeanEntry(lib: Lib, l: LsLine, now: Now)
    requires ReadsNumbers(lib) && now.Valid() && l.Valid() && KindOf(l.perm[0]).Some?
    ensures UnixEntry(lib, l.Columns(), l.tail, now)
            == match SetTime(lib.parseTime, l.when, now)
               case Read(instant) => Ok(Expected(l, KindOf(l.perm[0]).value, instant))
               case BadTime => Failed(TimeSyntax)
               case UnsupportedDate => Failed(DateShape)
  {
    hide SetTime, SplitLink, Decimal, Permissions, Field, Spaces, ReadsNumbers;
    var t := SetTime(lib.parseTime, l.when, now);
    assert l.Columns()[5..8] == l.when && l.Columns()[4] == Decimal(l.size);
    SizeRead(lib, l.size);
    if t.Read? {
      SplitLinkTime(Entry(l.tail, "", LinkType, 0, None), Some(t.instant));
    }
  }

  lemma LineFacts(l: LsLine)
    requires l.Valid()
    ensures var line := l.Text(); var (fields, pos) := Fields(line, 0, 6); var (more, after) := Fields(line, pos, 2);
            && |fields| == 6 && |more| == 2 && fields + more == l.Columns() && line[after..] == l.tail
            && fields[1] != "folder" && fields[1] != "0"
            && (var i := IndexByte(line, ' '); i == 10 || (i == 11 && line[10] == '+'))
  {
    hide Fields, Padded, IndexByte, Spaces, Field, Decimal, LsLine.Text, LsLine.Valid, NextField;
    ColumnsScanned(l);
    ColumnFacts(l);
  }

  lemma ColumnFacts(l: LsLine)
    requires l.Valid()
    ensures |l.Columns()| == 8 && l.Columns()[..6] + l.Columns()[6..] == l.Columns()
    ensures l.Columns()[..6][1] != "folder" && l.Columns()[..6][1] != "0"
    ensures |l.perm| == 10 || (|l.perm| == 11 && |l.Text()| > 10 && l.Text()[10] == '+')
  {
    hide Padded, Spaces, Field;
    DecimalField(l.links);
    PermHead(l);
    assert |l.perm| == 11 ==> l.Text()[10] == l.Text()[..|l.perm|][10];
  }

  lemma ColumnsReachEntry(lib: Lib, l: LsLine, now: Now)
    requires now.Valid() && l.Valid()
    ensures ParseLs(lib, l.Text(), now) == UnixEntry(lib, l.Columns(), l.tail, now)
  {
    LineFacts(l);
    hide Fields, SetTime, IndexByte, NextField, UnixEntry, LsLine.Text, LsLine.Columns, LsLine.Valid;
  }

  lemma PermHead(l: LsLine)
    requires l.Valid()
    ensures |l.Text()| > |l.perm| && l.Text()[..|l.perm|] == l.perm
  {
    assert l.Text()[..|l.perm|] == l.perm;
  }

  // Through the whole dispatcher: every column comes back.
  lemma LsRoundTrip(lib: Lib, l: LsLine, now: Now)
    requires ReadsNumbers(lib) && now.Valid() && l.Valid() && KindOf(l.perm[0]).Some?
    ensures ParseListLine(lib, l.Text(), now)
            == match SetTime(lib.parseTime, l.when, now)
               case Read(instant) => Ok(Expected(l, KindOf(l.perm[0]).value, instant))
               case BadTime => Failed(TimeSyntax)
               case UnsupportedDate => Failed(DateShape)
  {
    ColumnsScanned(l);
    ColumnsReachEntry(lib, l, now);
    ColumnsMeanEntry(lib, l, now);
    hide UnixEntry, ParseLs, SetTime, Expected, ParseDir, ParseHosted;
    assert ParseNextRFC3659(lib, l.Text(), EMPTY_ENTRY) == Unsupported;
  }

  // A link comes back as printed exactly when its name is not empty and the printed name and arrow
  // hold no earlier arrow; a name that ends in " ->" does not.
  lemma LinkRoundTripIff(name: string, target: string, e: Entry)
    requires e.name == name + " -> " + target && e.target == ""
    ensures SplitLink(e) == e.(name := name, target := target) <==> name != "" && Index(name + " ->", " -> ") < 0
  {
    var s, head := e.name, name + " ->";
    var i := Index(s, " -> ");
    assert OccursAt(s, " -> ", |name|);
    forall j | 0 <= j < |name|
      ensures OccursAt(s, " -> ", j) <==> OccursAt(head, " -> ", j)
    {
      assert s[..|name| + 3] == head;
      assert s[j..j + 4] == s[..|name| + 3][j..j + 4];
    }
    assert forall j :: OccursAt(head, " -> ", j) ==> j < |name|;
    assert i == |name| <==> Index(head, " -> ") < 0;
    assert s[|name| + 4..] == target && s[..|name|] == name;
    assert i > 0 && i != |name| ==> |s[..i]| != |name|;
    assert |s| != |name|;
  }

  // The failing input: a link named `a ->` to `b`.
  lemma ArrowNameLost(l: LsLine, instant: int)
    requires l.tail == "a ->" + " -> " + "b"
    ensures var e := Expected(l, LinkType, instant); e.name == "a" && e.target == "-> b"
  {
    var s := l.tail;
    assert s == "a -> -> b";
    assert s[1..5] == " -> " && s[0] == 'a' && " -> "[0] == ' ';
    assert OccursAt(s, " -> ", 1) && !OccursAt(s, " -> ", 0);
    assert Index(s, " -> ") == 1;
    assert s[5..] == "-> b" && s[..1] == "a";
  }

  // Name, size, target and the guessed year of a recent entry all come back.
  lemma RecentRoundTrip(lib: Lib, l: LsLine, t: Stamp, now: Now)
    requires ReadsNumbers(lib) && ReadsTimes(lib.parseTime) && now.Valid() && t.Valid()
    requires l.Valid() && l.when == RecentFields(t) && KindOf(l.perm[0]).Some?
    requires now.Plus(-6) <= t.Instant() <= now.Instant()
    ensures ParseListLine(lib, l.Text(), now) == Ok(Expected(l, KindOf(l.perm[0]).value, t.Instant()))
  {
    hide ParseListLine, SetTime, LsLine.Valid, LsLine.Text, ReadsTimes;
    LsRoundTrip(lib, l, now);
    HalfYearRecovered(t, now);
    YearRecoveredIff(lib.parseTime, t, now);
  }

  // An older entry, printed with its year, comes back with its date.
  lemma DatedRoundTrip(lib: Lib, l: LsLine, d: Date, now: Now)
    requires ReadsNumbers(lib) && ReadsTimes(lib.parseTime) && now.Valid() && d.Valid() && 1000 <= d.Year() <= 9999
    requires l.Valid() && l.when == DatedFields(d) && KindOf(l.perm[0]).Some?
    ensures ParseListLine(lib, l.Text(), now) == Ok(Expected(l, KindOf(l.perm[0]).value, d.Number() * DAY))
  {
    hide ParseListLine, SetTime, LsLine.Valid, LsLine.Text, ReadsTimes, DatedFields, MonthStart, MonthLength;
    LsRoundTrip(lib, l, now);
    DatedRecovered(lib.parseTime, d, now);
  }

  /* ---- MLST replies over several lines ---- */

  function JoinFacts(facts: seq<string>): string {
    if facts == [] then "" else JoinFacts(facts[..|facts| - 1]) + facts[|facts| - 1] + ";"
  }

  function FactLine(facts: seq<string>, name: string): string {
    JoinFacts(facts) + " " + name
  }

  predicate PlainFacts(facts: seq<string>) {
    facts != [] && forall i :: 0 <= i < |facts| ==> Lacks(facts[i], ';') && Lacks(facts[i], ' ') && Lacks(facts[i], '\n')
  }

  // One leading space is dropped and blank lines are skipped.
  function Stripped(line: string): string {
    if line != "" && line[0] == ' ' then line[1..] else line
  }

  function FoldLines(lib: Lib, lines: seq<string>, e: Entry): Parsed {
    if lines == [] then Ok(e)
    else if Stripped(lines[0]) == "" then FoldLines(lib, lines[1..], e)
    else
      match ParseNextRFC3659(lib, Stripped(lines[0]), e)
      case Ok(next) => FoldLines(lib, lines[1..], next)
      case failure => failure
  }

  // The entry of an MLST reply: its inner lines, folded; fewer than three lines are no valid reply.
  function EntryOf(lib: Lib, msg: string): Option<Parsed> {
    var lines := Split(msg, '\n');
    if |lines| < 3 then None else Some(FoldLines(lib, lines[1..|lines| - 1], EMPTY_ENTRY))
  }

  method GetEntry(lib: Lib, msg: string) returns (valid: bool, r: Parsed)
    ensures EntryOf(lib, msg) == if valid then Some(r) else None
  {
    var lines := Split(msg, '\n');
    var lc := |lines|;
    hide Split, ParseNextRFC3659;
    if lc < 3 {
      return false, Unsupported;
    }
    var inner := lines[1..lc - 1];
    var e := EMPTY_ENTRY;
    for k := 0 to |inner|
      invariant FoldLines(lib, inner[k..], e) == FoldLines(lib, inner, EMPTY_ENTRY)
    {
      var l := inner[k];
      if |l| > 0 && l[0] == ' ' {
        l := l[1..];
      }
      if l != "" {
        r := ParseNextRFC3659ListLine(lib, l, e);
        if !r.Ok? {
          return true, r;
        }
        e := r.entry;
      }
    }
    return true, Ok(e);
  }

  lemma {:induction false} FactsSplit(facts: seq<string>)
    requires PlainFacts(facts)
    ensures |JoinFacts(facts)| > 0 && JoinFacts(facts)[|JoinFacts(facts)| - 1] == ';'
    ensures Split(JoinFacts(facts)[..|JoinFacts(facts)| - 1], ';') == facts
    ensures Lacks(JoinFacts(facts), ' ')
  {
    hide Split;
    var front, last := facts[..|facts| - 1], facts[|facts| - 1];
    var text := JoinFacts(facts)[..|JoinFacts(facts)| - 1];
    SplitWhole(last, ';');
    if front == [] {
      assert JoinFacts(front) == "";
      assert text == last && facts == [last];
    } else {
      FactsSplit(front);
      var before := JoinFacts(front)[..|JoinFacts(front)| - 1];
      assert JoinFacts(front) == before + [';'];
      assert text == before + [';'] + last;
      SplitJoin(before, last, ';');
      assert facts == front + [last];
    }
  }

  // One line: its facts applied in order, under the one name.
  lemma FactLineRead(lib: Lib, facts: seq<string>, name: string, e: Entry)
    requires PlainFacts(facts)
    ensures ParseNextRFC3659(lib, FactLine(facts, name), e)
            == if e.name != "" && e.name != name then Unsupported else ApplyFacts(lib, facts, e.(name := name))
  {
    hide JoinFacts, PlainFacts, ApplyFacts, Split;
    FactsSplit(facts);
    var text := JoinFacts(facts);
    var line := FactLine(facts, name);
    FirstBlank(text, name);
    SemicolonBefore(line, |text| - 1, |text|);
    assert line == text + " " + name;
    assert line[..|text| - 1] == text[..|text| - 1] && line[|text| + 1..] == name;
  }

  lemma FirstBlank(text: string, name: string)
    requires Lacks(text, ' ')
    ensures IndexByte(text + " " + name, ' ') == |text|
  {
    var line := text + " " + name;
    assert line[|text|] == ' ' && forall i :: 0 <= i < |text| ==> line[i] == text[i];
  }

  lemma SemicolonBefore(line: string, i: nat, j: nat)
    requires i < j < |line| && line[i] == ';'
    ensures 0 <= IndexByte(line, ';') < j
  {
    hide IndexByte;
    var k := IndexByte(line, ';');
    assert k >= 0;
    assert forall x :: 0 <= x < k ==> line[..k][x] == line[x];
  }

  lemma {:induction false} FactsKeepName(lib: Lib, facts: seq<string>, e: Entry)
    ensures var r := ApplyFacts(lib, facts, e); r.Ok? ==> r.entry.name == e.name
    decreases |facts|
  {
    if facts != [] {
      var r := ApplyFact(lib, facts[0], e);
      if r.Ok? {
        FactsKeepName(lib, facts[1..], r.entry);
      }
    }
  }

  lemma {:induction false} FactsInParts(lib: Lib, a: seq<string>, b: seq<string>, e: Entry)
    ensures ApplyFacts(lib, a + b, e)
            == match ApplyFacts(lib, a, e)
               case Ok(next) => ApplyFacts(lib, b, next)
               case failure => failure
    decreases |a|
  {
    if a == [] {
      assert a + b == b;
    } else {
      assert (a + b)[1..] == a[1..] + b;
      var r := ApplyFact(lib, a[0], e);
      if r.Ok? {
        FactsInParts(lib, a[1..], b, r.entry);
      }
    }
  }

  function Concat(groups: seq<seq<string>>): seq<string> {
    if groups == [] then [] else groups[0] + Concat(groups[1..])
  }

  function GroupLines(groups: seq<seq<string>>, name: string): seq<string> {
    seq(|groups|, i requires 0 <= i < |groups| => " " + FactLine(groups[i], name))
  }

  lemma {:induction false} GroupsFold(lib: Lib, groups: seq<seq<string>>, name: string, e: Entry)
    requires forall i :: 0 <= i < |groups| ==> PlainFacts(groups[i])
    requires name != "" && e.name == name
    ensures FoldLines(lib, GroupLines(groups, name), e) == ApplyFacts(lib, Concat(groups), e)
    decreases |groups|
  {
    var lines := GroupLines(groups, name);
    if groups != [] {
      assert lines[0][1..] == FactLine(groups[0], name);
      assert lines[1..] == GroupLines(groups[1..], name);
      FactLineRead(lib, groups[0], name, e);
      FactsInParts(lib, groups[0], Concat(groups[1..]), e);
      FactsKeepName(lib, groups[0], e);
      var r := ApplyFacts(lib, groups[0], e);
      if r.Ok? {
        GroupsFold(lib, groups[1..], name, r.entry);
      }
    }
  }

  lemma FoldedGroups(lib: Lib, groups: seq<seq<string>>, name: string)
    requires groups != [] && name != "" && forall i :: 0 <= i < |groups| ==> PlainFacts(groups[i])
    ensures FoldLines(lib, GroupLines(groups, name), EMPTY_ENTRY)
            == ParseNextRFC3659(lib, FactLine(Concat(groups), name), EMPTY_ENTRY)
  {
    var e := EMPTY_ENTRY.(name := name);
    ConcatPlain(groups);
    FactLineRead(lib, Concat(groups), name, EMPTY_ENTRY);
    FirstNamed(lib, groups, name);
    GroupsFold(lib, groups, name, e);
  }

  // The text of a reply.
  function Reply(lines: seq<string>): string
    requires lines != []
  {
    if |lines| == 1 then lines[0] else lines[0] + ['\n'] + Reply(lines[1..])
  }

  lemma {:induction false} ReplySplits(lines: seq<string>)
    requires lines != [] && forall i :: 0 <= i < |lines| ==> Lacks(lines[i], '\n')
    ensures Split(Reply(lines), '\n') == lines
    decreases |lines|
  {
    hide Split, Lacks;
    SplitWhole(lines[0], '\n');
    if |lines| > 1 {
      ReplySplits(lines[1..]);
      SplitJoin(lines[0], Reply(lines[1..]), '\n');
    }
  }

  lemma {:induction false} FactsFitLine(facts: seq<string>)
    requires forall i :: 0 <= i < |facts| ==> Lacks(facts[i], '\n')
    ensures Lacks(JoinFacts(facts), '\n')
  {
    if facts != [] {
      FactsFitLine(facts[..|facts| - 1]);
    }
  }

  lemma GroupsFitLines(groups: seq<seq<string>>, name: string)
    requires Lacks(name, '\n') && forall i :: 0 <= i < |groups| ==> PlainFacts(groups[i])
    ensures |GroupLines(groups, name)| == |groups|
    ensures forall i :: 0 <= i < |groups| ==> Lacks(GroupLines(groups, name)[i], '\n')
  {
    forall i | 0 <= i < |groups|
      ensures Lacks(GroupLines(groups, name)[i], '\n')
    {
      FactsFitLine(groups[i]);
    }
  }

  lemma LinesLack(first: string, inner: seq<string>, last: string)
    requires Lacks(first, '\n') && Lacks(last, '\n') && forall i :: 0 <= i < |inner| ==> Lacks(inner[i], '\n')
    ensures var lines := [first] + inner + [last]; forall i :: 0 <= i < |lines| ==> Lacks(lines[i], '\n')
  {
    hide Lacks;
  }

  lemma InnerLines(first: string, inner: seq<string>, last: string)
    ensures var lines := [first] + inner + [last]; lines[1..|lines| - 1] == inner
  {
  }

  lemma EntryOfReply(lib: Lib, groups: seq<seq<string>>, name: string, first: string, last: string)
    requires groups != [] && name != "" && forall i :: 0 <= i < |groups| ==> PlainFacts(groups[i])
    requires Lacks(name, '\n') && Lacks(first, '\n') && Lacks(last, '\n')
    ensures EntryOf(lib, Reply([first] + GroupLines(groups, name) + [last]))
            == Some(ParseNextRFC3659(lib, FactLine(Concat(groups), name), EMPTY_ENTRY))
  {
    hide Split, Lacks, Reply, FoldLines, ParseNextRFC3659, PlainFacts, GroupLines, FactLine;
    var lines := [first] + GroupLines(groups, name) + [last];
    GroupsFitLines(groups, name);
    LinesLack(first, GroupLines(groups, name), last);
    ReplySplits(lines);
    InnerLines(first, GroupLines(groups, name), last);
    FoldedGroups(lib, groups, name);
  }

  // Section 7.2 of RFC 3659, on the text of the reply: facts spread over lines of one name are the
  // facts of one line.
  lemma FoldingIsConcatenation(lib: Lib, groups: seq<seq<string>>, name: string, first: string, last: string)
    requires groups != [] && name != "" && forall i :: 0 <= i < |groups| ==> PlainFacts(groups[i])
    requires Lacks(name, '\n') && Lacks(first, '\n') && Lacks(last, '\n')
    ensures EntryOf(lib, Reply([first] + GroupLines(groups, name) + [last]))
            == EntryOf(lib, Reply([first] + GroupLines([Concat(groups)], name) + [last]))
  {
    hide Split, Lacks, Reply, FoldLines, ParseNextRFC3659, PlainFacts, EntryOf, GroupLines, FactLine;
    ConcatPlain(groups);
    EntryOfReply(lib, groups, name, first, last);
    EntryOfReply(lib, [Concat(groups)], name, first, last);
    OneGroup(Concat(groups));
  }

  lemma OneGroup(facts: seq<string>)
    ensures Concat([facts]) == facts
  {
    assert Concat([facts]) == facts + [];
  }

  lemma {:induction false} ConcatPlain(groups: seq<seq<string>>)
    requires groups != [] && forall i :: 0 <= i < |groups| ==> PlainFacts(groups[i])
    ensures PlainFacts(Concat(groups))
    decreases |groups|
  {
    if |groups| == 1 {
      assert Concat(groups) == groups[0];
    } else {
      ConcatPlain(groups[1..]);
    }
  }

  // The first line names the entry, so that it may as well have had its name from the start.
  lemma FirstNamed(lib: Lib, groups: seq<seq<string>>, name: string)
    requires groups != [] && name != "" && forall i :: 0 <= i < |groups| ==> PlainFacts(groups[i])
    ensures FoldLines(lib, GroupLines(groups, name), EMPTY_ENTRY)
            == FoldLines(lib, GroupLines(groups, name), EMPTY_ENTRY.(name := name))
  {
    var lines := GroupLines(groups, name);
    assert lines[0][1..] == FactLine(groups[0], name);
    FactLineRead(lib, groups[0], name, EMPTY_ENTRY);
    FactLineRead(lib, groups[0], name, EMPTY_ENTRY.(name := name));
  }
}
