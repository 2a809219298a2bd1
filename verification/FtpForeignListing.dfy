/** Two of the other line formats through the whole dispatcher (lib/ftp/parse.go): MS-DOS `dir` lines
    and the lines of hostedftp.com.  Each has to get past the parsers tried before its own. */
module FtpForeignListing {
  import opened Calendar
  import opened FtpListing
  import opened FtpScanner
  import opened FtpTime
  import opened Options
  import opened Texts

  /* ---- MS-DOS dir ---- */

  // `01-02-2006  15:04   <DIR>   name`, or a size instead of `<DIR>`.
  datatype DirLine = DirLine(date: string, clock: string, size: Option<nat>, pad: string, gap: string, name: string) {
    ghost predicate Valid() {
      && Field(date) && (|date| == 8 || |date| == 10) && Lacks(date, ';') && KindOf(date[0]) == None
      && Field(clock) && |clock| > 1 && clock != "folder"
      && Spaces(pad) && Spaces(gap) && pad != "" && gap != ""
      && (name != "" ==> name[0] != ' ')
    }

    function Head(): string {
      date + "  " + clock
    }

    function What(): string {
      if size.Some? then Decimal(size.value) else "<DIR>"
    }

    function Text(): string {
      Head() + pad + What() + gap + name
    }

    function Meaning(t: int): Entry {
      Entry(name, "", if size.Some? then FileType else FolderType, if size.Some? then size.value else 0, Some(t))
    }
  }

  lemma {:induction false} TrimLeftSpaces(pad: string, rest: string)
    requires Spaces(pad) && (rest != "" ==> rest[0] != ' ')
    ensures TrimLeft(pad + rest) == rest
  {
    if pad == "" {
      assert pad + rest == rest;
    } else {
      assert (pad + rest)[1..] == pad[1..] + rest;
      TrimLeftSpaces(pad[1..], rest);
    }
  }

  lemma WhatFacts(l: DirLine)
    ensures Field(l.What()) && (l.size.Some? ==> l.What()[0] != '<')
  {
    if l.size.Some? {
      DecimalField(l.size.value);
    }
  }

  // The line as the scanner sees it: three columns and the rest.
  lemma ThreeColumns(l: DirLine)
    requires l.Valid()
    ensures var (found, next) := Fields(l.Text(), 0, 3);
            found == [l.date, l.clock, l.What()] && l.Text()[next..] == l.gap[1..] + l.name
  {
    hide Padded, Fields, Field, Spaces, Decimal, DirLine.What, KindOf, Lacks;
    var fields, pads := [l.date, l.clock, l.What()], ["", " ", l.pad[1..]];
    var tail := l.gap[1..] + l.name;
    SpaceHead(l.pad);
    SpaceHead(l.gap);
    PadsFine(l, pads, fields);
    Unfolded(pads, fields);
    Regroup(l.date, l.clock, l.pad[1..], l.What(), l.gap[1..], l.name);
    assert l.Text()[0..] == l.Text();
    FieldsOfPadded(l.Text(), 0, pads, fields, tail);
  }

  lemma Regroup(date: string, clock: string, pad: string, what: string, gap: string, name: string)
    ensures date + "  " + clock + (" " + pad) + what + (" " + gap) + name
            == "" + date + " " + (" " + clock + " " + (pad + what + " ")) + (gap + name)
  {
    var left := date + "  " + clock;
    assert left == date + " " + (" " + clock);
    var rest := pad + what + (" " + gap) + name;
    assert rest == pad + what + " " + (gap + name);
    assert left + (" " + pad) + what + (" " + gap) + name == left + " " + rest;
    assert date + " " + (" " + clock + " " + (pad + what + " ")) + (gap + name)
        == date + " " + (" " + clock) + " " + rest;
    assert "" + date == date;
  }

  lemma SpaceHead(pad: string)
    requires Spaces(pad) && pad != ""
    ensures pad == " " + pad[1..] && Spaces(pad[1..])
  {
  }

  lemma PadsFine(l: DirLine, pads: seq<string>, fields: seq<string>)
    requires l.Valid() && pads == ["", " ", l.pad[1..]] && fields == [l.date, l.clock, l.What()]
    ensures forall i :: 0 <= i < 3 ==> Spaces(pads[i]) && Field(fields[i])
  {
    WhatFacts(l);
    SpaceHead(l.pad);
  }

  lemma Unfolded(pads: seq<string>, fields: seq<string>)
    requires |pads| == |fields| == 3
    ensures Padded(pads, fields)
            == pads[0] + fields[0] + " " + (pads[1] + fields[1] + " " + (pads[2] + fields[2] + " "))
  {
    assert pads[1..][1..] == [pads[2]] && fields[1..][1..] == [fields[2]];
    assert Padded([pads[2]], [fields[2]]) == pads[2] + fields[2] + " " + "";
  }

  // The number of words in a name, up to five.
  function Words(name: string): nat {
    |Fields(name, 0, 5).0|
  }

  lemma SixAndTwo(line: string)
    ensures var (fields, pos) := Fields(line, 0, 6); var (more, _) := Fields(line, pos, 2);
            |fields| == 6 && |more| == 2 <==> |Fields(line, 0, 8).0| == 8
  {
    hide Fields;
    FieldsSplit(line, 0, 6, 2);
  }

  // The columns after the first three are the words of the name.
  lemma WordsFollow(l: DirLine, n: nat)
    requires l.Valid()
    ensures Fields(l.Text(), 0, 3 + n).0 == [l.date, l.clock, l.What()] + Fields(l.name, 0, n).0
  {
    ThreeColumns(l);
    GapFine(l);
    hide Fields, DirLine.Text, DirLine.Valid, DirLine.What, Spaces;
    var line := l.Text();
    var pos := Fields(line, 0, 3).1;
    FieldsSplit(line, 0, 3, n);
    var rest := l.gap[1..] + l.name;
    assert rest[0..] == rest;
    SameFields(line, pos, rest, 0, n);
    LeadingSpaces(l.gap[1..], l.name, n);
  }

  lemma GapFine(l: DirLine)
    requires l.Valid()
    ensures l.gap != "" && Spaces(l.gap[1..])
  {
    SpaceHead(l.gap);
  }

  // Eight columns in all are there exactly when the name has five words.
  lemma ColumnsCounted(l: DirLine)
    requires l.Valid()
    ensures var (fields, pos) := Fields(l.Text(), 0, 6); var (more, _) := Fields(l.Text(), pos, 2);
            && (|fields| == 6 && |more| == 2 <==> Words(l.name) == 5)
            && (|fields| == 6 ==> fields[0] == l.date && fields[1] == l.clock)
  {
    hide Fields, DirLine.Text, DirLine.Valid, DirLine.What;
    SixAndTwo(l.Text());
    WordsFollow(l, 5);
    WordsFollow(l, 3);
  }

  lemma FirstBlankOfDate(l: DirLine)
    requires l.Valid()
    ensures IndexByte(l.Text(), ' ') == |l.date| && ParseNextRFC3659Declines(l.Text())
  {
    hide IndexByte, Spaces;
    var rest := " " + l.clock + l.pad + l.What() + l.gap + l.name;
    assert l.Text() == l.date + " " + rest;
    assert Lacks(l.date, ' ');
    FirstBlank(l.date, rest);
    DeclinedEarly(l.date, rest);
  }

  // The `ls` parser declines the line, or claims it and fails.
  lemma LsOfDirLine(lib: Lib, l: DirLine, now: Now)
    requires l.Valid() && now.Valid()
    ensures ParseLs(lib, l.Text(), now)
            == if |l.date| == 10 && Words(l.name) == 5 then Failed(UnknownType) else Unsupported
  {
    FirstBlankOfDate(l);
    ColumnsCounted(l);
    NotHosted(l);
    hide Fields, NextField, IndexByte, SetTime, DirLine.Text, Words, DirLine.Valid, SplitLink;
  }

  lemma NotHosted(l: DirLine)
    requires l.Valid()
    ensures l.clock != "folder" && l.clock != "0" && l.date != "" && KindOf(l.date[0]) == None
  {
  }

  lemma DirOfDirLine(lib: Lib, l: DirLine, t: int)
    requires l.Valid() && DirTime(lib, l.Text(), 0, false) == (Some(t), |l.Head()|, false)
    requires l.size.Some? ==> lib.parseUint10(l.What()) == l.size
    ensures ParseDir(lib, l.Text()) == Ok(l.Meaning(t))
  {
    hide DirTime, TrimLeft, IndexByte, Spaces, Field, DirLine.What, KindOf;
    var what, gapped := l.What(), l.gap + l.name;
    assert l.Text() == l.Head() + (l.pad + (what + gapped));
    DirFacts(l);
    TrimLeftSpaces(l.pad, what + gapped);
    TrimLeftSpaces(l.gap, l.name);
    FirstGap(what, gapped);
    assert (what + gapped)[|what|..] == gapped && (what + gapped)[..|what|] == what;
    if l.size.None? {
      assert what == "<DIR>" by { WhatIs(l); }
      assert (what + gapped)[..5] == "<DIR>";
    } else {
      assert (what + gapped)[0] == what[0];
      assert "<DIR>"[0] == '<';
    }
  }

  lemma WhatIs(l: DirLine)
    ensures l.size.None? ==> l.What() == "<DIR>"
  {
  }

  lemma DirFacts(l: DirLine)
    requires l.Valid()
    ensures Field(l.What()) && l.What() != "" && l.What()[0] != ' ' && (l.size.Some? ==> l.What()[0] != '<')
    ensures Spaces(l.pad) && Spaces(l.gap) && (l.gap + l.name) != "" && (l.gap + l.name)[0] == ' '
    ensures l.name != "" ==> l.name[0] != ' '
  {
    WhatFacts(l);
    SpaceHead(l.gap);
  }

  lemma FirstGap(what: string, gapped: string)
    requires Field(what) && gapped != "" && gapped[0] == ' '
    ensures IndexByte(what + gapped, ' ') == |what|
  {
    var rest := what + gapped;
    assert rest[|what|] == ' ' && forall i :: 0 <= i < |what| ==> rest[i] == what[i];
  }

  // A `dir` line comes back as printed, unless its date has ten characters and its name five words:
  // then it looks enough like `ls` output to be claimed, and refused, by that parser.
  lemma DirRoundTripIff(lib: Lib, l: DirLine, now: Now, t: int)
    requires l.Valid() && now.Valid() && DirTime(lib, l.Text(), 0, false) == (Some(t), |l.Head()|, false)
    requires l.size.Some? ==> lib.parseUint10(l.What()) == l.size
    ensures ParseListLine(lib, l.Text(), now) == Ok(l.Meaning(t)) <==> !(|l.date| == 10 && Words(l.name) == 5)
    ensures |l.date| == 10 && Words(l.name) == 5 ==> ParseListLine(lib, l.Text(), now) == Failed(UnknownType)
  {
    FirstBlankOfDate(l);
    LsOfDirLine(lib, l, now);
    DirOfDirLine(lib, l, t);
    hide ParseLs, ParseDir, ParseHosted, DirTime, DirLine.Text, Words, ApplyFacts, Split;
    assert ParseNextRFC3659(lib, l.Text(), EMPTY_ENTRY) == Unsupported;
  }

  lemma {:induction false} FiveLetters()
    ensures Words("a b c d e") == 5
  {
    var s := "a b c d e";
    assert SkipSpaces(s, 0) == 0 && SkipField(s, 0) == 1 && SkipSpaces(s, 2) == 2 && SkipField(s, 2) == 3;
    assert SkipSpaces(s, 4) == 4 && SkipField(s, 4) == 5 && SkipSpaces(s, 6) == 6 && SkipField(s, 6) == 7;
    assert SkipSpaces(s, 8) == 8 && SkipField(s, 8) == 9;
    assert NextField(s, 0) == (s[0..1], 2) && NextField(s, 2) == (s[2..3], 4) && NextField(s, 4) == (s[4..5], 6);
    assert NextField(s, 6) == (s[6..7], 8) && NextField(s, 8) == (s[8..9], 9);
    hide NextField;
    assert |Fields(s, 9, 0).0| == 0;
    assert |Fields(s, 8, 1).0| == 1;
    assert |Fields(s, 6, 2).0| == 2;
    assert |Fields(s, 4, 3).0| == 3;
    assert |Fields(s, 2, 4).0| == 4;
  }

  // Reads ISO dates as the epoch, and nothing else.
  const SAMPLE_LIB: Lib :=
    Lib((_, _, _, _) => None, _ => None, _ => None, _ => None, (format, _) => if format == 1 then Some(0) else None)

  // The failing input: a directory named with five words, on a server that writes ISO dates.
  lemma DirLineClaimed(now: Now)
    requires now.Valid()
    ensures var line := "2018-03-11  15:04 <DIR> a b c d e";
            && ParseListLine(SAMPLE_LIB, line, now) == Failed(UnknownType)
            && ParseDir(SAMPLE_LIB, line) == Ok(Entry("a b c d e", "", FolderType, 0, Some(0)))
  {
    hide Fields, ParseListLine, ParseDir, DirLine.Text, DirLine.Valid, DirTime, Words;
    FiveLetters();
    SampleLine();
    DirRoundTripIff(SAMPLE_LIB, SAMPLE_LINE, now, 0);
    DirOfDirLine(SAMPLE_LIB, SAMPLE_LINE, 0);
  }

  const SAMPLE_LINE := DirLine("2018-03-11", "15:04", None, " ", " ", "a b c d e")

  lemma SampleLine()
    ensures SAMPLE_LINE.Valid()
    ensures SAMPLE_LINE.Text() == "2018-03-11  15:04 <DIR> a b c d e"
    ensures DirTime(SAMPLE_LIB, SAMPLE_LINE.Text(), 0, false) == (Some(0), |SAMPLE_LINE.Head()|, false)
  {
    var text := SAMPLE_LINE.Text();
    assert text == "2018-03-11  15:04 <DIR> a b c d e";
    SampleTime(text);
  }

  lemma SampleTime(text: string)
    requires |text| > 17
    ensures DirTime(SAMPLE_LIB, text, 0, false) == (Some(0), 17, false)
  {
    assert DirTime(SAMPLE_LIB, text, 1, true) == (Some(0), 17, false);
  }

  /* ---- hostedftp.com ---- */

  // An `ls` line with the link count 0.
  function Hosted(l: LsLine): string
    requires |l.pads| == 7 && |l.when| == 3
  {
    Padded([""] + l.pads, HostedColumns(l)) + l.tail
  }

  function HostedColumns(l: LsLine): seq<string> {
    [l.perm, "0", l.owner, l.group, Decimal(l.size)] + l.when
  }

  // The line the parser makes of it: one link, and no padding before that count.
  function Mended(l: LsLine): LsLine
    requires |l.pads| == 7
  {
    l.(links := 1, pads := [""] + l.pads[1..])
  }

  lemma MendedFine(l: LsLine)
    requires l.Valid()
    ensures Mended(l).Valid()
    ensures forall i :: 0 <= i < 8 ==> Spaces(([""] + l.pads)[i]) && Field(HostedColumns(l)[i])
  {
    DecimalField(l.size);
  }

  lemma OneLink()
    ensures Decimal(1) == "1"
  {
  }

  lemma HostedTwo(l: LsLine)
    requires l.Valid()
    ensures |l.pads| == 7 && |l.when| == 3
    ensures var (fields, pos) := Fields(Hosted(l), 0, 2);
            && fields == [l.perm, "0"]
            && Hosted(l)[pos..] == Padded(([""] + l.pads)[2..], HostedColumns(l)[2..]) + l.tail
  {
    LsSizes(l);
    hide Padded, Fields, Field, Spaces, Decimal, LsLine.Valid, Permissions;
    var pads, columns := [""] + l.pads, HostedColumns(l);
    var rest := Padded(pads[2..], columns[2..]) + l.tail;
    MendedFine(l);
    PaddedSplits(pads, columns, 2);
    assert Hosted(l)[0..] == Padded(pads[..2], columns[..2]) + rest;
    FieldsOfPadded(Hosted(l), 0, pads[..2], columns[..2], rest);
    assert columns[..2] == [l.perm, "0"];
  }

  lemma MendedText(l: LsLine)
    requires l.Valid()
    ensures |l.pads| == 7 && |l.when| == 3
    ensures Mended(l).Text() == l.perm + " 1 " + (Padded(([""] + l.pads)[2..], HostedColumns(l)[2..]) + l.tail)
  {
    LsSizes(l);
    hide Padded, Spaces, Decimal, LsLine.Valid, Permissions;
    var mended, whole := [""] + Mended(l).pads, Mended(l).Columns();
    PaddedSplits(mended, whole, 2);
    assert mended[2..] == ([""] + l.pads)[2..] && whole[2..] == HostedColumns(l)[2..];
    OneLink();
    TwoColumns(mended[..2], whole[..2]);
    assert mended[..2] == ["", ""] && whole[..2] == [l.perm, "1"];
    assert Padded(mended[..2], whole[..2]) == l.perm + " 1 ";
  }

  // Two columns read, the rest is what follows a repaired count.
  lemma HostedRest(l: LsLine)
    requires l.Valid()
    ensures |l.pads| == 7 && |l.when| == 3
    ensures var (fields, pos) := Fields(Hosted(l), 0, 2);
            fields == [l.perm, "0"] && l.perm + " 1 " + Hosted(l)[pos..] == Mended(l).Text()
  {
    hide Padded, Fields, LsLine.Valid, LsLine.Text, Hosted, HostedColumns, Mended;
    HostedTwo(l);
    MendedText(l);
  }

  lemma LsSizes(l: LsLine)
    requires l.Valid()
    ensures |l.pads| == 7 && |l.when| == 3
  {
  }

  lemma TwoColumns(pads: seq<string>, fields: seq<string>)
    requires |pads| == |fields| == 2
    ensures Padded(pads, fields) == pads[0] + fields[0] + " " + (pads[1] + fields[1] + " ")
  {
    assert pads[1..] == [pads[1]] && fields[1..] == [fields[1]];
    assert Padded([pads[1]], [fields[1]]) == pads[1] + fields[1] + " " + "";
  }

  lemma HostedHead(l: LsLine)
    requires l.Valid()
    ensures IndexByte(Hosted(l), ' ') == |l.perm| && ParseNextRFC3659Declines(Hosted(l))
  {
    hide Padded, IndexByte, LsLine.Valid, Permissions, Hosted, ParseNextRFC3659Declines;
    LsSizes(l);
    HostedStart(l);
    FirstSpace(Hosted(l), l.perm);
  }

  lemma HostedSix(l: LsLine)
    requires l.Valid()
    ensures |l.when| == 3
    ensures Fields(Hosted(l), 0, 6).0 == [l.perm, "0", l.owner, l.group, Decimal(l.size), l.when[0]]
  {
    LsSizes(l);
    hide Padded, Fields, Field, Spaces, Decimal, LsLine.Valid, Permissions;
    var pads, columns := [""] + l.pads, HostedColumns(l);
    MendedFine(l);
    PaddedSplits(pads, columns, 6);
    var second := Padded(pads[6..], columns[6..]) + l.tail;
    assert Hosted(l)[0..] == Padded(pads[..6], columns[..6]) + second;
    FieldsOfPadded(Hosted(l), 0, pads[..6], columns[..6], second);
    assert columns[..6] == [l.perm, "0", l.owner, l.group, Decimal(l.size), l.when[0]];
  }

  lemma HostedStart(l: LsLine)
    requires l.Valid()
    ensures Permissions(l.perm)
    ensures |Hosted(l)| > |l.perm| && Hosted(l)[..|l.perm|] == l.perm && Hosted(l)[|l.perm|] == ' '
  {
    var rest := Padded(([""] + l.pads)[1..], HostedColumns(l)[1..]) + l.tail;
    assert Hosted(l) == l.perm + " " + rest;
  }

  // The other parsers decline such a line, unless its owner reads as a number.
  lemma OthersDecline(lib: Lib, l: LsLine, now: Now)
    requires l.Valid() && now.Valid() && lib.parseUint(l.owner) == None && DirTime(lib, Hosted(l), 0, false).2
    ensures ParseNextRFC3659(lib, Hosted(l), EMPTY_ENTRY) == Unsupported
    ensures ParseLs(lib, Hosted(l), now) == Unsupported && ParseDir(lib, Hosted(l)) == Unsupported
  {
    HostedHead(l);
    HostedSix(l);
    PermissionLength(l);
    hide Fields, NextField, IndexByte, SetTime, DirTime, Hosted, LsLine.Valid, ApplyFacts, Split, UnixEntry, TrimLeft;
    assert "0" != "folder";
  }

  lemma PermissionLength(l: LsLine)
    requires l.Valid()
    ensures |l.perm| == 10 || (|l.perm| == 11 && |Hosted(l)| > 10 && Hosted(l)[10] == '+')
  {
    HostedStart(l);
    assert |l.perm| == 11 ==> Hosted(l)[10] == Hosted(l)[..11][10];
  }

  // The zero count is mended, and the line reads like its `ls` counterpart.
  lemma HostedRoundTrip(lib: Lib, l: LsLine, now: Now)
    requires ReadsNumbers(lib) && now.Valid() && l.Valid() && |l.perm| == 10 && KindOf(l.perm[0]).Some?
    requires lib.parseUint(l.owner) == None && DirTime(lib, Hosted(l), 0, false).2
    ensures ParseListLine(lib, Hosted(l), now)
            == match SetTime(lib.parseTime, l.when, now)
               case Read(instant) => Ok(Expected(l, KindOf(l.perm[0]).value, instant))
               case BadTime => Failed(TimeSyntax)
               case UnsupportedDate => Failed(DateShape)
  {
    hide ParseNextRFC3659, ParseLs, ParseDir, ParseHosted, DirTime, Hosted, LsLine.Text, LsLine.Valid, LsLine.Columns,
         SetTime, UnixEntry, SplitLink, Decimal, ReadsNumbers, Spaces, Field;
    LsSizes(l);
    MendedFine(l);
    OthersDecline(lib, l, now);
    HostedParsed(lib, l, now);
    ColumnsReachEntry(lib, Mended(l), now);
    ColumnsMeanEntry(lib, Mended(l), now);
  }

  lemma HostedParsed(lib: Lib, l: LsLine, now: Now)
    requires now.Valid() && l.Valid() && |l.perm| == 10
    ensures |l.pads| == 7 && |l.when| == 3
    ensures ParseHosted(lib, Hosted(l), now) == ParseLs(lib, Mended(l).Text(), now)
  {
    hide ParseLs, Fields, IndexByte, Hosted, LsLine.Text, LsLine.Valid;
    HostedHead(l);
    HostedRest(l);
  }

  // What is left of the line after seven columns.
  function Leftover(l: LsLine): string
    requires |l.pads| == 7 && |l.when| == 3
  {
    l.pads[6] + l.when[2] + " " + l.tail
  }

  lemma HostedSeven(l: LsLine)
    requires l.Valid()
    ensures |l.pads| == 7 && |l.when| == 3
    ensures var (found, next) := Fields(Hosted(l), 0, 7);
            found == HostedColumns(l)[..7] && Hosted(l)[next..] == Leftover(l)
  {
    LsSizes(l);
    hide Padded, Fields, Field, Spaces, Decimal, LsLine.Valid, Permissions;
    var pads, columns := [""] + l.pads, HostedColumns(l);
    MendedFine(l);
    PaddedSplits(pads, columns, 7);
    var rest := Padded(pads[7..], columns[7..]) + l.tail;
    assert Hosted(l)[0..] == Padded(pads[..7], columns[..7]) + rest;
    FieldsOfPadded(Hosted(l), 0, pads[..7], columns[..7], rest);
    assert pads[7..] == [l.pads[6]] && columns[7..] == [l.when[2]];
    LastColumn(l.pads[6], l.when[2]);
  }

  lemma LastColumn(pad: string, field: string)
    ensures Padded([pad], [field]) == pad + field + " "
  {
    assert Padded([pad], [field]) == pad + field + " " + "";
  }

  // The seventh column, read on its own.
  lemma SeventhColumn(line: string)
    requires |Fields(line, 0, 7).0| == 7
    ensures var (fields, pos) := Fields(line, 0, 6); var (field, after) := NextField(line, pos);
            |fields| == 6 && Fields(line, 0, 7) == (fields + [field], after)
  {
    hide NextField;
    FieldsSplit(line, 0, 6, 1);
    var pos := Fields(line, 0, 6).1;
    OneField(line, pos);
  }

  lemma OneField(line: string, pos: nat)
    requires pos <= |line|
    ensures var (field, after) := NextField(line, pos);
            Fields(line, pos, 1) == (if field == "" then [] else [field], after)
  {
    hide NextField;
    var (field, after) := NextField(line, pos);
    if field != "" {
      FieldThenRest(line, pos, 1);
      NoFields(line, after);
      assert [field] + [] == [field];
    } else {
      FieldsEnd(line, pos, 1);
    }
  }

  // An owner that reads as a number makes the line one of the `ls` parser's own: the owner is the
  // size, the day the year, and the clock part of the name.
  lemma NumericOwner(lib: Lib, l: LsLine, now: Now, n: nat)
    requires l.Valid() && now.Valid() && lib.parseUint(l.owner) == Some(n)
    ensures |l.pads| == 7 && |l.when| == 3
    ensures ParseListLine(lib, Hosted(l), now)
            == Dated(Entry(Leftover(l), "", FileType, n, None),
                     SetTime(lib.parseTime, [Decimal(l.size), l.when[0], l.when[1]], now))
  {
    hide ParseLs, ParseDir, ParseHosted, Hosted, LsLine.Valid, ParseNextRFC3659, SetTime, IndexByte, Leftover, Decimal;
    LsSizes(l);
    HostedDeclined(lib, l);
    NumericLs(lib, l, now, n);
  }

  lemma HostedDeclined(lib: Lib, l: LsLine)
    requires l.Valid()
    ensures |l.pads| == 7 && |l.when| == 3 && ParseNextRFC3659(lib, Hosted(l), EMPTY_ENTRY) == Unsupported
  {
    LsSizes(l);
    HostedHead(l);
    hide Hosted, LsLine.Valid, ApplyFacts, Split, IndexByte;
  }

  lemma HostedFields(l: LsLine)
    requires l.Valid()
    ensures |l.pads| == 7 && |l.when| == 3
    ensures var (fields, pos) := Fields(Hosted(l), 0, 6); var (field, after) := NextField(Hosted(l), pos);
            && |fields| == 6 && fields[1] == "0" && fields[2] == l.owner
            && (fields + [field])[4..7] == [Decimal(l.size), l.when[0], l.when[1]]
            && Hosted(l)[after..] == Leftover(l)
  {
    hide Fields, NextField, Hosted, LsLine.Valid, Decimal, Leftover, HostedColumns;
    LsSizes(l);
    HostedSeven(l);
    SevenColumns(l);
    SeventhColumn(Hosted(l));
    var (fields, pos) := Fields(Hosted(l), 0, 6);
    SixOfSeven(fields, NextField(Hosted(l), pos).0, HostedColumns(l)[..7]);
  }

  lemma SevenColumns(l: LsLine)
    requires |l.when| == 3
    ensures |HostedColumns(l)| == 8
    ensures HostedColumns(l)[..7] == [l.perm, "0", l.owner, l.group, Decimal(l.size), l.when[0], l.when[1]]
  {
    hide Decimal;
  }

  lemma SixOfSeven(fields: seq<string>, field: string, seven: seq<string>)
    requires |fields| == 6 && fields + [field] == seven
    ensures fields[1] == seven[1] && fields[2] == seven[2]
    ensures (fields + [field])[4..7] == [seven[4], seven[5], seven[6]]
  {
    assert seven[1] == (fields + [field])[1] && seven[2] == (fields + [field])[2];
  }

  lemma NumericLs(lib: Lib, l: LsLine, now: Now, n: nat)
    requires l.Valid() && now.Valid() && lib.parseUint(l.owner) == Some(n)
    ensures |l.pads| == 7 && |l.when| == 3
    ensures ParseLs(lib, Hosted(l), now)
            == Dated(Entry(Leftover(l), "", FileType, n, None),
                     SetTime(lib.parseTime, [Decimal(l.size), l.when[0], l.when[1]], now))
  {
    LsSizes(l);
    HostedHead(l);
    PermissionLength(l);
    HostedFields(l);
    hide Fields, NextField, IndexByte, SetTime, Hosted, LsLine.Valid, UnixEntry, Decimal, Leftover, Dated;
    assert "0" != "folder";
  }

  // A hosted line comes back as printed if and only if its owner does not read as a number.
  lemma HostedRoundTripIff(lib: Lib, l: LsLine, now: Now)
    requires ReadsNumbers(lib) && now.Valid() && l.Valid() && |l.perm| == 10 && KindOf(l.perm[0]).Some?
    requires DirTime(lib, Hosted(l), 0, false).2 && SetTime(lib.parseTime, l.when, now).Read?
    ensures ParseListLine(lib, Hosted(l), now)
            == Ok(Expected(l, KindOf(l.perm[0]).value, SetTime(lib.parseTime, l.when, now).instant))
            <==> lib.parseUint(l.owner) == None
  {
    LsSizes(l);
    hide ParseListLine, DirTime, Hosted, SetTime, LsLine.Valid, ReadsNumbers, Decimal;
    match lib.parseUint(l.owner) {
      case None =>
        HostedRoundTrip(lib, l, now);
      case Some(n) =>
        NumericOwner(lib, l, now, n);
        assert |Leftover(l)| > |l.tail|;
    }
  }

  // Reads the number 500 and nothing else.
  const NUMBER_LIB: Lib :=
    Lib((_, _, _, _) => None, s => if s == "500" then Some(500) else None, _ => None, _ => None, (_, _) => None)

  const HOSTED_LINE := LsLine("-r--------", 1, "500", "user", 7, ["Feb", "24", "00:39"], ["", "", "", "", "", "", ""], "x")

  // The failing input: a hosted file of the numeric owner 500.  Its day is taken for a year and refused.
  lemma HostedLineClaimed(now: Now)
    requires now.Valid()
    ensures ParseListLine(NUMBER_LIB, "-r-------- 0 500 user 7 Feb 24 00:39 x", now) == Failed(DateShape)
  {
    HostedText();
    hide ParseListLine, Hosted, Leftover, Decimal;
    NumericOwner(NUMBER_LIB, HOSTED_LINE, now, 500);
  }

  // Columns without padding, each followed by its space.
  function Spaced(fields: seq<string>): string {
    if fields == [] then "" else fields[0] + " " + Spaced(fields[1..])
  }

  lemma {:induction false} NoPadding(pads: seq<string>, fields: seq<string>)
    requires |pads| == |fields| && forall i :: 0 <= i < |pads| ==> pads[i] == ""
    ensures Padded(pads, fields) == Spaced(fields)
    decreases |fields|
  {
    if fields != [] {
      NoPadding(pads[1..], fields[1..]);
      assert "" + fields[0] == fields[0];
    }
  }

  lemma SpacedStep(field: string, rest: seq<string>)
    ensures Spaced([field] + rest) == field + " " + Spaced(rest)
  {
    assert ([field] + rest)[1..] == rest;
  }

  lemma SpacedColumns(a: string, b: string, c: string, d: string)
    ensures Spaced([a, b, c, d]) == a + " " + (b + " " + (c + " " + (d + " ")))
  {
    hide Spaced;
    SpacedStep(a, [b, c, d]);
    SpacedStep(b, [c, d]);
    SpacedStep(c, [d]);
    SpacedStep(d, []);
    assert Spaced([]) == "" by { NoColumns(); }
    assert [a] + [b, c, d] == [a, b, c, d] && [b] + [c, d] == [b, c, d] && [c] + [d] == [c, d] && [d] + [] == [d];
    assert d + " " + "" == d + " ";
  }

  lemma NoColumns()
    ensures Spaced([]) == ""
  {
  }

  lemma {:induction false} SpacedJoin(a: seq<string>, b: seq<string>)
    ensures Spaced(a + b) == Spaced(a) + Spaced(b)
  {
    if a == [] {
      assert a + b == b;
    } else {
      SpacedJoin(a[1..], b);
      assert (a + b)[1..] == a[1..] + b;
    }
  }

  lemma HostedLineValid()
    ensures HOSTED_LINE.Valid() && Decimal(HOSTED_LINE.size) == "7"
  {
  }

  lemma HostedText()
    ensures HOSTED_LINE.Valid() && Hosted(HOSTED_LINE) == "-r-------- 0 500 user 7 Feb 24 00:39 x"
  {
    hide Padded, Spaced, Decimal, LsLine.Valid;
    HostedLineValid();
    var first, second := ["-r--------", "0", "500", "user"], ["7", "Feb", "24", "00:39"];
    assert HostedColumns(HOSTED_LINE) == first + second;
    NoPadding([""] + HOSTED_LINE.pads, HostedColumns(HOSTED_LINE));
    SpacedJoin(first, second);
    FirstColumns();
    LastColumns();
    assert Hosted(HOSTED_LINE) == Spaced(first) + Spaced(second) + "x";
  }

  lemma FirstColumns()
    ensures Spaced(["-r--------", "0", "500", "user"]) == "-r-------- 0 500 user "
  {
    hide Spaced;
    SpacedColumns("-r--------", "0", "500", "user");
  }

  lemma LastColumns()
    ensures Spaced(["7", "Feb", "24", "00:39"]) == "7 Feb 24 00:39 "
  {
    hide Spaced;
    SpacedColumns("7", "Feb", "24", "00:39");
  }

  /* ---- Lines with `folder 0` ---- */

  // Six columns, `folder` and `0` where `ls` has a link count and an owner.
  datatype FolderLine = FolderLine(perm: string, when: seq<string>, pads: seq<string>, tail: string) {
    ghost predicate Valid() {
      && Permissions(perm) && |when| == 3 && |pads| == 5
      && (forall i :: 0 <= i < 3 ==> Field(when[i])) && (forall i :: 0 <= i < 5 ==> Spaces(pads[i]))
    }

    function Text(): string
      requires |when| == 3 && |pads| == 5
    {
      Padded([""] + pads, [perm, "folder", "0"] + when) + tail
    }
  }

  lemma FolderColumns(l: FolderLine)
    requires l.Valid()
    ensures var (fields, pos) := Fields(l.Text(), 0, 6); fields == [l.perm, "folder", "0"] + l.when && l.Text()[pos..] == l.tail
  {
    var pads, columns := [""] + l.pads, [l.perm, "folder", "0"] + l.when;
    forall i | 0 <= i < 6
      ensures Spaces(pads[i]) && Field(columns[i])
    {
    }
    hide Padded, Fields, Field, Spaces, FolderLine.Valid;
    assert l.Text()[0..] == Padded(pads, columns) + l.tail;
    FieldsOfPadded(l.Text(), 0, pads, columns, l.tail);
  }

  lemma FolderStart(l: FolderLine)
    requires l.Valid()
    ensures IndexByte(l.Text(), ' ') == |l.perm| && ParseNextRFC3659Declines(l.Text())
    ensures |l.perm| == 10 || (|l.perm| == 11 && |l.Text()| > 10 && l.Text()[10] == '+')
  {
    var rest := Padded(([""] + l.pads)[1..], ([l.perm, "folder", "0"] + l.when)[1..]) + l.tail;
    assert l.Text() == l.perm + " " + rest;
    hide Padded, IndexByte, ParseNextRFC3659Declines;
    assert |l.perm| == 11 ==> l.Text()[10] == l.perm[10];
    FirstBlank(l.perm, rest);
    DeclinedEarly(l.perm, rest);
  }

  // What a line of the `ls` parser's own short forms gives, if the date can be read.
  function ShortEntry(e: Entry, t: TimeResult): Parsed {
    match t
    case Read(instant) => Ok(e.(time := Some(instant)))
    case BadTime => Failed(TimeSyntax)
    case UnsupportedDate => Failed(DateShape)
  }

  lemma FolderLs(lib: Lib, l: FolderLine, now: Now)
    requires l.Valid() && now.Valid()
    ensures |l.when| == 3 && |l.pads| == 5
    ensures ParseLs(lib, l.Text(), now)
            == ShortEntry(Entry(l.tail, "", FolderType, 0, None), SetTime(lib.parseTime, l.when, now))
  {
    FolderSizes(l);
    FolderColumns(l);
    FolderStart(l);
    hide Fields, NextField, IndexByte, SetTime, FolderLine.Text, FolderLine.Valid, UnixEntry, Permissions;
    var fields := Fields(l.Text(), 0, 6).0;
    assert fields[1] == "folder" && fields[2] == "0" && fields[3..6] == l.when;
  }

  // Such a line comes back as a folder of its name, dated by its last three columns.
  lemma FolderRoundTrip(lib: Lib, l: FolderLine, now: Now)
    requires l.Valid() && now.Valid()
    ensures |l.when| == 3 && |l.pads| == 5
    ensures ParseListLine(lib, l.Text(), now)
            == match SetTime(lib.parseTime, l.when, now)
               case Read(instant) => Ok(Entry(l.tail, "", FolderType, 0, Some(instant)))
               case BadTime => Failed(TimeSyntax)
               case UnsupportedDate => Failed(DateShape)
  {
    FolderSizes(l);
    FolderStart(l);
    FolderLs(lib, l, now);
    hide IndexByte, SetTime, FolderLine.Text, FolderLine.Valid, ParseLs, ParseDir, ParseHosted, ApplyFacts, Split;
  }

  /* ---- Files without a link count ---- */

  // Seven columns: a zero where `ls` has a link count, then the size and a column that is not read.
  datatype FileLine = FileLine(perm: string, size: nat, other: string, when: seq<string>, pads: seq<string>, tail: string) {
    ghost predicate Valid() {
      && Permissions(perm) && Field(other) && size < UINT64 && |when| == 3 && |pads| == 6
      && (forall i :: 0 <= i < 3 ==> Field(when[i])) && (forall i :: 0 <= i < 6 ==> Spaces(pads[i]))
    }

    function Columns(): seq<string> {
      [perm, "0", Decimal(size), other] + when
    }

    function Text(): string
      requires |when| == 3 && |pads| == 6
    {
      Padded([""] + pads, Columns()) + tail
    }
  }

  lemma FileSizes(l: FileLine)
    requires l.Valid()
    ensures |l.when| == 3 && |l.pads| == 6
  {
  }

  lemma FileColumns(l: FileLine)
    requires l.Valid()
    ensures |l.when| == 3 && |l.pads| == 6
    ensures Fields(l.Text(), 0, 7).0 == l.Columns() && l.Text()[Fields(l.Text(), 0, 7).1..] == l.tail
  {
    var pads, columns := [""] + l.pads, l.Columns();
    forall i | 0 <= i < 7
      ensures Spaces(pads[i]) && Field(columns[i])
    {
      DecimalField(l.size);
    }
    hide Padded, Fields, Field, Spaces, FileLine.Valid, Decimal;
    assert l.Text()[0..] == Padded(pads, columns) + l.tail;
    FieldsOfPadded(l.Text(), 0, pads, columns, l.tail);
  }

  lemma FileStart(l: FileLine)
    requires l.Valid()
    ensures |l.when| == 3 && |l.pads| == 6
    ensures IndexByte(l.Text(), ' ') == |l.perm| && ParseNextRFC3659Declines(l.Text())
    ensures |l.perm| == 10 || (|l.perm| == 11 && |l.Text()| > 10 && l.Text()[10] == '+')
  {
    var rest := Padded(([""] + l.pads)[1..], l.Columns()[1..]) + l.tail;
    assert l.Text() == l.perm + " " + rest;
    hide Padded, IndexByte, ParseNextRFC3659Declines;
    assert |l.perm| == 11 ==> l.Text()[10] == l.perm[10];
    FirstBlank(l.perm, rest);
    DeclinedEarly(l.perm, rest);
  }

  lemma FileFields(l: FileLine)
    requires l.Valid()
    ensures |l.when| == 3 && |l.pads| == 6
    ensures var (fields, pos) := Fields(l.Text(), 0, 6); var (field, after) := NextField(l.Text(), pos);
            && |fields| == 6 && fields[1] == "0" && fields[2] == Decimal(l.size) && (fields + [field])[4..7] == l.when
            && l.Text()[after..] == l.tail
  {
    hide Fields, NextField, FileLine.Valid, FileLine.Text, Decimal;
    FileSizes(l);
    FileColumns(l);
    SeventhColumn(l.Text());
    var (fields, pos) := Fields(l.Text(), 0, 6);
    SixOfSeven(fields, NextField(l.Text(), pos).0, l.Columns());
    assert l.when == [l.when[0], l.when[1], l.when[2]];
  }

  lemma FileLs(lib: Lib, l: FileLine, now: Now)
    requires ReadsNumbers(lib) && l.Valid() && now.Valid()
    ensures |l.when| == 3 && |l.pads| == 6
    ensures ParseLs(lib, l.Text(), now)
            == ShortEntry(Entry(l.tail, "", FileType, l.size, None), SetTime(lib.parseTime, l.when, now))
  {
    FileStart(l);
    FileFields(l);
    assert "0" != "folder";
    assert lib.parseUint(Decimal(l.size)) == Some(l.size);
    hide Fields, NextField, IndexByte, SetTime, FileLine.Text, FileLine.Valid, UnixEntry, Decimal, ReadsNumbers, Permissions;
  }

  // Such a line comes back as a file of its name and size, dated by its last three columns.
  lemma FileRoundTrip(lib: Lib, l: FileLine, now: Now)
    requires ReadsNumbers(lib) && l.Valid() && now.Valid()
    ensures |l.when| == 3 && |l.pads| == 6
    ensures ParseListLine(lib, l.Text(), now)
            == match SetTime(lib.parseTime, l.when, now)
               case Read(instant) => Ok(Entry(l.tail, "", FileType, l.size, Some(instant)))
               case BadTime => Failed(TimeSyntax)
               case UnsupportedDate => Failed(DateShape)
  {
    FileStart(l);
    FileLs(lib, l, now);
    hide IndexByte, SetTime, FileLine.Text, FileLine.Valid, ParseLs, ParseDir, ParseHosted, ApplyFacts, Split;
  }

  lemma FolderSizes(l: FolderLine)
    requires l.Valid()
    ensures |l.when| == 3 && |l.pads| == 5
  {
  }

  /* ---- The four formats of MS-DOS dates ---- */

  // `Jan 2 2006, 15:04` in the formats 01-02-06  03:04PM, 2006-01-02  15:04, 01-02-2006  03:04PM and
  // 01-02-2006  15:04.
  function DosDate(format: nat, t: Stamp): string
    requires t.Valid() && 1000 <= t.date.Year() <= 9999 && format < 4
  {
    var month, day, year := TwoDigits(t.date.month % 12 + 1), TwoDigits(t.date.day), Decimal(t.date.Year());
    if format == 0 then month + "-" + day + "-" + TwoDigits(t.date.Year() % 100)
    else if format == 1 then year + "-" + month + "-" + day
    else month + "-" + day + "-" + year
  }

  function DosClock(format: nat, t: Stamp): string
    requires t.Valid() && format < 4
  {
    var hour, minute := t.minute / 60, TwoDigits(t.minute % 60);
    if format == 0 || format == 2 then
      TwoDigits(if hour % 12 == 0 then 12 else hour % 12) + ":" + minute + (if hour < 12 then "AM" else "PM")
    else TwoDigits(hour) + ":" + minute
  }

  function DosHead(format: nat, t: Stamp): string
    requires t.Valid() && 1000 <= t.date.Year() <= 9999 && format < 4
  {
    DosDate(format, t) + "  " + DosClock(format, t)
  }

  // The stamps a format tells apart: two digits stand for the years 1969 to 2068.
  predicate Told(format: nat, t: Stamp) {
    t.Valid() && 1000 <= t.date.Year() <= 9999 && (format == 0 ==> 1969 <= t.date.Year() <= 2068)
  }

  // The lengths of the layouts.
  function LayoutLength(format: nat): nat {
    if format == 0 then |"01-02-06  03:04PM"|
    else if format == 1 then |"2006-01-02  15:04"|
    else if format == 2 then |"01-02-2006  03:04PM"|
    else |"01-02-2006  15:04"|
  }

  // time.ParseInLocation reads what its own layout prints, and no layout reads the start of a line that
  // a later one has begun.
  ghost predicate ReadsDirTimes(lib: Lib) {
    && (forall format: nat, t: Stamp :: format < 4 && Told(format, t) ==>
          lib.parseDirTime(format, DosHead(format, t)) == Some(t.Instant()))
    && (forall format: nat, t: Stamp, earlier: nat, line: string ::
          format < 4 && Told(format, t) && earlier < format && DosHead(format, t) + " " <= line
          && |line| > LayoutLength(earlier) ==>
            lib.parseDirTime(earlier, line[..LayoutLength(earlier)]) == None)
  }

  lemma DosLengths(format: nat, t: Stamp)
    requires format < 4 && Told(format, t)
    ensures |DosHead(format, t)| == LayoutLength(format) == DIR_FORMAT_LENGTHS[format]
    ensures |DosDate(format, t)| == if format == 0 then 8 else 10
    ensures |DosClock(format, t)| == if format == 0 || format == 2 then 7 else 5
  {
    YearDigits(t.date.Year());
    assert LayoutLength(0) == 17 && LayoutLength(1) == 17 && LayoutLength(2) == 19 && LayoutLength(3) == 17;
  }

  lemma HourTold(a: int, b: int)
    requires 0 <= a < 24 && 0 <= b < 24 && (a < 12 <==> b < 12)
    requires (if a % 12 == 0 then 12 else a % 12) == (if b % 12 == 0 then 12 else b % 12)
    ensures a == b
  {
  }

  lemma ClocksTellApart(format: nat, a: Stamp, b: Stamp)
    requires format < 4 && Told(format, a) && Told(format, b) && DosClock(format, a) == DosClock(format, b)
    ensures a.minute == b.minute
  {
    var s, h, k := DosClock(format, a), a.minute / 60, b.minute / 60;
    assert s[3..5] == TwoDigits(a.minute % 60) == TwoDigits(b.minute % 60);
    TwoDigitsApart(a.minute % 60, b.minute % 60);
    if format == 0 || format == 2 {
      var i, j := if h % 12 == 0 then 12 else h % 12, if k % 12 == 0 then 12 else k % 12;
      assert s[..2] == TwoDigits(i) == TwoDigits(j);
      TwoDigitsApart(i, j);
      assert s[5] == (if h < 12 then 'A' else 'P') == (if k < 12 then 'A' else 'P');
      HourTold(h, k);
    } else {
      assert s[..2] == TwoDigits(h) == TwoDigits(k);
      TwoDigitsApart(h, k);
    }
  }

  lemma DatePieces(format: nat, t: Stamp)
    requires format < 4 && Told(format, t)
    ensures var s, year := DosDate(format, t), t.date.Year();
            && |s| == (if format == 0 then 8 else 10)
            && (if format == 1 then s[5..7] else s[..2]) == TwoDigits(t.date.month % 12 + 1)
            && (if format == 1 then s[8..10] else s[3..5]) == TwoDigits(t.date.day)
            && (if format == 0 then s[6..8] else if format == 1 then s[..4] else s[6..10])
               == (if format == 0 then TwoDigits(year % 100) else Decimal(year))
  {
    YearDigits(t.date.Year());
    hide Decimal;
  }

  lemma DatesTellApart(format: nat, a: Stamp, b: Stamp)
    requires format < 4 && Told(format, a) && Told(format, b) && DosDate(format, a) == DosDate(format, b)
    ensures a.date == b.date
  {
    hide DosDate, TwoDigits, Decimal;
    DatePieces(format, a);
    DatePieces(format, b);
    TwoDigitsApart(a.date.month % 12 + 1, b.date.month % 12 + 1);
    TwoDigitsApart(a.date.day, b.date.day);
    if format == 0 {
      TwoDigitsApart(a.date.Year() % 100, b.date.Year() % 100);
    } else {
      DecimalApart(a.date.Year(), b.date.Year());
    }
    assert a.date.month == 12 * a.date.Year() + a.date.month % 12 && b.date.month == 12 * b.date.Year() + b.date.month % 12;
  }

  // Each format prints every stamp it tells apart differently, so that a reader for it can exist.
  lemma HeadsTellApart(format: nat, a: Stamp, b: Stamp)
    requires format < 4 && Told(format, a) && Told(format, b) && DosHead(format, a) == DosHead(format, b)
    ensures a == b
  {
    DosLengths(format, a);
    DosLengths(format, b);
    var s, n := DosHead(format, a), |DosDate(format, a)|;
    assert s[..n] == DosDate(format, a) == DosDate(format, b);
    assert s[n + 2..] == DosClock(format, a) == DosClock(format, b);
    DatesTellApart(format, a, b);
    ClocksTellApart(format, a, b);
  }

  lemma EveningDate(t: Stamp)
    requires t == Stamp(Date(12 * 2015 + 7, 7), 60 * 19 + 50)
    ensures t.Valid()
    ensures DosDate(0, t) == "08-07-15" && DosDate(1, t) == "2015-08-07" && DosDate(2, t) == DosDate(3, t) == "08-07-2015"
  {
    assert TwoDigits(7) == "07" && TwoDigits(8) == "08" && TwoDigits(15) == "15";
    Year2015();
    assert t.date.Year() == 2015 && t.date.month % 12 == 7;
    hide Decimal, TwoDigits;
  }

  lemma Year2015()
    ensures Decimal(2015) == "2015"
  {
    assert Decimal(20) == "20";
    assert Decimal(201) == "20" + "1";
  }

  lemma EveningClock(t: Stamp)
    requires t == Stamp(Date(12 * 2015 + 7, 7), 60 * 19 + 50)
    ensures t.Valid()
    ensures DosClock(0, t) == DosClock(2, t) == "07:50PM" && DosClock(1, t) == DosClock(3, t) == "19:50"
  {
    assert TwoDigits(7) == "07" && TwoDigits(19) == "19" && TwoDigits(50) == "50";
    hide TwoDigits;
  }

  lemma NightWritten(t: Stamp)
    requires t == Stamp(Date(12 * 2015 + 11, 31), 5)
    ensures t.Valid() && DosDate(0, t) == "12-31-15" && DosClock(0, t) == "12:05AM" && DosClock(3, t) == "00:05"
  {
    assert TwoDigits(12) == "12" && TwoDigits(31) == "31" && TwoDigits(15) == "15" && TwoDigits(5) == "05" && TwoDigits(0) == "00";
    hide Decimal, TwoDigits;
  }

  // The four formats of one evening, and the clock of a time after midnight, written out.
  lemma HeadsWritten(evening: Stamp, night: Stamp)
    requires evening == Stamp(Date(12 * 2015 + 7, 7), 60 * 19 + 50) && night == Stamp(Date(12 * 2015 + 11, 31), 5)
    ensures evening.Valid() && night.Valid()
    ensures DosHead(0, evening) == "08-07-15  07:50PM" && DosHead(1, evening) == "2015-08-07  19:50"
    ensures DosHead(2, evening) == "08-07-2015  07:50PM" && DosHead(3, evening) == "08-07-2015  19:50"
    ensures DosHead(0, night) == "12-31-15  12:05AM"
  {
    EveningDate(evening);
    EveningClock(evening);
    NightWritten(night);
    hide DosDate, DosClock;
  }

  lemma FormatLengths()
    ensures forall format: nat :: format < 4 ==> DIR_FORMAT_LENGTHS[format] == LayoutLength(format)
  {
    assert LayoutLength(0) == 17 && LayoutLength(1) == 17 && LayoutLength(2) == 19 && LayoutLength(3) == 17;
  }

  // The loop over the formats finds the one that printed the line.
  lemma {:induction false} FormatFound(lib: Lib, format: nat, t: Stamp, line: string, from: nat, failed: bool)
    requires ReadsDirTimes(lib) && format < 4 && Told(format, t) && DosHead(format, t) + " " <= line && from <= format
    ensures DirTime(lib, line, from, failed) == (Some(t.Instant()), |DosHead(format, t)|, false)
    decreases format - from
  {
    hide DosHead, LayoutLength, DosDate, DosClock, Stamp.Valid, Decimal;
    FormatLengths();
    DosLengths(format, t);
    assert line[..|DosHead(format, t)|] == DosHead(format, t);
    if from < format {
      FormatFound(lib, format, t, line, from + 1, true);
      FormatFound(lib, format, t, line, from + 1, failed);
    }
  }

  lemma DosText(format: nat, t: Stamp)
    requires format < 4 && Told(format, t)
    ensures Field(DosDate(format, t)) && Lacks(DosDate(format, t), ';') && KindOf(DosDate(format, t)[0]) == None
    ensures Field(DosClock(format, t)) && DosClock(format, t) != "folder"
  {
    DosLengths(format, t);
    assert "folder"[0] == 'f';
  }

  // A `dir` line with a date in any of the four formats comes back with that date, unless the date has
  // ten characters and the name five words.
  lemma DatedDirRoundTripIff(lib: Lib, l: DirLine, format: nat, t: Stamp, now: Now)
    requires ReadsDirTimes(lib) && format < 4 && Told(format, t) && now.Valid()
    requires l.date == DosDate(format, t) && l.clock == DosClock(format, t)
    requires Spaces(l.pad) && Spaces(l.gap) && l.pad != "" && l.gap != "" && (l.name != "" ==> l.name[0] != ' ')
    requires l.size.Some? ==> lib.parseUint10(l.What()) == l.size
    ensures ParseListLine(lib, l.Text(), now) == Ok(l.Meaning(t.Instant())) <==> !(format != 0 && Words(l.name) == 5)
  {
    DosText(format, t);
    DosLengths(format, t);
    PadBegins(l);
    hide ParseListLine, DosDate, DosClock, ReadsDirTimes, Words, DirTime, Told, KindOf, Field, Lacks, Spaces, LayoutLength;
    assert l.Head() == DosHead(format, t);
    FormatFound(lib, format, t, l.Text(), 0, false);
    ValidDirLine(l);
    DirRoundTripIff(lib, l, now, t.Instant());
  }

  lemma ValidDirLine(l: DirLine)
    requires Field(l.date) && (|l.date| == 8 || |l.date| == 10) && Lacks(l.date, ';') && KindOf(l.date[0]) == None
    requires Field(l.clock) && |l.clock| > 1 && l.clock != "folder"
    requires Spaces(l.pad) && Spaces(l.gap) && l.pad != "" && l.gap != "" && (l.name != "" ==> l.name[0] != ' ')
    ensures l.Valid()
  {
  }

  lemma PadBegins(l: DirLine)
    requires Spaces(l.pad) && l.pad != ""
    ensures l.Head() + " " <= l.Text()
  {
    SpaceHead(l.pad);
    assert l.Text() == l.Head() + " " + (l.pad[1..] + l.What() + l.gap + l.name);
  }
}
