/** Times in directory listings (lib/ftp/parse.go:247-277): a recent file shows its clock time and
    no year, and the reader has to guess the year.

    One time zone without clock changes.  `time.ParseInLocation` is a parameter with a
    specification: it reads what the calendar allows, and never strays from the year it is given. */
module FtpTime {
  import opened Calendar
  import opened Options
  import opened Texts

  const MINUTE: int := 60_000_000_000

  lemma MinutesOfADay()
    ensures 1440 * MINUTE == DAY
  {
  }

  // A listed time: a date and a minute of that day.
  datatype Stamp = Stamp(date: Date, minute: int) {
    predicate Valid() {
      date.Valid() && 0 <= minute < 1440
    }

    function Instant(): int {
      date.Number() * DAY + minute * MINUTE
    }
  }

  // The reader's clock.
  datatype Now = Now(date: Date, nanos: int) {
    predicate Valid() {
      date.Valid() && 0 <= nanos < DAY && 1000 <= date.Year() <= 9999
    }

    function Instant(): int {
      date.Number() * DAY + nanos
    }

    // AddDate(0, months, 0)
    function Plus(months: int): int {
      AddMonths(date, months) * DAY + nanos
    }
  }

  function Digit(d: int): (c: char)
    requires 0 <= d < 10
    ensures '0' <= c <= '9'
  {
    '0' + d as char
  }

  // Decimal notation without leading zeros.
  function Decimal(n: nat): (s: string)
    ensures s != "" && forall i :: 0 <= i < |s| ==> '0' <= s[i] <= '9'
    ensures (n == 0 <==> s[0] == '0') && (n > 0 ==> s != "0")
  {
    if n < 10 then [Digit(n)] else Decimal(n / 10) + [Digit(n % 10)]
  }

  function TwoDigits(n: int): string
    requires 0 <= n < 100
  {
    [Digit(n / 10), Digit(n % 10)]
  }

  lemma TwoDigitsApart(a: int, b: int)
    requires 0 <= a < 100 && 0 <= b < 100 && TwoDigits(a) == TwoDigits(b)
    ensures a == b
  {
    assert TwoDigits(a)[0] == TwoDigits(b)[0] && TwoDigits(a)[1] == TwoDigits(b)[1];
    assert a == 10 * (a / 10) + a % 10 && b == 10 * (b / 10) + b % 10;
  }

  lemma {:induction false} DecimalApart(a: nat, b: nat)
    requires Decimal(a) == Decimal(b)
    ensures a == b
  {
    var s := Decimal(a);
    assert s[|s| - 1] == Digit(a % 10) == Digit(b % 10);
    if a >= 10 && b >= 10 {
      assert s[..|s| - 1] == Decimal(a / 10) == Decimal(b / 10);
      DecimalApart(a / 10, b / 10);
    }
  }

  const MONTHS: seq<string> := ["Jan", "Feb", "Mar", "Apr", "May", "Jun", "Jul", "Aug", "Sep", "Oct", "Nov", "Dec"]

  function MonthText(month: int): (s: string)
    ensures |s| == 3 && forall i :: 0 <= i < |s| ==> s[i] != ' '
  {
    MONTHS[month % 12]
  }

  function ClockText(minute: int): (s: string)
    requires 0 <= minute < 1440
    ensures |s| == 5 && s[2] == ':' && forall i :: 0 <= i < |s| ==> s[i] != ' '
  {
    TwoDigits(minute / 60) + ":" + TwoDigits(minute % 60)
  }

  // ParseInLocation with the layout "_2 Jan 2006 15:04", by field: day, month, year, clock.
  type TimeParser = (string, string, string, string) -> Option<Stamp>

  // What a month and a day mean in a given year, if that year has such a day.
  function InYear(t: Stamp, year: int): Stamp {
    Stamp(Date(12 * year + t.date.month % 12, t.date.day), t.minute)
  }

  ghost predicate ReadsTimes(parse: TimeParser) {
    && (forall day, month, year, clock ::
          parse(day, month, Decimal(year), clock).Some? ==>
            var s := parse(day, month, Decimal(year), clock).value; s.Valid() && s.date.Year() == year)
    && (forall t: Stamp, year :: t.Valid() && 1000 <= year <= 9999 ==>
          parse(Decimal(t.date.day), MonthText(t.date.month), Decimal(year), ClockText(t.minute))
          == if InYear(t, year).Valid() then Some(InYear(t, year)) else None)
  }

  datatype TimeResult = Read(instant: int) | BadTime | UnsupportedDate

  // setTime on the fields month, day and clock-or-year.
  function SetTime(parse: TimeParser, fields: seq<string>, now: Now): TimeResult
    requires |fields| == 3 && now.Valid()
  {
    if !Lacks(fields[2], ':') then
      match parse(fields[1], fields[0], Decimal(now.date.Year()), fields[2])
      case None => BadTime
      case Some(s) =>
        if s.Instant() < now.Plus(6) then Read(s.Instant())
        else Read(AddMonths(s.date, -12) * DAY + s.minute * MINUTE)
    else if |fields[2]| != 4 then UnsupportedDate
    else
      match parse(fields[1], fields[0], fields[2], "00:00")
      case None => BadTime
      case Some(s) => Read(s.Instant())
  }

  function RecentFields(t: Stamp): seq<string>
    requires t.Valid()
  {
    [MonthText(t.date.month), Decimal(t.date.day), ClockText(t.minute)]
  }

  lemma MonthsApart(a: int, b: int)
    ensures MonthText(a) == MonthText(b) <==> a % 12 == b % 12
  {
    var i, j := a % 12, b % 12;
    assert MONTHS[i] == MONTHS[j] ==> MONTHS[i][0] == MONTHS[j][0] && MONTHS[i][1] == MONTHS[j][1] && MONTHS[i][2] == MONTHS[j][2];
  }

  // The columns of a recent time tell everything but the year.
  lemma RecentTellsApart(a: Stamp, b: Stamp, year: int)
    requires a.Valid() && b.Valid()
    ensures RecentFields(a) == RecentFields(b) <==> InYear(a, year) == InYear(b, year)
  {
    hide MonthText, Decimal;
    MonthsApart(a.date.month, b.date.month);
    if RecentFields(a) == RecentFields(b) {
      assert MonthText(a.date.month) == RecentFields(a)[0] == RecentFields(b)[0] == MonthText(b.date.month);
      assert Decimal(a.date.day) == RecentFields(a)[1] == RecentFields(b)[1] == Decimal(b.date.day);
      DecimalApart(a.date.day, b.date.day);
      var s, t := ClockText(a.minute), ClockText(b.minute);
      assert s == RecentFields(a)[2] == RecentFields(b)[2] == t;
      assert s[..2] == TwoDigits(a.minute / 60) == TwoDigits(b.minute / 60) == t[..2];
      assert s[3..] == TwoDigits(a.minute % 60) == TwoDigits(b.minute % 60) == t[3..];
      TwoDigitsApart(a.minute / 60, b.minute / 60);
      TwoDigitsApart(a.minute % 60, b.minute % 60);
    }
  }

  // The exact reach of the guess: this year's times up to half a year ahead, and those times of last
  // year whose date, put in this year, is at least half a year ahead.
  ghost predicate Recoverable(t: Stamp, now: Now) {
    var here := InYear(t, now.date.Year());
    && here.Valid()
    && if here.Instant() < now.Plus(6) then t.date.Year() == now.date.Year()
       else t.date.Year() == now.date.Year() - 1
  }

  lemma SameYearSameStamp(t: Stamp, year: int)
    ensures t.date.Year() == year ==> InYear(t, year) == t
  {
    assert t.date.month == 12 * (t.date.month / 12) + t.date.month % 12;
  }

  lemma InstantsOrdered(m: int, i: int, n: int, j: int)
    requires 0 <= i < 1440 && 0 <= j < 1440
    ensures m < n ==> m * DAY + i * MINUTE < n * DAY + j * MINUTE
    ensures m == n && i < j ==> m * DAY + i * MINUTE < n * DAY + j * MINUTE
  {
    MinutesOfADay();
    assert m < n ==> (m + 1) * DAY <= n * DAY;
  }

  // Instants tell stamps apart.
  lemma InstantOrder(a: Stamp, b: Stamp)
    requires a.Valid() && b.Valid()
    ensures a.Instant() == b.Instant() <==> a == b
    ensures a.date.month < b.date.month ==> a.Instant() < b.Instant()
  {
    hide Date.Number, Date.Valid;
    DateOrder(a.date, b.date);
    InstantsOrdered(a.date.Number(), a.minute, b.date.Number(), b.minute);
    InstantsOrdered(b.date.Number(), b.minute, a.date.Number(), a.minute);
  }

  // Putting a date one year back keeps it, except for the leap day, which overflows into March.
  lemma OneYearBack(s: Stamp)
    requires s.Valid()
    ensures var back := Stamp(Date(s.date.month - 12, s.date.day), s.minute);
            && back.date.Year() == s.date.Year() - 1
            && (back.Valid() ==> AddMonths(s.date, -12) * DAY + s.minute * MINUTE == back.Instant())
            && (!back.Valid() ==> s.date.month % 12 == 1 && s.date.day == 29)
  {
    hide MonthStart;
    assert (s.date.month - 12) % 12 == s.date.month % 12;
    assert (s.date.month - 12) / 12 == s.date.month / 12 - 1;
  }

  // Half a year ahead of any day is past June of its year, and at most one year's end away.
  lemma HalfYearAhead(now: Now)
    requires now.Valid()
    ensures now.Plus(6) >= MonthStart(12 * now.date.Year() + 6) * DAY
    ensures now.Plus(6) > now.Instant() >= MonthStart(12 * now.date.Year()) * DAY
  {
    hide MonthStart, MonthLength;
    var y, m := now.date.Year(), now.date.month;
    assert 12 * y <= m < 12 * y + 12;
    MonthStartMonotone(12 * y + 6, m + 6);
    MonthStartMonotone(12 * y, m);
    MonthsLast(m, 6);
    assert m == 12 * y || 12 * y < m;
  }

  lemma WithinMonth(s: Stamp)
    requires s.Valid()
    ensures MonthStart(s.date.month) * DAY <= s.Instant() < MonthStart(s.date.month + 1) * DAY
  {
    hide MonthStart, MonthLength;
    NextMonth(s.date.month);
  }

  // A time that has to be put back a year is not the leap day.
  lemma LateIsNoLeapDay(s: Stamp, now: Now)
    requires s.Valid() && now.Valid() && s.date.Year() == now.date.Year() && s.Instant() >= now.Plus(6)
    ensures Stamp(Date(s.date.month - 12, s.date.day), s.minute).Valid()
  {
    OneYearBack(s);
    HalfYearAhead(now);
    WithinMonth(s);
    if s.date.month % 12 == 1 {
      MonthStartMonotone(s.date.month + 1, 12 * now.date.Year() + 6);
    }
  }

  // The year is guessed right exactly within the reach.
  lemma YearRecoveredIff(parse: TimeParser, t: Stamp, now: Now)
    requires ReadsTimes(parse) && t.Valid() && now.Valid()
    ensures SetTime(parse, RecentFields(t), now) == Read(t.Instant()) <==> Recoverable(t, now)
  {
    var y := now.date.Year();
    var here := InYear(t, y);
    assert RecentFields(t)[2][2] == ':';
    assert parse(Decimal(t.date.day), MonthText(t.date.month), Decimal(y), ClockText(t.minute))
        == if here.Valid() then Some(here) else None;
    SameYearSameStamp(t, y);
    SameYearSameStamp(t, y - 1);
    hide MonthStart, MonthLength, ReadsTimes, ClockText, MonthText, Decimal;
    if here.Valid() {
      if here.Instant() < now.Plus(6) {
        InstantOrder(here, t);
      } else {
        LateIsNoLeapDay(here, now);
        OneYearBack(here);
        assert InYear(t, y - 1) == Stamp(Date(here.date.month - 12, here.date.day), here.minute);
        InstantOrder(InYear(t, y - 1), t);
      }
    }
  }

  lemma NoLeapDay(parse: TimeParser, t: Stamp, year: nat)
    requires ReadsTimes(parse) && t.Valid() && 1000 <= year <= 9999
    requires t.date.month % 12 == 1 && t.date.day == 29 && !IsLeap(year)
    ensures parse(Decimal(t.date.day), MonthText(t.date.month), Decimal(year), ClockText(t.minute)) == None
  {
    hide ClockText, MonthText, Decimal;
    LengthOf(year, 1);
    assert !InYear(t, year).Valid();
  }

  // A day that the year does not have is not read: neither with that year written out nor, without
  // it, in the reader's own year.
  lemma LeapDayUnread(parse: TimeParser, t: Stamp, year: nat, now: Now)
    requires ReadsTimes(parse) && t.Valid() && now.Valid() && 1000 <= year <= 9999
    requires t.date.month % 12 == 1 && t.date.day == 29 && !IsLeap(year)
    ensures SetTime(parse, [MonthText(t.date.month), Decimal(t.date.day), Decimal(year)], now) == BadTime
    ensures year == now.date.Year() ==> SetTime(parse, RecentFields(t), now) == BadTime
  {
    hide ReadsTimes, ClockText, MonthText, Decimal;
    YearDigits(year);
    Midnight();
    NoLeapDay(parse, t, year);
    NoLeapDay(parse, Stamp(t.date, 0), year);
    assert RecentFields(t)[2][2] == ':';
  }

  // A date with its year, as listings show what is older than half a year.
  function DatedFields(d: Date): seq<string>
    requires d.Valid() && 1000 <= d.Year() <= 9999
  {
    [MonthText(d.month), Decimal(d.day), Decimal(d.Year())]
  }

  lemma YearDigits(year: nat)
    requires 1000 <= year <= 9999
    ensures |Decimal(year)| == 4 && Lacks(Decimal(year), ':')
  {
    assert Decimal(year) == Decimal(year / 10) + [Digit(year % 10)];
    assert Decimal(year / 10) == Decimal(year / 10 / 10) + [Digit(year / 10 % 10)];
    assert Decimal(year / 10 / 10) == Decimal(year / 10 / 10 / 10) + [Digit(year / 10 / 10 % 10)];
    assert |Decimal(year / 10 / 10 / 10)| == 1;
  }

  lemma Midnight()
    ensures ClockText(0) == "00:00"
  {
    assert Digit(0) == '0';
  }

  // Whatever the clock says now, such a date comes back as its own midnight.
  lemma DatedRecovered(parse: TimeParser, d: Date, now: Now)
    requires ReadsTimes(parse) && d.Valid() && 1000 <= d.Year() <= 9999 && now.Valid()
    ensures SetTime(parse, DatedFields(d), now) == Read(d.Number() * DAY)
  {
    var t := Stamp(d, 0);
    YearDigits(d.Year());
    Midnight();
    SameYearSameStamp(t, d.Year());
    assert parse(Decimal(t.date.day), MonthText(t.date.month), Decimal(d.Year()), ClockText(t.minute)) == Some(t);
    hide MonthStart, MonthLength, ReadsTimes, ClockText, MonthText, Decimal;
  }

  // A date put back a year is over before this year begins.
  lemma PutBack(s: Stamp, now: Now)
    requires s.Valid() && now.Valid() && s.date.Year() == now.date.Year() && s.Instant() >= now.Plus(6)
    ensures AddMonths(s.date, -12) * DAY + s.minute * MINUTE < MonthStart(12 * now.date.Year()) * DAY
  {
    hide MonthStart, MonthLength, Stamp.Instant;
    LateIsNoLeapDay(s, now);
    OneYearBack(s);
    var back := Stamp(Date(s.date.month - 12, s.date.day), s.minute);
    WithinMonth(back);
    YearOf(s.date);
    assert back.date.month + 1 <= 12 * now.date.Year();
    MonthStartMonotone(back.date.month + 1, 12 * now.date.Year());
  }

  // A yearless date that parses is never half a year ahead or more.
  lemma YearlessBounded(parse: TimeParser, fields: seq<string>, now: Now)
    requires ReadsTimes(parse) && now.Valid() && |fields| == 3 && !Lacks(fields[2], ':')
    ensures var r := SetTime(parse, fields, now);
            r.Read? ==> r.instant < now.Plus(6)
  {
    var y := now.date.Year();
    var found := parse(fields[1], fields[0], Decimal(y), fields[2]);
    if found.Some? && found.value.Instant() >= now.Plus(6) {
      assert found.value.Valid() && found.value.date.Year() == y;
      hide ReadsTimes, MonthStart, MonthLength, Decimal, Stamp.Valid, Stamp.Instant, Now.Plus;
      PutBack(found.value, now);
      HalfYearAhead(now);
    }
  }

  lemma YearOf(d: Date)
    ensures 12 * d.Year() <= d.month < 12 * d.Year() + 12
  {
  }

  // July to December have the same lengths every year.
  lemma SecondHalf(y: int, z: int, k: int)
    requires 6 <= k <= 12
    ensures MonthStart(12 * y + k) - MonthStart(12 * y + 6) == MonthStart(12 * z + k) - MonthStart(12 * z + 6)
    ensures k < 12 ==> MonthLength(12 * y + k) == MonthLength(12 * z + k)
    decreases k
  {
    hide MonthStart;
    if k < 12 {
      LengthOf(y, k);
      LengthOf(z, k);
    }
    if k > 6 {
      SecondHalf(y, z, k - 1);
      NextMonth(12 * y + k - 1);
      NextMonth(12 * z + k - 1);
    }
  }

  // Listings show a clock time for at most half a year: all of those times are recovered.
  lemma HalfYearRecovered(t: Stamp, now: Now)
    requires t.Valid() && now.Valid()
    requires now.Plus(-6) <= t.Instant() <= now.Instant()
    ensures Recoverable(t, now)
  {
    hide MonthStart, MonthLength;
    var y := now.date.Year();
    var k := now.date.month - 12 * y;
    YearOf(now.date);
    YearOf(t.date);
    WithinMonth(t);
    HalfYearAhead(now);
    NextMonth(now.date.month);
    SameYearSameStamp(t, y);
    MonthStartMonotone(now.date.month + 1, t.date.month);
    assert t.date.month <= now.date.month by {
      assert now.Instant() < MonthStart(now.date.month + 1) * DAY;
    }
    if t.date.Year() < y {
      MonthStartMonotone(t.date.month + 1, 12 * y + k - 6);
      LastYear(t, now, k);
    }
  }

  lemma LastYear(t: Stamp, now: Now, k: int)
    requires t.Valid() && now.Valid() && now.date.month == 12 * now.date.Year() + k && 0 <= k < 12
    requires t.date.Year() < now.date.Year() && now.Plus(-6) <= t.Instant()
    ensures Recoverable(t, now)
  {
    hide MonthStart, MonthLength;
    var y := now.date.Year();
    var j := t.date.month - 12 * (y - 1);
    YearOf(t.date);
    WithinMonth(t);
    MonthStartMonotone(t.date.month + 1, now.date.month - 6);
    assert t.date.month + 1 >= now.date.month - 6 + 1 by {
      assert now.Plus(-6) >= MonthStart(now.date.month - 6) * DAY;
    }
    assert k < 6 && 6 <= j < 12 && t.date.Year() == y - 1;
    SecondHalf(y - 1, y, j);
    SecondHalf(y - 1, y, k + 6);
    assert 12 * (y - 1) + (k + 6) == now.date.month - 6 && 12 * y + (k + 6) == now.date.month + 6;
    assert t.date.month % 12 == j;
  }
}
