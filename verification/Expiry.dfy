/** When a copy expires, and why the two ways of choosing what to delete find the same files.

    A copy made on some day in some period directory is wanted for a number of days, Sundays or
    firsts of the month.  Age-based rotation finds what has expired on any gapless history;
    counting finds the same on a history of exactly one run a day. */
module Expiry {
  import opened BackupTree
  import opened Calendar
  import opened Options
  import opened RotatedObjects
  import opened Schedule

  // The run that produced a backup name.
  datatype Birth = Birth(today: Date, content: Content)

  type Births = map<string, Birth>

  // Age-based retention: the days on which a copy made on `born` is still wanted.
  predicate Alive(r: Retention, p: Period, born: Date, n: int) {
    match p
    case Daily => n < born.Number() + r.days
    case Weekly => n < born.Number() + 7 * r.weeks
    case Monthly => n < MonthStart(born.month + r.months)
  }

  predicate Lives(r: Retention, h: Births, n: int, k: Key) {
    k.name in h && k.period in DuePeriods(r, h[k.name].today) && Alive(r, k.period, h[k.name].today, n)
  }

  ghost predicate BirthsOk(h: Births) {
    forall name :: name in h ==> h[name].today.Valid() && Eligible(name)
  }

  lemma StillLives(r: Retention, h: Births, m: int, n: int, k: Key)
    requires m <= n && Lives(r, h, n, k)
    ensures Lives(r, h, m, k)
  {
  }

  lemma BeforeDay(instant: int, day: int)
    ensures instant < day * DAY <==> DayOf(instant) < day
  {
  }

  lemma DueMeans(r: Retention, born: Date)
    ensures Monthly in DuePeriods(r, born) <==> born.day == 1 && r.months > 0
    ensures Weekly in DuePeriods(r, born) <==> IsSunday(born.Number()) && r.weeks > 0
    ensures Daily in DuePeriods(r, born) <==> r.days > 0
  {
  }

  // What expires on day n is what the age test in a scanned directory finds, and an unscanned
  // directory has nothing to expire.
  lemma ExpiryIsTheAgeTest(r: Retention, p: Period, born: Date, today: Date, m: int)
    requires r.NonNegative() && born.Valid() && today.Valid()
    requires p in DuePeriods(r, born) && Alive(r, p, born, m)
    requires today.Number() - 1 <= m <= today.Number()
    ensures var (count, date) := GetRetention(p, r, today);
            if (count, date) == (0, None) then Alive(r, p, born, today.Number())
            else date.Some? && (Alive(r, p, born, today.Number()) <==> born.Number() * DAY >= date.value)
  {
    DueMeans(r, born);
    var n := today.Number();
    hide DuePeriods;
    match p {
      case Daily =>
      case Weekly =>
        assert born.Number() % 7 == 0 && (born.Number() + 7 * r.weeks) % 7 == 0;
      case Monthly =>
        MonthlyExpiry(r, born, today, m);
    }
  }

  lemma MonthlyExpiry(r: Retention, born: Date, today: Date, m: int)
    requires born.Valid() && today.Valid() && born.day == 1 && r.months > 0
    requires Alive(r, Monthly, born, m) && today.Number() - 1 <= m <= today.Number()
    ensures today.day != 1 ==> Alive(r, Monthly, born, today.Number())
    ensures today.day == 1 ==> (Alive(r, Monthly, born, today.Number()) <==> born.Number() >= AddMonths(today, -r.months) + 1)
    ensures !Alive(r, Monthly, born, today.Number()) ==> today.Number() == MonthStart(born.month + r.months)
  {
    hide MonthStart, MonthLength;
    NextMonth(born.month + r.months);
    DateOrder(Date(born.month + r.months, 1), today);
    MonthStartMonotone(born.month, today.month - r.months);
    MonthStartMonotone(born.month + r.months, today.month);
    MonthStartMonotone(today.month - r.months, born.month);
    MonthStartMonotone(today.month, born.month + r.months);
  }

  // A listing dates every name by its run; only a name that stays today may look younger.
  ghost predicate Dated(r: Retention, h: Births, today: Date, p: Period, dir: map<string, int>) {
    forall s :: s in dir ==>
      && s in h
      && (DayOf(dir[s]) == h[s].today.Number()
          || (DayOf(dir[s]) >= h[s].today.Number() && Lives(r, h, today.Number(), Key(p, s))))
  }

  // The age test of one directory.
  lemma AgeTest(r: Retention, h: Births, m: int, today: Date, safe: bool, p: Period, dir: map<string, int>,
                names: set<string>)
    requires r.NonNegative() && !r.useCount && BirthsOk(h) && today.Valid()
    requires today.Number() - 1 <= m <= today.Number()
    requires forall s :: s in dir <==> Lives(r, h, m, Key(p, s))
    requires Dated(r, h, today, p, dir)
    requires var (count, date) := GetRetention(p, r, today);
             if (count, date) == (0, None) then names == {}
             else IsRotation(dir, count, date, r.useCount, safe, names)
    ensures forall s :: s in names <==> s in dir && !Lives(r, h, today.Number(), Key(p, s))
  {
    hide DuePeriods, GetRetention, Alive, DayOf;
    var (count, date) := GetRetention(p, r, today);
    forall s
      ensures s in names <==> s in dir && !Lives(r, h, today.Number(), Key(p, s))
    {
      if s in dir {
        ExpiryIsTheAgeTest(r, p, h[s].today, today, m);
        if (count, date) != (0, None) {
          DatedBefore(dir[s], p, r, today);
        }
      }
    }
  }

  lemma DatedBefore(instant: int, p: Period, r: Retention, today: Date)
    requires GetRetention(p, r, today) != (0, None)
    ensures var date := GetRetention(p, r, today).1;
            date.Some? && (instant < date.value <==> DayOf(instant) * DAY < date.value)
  {
    var day := match p
      case Daily => today.Number() - r.days + 1
      case Weekly => today.Number() - r.weeks * 7 + 1
      case Monthly => AddMonths(today, -r.months) + 1;
    BeforeDay(instant, day);
  }

  ghost predicate Expired(r: Retention, h: Births, n: int, keys: set<Key>, deleted: set<Key>) {
    forall k :: k in deleted <==> k in keys && !Lives(r, h, n, k)
  }

  /* ---- Counting ---- */

  // Exactly one run on each day of a stretch.
  ghost predicate OnePerDay(h: Births, first: int, last: int) {
    && (forall s :: s in h ==> first <= h[s].today.Number() <= last)
    && (forall s, u :: s in h && u in h && h[s].today.Number() == h[u].today.Number() ==> s == u)
    && (forall d :: first <= d <= last ==> RunOn(h, d))
  }

  ghost predicate RunOn(h: Births, d: int) {
    exists s :: s in h && h[s].today.Number() == d
  }

  // The due days of a period are numbered: every day, every Sunday, every first.
  function SlotDay(p: Period, slot: int): int {
    match p
    case Daily => slot
    case Weekly => 7 * slot
    case Monthly => MonthStart(slot)
  }

  function SlotOf(p: Period, d: Date): int {
    match p
    case Daily => d.Number()
    case Weekly => d.Number() / 7
    case Monthly => d.month
  }

  function CountOf(r: Retention, p: Period): int {
    match p
    case Daily => r.days
    case Weekly => r.weeks
    case Monthly => r.months
  }

  lemma SlotsIncrease(p: Period, a: int, b: int)
    ensures a < b <==> SlotDay(p, a) < SlotDay(p, b)
  {
    if p.Monthly? {
      MonthStartMonotone(a, b);
    }
  }

  lemma DueSlot(r: Retention, p: Period, born: Date)
    requires born.Valid() && CountOf(r, p) > 0
    ensures p in DuePeriods(r, born) <==> SlotDay(p, SlotOf(p, born)) == born.Number()
    ensures forall j :: SlotDay(p, j) == born.Number() ==> j == SlotOf(p, born)
  {
    DueMeans(r, born);
    hide DuePeriods;
    if p.Monthly? {
      hide MonthStart, MonthLength;
      forall j
        ensures MonthStart(j) == born.Number() ==> j == born.month
      {
        NextMonth(j);
        DateOrder(Date(j, 1), born);
      }
    }
  }

  lemma WeeksApart(a: int, b: int, weeks: int)
    requires IsSunday(a) && IsSunday(b)
    ensures b - 1 < a + 7 * weeks <==> a / 7 >= b / 7 - weeks
    ensures b < a + 7 * weeks <==> a / 7 > b / 7 - weeks
  {
  }

  lemma SlotAlive(r: Retention, p: Period, born: Date, today: Date)
    requires born.Valid() && today.Valid() && CountOf(r, p) > 0
    requires p in DuePeriods(r, born) && p in DuePeriods(r, today)
    ensures Alive(r, p, born, today.Number() - 1) <==> SlotOf(p, born) >= SlotOf(p, today) - CountOf(r, p)
    ensures Alive(r, p, born, today.Number()) <==> SlotOf(p, born) > SlotOf(p, today) - CountOf(r, p)
  {
    hide DuePeriods, MonthStart, MonthLength;
    DueMeans(r, born);
    DueMeans(r, today);
    match p {
      case Daily =>
      case Weekly =>
        WeeksApart(born.Number(), today.Number(), r.weeks);
      case Monthly =>
        MonthStartMonotone(today.month, born.month + r.months);
        MonthStartMonotone(born.month + r.months, today.month);
    }
  }

  ghost function NamesAt(h: Births, p: Period, a: int, b: int): set<string> {
    set s | s in h && exists j :: a <= j <= b && SlotDay(p, j) == h[s].today.Number()
  }

  lemma LastSlot(h: Births, p: Period, a: int, b: int)
    requires a <= b
    ensures NamesAt(h, p, a, b) == NamesAt(h, p, a, b - 1) + NamesAt(h, p, b, b)
    ensures NamesAt(h, p, a, b - 1) !! NamesAt(h, p, b, b)
  {
    forall s | s in NamesAt(h, p, a, b - 1)
      ensures s !in NamesAt(h, p, b, b)
    {
      var j :| a <= j <= b - 1 && SlotDay(p, j) == h[s].today.Number();
      SlotsIncrease(p, j, b);
    }
  }

  lemma OneSlot(h: Births, first: int, last: int, p: Period, b: int)
    requires OnePerDay(h, first, last)
    ensures |NamesAt(h, p, b, b)| == if first <= SlotDay(p, b) <= last then 1 else 0
  {
    hide SlotDay;
    var at := NamesAt(h, p, b, b);
    if first <= SlotDay(p, b) <= last {
      assert RunOn(h, SlotDay(p, b));
      var s :| s in h && h[s].today.Number() == SlotDay(p, b);
      assert at == {s};
    } else {
      assert at == {};
    }
  }

  lemma {:induction false} SlotsFilled(h: Births, first: int, last: int, p: Period, a: int, b: int)
    requires OnePerDay(h, first, last) && a <= b + 1
    ensures |NamesAt(h, p, a, b)| <= b - a + 1
    ensures first <= SlotDay(p, a) && SlotDay(p, b) <= last ==> |NamesAt(h, p, a, b)| == b - a + 1
    ensures SlotDay(p, a) < first && a <= b ==> |NamesAt(h, p, a, b)| <= b - a
    decreases b - a + 1
  {
    hide OnePerDay, SlotDay;
    if a == b + 1 {
      assert NamesAt(h, p, a, b) == {};
    } else {
      SlotsFilled(h, first, last, p, a, b - 1);
      SlotsIncrease(p, a, b);
      SlotsIncrease(p, b - 1, b);
      LastSlot(h, p, a, b);
      OneSlot(h, first, last, p, b);
      hide NamesAt;
      assert |NamesAt(h, p, a, b)| == |NamesAt(h, p, a, b - 1)| + |NamesAt(h, p, b, b)|;
    }
  }

  // In a directory scanned today the names wanted yesterday sit in the last slots, `count` of them
  // before today's own, and only the oldest of these has expired.
  lemma WantedSlots(r: Retention, h: Births, today: Date, p: Period, k: string)
    requires r.NonNegative() && BirthsOk(h) && today.Valid() && p in DuePeriods(r, today)
    requires forall s :: s in h ==> h[s].today.Number() <= today.Number()
    ensures var t, c := SlotOf(p, today), CountOf(r, p); var n := today.Number();
            && SlotDay(p, t) == n && c > 0
            && (Lives(r, h, n - 1, Key(p, k)) <==> k in NamesAt(h, p, t - c, t))
            && (k in h && h[k].today.Number() < n ==> k !in NamesAt(h, p, t, t))
            && (Lives(r, h, n - 1, Key(p, k)) && !Lives(r, h, n, Key(p, k)) <==> k in NamesAt(h, p, t - c, t - c))
  {
    DueMeans(r, today);
    hide DuePeriods, SlotDay, Alive;
    DueSlot(r, p, today);
    if k in h {
      DueSlot(r, p, h[k].today);
      if p in DuePeriods(r, h[k].today) {
        SlotAlive(r, p, h[k].today, today);
        SlotsIncrease(p, SlotOf(p, today), SlotOf(p, h[k].today));
      }
    }
  }

  // With one eligible name too many, the oldest goes; otherwise none does.
  lemma ExcessGoes(dir: map<string, int>, count: int, date: Option<int>, safe: bool, dead: set<string>, names: set<string>)
    requires count > 0 && IsRotation(dir, count, date, true, safe, names)
    requires dead <= EligibleNames(dir)
    requires var keep := if safe then count else count - 1;
             |EligibleNames(dir)| <= keep + 1 && |dead| == if |EligibleNames(dir)| == keep + 1 then 1 else 0
    requires forall x, z :: z in dead && x in EligibleNames(dir) && x !in dead ==> dir[z] < dir[x]
    ensures names == dead
  {
    if dead == {} {
      assert |names| == 0;
    } else {
      assert |names| == 1;
      var z :| z in dead;
      var x :| x in names;
      Singleton(dead, z);
      Singleton(names, x);
      assert x == z;
    }
  }

  lemma Singleton(a: set<string>, x: string)
    requires |a| == 1 && x in a
    ensures a == {x}
  {
    assert |a - {x}| == 0;
  }

  lemma OldestSlot(h: Births, p: Period, a: int, b: int, z: string, x: string)
    requires z in NamesAt(h, p, a, a) && x in NamesAt(h, p, a, b) && x !in NamesAt(h, p, a, a)
    ensures h[z].today.Number() < h[x].today.Number()
  {
    var j :| a <= j <= b && SlotDay(p, j) == h[x].today.Number();
    SlotsIncrease(p, a, j);
  }

  // Counting deletes what has expired: with one run a day the oldest slot is the only one too many.
  lemma CountTest(r: Retention, h: Births, first: int, today: Date, safe: bool, p: Period, dir: map<string, int>,
                  date: Option<int>, names: set<string>)
    requires r.NonNegative() && BirthsOk(h) && today.Valid() && p in DuePeriods(r, today)
    requires OnePerDay(h, first, if safe then today.Number() else today.Number() - 1)
    requires forall s :: s in dir <==> Lives(r, h, today.Number() - 1, Key(p, s))
    requires Dated(r, h, today, p, dir)
    requires IsRotation(dir, CountOf(r, p), date, true, safe, names)
    ensures forall s :: s in names <==> s in dir && !Lives(r, h, today.Number(), Key(p, s))
  {
    var t, c := SlotOf(p, today), CountOf(r, p);
    var last := if safe then today.Number() else today.Number() - 1;
    hide SlotDay, SlotOf, CountOf, DuePeriods, Lives, DayOf, IsRotation, NamesAt, OnePerDay, Eligible, EligibleNames,
         BirthsOk;
    SpanOf(h, first, last);
    WantedSlots(r, h, today, p, "");
    FilledDirectory(r, h, today, safe, p, dir);
    SlotsIncrease(p, t - 1, t);
    OldestTooMany(h, first, last, p, t - c, if safe then t else t - 1);
    OldestFirst(h, p, t - c, if safe then t else t - 1, dir);
    ExcessGoes(dir, c, date, safe, NamesAt(h, p, t - c, t - c), names);
  }

  // A stretch of due days up to the last run holds a name too many exactly when its first day has one.
  lemma OldestTooMany(h: Births, first: int, last: int, p: Period, a: int, b: int)
    requires OnePerDay(h, first, last) && a <= b && SlotDay(p, b) <= last
    ensures NamesAt(h, p, a, a) <= NamesAt(h, p, a, b)
    ensures |NamesAt(h, p, a, b)| <= b - a + 1
    ensures |NamesAt(h, p, a, a)| == if |NamesAt(h, p, a, b)| == b - a + 1 then 1 else 0
  {
    SlotsFilled(h, first, last, p, a, b);
    OneSlot(h, first, last, p, a);
    SlotsIncrease(p, a, b);
    hide SlotDay, OnePerDay;
  }

  lemma OldestFirst(h: Births, p: Period, a: int, b: int, dir: map<string, int>)
    requires forall s :: s in dir ==> s in h && DayOf(dir[s]) >= h[s].today.Number()
    requires forall s :: s in NamesAt(h, p, a, a) && s in dir ==> DayOf(dir[s]) == h[s].today.Number()
    requires EligibleNames(dir) == NamesAt(h, p, a, b) && NamesAt(h, p, a, a) <= EligibleNames(dir)
    ensures forall x, z :: z in NamesAt(h, p, a, a) && x in EligibleNames(dir) && x !in NamesAt(h, p, a, a) ==>
              dir[z] < dir[x]
  {
    hide DayOf, NamesAt, Eligible;
    forall x, z | z in NamesAt(h, p, a, a) && x in EligibleNames(dir) && x !in NamesAt(h, p, a, a)
      ensures dir[z] < dir[x]
    {
      OldestSlot(h, p, a, b, z, x);
      LaterDay(dir[z], dir[x]);
    }
  }

  lemma SpanOf(h: Births, first: int, last: int)
    requires OnePerDay(h, first, last)
    ensures forall s :: s in h ==> first <= h[s].today.Number() <= last
  {
  }

  // A directory before today's deletions, by slots: all its names, and those that have expired.
  lemma FilledDirectory(r: Retention, h: Births, today: Date, safe: bool, p: Period, dir: map<string, int>)
    requires r.NonNegative() && BirthsOk(h) && today.Valid() && p in DuePeriods(r, today)
    requires forall s :: s in h ==> h[s].today.Number() <= if safe then today.Number() else today.Number() - 1
    requires forall s :: s in dir <==> Lives(r, h, today.Number() - 1, Key(p, s))
    ensures var t, c := SlotOf(p, today), CountOf(r, p);
            && EligibleNames(dir) == NamesAt(h, p, t - c, if safe then t else t - 1)
            && (forall s :: s in dir ==> Eligible(s))
            && (forall s :: s in NamesAt(h, p, t - c, t - c)
                            <==> s in dir && !Lives(r, h, today.Number(), Key(p, s)))
  {
    var t, c := SlotOf(p, today), CountOf(r, p);
    var all := NamesAt(h, p, t - c, if safe then t else t - 1);
    hide SlotDay, SlotOf, CountOf, Alive, DuePeriods, NamesAt, Eligible;
    WantedSlots(r, h, today, p, "");
    LastSlot(h, p, t - c, t);
    forall s
      ensures s in dir <==> s in all
      ensures s in dir ==> Eligible(s)
      ensures s in NamesAt(h, p, t - c, t - c) <==> s in dir && !Lives(r, h, today.Number(), Key(p, s))
    {
      WantedSlots(r, h, today, p, s);
      assert s in dir ==> s in h;
    }
    assert EligibleNames(dir) == all;
  }

  lemma LaterDay(a: int, b: int)
    ensures DayOf(a) < DayOf(b) ==> a < b
  {
  }

  /* ---- Either way ---- */

  // Counting needs one run a day; yesterday's state is then the one before today's run.
  ghost predicate Paced(r: Retention, h: Births, m: int, today: Date, safe: bool) {
    r.useCount ==>
      m == today.Number() - 1
      && exists first, last :: last == (if safe then today.Number() else m) && OnePerDay(h, first, last)
  }

  // What one directory loses today, by age or by count: the names that have expired.
  lemma DirectoryTest(r: Retention, h: Births, m: int, today: Date, safe: bool, p: Period, dir: map<string, int>,
                      names: set<string>)
    requires r.NonNegative() && BirthsOk(h) && today.Valid() && Paced(r, h, m, today, safe)
    requires today.Number() - 1 <= m <= today.Number()
    requires forall s :: s in dir <==> Lives(r, h, m, Key(p, s))
    requires Dated(r, h, today, p, dir)
    requires var (count, date) := GetRetention(p, r, today);
             if (count, date) == (0, None) then names == {}
             else IsRotation(dir, count, date, r.useCount, safe, names)
    ensures forall s :: s in names <==> s in dir && !Lives(r, h, today.Number(), Key(p, s))
  {
    hide DayOf, Lives, IsRotation, DuePeriods, OnePerDay;
    if !r.useCount {
      AgeTest(r, h, m, today, safe, p, dir, names);
    } else {
      SchedulesAgree(r, today);
      ScannedMeans(p, r, today);
      if p in DuePeriods(r, today) {
        var first, last :| last == (if safe then today.Number() else m) && OnePerDay(h, first, last);
        CountTest(r, h, first, today, safe, p, dir, GetRetention(p, r, today).1, names);
      } else {
        forall s | s in dir
          ensures Lives(r, h, today.Number(), Key(p, s))
        {
          UnscannedLives(r, h, m, today, Key(p, s));
        }
      }
    }
  }

  lemma UnscannedLives(r: Retention, h: Births, m: int, today: Date, k: Key)
    requires r.NonNegative() && BirthsOk(h) && today.Valid()
    requires today.Number() - 1 <= m <= today.Number()
    requires Lives(r, h, m, k) && GetRetention(k.period, r, today) == (0, None)
    ensures Lives(r, h, today.Number(), k)
  {
    ExpiryIsTheAgeTest(r, k.period, h[k.name].today, today, m);
  }
}
