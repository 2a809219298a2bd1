/** Agreement in names and contents alone: its condition on the retention numbers is weaker, and exact.

    A daily link that is re-pointed looks younger than its copy.  It does no harm if the weekly file
    goes first and leaves it the content with the old date; otherwise it outstays its copy. */
module RotationNames {
  import opened BackupTree
  import opened Calendar
  import opened CopyStore
  import opened Expiry
  import opened Options
  import opened RotatedObjects
  import opened RotationMisfit
  import opened RotationRuns
  import opened Schedule
  import LocalStorage

  ghost predicate Outstays(r: Retention, month: int) {
    && r.months > 0 && r.weeks > 0
    && HandsOver(r, month) && !Refreshes(r, month)
  }

  lemma OutstaysMeans(r: Retention, month: int)
    requires r.NonNegative() && Outstays(r, month)
    ensures IsSunday(MonthStart(month)) && MonthsSpan(r, month) < r.days <= 7 * r.weeks && MonthsSpan(r, month) >= 28
  {
    hide MonthStart;
    SomeDays(r, month);
  }

  lemma FirstLives(r: Retention, month: int, h: Births, name: string)
    requires r.NonNegative() && Outstays(r, month)
    requires name in h && h[name].today == Date(month, 1)
    ensures var d := Key(Daily, name); var day := MonthStart(month) + r.days;
            && Lives(r, h, day - 1, d) && !Lives(r, h, day, d)
            && AgeDay(r, h, day - 1, d) == MonthStart(month + r.months)
  {
    OutstaysMeans(r, month);
    DueMeans(r, Date(month, 1));
    hide DuePeriods, MonthStart, Outstays;
    var day := MonthStart(month) + r.days;
    assert Lives(r, h, day - 1, Key(Weekly, name)) && !Lives(r, h, day - 1, Key(Monthly, name));
  }

  // The first backup's daily link on the morning its copy goes.
  lemma FirstLink(r: Retention, month: int, h: Births, name: string, t: Tree, c: Copies)
    requires r.NonNegative() && Outstays(r, month)
    requires name in h && h[name].today == Date(month, 1)
    requires var day := MonthStart(month) + r.days; TreeIs(r, h, day - 1, t) && CopiesAre(r, h, day - 1, c)
    ensures var d := Key(Daily, name); var day := MonthStart(month) + r.days;
            && d in t && DayOf(t[d].mtime) == MonthStart(month + r.months)
            && d in c && !Lives(r, h, day, d)
  {
    hide DuePeriods, MonthStart, DayOf, Outstays, AgeDay, Lives, Top;
    FirstLives(r, month, h, name);
  }

  // A later backup of the same directory, older by its date: the one of the second day.
  lemma SecondDay(r: Retention, month: int, h: Births, t: Tree) returns (name: string)
    requires r.NonNegative() && Outstays(r, month) && BirthsOk(h)
    requires var day := MonthStart(month) + r.days; TreeIs(r, h, day - 1, t) && OnePerDay(h, MonthStart(month), day - 1)
    ensures var b := Key(Daily, name); b in t && Eligible(name) && DayOf(t[b].mtime) == MonthStart(month) + 1
  {
    OutstaysMeans(r, month);
    var second := MonthStart(month) + 1;
    hide MonthStart, MonthLength;
    assert RunOn(h, second);
    name :| name in h && h[name].today.Number() == second;
    DueMeans(r, h[name].today);
    NotTheFirst(month, h[name].today);
    hide DuePeriods, DayOf, OnePerDay;
    assert Lives(r, h, MonthStart(month) + r.days - 1, Key(Daily, name));
  }

  lemma NotTheFirst(month: int, date: Date)
    requires date.Valid() && date.Number() == MonthStart(month) + 1
    ensures date.day != 1
  {
    hide MonthStart, MonthLength;
    NextMonth(month);
    DateOrder(date, Date(month, 2));
  }

  // No rotation of that day chooses the link: not by age, nor by count, as others look older.
  lemma LinkSpared(r: Retention, month: int, h: Births, today: Date, name: string, t: Tree, deleted: set<Key>)
    requires r.NonNegative() && Outstays(r, month) && BirthsOk(h) && BornBetween(h, MonthStart(month), today.Number() - 1)
    requires today.Valid() && today.Number() == MonthStart(month) + r.days
    requires TreeIs(r, h, today.Number() - 1, t)
    requires r.useCount ==> OnePerDay(h, MonthStart(month), today.Number() - 1)
    requires Key(Daily, name) in t && DayOf(t[Key(Daily, name)].mtime) == MonthStart(month + r.months)
    requires LocalStorage.IsDeleteSet(t, r, today, false, deleted)
    ensures Key(Daily, name) !in deleted
  {
    hide MonthStart, DayOf, GetRetention, LocalStorage.IsDeleteSet, TreeIs, OnePerDay, Outstays, BornBetween, IsRotation,
         LocalStorage.Listing, NamesIn, EligibleNames, BirthsOk, HandsOver, Refreshes;
    OutstaysMeans(r, month);
    DailyChoice(r, month, today, t, deleted);
    Listed(t, deleted, name);
    var dir, names := LocalStorage.Listing(t, Daily), NamesIn(deleted, Daily);
    if r.useCount {
      YoungerStays(r, month, h, today, name, t, names);
    } else if name in names {
      AgedGo(dir, r.days, (MonthStart(month) + 1) * DAY, names, name);
      BeforeDay(dir[name], MonthStart(month) + 1);
    }
  }

  lemma YoungerStays(r: Retention, month: int, h: Births, today: Date, name: string, t: Tree, names: set<string>)
    requires r.NonNegative() && Outstays(r, month) && BirthsOk(h) && BornBetween(h, MonthStart(month), today.Number() - 1)
    requires today.Valid() && today.Number() == MonthStart(month) + r.days
    requires TreeIs(r, h, today.Number() - 1, t) && OnePerDay(h, MonthStart(month), today.Number() - 1)
    requires Key(Daily, name) in t && DayOf(t[Key(Daily, name)].mtime) == MonthStart(month + r.months)
    requires IsRotation(LocalStorage.Listing(t, Daily), r.days, Some((MonthStart(month) + 1) * DAY), true, false, names)
    ensures name !in names
  {
    hide MonthStart, DayOf, TreeIs, OnePerDay, Outstays, BornBetween, IsRotation, LocalStorage.Listing, EligibleNames,
         BirthsOk, HandsOver, Refreshes;
    OutstaysMeans(r, month);
    var dir := LocalStorage.Listing(t, Daily);
    var b := SecondDay(r, month, h, t);
    Listed(t, {}, name);
    Listed(t, {}, b);
    LaterDay(dir[b], dir[name]);
    FullDirectory(r, month, h, today, t);
    OneGoes(dir, r.days, Some((MonthStart(month) + 1) * DAY), names, name, b);
  }

  lemma DailyChoice(r: Retention, month: int, today: Date, t: Tree, deleted: set<Key>)
    requires r.days > 0 && today.Number() == MonthStart(month) + r.days
    requires LocalStorage.IsDeleteSet(t, r, today, false, deleted)
    ensures IsRotation(LocalStorage.Listing(t, Daily), r.days, Some((MonthStart(month) + 1) * DAY), r.useCount, false,
                       NamesIn(deleted, Daily))
  {
    hide IsRotation, LocalStorage.Listing, NamesIn, MonthStart;
    assert LocalStorage.Chosen(t, r, today, false, Daily, NamesIn(deleted, Daily));
  }

  lemma Listed(t: Tree, deleted: set<Key>, name: string)
    requires Key(Daily, name) in t
    ensures name in LocalStorage.Listing(t, Daily) && LocalStorage.Listing(t, Daily)[name] == t[Key(Daily, name)].mtime
    ensures Key(Daily, name) in deleted ==> name in NamesIn(deleted, Daily)
    ensures Eligible(name) ==> name in EligibleNames(LocalStorage.Listing(t, Daily))
  {
    hide Eligible;
  }

  lemma AgedGo(dir: map<string, int>, count: int, date: int, names: set<string>, name: string)
    requires IsRotation(dir, count, Some(date), false, false, names) && name in names
    ensures name in dir && dir[name] < date
  {
  }

  lemma FullDirectory(r: Retention, month: int, h: Births, today: Date, t: Tree)
    requires r.NonNegative() && Outstays(r, month) && BirthsOk(h) && BornBetween(h, MonthStart(month), today.Number() - 1)
    requires today.Valid() && today.Number() == MonthStart(month) + r.days
    requires TreeIs(r, h, today.Number() - 1, t) && OnePerDay(h, MonthStart(month), today.Number() - 1)
    ensures |EligibleNames(LocalStorage.Listing(t, Daily))| <= r.days
  {
    hide MonthStart, MonthLength, DayOf, DuePeriods, OnePerDay, Outstays, AgeDay, Alive, Eligible, BirthsOk, Lives, Top,
         NamesAt, EligibleNames, HandsOver, Refreshes, TreeIs, LocalStorage.Listing;
    var dir, n := LocalStorage.Listing(t, Daily), today.Number();
    OutstaysMeans(r, month);
    DueMeans(r, today);
    DirectoryLives(r, h, n - 1, t);
    FilledDirectory(r, h, today, false, Daily, dir);
    SlotsFilled(h, MonthStart(month), n - 1, Daily, n - r.days, n - 1);
  }

  lemma DirectoryLives(r: Retention, h: Births, n: int, t: Tree)
    requires TreeIs(r, h, n, t)
    ensures forall s :: s in LocalStorage.Listing(t, Daily) <==> Lives(r, h, n, Key(Daily, s))
  {
    hide DayOf, AgeDay, Lives, Top;
    forall s
      ensures s in LocalStorage.Listing(t, Daily) <==> Key(Daily, s) in t
    {
    }
  }

  // With at most one name too many, one that is not the oldest stays.
  lemma OneGoes(dir: map<string, int>, count: int, date: Option<int>, names: set<string>, name: string, older: string)
    requires count > 0 && IsRotation(dir, count, date, true, false, names) && |EligibleNames(dir)| <= count
    requires older in EligibleNames(dir) && name in dir && dir[older] < dir[name]
    ensures name !in names
  {
    if name in names {
      assert |names| == 1;
      Singleton(names, name);
    }
  }

  // The copy goes, the link stays: the storages no longer hold the same names.
  lemma LinkOutstays(r: Retention, month: int, h: Births, name: string, run: Run, s: Sys, s': Sys)
    requires r.NonNegative() && Outstays(r, month)
    requires LastDay(r, month, MonthStart(month) + r.days, h, name, run, s) && Step(r, run, s, s') && !run.safe
    ensures !SameBackups(s'.tree, s'.copies)
  {
    var d := Key(Daily, name);
    hide TreeIs, CopiesAre, MonthStart, BirthsOk, OnePerDay, LocalStorage.IsDeleteSet, CopyStore.IsDeleteSet, NoneStale, Step,
         Shape, DayOf, Outstays, Lives, DeleteLoop, IsNeedToBackup, ScannedPeriods, DuePeriods, Resolve, Paced, BornBetween,
         Deliver, Upload, Rotate, ReadsAfter;
    OutstaysMeans(r, month);
    LinkStays(r, month, h, name, run, s, s');
    UnsafeStep(r, run, s, s');
    NeedsBackup(r, run.today);
    DeliveryElsewhere(r, run, Rotate(r, run, s.tree).tree, s.copies - run.copyDeleted, name);
    assert d in s'.tree && d !in s'.copies;
  }

  lemma LinkStays(r: Retention, month: int, h: Births, name: string, run: Run, s: Sys, s': Sys)
    requires r.NonNegative() && Outstays(r, month)
    requires LastDay(r, month, MonthStart(month) + r.days, h, name, run, s) && Step(r, run, s, s') && !run.safe
    ensures var d := Key(Daily, name); d in Rotate(r, run, s.tree).tree && d !in s.copies - run.copyDeleted
    ensures name != run.name
  {
    hide TreeIs, CopiesAre, MonthStart, BirthsOk, OnePerDay, LocalStorage.IsDeleteSet, CopyStore.IsDeleteSet, NoneStale, Step,
         Shape, DayOf, Outstays, Lives, DeleteLoop, IsNeedToBackup, ScannedPeriods, DuePeriods, Resolve, Paced, BornBetween,
         ReadsAfter, Stuck, Unseen;
    var day := MonthStart(month) + r.days;
    LastDayExpires(r, month, day, h, name, run, s, s');
    UnsafeStep(r, run, s, s');
    FirstLink(r, month, h, name, s.tree, s.copies);
    LinkSpared(r, month, h, run.today, name, s.tree, run.deleted);
    LocalStorage.ChosenRotation(s.tree, r, run.today, false, run.deleted, run.order, run.clock);
  }

  lemma NeedsBackup(r: Retention, today: Date)
    requires r.days > 0
    ensures IsNeedToBackup(r, today)
  {
  }

  // Up to that day nothing has gone wrong, if no file's end does.
  lemma FitsUntilThen(r: Retention, month: int)
    requires r.NonNegative() && forall other :: HandsOver(r, other)
    ensures FitsThrough(r, MonthStart(month), MonthStart(month) + r.days - 1)
  {
    hide MonthStart, HandsOver, Refreshes;
  }

  lemma LinkOutstaysHistory(r: Retention, month: int) returns (runs: seq<Run>, states: seq<Sys>)
    requires r.NonNegative() && Outstays(r, month) && forall other :: HandsOver(r, other)
    ensures History(r, runs, states) && Regular(r, runs) && !SameAllAlong(r, runs, states)
  {
    hide History, Step, HandsOver, MonthStart, MonthLength, NameOf, LocalRun, Agree, SameBackups, LastDay, BirthsOf,
         Agreeing, SameAllAlong, Regular, FitsThrough, Outstays;
    var start, first := Date(month, 1), Key(Monthly, NameOf(0));
    NextMonth(month);
    OutstaysMeans(r, month);
    FitsUntilThen(r, month);
    var n := r.days;
    var next;
    runs, states, next := DailyHistory(r, start, first, n + 1);
    DailyIsRegular(r, start, first, runs);
    HistoryReaches(r, month, MonthStart(month) + r.days, first, runs, states);
    LinkOutstays(r, month, BirthsOf(runs[..n]), runs[0].name, runs[n], states[n], states[n + 1]);
    OneBadRun(r, runs, states, n);
  }

  // The exact condition for names and contents, over the same histories.
  lemma NamesIff(r: Retention)
    requires r.NonNegative()
    ensures NamesFitWithinCycle(r) <==>
            forall runs, states | History(r, runs, states) && Regular(r, runs) :: SameAllAlong(r, runs, states)
    ensures FitsWithinCycle(r) ==> NamesFitWithinCycle(r)
  {
    hide History, SameAllAlong, FitsAt, HandsOver, Refreshes, Regular;
    FitsIff(r);
    FitsMeansNamesFit(r);
    if NamesFit(r) {
      forall runs, states | History(r, runs, states) && Regular(r, runs)
        ensures SameAllAlong(r, runs, states)
      {
        LocalHoldsBackups(r, runs, states);
      }
    } else {
      var runs, states := Misfit(r);
    }
  }

  lemma Misfit(r: Retention) returns (runs: seq<Run>, states: seq<Sys>)
    requires r.NonNegative() && !NamesFit(r)
    ensures History(r, runs, states) && Regular(r, runs) && !SameAllAlong(r, runs, states)
  {
    hide History, SameAllAlong, FitsAt, HandsOver, Refreshes, Regular;
    if month :| !HandsOver(r, month) {
      EndsTooEarly(r, month);
      runs, states := MisfitDisagrees(r, month);
    } else {
      var month :| !NamesFitAt(r, month);
      runs, states := LinkOutstaysHistory(r, month);
    }
  }

  lemma EndsTooEarly(r: Retention, month: int)
    ensures FitsAt(r, month) ==> HandsOver(r, month)
  {
    hide MonthStart;
  }
}
