/** Concrete days on which the rotation goes wrong.

    The trees of LoopStops and FreshLinkOutlivesCopy are written out by hand, at the size the point
    needs; FifthRun is reached from empty storages. */
module RotationExamples {
  import opened BackupTree
  import opened Calendar
  import opened CopyStore
  import opened CountedArchives
  import opened Expiry
  import opened LocalDelivery
  import opened Options
  import opened RotatedObjects
  import opened RotationMisfit
  import opened RotationRuns
  import opened Schedule
  import LocalStorage

  // What a rotation by age deletes.
  ghost function AgedFiles(t: Tree, r: Retention, today: Date): set<Key> {
    set k | k in t && Eligible(k.name) && GetRetention(k.period, r, today).1.Some?
            && t[k].mtime < GetRetention(k.period, r, today).1.value
  }

  ghost function AgedCopies(c: Copies, r: Retention, today: Date): set<Key> {
    set k | k in c && Eligible(k.name) && GetRetention(k.period, r, today).1.Some?
            && c[k].mtime < GetRetention(k.period, r, today).1.value
  }

  lemma AgedFilesDeletable(t: Tree, r: Retention, today: Date, safe: bool)
    requires !r.useCount
    ensures LocalStorage.IsDeleteSet(t, r, today, safe, AgedFiles(t, r, today))
  {
    forall p: Period
      ensures LocalStorage.Chosen(t, r, today, safe, p, NamesIn(AgedFiles(t, r, today), p))
    {
      var (count, date) := GetRetention(p, r, today);
      var dir := LocalStorage.Listing(t, p);
      var names := NamesIn(AgedFiles(t, r, today), p);
      assert (count, date) != (0, None) ==> date.Some?;
      forall s
        ensures s in names <==> s in dir && Eligible(s) && date.Some? && dir[s] < date.value
      {
        assert Key(p, s) in t <==> s in dir;
        assert Key(p, s) in AgedFiles(t, r, today) <==> s in names;
      }
    }
  }

  lemma AgedCopiesDeletable(c: Copies, r: Retention, today: Date, safe: bool)
    requires !r.useCount
    ensures CopyStore.IsDeleteSet(c, r, today, safe, AgedCopies(c, r, today))
  {
    forall p: Period
      ensures CopyStore.Chosen(c, r, today, safe, p, AgedCopies(c, r, today))
    {
      var (count, date) := GetRetention(p, r, today);
      var dir := CopyStore.Listing(c, p);
      var names := NamesIn(AgedCopies(c, r, today), p);
      assert (count, date) != (0, None) ==> date.Some?;
      forall s
        ensures s in names <==> s in dir && Eligible(s) && date.Some? && dir[s] < date.value
      {
        assert Key(p, s) in c <==> s in dir;
        assert Key(p, s) in AgedCopies(c, r, today) <==> s in names;
      }
    }
  }

  /* ---- Sunday 1 February 2026, Sunday 1 March 2026 ---- */

  const BORN := 739_648
  const FEBRUARY := 12 * 2026 + 1
  const MARCH_FIRST := Date(FEBRUARY + 1, 1)
  const MARCH_THIRD := Date(FEBRUARY + 1, 3)

  const MONTHLY := Key(Monthly, "a.tar")
  const WEEKLY := Key(Weekly, "a.tar")
  const DAILY := Key(Daily, "a.tar")
  const OTHER := Key(Daily, "b.tar")

  lemma FebruaryFirst()
    ensures MonthStart(FEBRUARY) == BORN && MonthStart(FEBRUARY + 1) == BORN + 28
  {
    hide MonthStart;
    JanuaryFirst(2026);
    MonthsInYear(2026, 1);
    MonthsInYear(2026, 2);
    assert DaysBeforeYear(2026) == 739_616 && !IsLeap(2026);
  }

  lemma FebruaryMarch()
    ensures MonthStart(FEBRUARY) == BORN && MonthStart(FEBRUARY + 1) == BORN + 28
    ensures IsSunday(BORN) && IsSunday(BORN + 28)
    ensures MARCH_FIRST.Valid() && MARCH_FIRST.Number() == BORN + 28
    ensures MARCH_THIRD.Valid() && MARCH_THIRD.Number() == BORN + 30 && !IsSunday(BORN + 30)
  {
    hide MonthStart, MonthLength;
    FebruaryFirst();
    NextMonth(FEBRUARY + 1);
  }

  // What a rotation of that March looks for.
  lemma MarchDates(r: Retention)
    requires r.days > 0 && r.weeks > 0 && r.months == 1
    ensures GetRetention(Monthly, r, MARCH_FIRST).1 == Some((BORN + 1) * DAY)
    ensures GetRetention(Weekly, r, MARCH_FIRST).1 == Some((BORN + 29 - 7 * r.weeks) * DAY)
    ensures GetRetention(Daily, r, MARCH_FIRST).1 == Some((BORN + 29 - r.days) * DAY)
    ensures GetRetention(Monthly, r, MARCH_THIRD).1 == None && GetRetention(Weekly, r, MARCH_THIRD).1 == None
    ensures GetRetention(Daily, r, MARCH_THIRD).1 == Some((BORN + 31 - r.days) * DAY)
  {
    FebruaryMarch();
    hide MonthStart, MonthLength;
  }

  lemma MarchScans(r: Retention)
    requires r.days > 0 && r.weeks > 0 && r.months == 1
    ensures Monthly in ScannedPeriods(r, MARCH_FIRST) && Weekly in ScannedPeriods(r, MARCH_FIRST)
    ensures Daily in ScannedPeriods(r, MARCH_FIRST)
  {
    MarchDates(r);
    hide GetRetention;
    ScannedMeans(Monthly, r, MARCH_FIRST);
    ScannedMeans(Weekly, r, MARCH_FIRST);
    ScannedMeans(Daily, r, MARCH_FIRST);
  }

  lemma ArchiveNames()
    ensures Eligible("a.tar") && Eligible("b.tar")
  {
    assert "a.tar"[1..] == ".tar" && "b.tar"[1..] == ".tar";
  }

  // The loop that stops: seven days, five weeks, one month.  The February file is moved onto its weekly
  // link, `os.Remove("")` fails, and the other file, a day too old, stays.
  lemma LoopStops(content: Content, other: Content, clock: Key -> int)
    ensures var r := Retention(7, 5, 1, false);
            var t := map[MONTHLY := File(content, BORN * DAY), WEEKLY := Link(MONTHLY, BORN * DAY),
                         OTHER := File(other, (BORN + 21) * DAY)];
            var p := DeleteLoop(t, {MONTHLY, OTHER}, ScanRecords(t, ScannedPeriods(r, MARCH_FIRST)), [MONTHLY, OTHER], clock);
            && LocalStorage.IsDeleteSet(t, r, MARCH_FIRST, false, {MONTHLY, OTHER})
            && p == Progress(map[WEEKLY := File(content, BORN * DAY), OTHER := File(other, (BORN + 21) * DAY)], 1, true)
  {
    var r := Retention(7, 5, 1, false);
    var t := map[MONTHLY := File(content, BORN * DAY), WEEKLY := Link(MONTHLY, BORN * DAY),
                 OTHER := File(other, (BORN + 21) * DAY)];
    var deleted := {MONTHLY, OTHER};
    var scanned := ScannedPeriods(r, MARCH_FIRST);
    ArchiveNames();
    MarchDates(r);
    MarchScans(r);
    hide GetRetention, Eligible, LocalStorage.IsDeleteSet, DeleteLoop;
    assert AgedFiles(t, r, MARCH_FIRST) == deleted;
    AgedFilesDeletable(t, r, MARCH_FIRST, false);
    var l := LinksTo(t, scanned, MONTHLY);
    assert l == FileLinks(Some(WEEKLY), None);
    var records := ScanRecords(t, scanned);
    IterationReplaces(t, deleted, l, MONTHLY, clock(MONTHLY));
    LocalStorage.NoFilesYet(t, deleted, records, clock);
    LocalStorage.LoopStep(t, deleted, records, [], MONTHLY, clock);
    assert [] + [MONTHLY] == [MONTHLY] && [MONTHLY] + [OTHER] == [MONTHLY, OTHER];
    LocalStorage.StopIgnoresRest(t, deleted, records, [MONTHLY], [OTHER], clock);
    assert (t - {MONTHLY})[WEEKLY := t[MONTHLY]]
        == map[WEEKLY := File(content, BORN * DAY), OTHER := File(other, (BORN + 21) * DAY)];
  }

  // The fresh link time: thirty days, five weeks, one month.  The daily link is re-pointed on 1 March and
  // outlives the daily copy, which goes on 3 March.
  lemma FreshLinkOutlivesCopy(content: Content, now: int)
    requires DayOf(now) == BORN + 28
    ensures var r := Retention(30, 5, 1, false);
            var t := map[MONTHLY := File(content, BORN * DAY), WEEKLY := Link(MONTHLY, BORN * DAY),
                         DAILY := Link(MONTHLY, BORN * DAY)];
            var c := map[WEEKLY := Copy(content, BORN * DAY), DAILY := Copy(content, BORN * DAY)];
            var p := DeleteLoop(t, {MONTHLY}, ScanRecords(t, ScannedPeriods(r, MARCH_FIRST)), [MONTHLY], _ => now);
            && LocalStorage.IsDeleteSet(t, r, MARCH_FIRST, false, {MONTHLY})
            && p == Progress(map[WEEKLY := File(content, BORN * DAY), DAILY := Link(WEEKLY, now)], 0, false)
            && LocalStorage.IsDeleteSet(p.tree, r, MARCH_THIRD, false, {})
            && CopyStore.IsDeleteSet(c, r, MARCH_THIRD, false, {DAILY})
  {
    hide DeleteLoop, LocalStorage.IsDeleteSet, CopyStore.IsDeleteSet, DayOf;
    LinkRefreshed(content, now);
    CopyExpires(content, now);
  }

  lemma LinkRefreshed(content: Content, now: int)
    ensures var r := Retention(30, 5, 1, false);
            var t := map[MONTHLY := File(content, BORN * DAY), WEEKLY := Link(MONTHLY, BORN * DAY),
                         DAILY := Link(MONTHLY, BORN * DAY)];
            var p := DeleteLoop(t, {MONTHLY}, ScanRecords(t, ScannedPeriods(r, MARCH_FIRST)), [MONTHLY], _ => now);
            && LocalStorage.IsDeleteSet(t, r, MARCH_FIRST, false, {MONTHLY})
            && p == Progress(map[WEEKLY := File(content, BORN * DAY), DAILY := Link(WEEKLY, now)], 0, false)
  {
    var r := Retention(30, 5, 1, false);
    var t := map[MONTHLY := File(content, BORN * DAY), WEEKLY := Link(MONTHLY, BORN * DAY),
                 DAILY := Link(MONTHLY, BORN * DAY)];
    var scanned := ScannedPeriods(r, MARCH_FIRST);
    hide GetRetention, Eligible, LocalStorage.IsDeleteSet, DeleteLoop, ScannedPeriods;
    ArchiveNames();
    MarchDates(r);
    MarchScans(r);
    assert AgedFiles(t, r, MARCH_FIRST) == {MONTHLY};
    AgedFilesDeletable(t, r, MARCH_FIRST, false);
    var l := LinksTo(t, scanned, MONTHLY);
    assert l == FileLinks(Some(WEEKLY), Some(DAILY));
    var records := ScanRecords(t, scanned);
    IterationReplaces(t, {MONTHLY}, l, MONTHLY, now);
    LocalStorage.NoFilesYet(t, {MONTHLY}, records, _ => now);
    LocalStorage.LoopStep(t, {MONTHLY}, records, [], MONTHLY, _ => now);
    assert [] + [MONTHLY] == [MONTHLY];
    assert (t - {MONTHLY})[WEEKLY := t[MONTHLY]][DAILY := Link(WEEKLY, now)]
        == map[WEEKLY := File(content, BORN * DAY), DAILY := Link(WEEKLY, now)];
  }

  lemma CopyExpires(content: Content, now: int)
    requires DayOf(now) == BORN + 28
    ensures var r := Retention(30, 5, 1, false);
            var u := map[WEEKLY := File(content, BORN * DAY), DAILY := Link(WEEKLY, now)];
            var c := map[WEEKLY := Copy(content, BORN * DAY), DAILY := Copy(content, BORN * DAY)];
            && LocalStorage.IsDeleteSet(u, r, MARCH_THIRD, false, {})
            && CopyStore.IsDeleteSet(c, r, MARCH_THIRD, false, {DAILY})
  {
    var r := Retention(30, 5, 1, false);
    var u := map[WEEKLY := File(content, BORN * DAY), DAILY := Link(WEEKLY, now)];
    var c := map[WEEKLY := Copy(content, BORN * DAY), DAILY := Copy(content, BORN * DAY)];
    hide GetRetention, Eligible, LocalStorage.IsDeleteSet, CopyStore.IsDeleteSet, DayOf;
    ArchiveNames();
    MarchDates(r);
    BeforeDay(now, BORN + 1);
    assert AgedFiles(u, r, MARCH_THIRD) == {};
    AgedFilesDeletable(u, r, MARCH_THIRD, false);
    assert AgedCopies(c, r, MARCH_THIRD) == {DAILY};
    AgedCopiesDeletable(c, r, MARCH_THIRD, false);
  }

  /* ---- Five runs on one Sunday the 1st, by count, rotating first ---- */

  const FIVE := Retention(0, 4, 1, true)
  const FEBRUARY_FIRST := Date(FEBRUARY, 1)

  function Moment(i: nat): int {
    BORN * DAY + i
  }

  function MonthlyOf(i: nat): Key {
    Key(Monthly, NameOf(i))
  }

  function WeeklyOf(i: nat): Key {
    Key(Weekly, NameOf(i))
  }

  // The names of the runs before `n`.
  ghost function NamesTo(n: nat): set<string> {
    if n == 0 then {} else NamesTo(n - 1) + {NameOf(n - 1)}
  }

  // Names tell their number.
  predicate Numbered(n: nat, s: string) {
    Eligible(s) && 4 <= |s| < n + 4 && s == NameOf(|s| - 4)
  }

  lemma NumberedMore(n: nat, s: string)
    ensures Numbered(n, s) ==> Numbered(n + 1, s)
    ensures Numbered(n + 1, NameOf(n)) && !Numbered(n, NameOf(n))
  {
    NamesFine(n);
  }

  lemma {:induction false} NumberedNames(n: nat)
    ensures |NamesTo(n)| == n
    ensures forall s :: s in NamesTo(n) ==> Numbered(n, s)
  {
    hide NameOf, Eligible, Numbered;
    if n > 0 {
      NumberedNames(n - 1);
      NumberedMore(n - 1, "");
      forall s | s in NamesTo(n)
        ensures Numbered(n, s)
      {
        NumberedMore(n - 1, s);
      }
    }
  }

  lemma {:induction false} NameInNames(n: nat, i: nat)
    requires i < n
    ensures NameOf(i) in NamesTo(n)
    decreases n
  {
    hide NameOf;
    if i < n - 1 {
      NameInNames(n - 1, i);
    }
  }

  function Stamped(s: string): int {
    BORN * DAY + |s| - 4
  }

  // After `n` such runs: the last one's file is in `monthly`, linked from `weekly`; every earlier file has
  // been moved there.  The copies have the same names.
  ghost predicate TreeStacked(n: nat, t: Tree)
    requires n > 0
  {
    && (forall k: Key :: k in t <==> k == MonthlyOf(n - 1) || (k.period.Weekly? && k.name in NamesTo(n)))
    && (forall k: Key :: k in t ==>
          t[k] == if k == WeeklyOf(n - 1) then Link(MonthlyOf(n - 1), Moment(n - 1)) else File([], Stamped(k.name)))
  }

  ghost predicate CopiesStacked(n: nat, c: Copies)
    requires n > 0
  {
    && (forall k: Key :: k in c <==> k == MonthlyOf(n - 1) || (k.period.Weekly? && k.name in NamesTo(n)))
    && (forall k: Key :: k in c ==> c[k] == Copy([], Stamped(k.name)))
  }

  ghost predicate Stacked(n: nat, s: Sys)
    requires n > 0
  {
    TreeStacked(n, s.tree) && CopiesStacked(n, s.copies)
  }

  function SundayRun(n: nat, deleted: set<Key>, order: seq<Key>): Run {
    Run(FEBRUARY_FIRST, false, NameOf(n), [], Moment(n), _ => Moment(n), _ => Moment(n), _ => Moment(n), deleted, order, deleted)
  }

  lemma SundayFirst()
    ensures FEBRUARY_FIRST.Valid() && FEBRUARY_FIRST.Number() == BORN && IsSunday(BORN)
    ensures DuePeriods(FIVE, FEBRUARY_FIRST) == [Monthly, Weekly]
    ensures GetRetention(Monthly, FIVE, FEBRUARY_FIRST).0 == 1 && GetRetention(Weekly, FIVE, FEBRUARY_FIRST).0 == 4
    ensures GetRetention(Daily, FIVE, FEBRUARY_FIRST) == (0, None)
    ensures IsNeedToBackup(FIVE, FEBRUARY_FIRST)
    ensures Weekly in ScannedPeriods(FIVE, FEBRUARY_FIRST) && Monthly in ScannedPeriods(FIVE, FEBRUARY_FIRST)
  {
    hide MonthStart, MonthLength;
    FebruaryFirst();
    NextMonth(FEBRUARY);
    AllPeriods(Weekly);
    AllPeriods(Monthly);
  }

  lemma MomentDay(n: nat)
    requires n < 5
    ensures DayOf(Moment(n)) == BORN && Moment(n) == Stamped(NameOf(n))
  {
    NamesFine(n);
  }

  // What the run after `n` others deletes: the month's file, and the oldest week's once there are four.
  ghost predicate SundayChoice(n: nat, deleted: set<Key>)
    requires n > 0
  {
    && NamesIn(deleted, Monthly) == {NameOf(n - 1)}
    && NamesIn(deleted, Weekly) == (if n == 4 then {NameOf(0)} else {})
    && NamesIn(deleted, Daily) == {}
  }

  lemma MonthlyChoice(dir: map<string, int>, date: Option<int>, name: string)
    requires dir.Keys == {name} && Eligible(name)
    ensures IsRotation(dir, 1, date, true, false, {name})
  {
    assert EligibleNames(dir) == {name};
  }

  lemma WeeklyChoice(dir: map<string, int>, date: Option<int>, n: nat)
    requires 0 < n <= 4 && dir.Keys == NamesTo(n) && forall s :: s in dir ==> dir[s] == Stamped(s)
    ensures IsRotation(dir, 4, date, true, false, if n == 4 then {NameOf(0)} else {})
  {
    NumberedNames(n);
    NameInNames(n, 0);
    NamesFine(0);
    hide NameOf, Eligible, NamesTo, Numbered;
    forall s | s in NamesTo(n)
      ensures Eligible(s) && Stamped(s) >= Stamped(NameOf(0))
    {
      NumberMeans(n, s);
    }
    assert EligibleNames(dir) == NamesTo(n);
  }

  lemma NumberMeans(n: nat, s: string)
    requires Numbered(n, s)
    ensures Eligible(s) && |s| >= 4
  {
  }

  lemma StackedChoices(n: nat, s: Sys, deleted: set<Key>)
    requires 0 < n <= 4 && Stacked(n, s) && SundayChoice(n, deleted)
    ensures LocalStorage.IsDeleteSet(s.tree, FIVE, FEBRUARY_FIRST, false, deleted)
    ensures CopyStore.IsDeleteSet(s.copies, FIVE, FEBRUARY_FIRST, false, deleted)
  {
    SundayFirst();
    NamesFine(n - 1);
    hide NameOf, Eligible, IsRotation, NamesTo, GetRetention, NamesIn, LocalStorage.Listing, CopyStore.Listing, Numbered;
    StackedListings(n, s);
    var t, c := s.tree, s.copies;
    var monthly, weekly := GetRetention(Monthly, FIVE, FEBRUARY_FIRST).1, GetRetention(Weekly, FIVE, FEBRUARY_FIRST).1;
    MonthlyChoice(LocalStorage.Listing(t, Monthly), monthly, NameOf(n - 1));
    MonthlyChoice(CopyStore.Listing(c, Monthly), monthly, NameOf(n - 1));
    WeeklyChoice(LocalStorage.Listing(t, Weekly), weekly, n);
    WeeklyChoice(CopyStore.Listing(c, Weekly), weekly, n);
    hide Stacked;
    forall p: Period
      ensures LocalStorage.Chosen(t, FIVE, FEBRUARY_FIRST, false, p, NamesIn(deleted, p))
      ensures CopyStore.Chosen(c, FIVE, FEBRUARY_FIRST, false, p, deleted)
    {
      match p {
        case Monthly =>
        case Weekly =>
        case Daily =>
      }
    }
  }

  lemma StackedListings(n: nat, s: Sys)
    requires 0 < n <= 4 && Stacked(n, s)
    ensures LocalStorage.Listing(s.tree, Monthly).Keys == {NameOf(n - 1)}
    ensures CopyStore.Listing(s.copies, Monthly).Keys == {NameOf(n - 1)}
    ensures var dir := LocalStorage.Listing(s.tree, Weekly); dir.Keys == NamesTo(n) && forall x :: x in dir ==> dir[x] == Stamped(x)
    ensures var dir := CopyStore.Listing(s.copies, Weekly); dir.Keys == NamesTo(n) && forall x :: x in dir ==> dir[x] == Stamped(x)
  {
    hide NameOf, NamesTo, LocalStorage.Listing, CopyStore.Listing;
    MomentDay(n - 1);
    forall x, p: Period
      ensures x in LocalStorage.Listing(s.tree, p) <==> Key(p, x) in s.tree
      ensures x in CopyStore.Listing(s.copies, p) <==> Key(p, x) in s.copies
      ensures Key(p, x) in s.tree && x in LocalStorage.Listing(s.tree, p) ==>
                LocalStorage.Listing(s.tree, p)[x] == s.tree[Key(p, x)].mtime
      ensures Key(p, x) in s.copies && x in CopyStore.Listing(s.copies, p) ==>
                CopyStore.Listing(s.copies, p)[x] == s.copies[Key(p, x)].mtime
    {
      ListedAt(s, p, x);
    }
  }

  lemma ListedAt(s: Sys, p: Period, x: string)
    ensures x in LocalStorage.Listing(s.tree, p) <==> Key(p, x) in s.tree
    ensures x in CopyStore.Listing(s.copies, p) <==> Key(p, x) in s.copies
    ensures Key(p, x) in s.tree && x in LocalStorage.Listing(s.tree, p) ==>
              LocalStorage.Listing(s.tree, p)[x] == s.tree[Key(p, x)].mtime
    ensures Key(p, x) in s.copies && x in CopyStore.Listing(s.copies, p) ==>
              CopyStore.Listing(s.copies, p)[x] == s.copies[Key(p, x)].mtime
  {
  }

  lemma StackedShape(n: nat, t: Tree)
    requires 0 < n <= 4 && TreeStacked(n, t)
    ensures Shape(t) && MonthlyOf(n - 1) in t && t[MonthlyOf(n - 1)] == File([], Moment(n - 1))
    ensures WeeklyOf(n - 1) in t && t[WeeklyOf(n - 1)].Link?
    ensures LinksTo(t, ScannedPeriods(FIVE, FEBRUARY_FIRST), MonthlyOf(n - 1)) == FileLinks(Some(WeeklyOf(n - 1)), None)
  {
    SundayFirst();
    MomentDay(n - 1);
    NameInNames(n, n - 1);
    hide NameOf, NamesTo, ScannedPeriods, GetRetention;
  }

  // The month's file is moved onto its weekly link, and the loop stops there.
  lemma LoopStopsAtFile(n: nat, t: Tree, deleted: set<Key>, order: seq<Key>, clock: Key -> int)
    requires 0 < n <= 4 && TreeStacked(n, t)
    requires order != [] && order[0] == MonthlyOf(n - 1) && order[0] in deleted && WeeklyOf(n - 1) !in deleted
    ensures DeleteLoop(t, deleted, ScanRecords(t, ScannedPeriods(FIVE, FEBRUARY_FIRST)), order, clock)
            == Progress((t - {MonthlyOf(n - 1)})[WeeklyOf(n - 1) := File([], Moment(n - 1))], 1, true)
  {
    StackedShape(n, t);
    hide TreeStacked, Shape, NameOf, DeleteLoop, ScannedPeriods, LinksTo, DeleteOne;
    var f, records := MonthlyOf(n - 1), ScanRecords(t, ScannedPeriods(FIVE, FEBRUARY_FIRST));
    var l := LinksTo(t, ScannedPeriods(FIVE, FEBRUARY_FIRST), f);
    IterationReplaces(t, deleted, l, f, clock(f));
    LocalStorage.NoFilesYet(t, deleted, records, clock);
    LocalStorage.LoopStep(t, deleted, records, [], f, clock);
    assert [] + [f] == order[..1];
    LocalStorage.StopIgnoresRest(t, deleted, records, order[..1], order[1..], clock);
    assert order[..1] + order[1..] == order;
  }

  lemma TreeStep(n: nat, t: Tree, deleted: set<Key>, order: seq<Key>)
    requires 0 < n <= 4 && TreeStacked(n, t)
    requires order != [] && order[0] == MonthlyOf(n - 1) && order[0] in deleted && WeeklyOf(n - 1) !in deleted
    ensures var p := LocalRun(FIVE, SundayRun(n, deleted, order), t); TreeStacked(n + 1, p.tree) && p.errors == 1
  {
    var run := SundayRun(n, deleted, order);
    hide NameOf, DeleteLoop, ScannedPeriods, DuePeriods, IsNeedToBackup, Delivered, TreeStacked, NamesTo;
    SundayFirst();
    LoopStopsAtFile(n, t, deleted, order, run.clock);
    var u := Rotate(FIVE, run, t).tree;
    DeliveredNodes(u, [Monthly, Weekly], NameOf(n), File([], Moment(n)), run.linkTime);
    TreeGrows(n, t, u, Deliver(FIVE, run, u));
  }

  lemma TreeGrows(n: nat, t: Tree, u: Tree, v: Tree)
    requires 0 < n <= 4 && TreeStacked(n, t)
    requires u == (t - {MonthlyOf(n - 1)})[WeeklyOf(n - 1) := File([], Moment(n - 1))]
    requires v.Keys == u.Keys + (set p | p in [Monthly, Weekly] :: Key(p, NameOf(n)))
    requires forall k :: k in u && (k.name != NameOf(n) || k.period !in [Monthly, Weekly]) ==> v[k] == u[k]
    requires forall p :: p in [Monthly, Weekly] ==>
               v[Key(p, NameOf(n))] == if p == Monthly then File([], Moment(n)) else Link(MonthlyOf(n), Moment(n))
    ensures TreeStacked(n + 1, v)
  {
    hide NameOf, NamesTo;
    NextName(n);
    forall k: Key
      ensures k in v <==> k == MonthlyOf(n) || (k.period.Weekly? && k.name in NamesTo(n + 1))
    {
      KeyGrows(n, t, u, v, k);
    }
    forall k: Key | k in v
      ensures v[k] == if k == WeeklyOf(n) then Link(MonthlyOf(n), Moment(n)) else File([], Stamped(k.name))
    {
      KeyGrows(n, t, u, v, k);
      if k in u && k.name != NameOf(n) {
        assert v[k] == u[k];
      } else {
        assert k == Key(k.period, NameOf(n));
      }
    }
  }

  lemma NextName(n: nat)
    requires 0 < n <= 4
    ensures NamesTo(n + 1) == NamesTo(n) + {NameOf(n)} && NameOf(n) !in NamesTo(n)
    ensures NameOf(n - 1) in NamesTo(n)
    ensures Moment(n - 1) == Stamped(NameOf(n - 1)) && Moment(n) == Stamped(NameOf(n))
  {
    MomentDay(n - 1);
    MomentDay(n);
    NumberedMore(n, "");
    NumberedNames(n);
    NameInNames(n, n - 1);
    hide NameOf, Numbered;
  }

  lemma KeyGrows(n: nat, t: Tree, u: Tree, v: Tree, k: Key)
    requires 0 < n <= 4 && TreeStacked(n, t)
    requires u == (t - {MonthlyOf(n - 1)})[WeeklyOf(n - 1) := File([], Moment(n - 1))]
    requires v.Keys == u.Keys + (set p | p in [Monthly, Weekly] :: Key(p, NameOf(n)))
    ensures k in u <==> k.period.Weekly? && k.name in NamesTo(n)
    ensures k in u ==> u[k] == File([], Stamped(k.name))
    ensures k in v <==> k in u || k == MonthlyOf(n) || k == WeeklyOf(n)
    ensures k in v <==> k == MonthlyOf(n) || (k.period.Weekly? && k.name in NamesTo(n + 1))
  {
    hide NameOf, NamesTo;
    NextName(n);
    assert k == Key(k.period, k.name);
    assert k in v.Keys <==> k in u.Keys || k in (set p | p in [Monthly, Weekly] :: Key(p, NameOf(n)));
  }

  lemma CopiesStep(n: nat, c: Copies, deleted: set<Key>)
    requires 0 < n <= 3 && CopiesStacked(n, c) && deleted == {MonthlyOf(n - 1)}
    ensures CopiesStacked(n + 1, CopyRun(FIVE, SundayRun(n, deleted, [MonthlyOf(n - 1)]), c))
  {
    var run := SundayRun(n, deleted, [MonthlyOf(n - 1)]);
    hide NameOf, NamesTo, DuePeriods, IsNeedToBackup, Copied, GetRetention, ScannedPeriods;
    SundayFirst();
    var v := Upload(FIVE, run, c - deleted);
    assert v == Copied(c - deleted, [Monthly, Weekly], NameOf(n), [], run.copyTime);
    forall k: Key
      ensures k in v <==> k == MonthlyOf(n) || (k.period.Weekly? && k.name in NamesTo(n + 1))
      ensures k in v ==> v[k] == Copy([], Stamped(k.name))
    {
      CopyGrows(n, c, run.copyTime, k);
    }
  }

  lemma CopyGrows(n: nat, c: Copies, time: Period -> int, k: Key)
    requires 0 < n <= 3 && CopiesStacked(n, c) && forall p :: time(p) == Moment(n)
    ensures var v := Copied(c - {MonthlyOf(n - 1)}, [Monthly, Weekly], NameOf(n), [], time);
            && (k in v <==> k == MonthlyOf(n) || (k.period.Weekly? && k.name in NamesTo(n + 1)))
            && (k in v ==> v[k] == Copy([], Stamped(k.name)))
  {
    hide NameOf, NamesTo, Copied;
    NextName(n);
    CopiedAt(c - {MonthlyOf(n - 1)}, [Monthly, Weekly], NameOf(n), [], time, k);
    assert k == Key(k.period, k.name);
  }

  lemma SundayAdmissible(n: nat, s: Sys, deleted: set<Key>, order: seq<Key>)
    requires n < 5 && Enumerates(order, deleted)
    requires LocalStorage.IsDeleteSet(s.tree, FIVE, FEBRUARY_FIRST, false, deleted)
    requires CopyStore.IsDeleteSet(s.copies, FIVE, FEBRUARY_FIRST, false, deleted)
    ensures var run := SundayRun(n, deleted, order);
            Step(FIVE, run, s, Sys(LocalRun(FIVE, run, s.tree).tree, CopyRun(FIVE, run, s.copies)))
  {
    SundayFirst();
    NamesFine(n);
    MomentDay(n);
    hide NameOf, LocalStorage.IsDeleteSet, CopyStore.IsDeleteSet, LocalRun, CopyRun, Eligible, DayOf, IsNeedToBackup;
  }

  lemma MonthlyOnly(n: nat) returns (deleted: set<Key>)
    requires 0 < n <= 3
    ensures deleted == {MonthlyOf(n - 1)} && SundayChoice(n, deleted)
  {
    hide NameOf;
    deleted := {MonthlyOf(n - 1)};
  }

  // The history, run by run.
  ghost predicate SundayHistory(n: nat, runs: seq<Run>, states: seq<Sys>) {
    && |runs| == n && |states| == n + 1 && History(FIVE, runs, states)
    && forall i :: 0 <= i < n ==> runs[i].name == NameOf(i) && runs[i].today == FEBRUARY_FIRST
  }

  lemma SundayGrows(n: nat, runs: seq<Run>, states: seq<Sys>, run: Run, s: Sys)
    requires SundayHistory(n, runs, states) && Step(FIVE, run, states[n], s)
    requires run.name == NameOf(n) && run.today == FEBRUARY_FIRST
    ensures SundayHistory(n + 1, runs + [run], states + [s])
  {
    hide Step, NameOf;
    forall i | 0 <= i < n
      ensures NameOf(i) != NameOf(n)
    {
      NamesFine(i);
      NamesFine(n);
    }
  }

  lemma FirstSunday() returns (runs: seq<Run>, states: seq<Sys>)
    ensures SundayHistory(1, runs, states) && Stacked(1, states[1])
  {
    hide Step, Stacked, NameOf, SundayHistory, LocalStorage.IsDeleteSet, CopyStore.IsDeleteSet, LocalRun, CopyRun;
    var run := SundayRun(0, {}, []);
    var s := Sys(LocalRun(FIVE, run, EMPTY.tree).tree, CopyRun(FIVE, run, EMPTY.copies));
    NothingYetDeleted();
    assert Enumerates<Key>([], {});
    SundayAdmissible(0, EMPTY, {}, []);
    FirstStacked(run, s);
    NoSunday();
    SundayGrows(0, [], [EMPTY], run, s);
    runs, states := [] + [run], [EMPTY] + [s];
    assert states[1] == s;
  }

  lemma NoSunday()
    ensures SundayHistory(0, [], [EMPTY])
  {
  }

  lemma NothingYetDeleted()
    ensures LocalStorage.IsDeleteSet(EMPTY.tree, FIVE, FEBRUARY_FIRST, false, {})
    ensures CopyStore.IsDeleteSet(EMPTY.copies, FIVE, FEBRUARY_FIRST, false, {})
  {
    SundayFirst();
    hide GetRetention;
    assert LocalStorage.Listing(EMPTY.tree, Monthly) == LocalStorage.Listing(EMPTY.tree, Weekly) == map[];
    assert CopyStore.Listing(EMPTY.copies, Monthly) == CopyStore.Listing(EMPTY.copies, Weekly) == map[];
    assert EligibleNames(map[]) == {};
    forall p: Period
      ensures LocalStorage.Chosen(EMPTY.tree, FIVE, FEBRUARY_FIRST, false, p, NamesIn({}, p))
      ensures CopyStore.Chosen(EMPTY.copies, FIVE, FEBRUARY_FIRST, false, p, {})
    {
      assert NamesIn({}, p) == {};
      match p {
        case Monthly =>
        case Weekly =>
        case Daily =>
      }
    }
  }

  lemma FirstStacked(run: Run, s: Sys)
    requires run == SundayRun(0, {}, [])
    requires s == Sys(LocalRun(FIVE, run, EMPTY.tree).tree, CopyRun(FIVE, run, EMPTY.copies))
    ensures Stacked(1, s)
  {
    hide NameOf, DuePeriods, IsNeedToBackup, ScannedPeriods, NamesTo, Delivered, Copied, GetRetention, DeleteLoop;
    SundayFirst();
    LocalStorage.NoFilesYet(EMPTY.tree, {}, ScanRecords(EMPTY.tree, ScannedPeriods(FIVE, FEBRUARY_FIRST)), run.clock);
    assert s.tree == Delivered(EMPTY.tree, [Monthly, Weekly], NameOf(0), File([], Moment(0)), run.linkTime);
    assert EMPTY.copies - {} == EMPTY.copies;
    assert s.copies == Copied(EMPTY.copies, [Monthly, Weekly], NameOf(0), [], run.copyTime);
    DeliveredNodes(EMPTY.tree, [Monthly, Weekly], NameOf(0), File([], Moment(0)), run.linkTime);
    forall k: Key
      ensures k in s.tree <==> k == MonthlyOf(0) || (k.period.Weekly? && k.name in NamesTo(1))
      ensures k in s.tree ==>
                s.tree[k] == if k == WeeklyOf(0) then Link(MonthlyOf(0), Moment(0)) else File([], Stamped(k.name))
      ensures k in s.copies <==> k == MonthlyOf(0) || (k.period.Weekly? && k.name in NamesTo(1))
      ensures k in s.copies ==> s.copies[k] == Copy([], Stamped(k.name))
    {
      FirstNode(run.linkTime, run.copyTime, k);
    }
  }

  lemma FirstNode(linkTime: Period -> int, copyTime: Period -> int, k: Key)
    requires forall p :: linkTime(p) == copyTime(p) == Moment(0)
    ensures var t := Delivered(map[], [Monthly, Weekly], NameOf(0), File([], Moment(0)), linkTime);
            && (k in t <==> k == MonthlyOf(0) || (k.period.Weekly? && k.name in NamesTo(1)))
            && (k in t ==> t[k] == if k == WeeklyOf(0) then Link(MonthlyOf(0), Moment(0)) else File([], Stamped(k.name)))
    ensures var c := Copied(map[], [Monthly, Weekly], NameOf(0), [], copyTime);
            && (k in c <==> k == MonthlyOf(0) || (k.period.Weekly? && k.name in NamesTo(1)))
            && (k in c ==> c[k] == Copy([], Stamped(k.name)))
  {
    OneName();
    hide NameOf, NamesTo, Delivered, Copied;
    DeliveredNodes(map[], [Monthly, Weekly], NameOf(0), File([], Moment(0)), linkTime);
    CopiedAt(map[], [Monthly, Weekly], NameOf(0), [], copyTime, k);
    assert k == Key(k.period, k.name);
  }

  lemma OneName()
    ensures NamesTo(1) == {NameOf(0)} && Moment(0) == Stamped(NameOf(0))
  {
    MomentDay(0);
  }

  lemma {:induction false} Sundays(n: nat) returns (runs: seq<Run>, states: seq<Sys>)
    requires 0 < n <= 4
    ensures SundayHistory(n, runs, states) && Stacked(n, states[n])
  {
    hide SundayHistory, Step, NameOf, LocalRun, CopyRun, TreeStacked, CopiesStacked, LocalStorage.IsDeleteSet,
         CopyStore.IsDeleteSet;
    if n == 1 {
      runs, states := FirstSunday();
    } else {
      var runs0, states0 := Sundays(n - 1);
      SizesOf(n - 1, runs0, states0);
      var s := states0[n - 1];
      var deleted := MonthlyOnly(n - 1);
      var order := [MonthlyOf(n - 2)];
      assert Enumerates(order, deleted);
      StackedChoices(n - 1, s, deleted);
      SundayAdmissible(n - 1, s, deleted, order);
      var run := SundayRun(n - 1, deleted, order);
      var s' := Sys(LocalRun(FIVE, run, s.tree).tree, CopyRun(FIVE, run, s.copies));
      TreeStep(n - 1, s.tree, deleted, order);
      CopiesStep(n - 1, s.copies, deleted);
      SundayGrows(n - 1, runs0, states0, run, s');
      runs, states := runs0 + [run], states0 + [s'];
      SizesOf(n, runs, states);
    }
  }

  lemma SizesOf(n: nat, runs: seq<Run>, states: seq<Sys>)
    requires SundayHistory(n, runs, states)
    ensures |runs| == n && |states| == n + 1
  {
  }

  // The fifth run deletes the month's file and the oldest week's; the loop stops at the first, and the
  // delivery makes five weekly archives where four are to be kept.  The copy store has no more than four.
  lemma FifthRun() returns (runs: seq<Run>, states: seq<Sys>)
    ensures |runs| == 5 && |states| == 6 && History(FIVE, runs, states) && Fits(FIVE)
    ensures |Archives(states[5].tree.Keys, Weekly)| == 5
    ensures |Archives(states[5].copies.Keys, Weekly)| <= FIVE.weeks == 4
  {
    hide SundayHistory, Step, NameOf, LocalRun, CopyRun, TreeStacked, CopiesStacked, LocalStorage.IsDeleteSet, Archives,
         CopyStore.IsDeleteSet, History, Fits, Chain;
    var runs0, states0 := Sundays(4);
    SizesOf(4, runs0, states0);
    var s := states0[4];
    var deleted, order := FifthChoice();
    StackedChoices(4, s, deleted);
    SundayAdmissible(4, s, deleted, order);
    var run := SundayRun(4, deleted, order);
    var s' := Sys(LocalRun(FIVE, run, s.tree).tree, CopyRun(FIVE, run, s.copies));
    TreeStep(4, s.tree, deleted, order);
    SundayGrows(4, runs0, states0, run, s');
    runs, states := runs0 + [run], states0 + [s'];
    SizesOf(5, runs, states);
    FiveWeekly(s'.tree);
    WeeksWithinMonthsFit(FIVE);
    IsHistory(5, runs, states);
    HistoriesAreChains(FIVE, runs, states);
    CopiesCounted(FIVE, runs, states, 5, Weekly);
  }

  lemma IsHistory(n: nat, runs: seq<Run>, states: seq<Sys>)
    requires SundayHistory(n, runs, states)
    ensures History(FIVE, runs, states)
  {
  }

  lemma FifthChoice() returns (deleted: set<Key>, order: seq<Key>)
    ensures SundayChoice(4, deleted) && Enumerates(order, deleted)
    ensures order != [] && order[0] == MonthlyOf(3) && order[0] in deleted && WeeklyOf(3) !in deleted
  {
    NamesFine(0);
    NamesFine(3);
    hide NameOf;
    deleted, order := {MonthlyOf(3), WeeklyOf(0)}, [MonthlyOf(3), WeeklyOf(0)];
    assert NamesIn(deleted, Weekly) == {NameOf(0)};
  }

  lemma FiveWeekly(t: Tree)
    requires TreeStacked(5, t)
    ensures |Archives(t.Keys, Weekly)| == 5
  {
    NumberedNames(5);
    hide NameOf, NamesTo, Eligible, Numbered, Archives;
    forall s
      ensures s in Archives(t.Keys, Weekly) <==> s in NamesTo(5)
    {
      ArchiveAt(t.Keys, Weekly, s);
      assert Key(Weekly, s) in t <==> s in NamesTo(5);
      if s in NamesTo(5) {
        NumberMeans(5, s);
      }
    }
    assert Archives(t.Keys, Weekly) == NamesTo(5);
  }
}
