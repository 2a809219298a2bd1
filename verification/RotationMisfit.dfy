/** The condition on the retention numbers is necessary: when a month misses it, the gapless history
    of one run a day from the first of that month ends in a disagreement. */
module RotationMisfit {
  import opened BackupTree
  import opened Calendar
  import opened CopyStore
  import opened Expiry
  import opened Options
  import opened RotatedObjects
  import opened RotationRuns
  import opened Schedule
  import LocalStorage

  lemma IterationTouches(t: Tree, toDelete: set<Key>, links: FileLinks, file: Key, now: int, x: Key)
    requires x != file && links.wLink != Some(x) && links.dLink != Some(x)
    ensures var u := DeleteOne(t, toDelete, links, file, now).tree;
            (x in u <==> x in t) && (x in u ==> u[x] == t[x])
  {
  }

  // Dealing with one file touches that file and the links to it, nothing else.
  lemma {:induction false} LaterFilesLeave(t: Tree, scanned: set<Period>, toDelete: set<Key>, order: seq<Key>,
                                           clock: Key -> int, x: Key)
    requires order != []
    requires forall i :: 0 < i < |order| ==> order[i] != x
    requires x in t && t[x].Link? ==> forall i :: 0 < i < |order| ==> t[x].target != order[i]
    ensures var u := DeleteLoop(t, toDelete, ScanRecords(t, scanned), order, clock).tree;
            var v := DeleteLoop(t, toDelete, ScanRecords(t, scanned), order[..1], clock).tree;
            (x in u <==> x in v) && (x in u ==> u[x] == v[x])
  {
    if |order| == 1 {
      assert order[..1] == order;
    } else {
      var front, g := order[..|order| - 1], order[|order| - 1];
      LaterFilesLeave(t, scanned, toDelete, front, clock, x);
      assert front[..1] == order[..1];
      var l := LinksTo(t, scanned, g);
      assert l.wLink != Some(x) && l.dLink != Some(x);
      hide DeleteOne, LinksTo;
      var p := DeleteLoop(t, toDelete, ScanRecords(t, scanned), front, clock);
      IterationTouches(p.tree, toDelete, l, g, clock(g), x);
    }
  }

  // A run on `today` that rotates first, with `first` at the head of its loop when it is deleted.
  lemma SomeRun(r: Retention, today: Date, name: string, s: Sys, first: Key) returns (run: Run, s': Sys)
    requires today.Valid() && Eligible(name)
    ensures Step(r, run, s, s')
    ensures run.today == today && run.name == name && !run.safe
    ensures first in run.deleted ==> run.order != [] && run.order[0] == first
  {
    hide LocalStorage.IsDeleteSet, CopyStore.IsDeleteSet, DeleteLoop;
    var noon := today.Number() * DAY;
    var deleted := LocalStorage.DeleteSetExists(s.tree, r, today, false);
    var copyDeleted := CopyStore.DeleteSetExists(s.copies, r, today, false);
    var order;
    if first in deleted {
      var rest := EnumerationExists(deleted - {first});
      order := [first] + rest;
      assert Elements(order) == {first} + Elements(rest);
      assert forall i :: 0 <= i < |rest| ==> rest[i] in Elements(rest);
    } else {
      order := EnumerationExists(deleted);
    }
    run := Run(today, false, name, [], noon, _ => noon, _ => noon, _ => noon, deleted, order, copyDeleted);
    s' := Sys(LocalRun(r, run, s.tree).tree, CopyRun(r, run, s.copies));
    assert DayOf(noon) == today.Number();
  }

  function NextDay(d: Date): Date {
    if d.day < MonthLength(d.month) then Date(d.month, d.day + 1) else Date(d.month + 1, 1)
  }

  lemma NextDayFollows(d: Date)
    requires d.Valid()
    ensures NextDay(d).Valid() && NextDay(d).Number() == d.Number() + 1
  {
    NextMonth(d.month);
    NextMonth(d.month + 1);
  }

  function NameOf(i: nat): string {
    seq(i, _ => 'b') + ".tar"
  }

  lemma NamesFine(i: nat)
    ensures Eligible(NameOf(i)) && |NameOf(i)| == i + 4
  {
    assert NameOf(i)[i..] == ".tar";
  }

  // One run a day from `start`; `first` heads every loop that deletes it.
  ghost predicate DailyRuns(r: Retention, start: Date, first: Key, runs: seq<Run>) {
    forall i :: 0 <= i < |runs| ==>
      && runs[i].name == NameOf(i) && !runs[i].safe && runs[i].today.Number() == start.Number() + i
      && (first in runs[i].deleted ==> runs[i].order != [] && runs[i].order[0] == first)
      && (i == 0 ==> runs[i].today == start)
  }

  lemma HistoryGrows(r: Retention, start: Date, first: Key, runs: seq<Run>, states: seq<Sys>, run: Run, s: Sys)
    requires History(r, runs, states) && DailyRuns(r, start, first, runs)
    requires Step(r, run, states[|runs|], s) && run.name == NameOf(|runs|)
    requires run.today.Number() == start.Number() + |runs|
    ensures History(r, runs + [run], states + [s])
  {
    hide Step, NameOf;
    forall i | 0 <= i < |runs|
      ensures runs[i].name != run.name
    {
      NamesFine(i);
      NamesFine(|runs|);
    }
  }

  lemma {:induction false} DailyHistory(r: Retention, start: Date, first: Key, n: nat)
    returns (runs: seq<Run>, states: seq<Sys>, next: Date)
    requires start.Valid()
    ensures |runs| == n && |states| == n + 1 && History(r, runs, states) && DailyRuns(r, start, first, runs)
    ensures next.Valid() && next.Number() == start.Number() + n && (n == 0 ==> next == start)
  {
    if n == 0 {
      runs, states, next := [], [EMPTY], start;
    } else {
      var runs0, states0, today := DailyHistory(r, start, first, n - 1);
      NamesFine(n - 1);
      var run, s := SomeRun(r, today, NameOf(n - 1), states0[n - 1], first);
      next := NextDay(today);
      NextDayFollows(today);
      hide Step, History, NextDay, NameOf, Eligible, MonthStart, MonthLength;
      HistoryGrows(r, start, first, runs0, states0, run, s);
      runs, states := runs0 + [run], states0 + [s];
    }
  }

  lemma DailyIsRegular(r: Retention, start: Date, first: Key, runs: seq<Run>)
    requires DailyRuns(r, start, first, runs)
    ensures Regular(r, runs)
  {
    hide NameOf;
  }

  lemma DailyDates(r: Retention, start: Date, first: Key, runs: seq<Run>, i: nat)
    requires DailyRuns(r, start, first, runs) && i < |runs|
    ensures runs[0].today == start && runs[i].today.Number() == start.Number() + i && !runs[i].safe
  {
    hide NameOf;
  }

  // The last day of a history that starts on the first of `month`, before its run.
  ghost predicate LastDay(r: Retention, month: int, day: int, h: Births, name: string, run: Run, s: Sys) {
    && Follows(r, h, MonthStart(month), day - 1, s)
    && name in h && h[name].today == Date(month, 1) && run.name !in h
    && run.today.Number() == day
  }

  lemma HistoryReaches(r: Retention, month: int, day: int, first: Key, runs: seq<Run>, states: seq<Sys>)
    requires r.NonNegative() && History(r, runs, states) && DailyRuns(r, Date(month, 1), first, runs)
    requires |runs| == day - MonthStart(month) + 1 && |runs| > 1
    requires FitsThrough(r, MonthStart(month), day - 1)
    ensures |states| == |runs| + 1
    ensures Step(r, runs[|runs| - 1], states[|runs| - 1], states[|runs|]) && !runs[|runs| - 1].safe
    ensures LastDay(r, month, day, BirthsOf(runs[..|runs| - 1]), runs[0].name, runs[|runs| - 1], states[|runs| - 1])
  {
    var n := |runs| - 1;
    DailyIsRegular(r, Date(month, 1), first, runs);
    DailyDates(r, Date(month, 1), first, runs, n);
    DailyDates(r, Date(month, 1), first, runs, n - 1);
    hide History, Step, MonthStart, BirthsOf, LocalRun, Follows, FitsThrough, Regular, NameOf, DailyRuns;
    HistoryFollowsSchedule(r, runs, states, n);
    HistoryAt(r, runs, states, n + 1);
    FirstName(r, runs, states, n);
  }

  // On that day both storages delete what has expired.
  lemma LastDayExpires(r: Retention, month: int, day: int, h: Births, name: string, run: Run, s: Sys, s': Sys)
    requires r.NonNegative() && LastDay(r, month, day, h, name, run, s) && Step(r, run, s, s') && !run.safe
    ensures BirthsOk(h) && Shape(s.tree) && TreeIs(r, h, day - 1, s.tree) && CopiesAre(r, h, day - 1, s.copies)
    ensures run.today.Valid() && run.today.Number() == day && Paced(r, h, day - 1, run.today, false)
    ensures NoneStale(r, h, day - 1, run.today) ==> Expired(r, h, day, s.tree.Keys, run.deleted)
    ensures Expired(r, h, day, s.copies.Keys, run.copyDeleted)
  {
    hide TreeIs, CopiesAre, MonthStart, BirthsOk, OnePerDay, LocalStorage.IsDeleteSet, CopyStore.IsDeleteSet, Expired,
         NoneStale, Step, BornBetween, Shape;
    UnsafeStep(r, run, s, s');
    TreeShape(r, h, day - 1, s.tree);
    PacedYesterday(r, h, MonthStart(month), day - 1, run.today);
    hide Paced;
    CopyExpiry(r, h, day - 1, run.today, false, s.copies, run.copyDeleted);
    if NoneStale(r, h, day - 1, run.today) {
      LocalExpiry(r, h, day - 1, run.today, false, s.tree, run.deleted);
    }
  }

  lemma PacedYesterday(r: Retention, h: Births, first: int, m: int, today: Date)
    requires r.useCount ==> OnePerDay(h, first, m)
    requires m == today.Number() - 1
    ensures Paced(r, h, m, today, false)
  {
    hide OnePerDay;
  }

  // Until the first month's file goes, no link has been re-pointed.
  lemma NoneStaleYet(r: Retention, month: int, h: Births, today: Date)
    requires r.NonNegative() && BornBetween(h, MonthStart(month), today.Number() - 1)
    requires today.Number() == MonthStart(month + r.months)
    ensures NoneStale(r, h, today.Number() - 1, today)
  {
    hide MonthStart;
    forall k: Key | k.name in h && Lives(r, h, today.Number() - 1, k)
      ensures !Refreshed(r, h, today.Number() - 1, k)
    {
      var born := h[k.name].today;
      DueMeans(r, born);
      MonthStartMonotone(born.month, month);
      MonthStartMonotone(born.month + r.months, month + r.months);
    }
  }

  lemma FirstBackupLives(r: Retention, month: int, h: Births, name: string)
    requires r.NonNegative() && r.months > 0 && r.weeks > 0 && !FitsAt(r, month)
    requires name in h && h[name].today == Date(month, 1)
    ensures var day := MonthStart(month + r.months);
            && Lives(r, h, day - 1, Key(Monthly, name)) && !Lives(r, h, day, Key(Monthly, name))
            && Lives(r, h, day - 1, Key(Weekly, name)) && Lives(r, h, day, Key(Weekly, name))
            && (Lives(r, h, day - 1, Key(Daily, name)) <==> r.days >= MonthsSpan(r, month))
            && (Lives(r, h, day, Key(Daily, name)) <==> r.days > MonthsSpan(r, month))
  {
    hide DuePeriods, FitsAt, MonthStart;
    DueMeans(r, Date(month, 1));
    NotFitting(r, month);
    SomeDays(r, month);
  }

  // The first day's backup on that day: in every due directory that still wants it.
  lemma FirstBackup(r: Retention, month: int, h: Births, name: string, run: Run, t: Tree, c: Copies)
    requires r.NonNegative() && r.months > 0 && r.weeks > 0 && !FitsAt(r, month)
    requires LastDay(r, month, MonthStart(month + r.months), h, name, run, Sys(t, c))
    ensures var f, w, d := Key(Monthly, name), Key(Weekly, name), Key(Daily, name);
            var day := MonthStart(month + r.months);
            && f in t && t[f].File? && !Lives(r, h, day, f)
            && w in t && t[w] == Link(f, t[w].mtime) && w in c && Lives(r, h, day, w)
            && (d in t <==> r.days >= MonthsSpan(r, month))
            && (d in t ==> t[d] == Link(f, t[d].mtime) && d in c
                           && DayOf(c[d].mtime) == MonthStart(month))
            && (r.days > MonthsSpan(r, month) ==> Lives(r, h, day, d))
  {
    hide DuePeriods, FitsAt, MonthStart, DayOf, Lives, BirthsOk, AgeDay, OnePerDay, BornBetween;
    FirstBackupLives(r, month, h, name);
  }

  lemma SomeDays(r: Retention, month: int)
    requires r.months > 0
    ensures MonthsSpan(r, month) >= 28
  {
    hide MonthStart;
    MonthsLast(month, r.months);
  }

  lemma NotFitting(r: Retention, month: int)
    requires !FitsAt(r, month)
    ensures IsSunday(MonthStart(month)) && 7 * r.weeks > MonthsSpan(r, month)
    ensures IsSunday(MonthStart(month + r.months)) ==> r.days != MonthsSpan(r, month)
  {
  }

  lemma FitsUntilEve(r: Retention, month: int)
    requires r.NonNegative()
    ensures FitsThrough(r, MonthStart(month), MonthStart(month + r.months) - 1)
  {
    hide MonthStart, HandsOver;
    forall other | MonthStart(month) <= MonthStart(other)
      ensures MonthStart(month + r.months) <= MonthStart(other + r.months)
      ensures MonthStart(other) + r.days <= MonthStart(month + r.months) - 1 ==> Refreshes(r, other)
    {
      MonthStartMonotone(other, month);
      MonthStartMonotone(other + r.months, month + r.months);
    }
  }

  lemma {:induction false} FirstName(r: Retention, runs: seq<Run>, states: seq<Sys>, n: nat)
    requires 0 < n <= |runs| && History(r, runs, states)
    ensures var h := BirthsOf(runs[..n]);
            runs[0].name in h && h[runs[0].name] == Birth(runs[0].today, runs[0].content)
    decreases n
  {
    BirthsGrow(runs, n);
    if n > 1 {
      hide BirthsOf, Step;
      FirstName(r, runs, states, n - 1);
    } else {
      assert runs[..0] == [];
    }
  }

  // What the deleted monthly file's iteration, first in the loop, leaves for good.
  lemma FirstIteration(t: Tree, scanned: set<Period>, deleted: set<Key>, order: seq<Key>, clock: Key -> int)
    requires Shape(t) && order != [] && Enumerates(order, deleted) && order[0] in t && t[order[0]].File?
    ensures var f := order[0]; var l := LinksTo(t, scanned, f);
            var p := DeleteLoop(t, deleted, ScanRecords(t, scanned), order, clock);
            var v := Replaced(t, deleted, l, f, clock(f));
            && (Stuck(t, scanned, deleted, f) ==> p.errors > 0)
            && (f in p.tree <==> f in v)
            && forall x :: x in t && t[x].Link? && t[x].target == f && x !in deleted ==>
                 (x in p.tree <==> x in v) && (x in v ==> p.tree[x] == v[x])
  {
    var f := order[0];
    var l := LinksTo(t, scanned, f);
    var records := ScanRecords(t, scanned);
    var v := Replaced(t, deleted, l, f, clock(f));
    assert f in Elements(order);
    IterationReplaces(t, deleted, l, f, clock(f));
    LocalStorage.LoopStep(t, deleted, records, [], f, clock);
    assert order[..1] == [] + [f];
    assert DeleteLoop(t, deleted, records, order[..1], clock).tree == v;
    assert forall i :: 0 < i < |order| ==> order[i] != f && order[i] in Elements(order);
    hide DeleteLoop, DeleteOne, Replaced, LinksTo, ScanRecords;
    if Stuck(t, scanned, deleted, f) {
      LocalStorage.StopIgnoresRest(t, deleted, records, order[..1], order[1..], clock);
      assert order[..1] + order[1..] == order;
    }
    LaterFilesLeave(t, scanned, deleted, order, clock, f);
    forall x | x in t && t[x].Link? && t[x].target == f && x !in deleted
      ensures var p := DeleteLoop(t, deleted, records, order, clock);
              (x in p.tree <==> x in v) && (x in v ==> p.tree[x] == v[x])
    {
      LaterFilesLeave(t, scanned, deleted, order, clock, x);
    }
  }

  // The last run seen at the names of the first backup: rotation deletes the monthly file and
  // spares what still lives, and delivery of a new name does not come into it.
  lemma LastRun(r: Retention, month: int, h: Births, name: string, run: Run, s: Sys, s': Sys)
    requires r.NonNegative() && r.months > 0 && r.weeks > 0 && !FitsAt(r, month)
    requires LastDay(r, month, MonthStart(month + r.months), h, name, run, s)
    requires Step(r, run, s, s') && !run.safe
    ensures var f, w, d := Key(Monthly, name), Key(Weekly, name), Key(Daily, name);
            var u := Rotate(r, run, s.tree).tree;
            && Shape(s.tree) && f in run.deleted && w !in run.deleted && Enumerates(run.order, run.deleted)
            && (r.days > MonthsSpan(r, month) ==> d !in run.deleted && d in s'.copies && s'.copies[d] == s.copies[d])
            && w in s'.copies
            && (forall k: Key :: k.name == name ==> (k in s'.tree <==> k in u) && (k in u ==> s'.tree[k] == u[k]))
            && LocalRun(r, run, s.tree).errors == Rotate(r, run, s.tree).errors
  {
    hide TreeIs, CopiesAre, FitsAt, Lives, MonthStart, ScannedPeriods, IsNeedToBackup, DeleteLoop, DuePeriods, DayOf,
         Shape, IsRotation, LocalStorage.IsDeleteSet, CopyStore.IsDeleteSet, BirthsOk, Step, NoneStale, OnePerDay, Paced;
    hide Resolve, HandsOver, Rotate, Deliver, Upload;
    var t, c := s.tree, s.copies;
    UnsafeStep(r, run, s, s');
    FirstBackup(r, month, h, name, run, t, c);
    LastDayDeletes(r, month, h, name, run, s, s');
    LastDayScans(r, month, run.today);
    hide Follows, Expired;
    DeliveryElsewhere(r, run, Rotate(r, run, t).tree, c - run.copyDeleted, name);
  }

  lemma LastDayDeletes(r: Retention, month: int, h: Births, name: string, run: Run, s: Sys, s': Sys)
    requires r.NonNegative() && r.months > 0
    requires LastDay(r, month, MonthStart(month + r.months), h, name, run, s)
    requires Step(r, run, s, s') && !run.safe
    ensures Shape(s.tree) && run.today.Valid() && run.today.Number() == MonthStart(month + r.months) && name != run.name
    ensures Expired(r, h, MonthStart(month + r.months), s.tree.Keys, run.deleted)
    ensures Expired(r, h, MonthStart(month + r.months), s.copies.Keys, run.copyDeleted)
  {
    hide TreeIs, CopiesAre, MonthStart, Shape, BirthsOk, Step, NoneStale, OnePerDay, Paced, Expired;
    NoneStaleYet(r, month, h, run.today);
    LastDayExpires(r, month, MonthStart(month + r.months), h, name, run, s, s');
  }

  lemma UnsafeStep(r: Retention, run: Run, s: Sys, s': Sys)
    requires Step(r, run, s, s') && !run.safe
    ensures run.today.Valid() && WithinDay(run) && Enumerates(run.order, run.deleted)
    ensures LocalStorage.IsDeleteSet(s.tree, r, run.today, false, run.deleted)
    ensures CopyStore.IsDeleteSet(s.copies, r, run.today, false, run.copyDeleted)
    ensures IsNeedToBackup(r, run.today) ==>
              && s'.tree == Deliver(r, run, Rotate(r, run, s.tree).tree)
              && s'.copies == Upload(r, run, s.copies - run.copyDeleted)
              && LocalRun(r, run, s.tree).errors == Rotate(r, run, s.tree).errors
  {
  }

  lemma DeliveryElsewhere(r: Retention, run: Run, t: Tree, c: Copies, name: string)
    requires run.name != name
    ensures forall k: Key :: k.name == name ==>
              && (k in Deliver(r, run, t) <==> k in t) && (k in t ==> Deliver(r, run, t)[k] == t[k])
              && (k in Upload(r, run, c) <==> k in c) && (k in c ==> Upload(r, run, c)[k] == c[k])
  {
  }

  lemma LastRunDisagrees(r: Retention, month: int, h: Births, name: string, run: Run, s: Sys, s': Sys)
    requires r.NonNegative() && r.months > 0 && r.weeks > 0 && !FitsAt(r, month)
    requires LastDay(r, month, MonthStart(month + r.months), h, name, run, s)
    requires Step(r, run, s, s') && !run.safe
    requires Key(Monthly, name) in run.deleted ==> run.order != [] && run.order[0] == Key(Monthly, name)
    ensures !Agree(s'.tree, s'.copies) || LocalRun(r, run, s.tree).errors != 0
    ensures !HandsOver(r, month) ==> !SameBackups(s'.tree, s'.copies) || LocalRun(r, run, s.tree).errors != 0
  {
    hide TreeIs, CopiesAre, FitsAt, Lives, MonthStart, ScannedPeriods, IsNeedToBackup, DeleteLoop, DuePeriods, DayOf,
         Shape, Step, LastDay, LocalRun, Agree, SameBackups;
    var t := s.tree;
    var day := MonthStart(month + r.months);
    var f, w, d := Key(Monthly, name), Key(Weekly, name), Key(Daily, name);
    var scanned := ScannedPeriods(r, run.today);
    LastDate(r, month, day, h, name, run, s);
    UnsafeStep(r, run, s, s');
    FirstBackup(r, month, h, name, run, t, s.copies);
    LastRun(r, month, h, name, run, s, s');
    LastDayScans(r, month, run.today);
    NotFitting(r, month);
    SomeDays(r, month);
    FirstIteration(t, scanned, run.deleted, run.order, run.clock);
    var l := LinksTo(t, scanned, f);
    var u := Rotate(r, run, t).tree;
    if !IsSunday(day) {
      assert l.wLink == None;
      assert u[w] == t[w] && f !in u;
      Parted(s'.tree, s'.copies, w);
    } else if r.days > MonthsSpan(r, month) {
      assert l == FileLinks(Some(w), Some(d));
      assert u[d] == Link(w, run.clock(f));
      assert s'.tree[d] == u[d];
      Parted(s'.tree, s'.copies, d);
    } else {
      assert l == FileLinks(Some(w), None);
      assert Stuck(t, scanned, run.deleted, f);
    }
  }

  lemma Parted(t: Tree, c: Copies, k: Key)
    requires k in c && (k !in t || Resolve(t, k) == None || DayOf(t[k].mtime) != DayOf(c[k].mtime))
    ensures !Agree(t, c)
    ensures k !in t || Resolve(t, k) == None ==> !SameBackups(t, c)
  {
  }

  lemma LastDate(r: Retention, month: int, day: int, h: Births, name: string, run: Run, s: Sys)
    requires LastDay(r, month, day, h, name, run, s)
    ensures run.today.Number() == day
  {
  }

  lemma LastDayScans(r: Retention, month: int, today: Date)
    requires r.NonNegative() && r.months > 0 && r.weeks > 0 && today.Valid()
    requires today.Number() == MonthStart(month + r.months)
    ensures IsNeedToBackup(r, today)
    ensures Monthly in ScannedPeriods(r, today)
    ensures Weekly in ScannedPeriods(r, today) <==> IsSunday(today.Number())
    ensures Daily in ScannedPeriods(r, today) <==> r.days > 0
  {
    AllPeriods(Monthly);
    AllPeriods(Weekly);
    AllPeriods(Daily);
    hide MonthStart, MonthLength;
    NextMonth(month + r.months);
    DateOrder(today, Date(month + r.months, 1));
  }

  lemma OneBadRun(r: Retention, runs: seq<Run>, states: seq<Sys>, n: nat)
    requires History(r, runs, states) && n < |runs| && |states| == |runs| + 1
    ensures !Agree(states[n + 1].tree, states[n + 1].copies) || LocalRun(r, runs[n], states[n].tree).errors != 0 ==>
              !Agreeing(r, runs, states)
    ensures !SameBackups(states[n + 1].tree, states[n + 1].copies) || LocalRun(r, runs[n], states[n].tree).errors != 0 ==>
              !SameAllAlong(r, runs, states)
  {
    hide History, Agree, SameBackups, LocalRun;
  }

  // A month that misses the condition has a history on which the storages part or rotation fails.
  lemma MisfitDisagrees(r: Retention, month: int) returns (runs: seq<Run>, states: seq<Sys>)
    requires r.NonNegative() && r.months > 0 && r.weeks > 0 && !FitsAt(r, month)
    ensures History(r, runs, states) && Regular(r, runs) && !Agreeing(r, runs, states)
    ensures !HandsOver(r, month) ==> !SameAllAlong(r, runs, states)
  {
    hide History, Step, FitsAt, HandsOver, MonthStart, MonthLength, NameOf, LocalRun, Agree, SameBackups, LastDay, BirthsOf,
         Agreeing, SameAllAlong, Regular, FitsThrough;
    var start, first := Date(month, 1), Key(Monthly, NameOf(0));
    NextMonth(month);
    SomeDays(r, month);
    FitsUntilEve(r, month);
    var n := MonthsSpan(r, month);
    var next;
    runs, states, next := DailyHistory(r, start, first, n + 1);
    DailyIsRegular(r, start, first, runs);
    HistoryReaches(r, month, MonthStart(month + r.months), first, runs, states);
    LastRunDisagrees(r, month, BirthsOf(runs[..n]), runs[0].name, runs[n], states[n], states[n + 1]);
    OneBadRun(r, runs, states, n);
  }

  // The exact condition, over all gapless histories from empty storages (by age, any number of runs a
  // day; by count, one): a look at the calendar of one cycle tells whether the storages will ever part.
  lemma RefinementIff(r: Retention)
    requires r.NonNegative()
    ensures FitsWithinCycle(r) <==>
            forall runs, states | History(r, runs, states) && Regular(r, runs) :: Agreeing(r, runs, states)
    ensures Fits(r) <==> FitsWithinCycle(r)
    ensures !r.useCount ==> forall runs :: Regular(r, runs)
  {
    hide History, Agreeing, FitsAt;
    FitsIff(r);
    if Fits(r) {
      forall runs, states | History(r, runs, states) && Regular(r, runs)
        ensures Agreeing(r, runs, states)
      {
        LocalRefinesCopies(r, runs, states);
      }
    } else {
      var month :| !FitsAt(r, month);
      var runs, states := MisfitDisagrees(r, month);
    }
  }

  lemma SeptemberFirst()
    ensures MonthStart(12 * 2024 + 8) == 739130 && MonthStart(12 * 2024 + 9) == 739160
  {
    hide MonthStart;
    JanuaryFirst(2024);
    MonthsInYear(2024, 8);
    MonthsInYear(2024, 9);
    assert DaysBeforeYear(2024) == 738885 && IsLeap(2024);
  }

  // The bound Weeks <= 4 * Months cannot be relaxed by one: with five weeks and one month the
  // backup of Sunday 1 September 2024 outlives its monthly file on Tuesday 1 October.
  lemma FiveWeeksMisfit(r: Retention)
    requires r.NonNegative() && r.weeks == 5 && r.months == 1
    ensures !Fits(r)
  {
    var september := 12 * 2024 + 8;
    SeptemberFirst();
    hide MonthStart;
    assert !FitsAt(r, september);
  }
}
