/** Which copies a day calls for and which ones have expired (modules/storage/common.go).

    The clock is the parameter `today`.  A retention date is an instant, or `None` for Go's zero
    time, which the callers read as "this period is not rotated now". */
module Schedule {
  import opened Calendar
  import opened Options
  import opened Paths

  datatype Period = Monthly | Weekly | Daily

  const PERIODS: seq<Period> := [Monthly, Weekly, Daily]

  lemma AllPeriods(p: Period)
    ensures p in PERIODS
  {
    assert PERIODS[0] == Monthly && PERIODS[1] == Weekly && PERIODS[2] == Daily;
  }

  datatype Retention = Retention(days: int, weeks: int, months: int, useCount: bool) {
    // Configurations with a negative count are refused before a job is built.
    predicate NonNegative() {
      days >= 0 && weeks >= 0 && months >= 0
    }
  }

  datatype Key = Key(period: Period, name: string)

  predicate Above(p: Period, q: Period) {
    (p.Monthly? && !q.Monthly?) || (p.Weekly? && q.Daily?)
  }

  function DirName(p: Period): string {
    match p
    case Monthly => "monthly"
    case Weekly => "weekly"
    case Daily => "daily"
  }

  function PeriodDir(base: Path, p: Period): Path {
    base + [DirName(p)]
  }

  function KeyPath(base: Path, k: Key): Path {
    PeriodDir(base, k.period) + [k.name]
  }

  // The key a path below `base` stands for.
  function KeyAt(base: Path, p: Path): Option<Key> {
    if |p| != |base| + 2 || p[..|base|] != base then None
    else if p[|base|] == "monthly" then Some(Key(Monthly, p[|base| + 1]))
    else if p[|base|] == "weekly" then Some(Key(Weekly, p[|base| + 1]))
    else if p[|base|] == "daily" then Some(Key(Daily, p[|base| + 1]))
    else None
  }

  function GetRetention(p: Period, r: Retention, today: Date): (int, Option<int>) {
    match p
    case Daily =>
      if r.days == 0 then (0, None)
      else (r.days, Some((today.Number() - r.days + 1) * DAY))
    case Weekly =>
      if !IsSunday(today.Number()) || r.weeks == 0 then (0, None)
      else (r.weeks, Some((today.Number() - r.weeks * 7 + 1) * DAY))
    case Monthly =>
      if today.day != 1 || r.months == 0 then (0, None)
      else (r.months, Some((AddMonths(today, -r.months) + 1) * DAY))
  }

  function IsNeedToBackup(r: Retention, today: Date): bool {
    r.days > 0 || (r.weeks > 0 && IsSunday(today.Number())) || (r.months > 0 && today.day == 1)
  }

  // The periods that get a copy on `today`, highest first.
  function DuePeriods(r: Retention, today: Date): seq<Period> {
    (if today.day == 1 && r.months > 0 then [Monthly] else [])
    + (if IsSunday(today.Number()) && r.weeks > 0 then [Weekly] else [])
    + (if r.days > 0 then [Daily] else [])
  }

  // The directories whose files a rotation on `today` looks at.
  ghost function ScannedPeriods(r: Retention, today: Date): set<Period> {
    set p | p in PERIODS && GetRetention(p, r, today) != (0, None)
  }

  method GetBackupDstList(name: string, base: Path, r: Retention, today: Date) returns (dst: seq<Path>)
    ensures |dst| == |DuePeriods(r, today)|
    ensures forall i :: 0 <= i < |dst| ==> dst[i] == KeyPath(base, Key(DuePeriods(r, today)[i], name))
  {
    dst := [];
    if today.day == 1 && r.months > 0 {
      dst := dst + [KeyPath(base, Key(Monthly, name))];
    }
    if IsSunday(today.Number()) && r.weeks > 0 {
      dst := dst + [KeyPath(base, Key(Weekly, name))];
    }
    if r.days > 0 {
      dst := dst + [KeyPath(base, Key(Daily, name))];
    }
  }

  // The first due period gets the file; every other one gets a relative link that leads to it.
  method GetBackupDstAndLinks(name: string, base: Path, r: Retention, today: Date)
    returns (dst: Option<Path>, links: map<Path, Path>)
    requires Plain(base) && Plain([name])
    ensures dst == (if DuePeriods(r, today) == [] then None
                    else Some(KeyPath(base, Key(DuePeriods(r, today)[0], name))))
    ensures dst.None? ==> links == map[]
    ensures forall p :: KeyPath(base, Key(p, name)) in links <==>
              dst.Some? && p in DuePeriods(r, today)[1..]
    ensures forall k :: k in links ==> exists p :: k == KeyPath(base, Key(p, name))
    ensures forall p :: p in DuePeriods(r, today) && KeyPath(base, Key(p, name)) in links ==>
              dst.Some? && Join(PeriodDir(base, p), links[KeyPath(base, Key(p, name))]) == dst.value
  {
    hide KeyPath, Join, Rel, Plain, IsSunday, DuePeriods;
    KeyPathsDiffer(base, name);
    OtherDuePeriods(r, today);
    links := map[];
    dst := None;
    if today.day == 1 && r.months > 0 {
      dst := Some(KeyPath(base, Key(Monthly, name)));
    }
    if IsSunday(today.Number()) && r.weeks > 0 {
      var dstPath := PeriodDir(base, Weekly);
      if dst.Some? {
        var relative := Rel(dstPath, dst.value);
        LinkText(base, Weekly, Key(Monthly, name));
        links := links[KeyPath(base, Key(Weekly, name)) := relative];
      } else {
        dst := Some(KeyPath(base, Key(Weekly, name)));
      }
    }
    if r.days > 0 {
      var dstPath := PeriodDir(base, Daily);
      if dst.Some? {
        var relative := Rel(dstPath, dst.value);
        LinkText(base, Daily, Key(Monthly, name));
        LinkText(base, Daily, Key(Weekly, name));
        links := links[KeyPath(base, Key(Daily, name)) := relative];
      } else {
        dst := Some(KeyPath(base, Key(Daily, name)));
      }
    }
  }

  lemma OtherDuePeriods(r: Retention, today: Date)
    ensures var due := DuePeriods(r, today);
            var monthly, weekly := today.day == 1 && r.months > 0, IsSunday(today.Number()) && r.weeks > 0;
            && (due != [] ==> due[0] == if monthly then Monthly else if weekly then Weekly else Daily)
            && (due == [] <==> !monthly && !weekly && r.days <= 0)
            && (due != [] ==> forall p :: p in due[1..] <==>
                  (p.Weekly? && monthly && weekly) || (p.Daily? && r.days > 0 && (monthly || weekly)))
  {
    var due := DuePeriods(r, today);
    var monthly, weekly := today.day == 1 && r.months > 0, IsSunday(today.Number()) && r.weeks > 0;
    assert due == if monthly then
                    (if weekly then (if r.days > 0 then [Monthly, Weekly, Daily] else [Monthly, Weekly])
                     else (if r.days > 0 then [Monthly, Daily] else [Monthly]))
                  else
                    (if weekly then (if r.days > 0 then [Weekly, Daily] else [Weekly])
                     else (if r.days > 0 then [Daily] else []));
  }

  lemma LinkText(base: Path, p: Period, k: Key)
    requires Plain(base) && Plain([k.name])
    ensures Join(PeriodDir(base, p), Rel(PeriodDir(base, p), KeyPath(base, k))) == KeyPath(base, k)
  {
    assert Plain([DirName(p)]) && Plain([DirName(k.period)]);
    RelLeadsToTarget(PeriodDir(base, p), KeyPath(base, k));
  }

  lemma KeyPathsDiffer(base: Path, name: string)
    ensures forall p, q :: KeyPath(base, Key(p, name)) == KeyPath(base, Key(q, name)) ==> p == q
  {
    forall p, q | KeyPath(base, Key(p, name)) == KeyPath(base, Key(q, name))
      ensures p == q
    {
      KeyOfKeyPath(base, Key(p, name));
      KeyOfKeyPath(base, Key(q, name));
    }
  }

  lemma KeyOfKeyPath(base: Path, k: Key)
    ensures KeyAt(base, KeyPath(base, k)) == Some(k)
  {
    var p := KeyPath(base, k);
    assert p[..|base|] == base && p[|base|] == DirName(k.period) && p[|base| + 1] == k.name;
  }

  // The four copies of the schedule agree on every date.
  lemma SchedulesAgree(r: Retention, today: Date)
    requires r.NonNegative()
    ensures IsNeedToBackup(r, today) <==> DuePeriods(r, today) != []
    ensures forall p :: p in DuePeriods(r, today) <==> GetRetention(p, r, today).0 > 0
    ensures forall p :: p in DuePeriods(r, today) <==> p in ScannedPeriods(r, today)
    ensures forall i, j :: 0 <= i < j < |DuePeriods(r, today)| ==>
              Above(DuePeriods(r, today)[i], DuePeriods(r, today)[j])
  {
  }

  lemma ScannedMeans(p: Period, r: Retention, today: Date)
    ensures p in ScannedPeriods(r, today) <==> GetRetention(p, r, today) != (0, None)
  {
    AllPeriods(p);
  }

  ghost function NamesIn(keys: set<Key>, p: Period): set<string> {
    set k | k in keys && k.period == p :: k.name
  }

  lemma NamesInUnion(a: set<Key>, b: set<Key>, p: Period)
    ensures NamesIn(a + b, p) == NamesIn(a, p) + NamesIn(b, p)
  {
  }

  lemma NamesInKeys(names: set<string>, p: Period, q: Period)
    ensures NamesIn(set n | n in names :: Key(p, n), q) == if p == q then names else {}
  {
    forall n | n in names
      ensures p == q ==> n in NamesIn(set m | m in names :: Key(p, m), q)
    {
      assert Key(p, n) in (set m | m in names :: Key(p, m));
    }
  }

  lemma KeysNamed(monthly: set<string>, weekly: set<string>, daily: set<string>) returns (keys: set<Key>)
    ensures NamesIn(keys, Monthly) == monthly && NamesIn(keys, Weekly) == weekly && NamesIn(keys, Daily) == daily
  {
    var m, w, d := set n | n in monthly :: Key(Monthly, n), set n | n in weekly :: Key(Weekly, n), set n | n in daily :: Key(Daily, n);
    keys := m + w + d;
    forall p: Period
      ensures NamesIn(keys, p) == match p case Monthly => monthly case Weekly => weekly case Daily => daily
    {
      NamesInUnion(m + w, d, p);
      NamesInUnion(m, w, p);
      NamesInKeys(monthly, Monthly, p);
      NamesInKeys(weekly, Weekly, p);
      NamesInKeys(daily, Daily, p);
    }
  }
}
