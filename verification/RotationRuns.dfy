/** Runs of the whole rotation, day after day, on local storage and on a store of plain copies.

    The central result: the link tree, links resolved, has the names, the contents and the ages in
    days of the plain copy store after every run of every gapless history, and no rotation reports an
    error, if and only if the retention numbers satisfy the condition `Fits`, which `Weeks <= 4 * Months`
    implies and one cycle of the calendar decides.  For names and contents alone the condition is the
    weaker `NamesFit`. */
module RotationRuns {
  import opened BackupTree
  import opened Calendar
  import opened CopyStore
  import opened Expiry
  import opened LocalDelivery
  import opened Options
  import opened RotatedObjects
  import opened Schedule
  import LocalStorage

  // The highest period in which a name is still wanted.
  function Top(r: Retention, h: Births, n: int, name: string): Period {
    if Lives(r, h, n, Key(Monthly, name)) then Monthly
    else if Lives(r, h, n, Key(Weekly, name)) then Weekly
    else Daily
  }

  // A daily link that was re-pointed when its monthly file went and left the content to the weekly one.
  predicate Refreshed(r: Retention, h: Births, n: int, k: Key)
    requires k.name in h
  {
    k.period.Daily? && Top(r, h, n, k.name) == Weekly && Monthly in DuePeriods(r, h[k.name].today)
  }

  // The day a name is dated: that of its run, or the one on which it was re-pointed.
  function AgeDay(r: Retention, h: Births, n: int, k: Key): int
    requires k.name in h
  {
    if Refreshed(r, h, n, k) then MonthStart(h[k.name].today.month + r.months) else h[k.name].today.Number()
  }

  // The tree on day `n`: exactly the wanted names, with the content in the highest wanted period and
  // links to it below.
  ghost predicate TreeIs(r: Retention, h: Births, n: int, t: Tree) {
    && (forall k :: k in t <==> Lives(r, h, n, k))
    && (forall k :: k in t ==>
          && DayOf(t[k].mtime) == AgeDay(r, h, n, k)
          && if k.period == Top(r, h, n, k.name) then t[k].File? && t[k].content == h[k.name].content
             else t[k].Link? && t[k].target == Key(Top(r, h, n, k.name), k.name))
  }

  ghost predicate CopiesAre(r: Retention, h: Births, n: int, c: Copies) {
    && (forall k :: k in c <==> Lives(r, h, n, k))
    && (forall k :: k in c ==>
          DayOf(c[k].mtime) == h[k.name].today.Number() && c[k].content == h[k.name].content)
  }

  // Local storage and the copies hold the same backups: same names, same contents.
  ghost predicate SameBackups(t: Tree, c: Copies) {
    && t.Keys == c.Keys
    && forall k :: k in t ==> Resolve(t, k) == Some(c[k].content)
  }

  // They agree in the age in days as well.
  ghost predicate Agree(t: Tree, c: Copies) {
    SameBackups(t, c) && forall k :: k in t ==> DayOf(t[k].mtime) == DayOf(c[k].mtime)
  }

  lemma TreeShape(r: Retention, h: Births, n: int, t: Tree)
    requires TreeIs(r, h, n, t)
    ensures Shape(t)
  {
    hide DuePeriods, Alive, DayOf, AgeDay;
    forall k | k in t && t[k].Link?
      ensures t[k].target.name == k.name && Above(t[k].target.period, k.period)
      ensures t[k].target in t && t[t[k].target].File?
    {
      assert Lives(r, h, n, k);
      var top := Top(r, h, n, k.name);
      assert k.period != top;
    }
  }

  lemma DescribedAgree(r: Retention, h: Births, n: int, t: Tree, c: Copies)
    requires TreeIs(r, h, n, t) && CopiesAre(r, h, n, c)
    ensures SameBackups(t, c)
    ensures (forall k: Key :: k.name in h && Lives(r, h, n, k) ==> !Refreshed(r, h, n, k)) ==> Agree(t, c)
  {
    TreeShape(r, h, n, t);
    hide Alive, DuePeriods, DayOf, Refreshed;
    forall k | k in t
      ensures Resolve(t, k) == Some(c[k].content)
    {
      var top := Key(Top(r, h, n, k.name), k.name);
      assert Lives(r, h, n, top);
    }
  }

  // Re-pointed links that are still there this morning are wanted today: nothing has outstayed its copy.
  ghost predicate NoneStale(r: Retention, h: Births, m: int, today: Date) {
    forall k: Key :: k.name in h && Lives(r, h, m, k) && Refreshed(r, h, m, k) ==> Lives(r, h, today.Number(), k)
  }

  lemma LocalExpiry(r: Retention, h: Births, m: int, today: Date, safe: bool, t: Tree, deleted: set<Key>)
    requires r.NonNegative() && BirthsOk(h) && today.Valid() && Paced(r, h, m, today, safe)
    requires today.Number() - 1 <= m <= today.Number()
    requires TreeIs(r, h, m, t) && NoneStale(r, h, m, today)
    requires LocalStorage.IsDeleteSet(t, r, today, safe, deleted)
    ensures Expired(r, h, today.Number(), t.Keys, deleted)
  {
    hide Alive, DuePeriods, GetRetention, IsRotation, DayOf, Top, MonthStart, AgeDay, Refreshed;
    forall k: Key
      ensures k in deleted <==> k in t && !Lives(r, h, today.Number(), k)
    {
      var p := k.period;
      var names := NamesIn(deleted, p);
      var dir := LocalStorage.Listing(t, p);
      assert LocalStorage.Chosen(t, r, today, safe, p, names);
      forall s
        ensures s in dir <==> Key(p, s) in t
        ensures s in dir ==> dir[s] == t[Key(p, s)].mtime
        ensures s in names <==> Key(p, s) in deleted
        ensures s in dir ==> s in h && DayOf(dir[s]) >= h[s].today.Number()
        ensures s in dir && s in h && DayOf(dir[s]) != h[s].today.Number() ==> Lives(r, h, today.Number(), Key(p, s))
      {
        if s in dir {
          AgeDayRange(r, h, m, Key(p, s));
        }
      }
      DirectoryTest(r, h, m, today, safe, p, dir, names);
      assert k == Key(p, k.name);
    }
  }

  lemma AgeDayRange(r: Retention, h: Births, n: int, k: Key)
    requires r.NonNegative() && k.name in h && h[k.name].today.Valid()
    ensures AgeDay(r, h, n, k) == h[k.name].today.Number() || (Refreshed(r, h, n, k) && AgeDay(r, h, n, k) >= h[k.name].today.Number())
  {
    if Refreshed(r, h, n, k) {
      DueMeans(r, h[k.name].today);
      hide MonthStart;
      MonthsLast(h[k.name].today.month, r.months);
    }
  }

  lemma CopyExpiry(r: Retention, h: Births, m: int, today: Date, safe: bool, c: Copies, deleted: set<Key>)
    requires r.NonNegative() && BirthsOk(h) && today.Valid() && Paced(r, h, m, today, safe)
    requires today.Number() - 1 <= m <= today.Number()
    requires CopiesAre(r, h, m, c)
    requires CopyStore.IsDeleteSet(c, r, today, safe, deleted)
    ensures Expired(r, h, today.Number(), c.Keys, deleted)
  {
    hide Alive, DuePeriods, GetRetention, IsRotation, DayOf;
    forall k: Key
      ensures k in deleted <==> k in c && !Lives(r, h, today.Number(), k)
    {
      var p := k.period;
      var names := NamesIn(deleted, p);
      var dir := CopyStore.Listing(c, p);
      assert CopyStore.Chosen(c, r, today, safe, p, deleted);
      forall s
        ensures s in dir <==> Key(p, s) in c
        ensures s in dir ==> dir[s] == c[Key(p, s)].mtime
        ensures s in names <==> Key(p, s) in deleted
      {
      }
      DirectoryTest(r, h, m, today, safe, p, dir, names);
      assert k == Key(p, k.name);
    }
  }

  /* ---- The condition on the retention numbers ---- */

  function MonthsSpan(r: Retention, month: int): int {
    MonthStart(month + r.months) - MonthStart(month)
  }

  // A monthly file made on a Sunday the 1st has a weekly link.  The link must be gone when the file
  // goes; otherwise the file must go on a Sunday, with its daily link still there.
  predicate HandsOver(r: Retention, month: int) {
    IsSunday(MonthStart(month)) ==>
      || 7 * r.weeks <= MonthsSpan(r, month)
      || (IsSunday(MonthStart(month + r.months)) && r.days >= MonthsSpan(r, month))
  }

  // A daily link that is re-pointed then must not outlast its copy: it gets its old date back when the
  // weekly file goes, which has to come first.
  predicate Refreshes(r: Retention, month: int) {
    IsSunday(MonthStart(month)) && 7 * r.weeks > MonthsSpan(r, month) && r.days > MonthsSpan(r, month) ==>
      r.days > 7 * r.weeks
  }

  // Names and contents survive the end of the month's file.
  predicate NamesFitAt(r: Retention, month: int) {
    HandsOver(r, month) && Refreshes(r, month)
  }

  // Dates survive it, too: the daily link goes in the same rotation.
  predicate FitsAt(r: Retention, month: int) {
    IsSunday(MonthStart(month)) ==>
      || 7 * r.weeks <= MonthsSpan(r, month)
      || (IsSunday(MonthStart(month + r.months)) && r.days == MonthsSpan(r, month))
  }

  lemma FitsInNames(r: Retention, month: int)
    ensures FitsAt(r, month) ==> NamesFitAt(r, month)
  {
    hide MonthStart;
  }

  ghost predicate Fits(r: Retention) {
    r.months == 0 || r.weeks == 0 || forall month :: FitsAt(r, month)
  }

  // The condition as it can be checked before the first run: on the months of one cycle.
  predicate FitsWithinCycle(r: Retention) {
    r.months == 0 || r.weeks == 0 || forall month | 0 <= month < CYCLE_MONTHS :: FitsAt(r, month)
  }

  // The weaker condition for names and contents alone, in the same two forms.
  ghost predicate NamesFit(r: Retention) {
    r.months == 0 || r.weeks == 0 || forall month :: NamesFitAt(r, month)
  }

  predicate NamesFitWithinCycle(r: Retention) {
    r.months == 0 || r.weeks == 0 || forall month | 0 <= month < CYCLE_MONTHS :: NamesFitAt(r, month)
  }

  lemma FitsRepeats(r: Retention, month: int)
    ensures FitsAt(r, month + CYCLE_MONTHS) <==> FitsAt(r, month)
    ensures NamesFitAt(r, month + CYCLE_MONTHS) <==> NamesFitAt(r, month)
  {
    hide MonthStart, IsSunday;
    Cycle(month);
    Cycle(month + r.months);
    assert month + CYCLE_MONTHS + r.months == month + r.months + CYCLE_MONTHS;
  }

  lemma {:induction false} FitsEveryCycle(r: Retention, month: int, k: nat)
    ensures FitsAt(r, month + CYCLE_MONTHS * k) <==> FitsAt(r, month)
    ensures NamesFitAt(r, month + CYCLE_MONTHS * k) <==> NamesFitAt(r, month)
  {
    hide FitsAt, NamesFitAt;
    if k > 0 {
      FitsEveryCycle(r, month, k - 1);
      FitsRepeats(r, month + CYCLE_MONTHS * (k - 1));
      assert month + CYCLE_MONTHS * (k - 1) + CYCLE_MONTHS == month + CYCLE_MONTHS * k;
    }
  }

  lemma InFirstCycle(r: Retention, month: int) returns (within: int)
    ensures 0 <= within < CYCLE_MONTHS
    ensures FitsAt(r, within) <==> FitsAt(r, month)
    ensures NamesFitAt(r, within) <==> NamesFitAt(r, month)
  {
    hide FitsAt, NamesFitAt;
    within := month % CYCLE_MONTHS;
    var k := month / CYCLE_MONTHS;
    assert month == within + CYCLE_MONTHS * k;
    if k >= 0 {
      FitsEveryCycle(r, within, k);
    } else {
      FitsEveryCycle(r, month, -k);
      assert month + CYCLE_MONTHS * -k == within;
    }
  }

  // One cycle of the calendar decides.
  lemma FitsIff(r: Retention)
    ensures Fits(r) <==> FitsWithinCycle(r)
    ensures NamesFit(r) <==> NamesFitWithinCycle(r)
  {
    hide FitsAt, NamesFitAt;
    forall month
      ensures FitsWithinCycle(r) && r.months != 0 && r.weeks != 0 ==> FitsAt(r, month)
      ensures NamesFitWithinCycle(r) && r.months != 0 && r.weeks != 0 ==> NamesFitAt(r, month)
    {
      var within := InFirstCycle(r, month);
    }
  }

  // The rule of thumb: no more weeks than four times the months.
  lemma WeeksWithinMonthsFit(r: Retention)
    requires r.NonNegative() && (r.months == 0 || r.weeks <= 4 * r.months)
    ensures Fits(r)
  {
    hide MonthStart;
    if r.months != 0 {
      forall month
        ensures FitsAt(r, month)
      {
        MonthsLast(month, r.months);
      }
    }
  }

  // Only months that end a monthly file's life today matter to today's rotation.
  ghost predicate FitsToday(r: Retention, h: Births, today: Date) {
    && NoneStale(r, h, today.Number() - 1, today)
    && forall name :: name in h && Lives(r, h, today.Number() - 1, Key(Monthly, name))
                      && today.Number() == MonthStart(h[name].today.month + r.months)
                      && r.weeks > 0 ==>
         HandsOver(r, h[name].today.month)
  }

  lemma NoneStaleToday(r: Retention, h: Births, m: int, today: Date)
    requires FitsToday(r, h, today) && today.Number() - 1 <= m <= today.Number()
    ensures NoneStale(r, h, m, today)
  {
    hide MonthStart, Alive, DuePeriods;
  }

  /* ---- One rotation ---- */

  lemma ScannedIfExpires(r: Retention, h: Births, m: int, today: Date, k: Key)
    requires r.NonNegative() && BirthsOk(h) && today.Valid()
    requires today.Number() - 1 <= m <= today.Number()
    requires Lives(r, h, m, k) && !Lives(r, h, today.Number(), k)
    ensures k.period in ScannedPeriods(r, today)
    ensures m == today.Number() - 1
    ensures k.period.Monthly? ==> today.Number() == MonthStart(h[k.name].today.month + r.months)
    ensures k.period.Weekly? ==> today.Number() == h[k.name].today.Number() + 7 * r.weeks
  {
    ExpiryIsTheAgeTest(r, k.period, h[k.name].today, today, m);
    DueMeans(r, h[k.name].today);
    AllPeriods(k.period);
    if k.period.Monthly? {
      MonthlyExpiry(r, h[k.name].today, today, m);
    }
  }

  // A deleted monthly file whose weekly link outlives it: the rotation runs on a Sunday and finds the
  // daily link as well.
  lemma OutlivedMonthly(r: Retention, h: Births, m: int, today: Date, name: string)
    requires r.NonNegative() && BirthsOk(h) && today.Valid() && FitsToday(r, h, today)
    requires today.Number() - 1 <= m <= today.Number()
    requires Lives(r, h, m, Key(Monthly, name)) && !Lives(r, h, today.Number(), Key(Monthly, name))
    requires Lives(r, h, today.Number(), Key(Weekly, name))
    ensures Weekly in ScannedPeriods(r, today) && Daily in ScannedPeriods(r, today)
    ensures Lives(r, h, m, Key(Daily, name))
  {
    hide MonthStart;
    var born := h[name].today;
    ScannedIfExpires(r, h, m, today, Key(Monthly, name));
    DueMeans(r, born);
    AllPeriods(Weekly);
    AllPeriods(Daily);
    assert HandsOver(r, born.month);
    assert born.Number() == MonthStart(born.month);
    NextMonth(born.month);
    MonthsLast(born.month, r.months);
  }

  lemma RotationSafe(r: Retention, h: Births, m: int, today: Date, t: Tree, deleted: set<Key>)
    requires r.NonNegative() && BirthsOk(h) && today.Valid() && FitsToday(r, h, today)
    requires today.Number() - 1 <= m <= today.Number()
    requires TreeIs(r, h, m, t) && Expired(r, h, today.Number(), t.Keys, deleted)
    ensures Deletable(t, ScannedPeriods(r, today), deleted)
    ensures LinksSeen(t, ScannedPeriods(r, today), deleted)
    ensures forall f :: f in deleted ==> !Stuck(t, ScannedPeriods(r, today), deleted, f)
  {
    var scanned := ScannedPeriods(r, today);
    hide Alive, DuePeriods, DayOf, AgeDay, ScannedPeriods, FitsToday, BirthsOk;
    forall k | k in deleted
      ensures k in t && k.period in scanned
    {
      ScannedIfExpires(r, h, m, today, k);
    }
    forall k | k in t && t[k].Link? && t[k].target in deleted
      ensures k.period in scanned
      ensures k.period.Weekly? && k !in deleted ==>
                var d := Key(Daily, k.name);
                Daily in scanned && d in t && t[d].Link? && t[d].target == t[k].target
    {
      LinkToExpired(r, h, m, today, t, deleted, k);
    }
  }

  lemma LinkToExpired(r: Retention, h: Births, m: int, today: Date, t: Tree, deleted: set<Key>, k: Key)
    requires r.NonNegative() && BirthsOk(h) && today.Valid() && FitsToday(r, h, today)
    requires today.Number() - 1 <= m <= today.Number()
    requires TreeIs(r, h, m, t) && Expired(r, h, today.Number(), t.Keys, deleted)
    requires k in t && t[k].Link? && t[k].target in deleted
    ensures k.period in ScannedPeriods(r, today)
    ensures k.period.Weekly? && k !in deleted ==>
              var d := Key(Daily, k.name);
              Daily in ScannedPeriods(r, today) && d in t && t[d].Link? && t[d].target == t[k].target
  {
    hide Alive, DuePeriods, DayOf, AgeDay;
    assert Lives(r, h, m, k);
    match k.period {
      case Monthly =>
        assert false;
      case Weekly =>
        assert t[k].target == Key(Monthly, k.name);
        if k in deleted {
          ScannedIfExpires(r, h, m, today, k);
        } else {
          OutlivedMonthly(r, h, m, today, k.name);
        }
      case Daily =>
        DueMeans(r, h[k.name].today);
        AllPeriods(Daily);
    }
  }

  // The tree after a rotation is the one the schedule describes for the day.
  lemma RotatedIs(r: Retention, h: Births, m: int, today: Date, t: Tree, deleted: set<Key>, clock: Key -> int)
    requires r.NonNegative() && BirthsOk(h) && today.Valid() && FitsToday(r, h, today)
    requires today.Number() - 1 <= m <= today.Number()
    requires TreeIs(r, h, m, t) && Expired(r, h, today.Number(), t.Keys, deleted)
    requires forall k :: DayOf(clock(k)) == today.Number()
    ensures TreeIs(r, h, today.Number(), Rotated(t, ScannedPeriods(r, today), deleted, clock))
  {
    var n := today.Number();
    var scanned := ScannedPeriods(r, today);
    var u := Rotated(t, scanned, deleted, clock);
    hide DuePeriods, ScannedPeriods, FitsToday, BirthsOk, DayOf, AgeDay;
    forall k
      ensures k in u <==> Lives(r, h, n, k)
    {
      if Lives(r, h, n, k) { StillLives(r, h, m, n, k); }
    }
    forall k | k in u
      ensures DayOf(u[k].mtime) == AgeDay(r, h, n, k)
      ensures if k.period == Top(r, h, n, k.name) then u[k].File? && u[k].content == h[k.name].content
              else u[k].Link? && u[k].target == Key(Top(r, h, n, k.name), k.name)
    {
      RotatedNode(r, h, m, today, t, deleted, clock, k);
    }
  }

  lemma RotatedNode(r: Retention, h: Births, m: int, today: Date, t: Tree, deleted: set<Key>, clock: Key -> int, k: Key)
    requires r.NonNegative() && BirthsOk(h) && today.Valid() && FitsToday(r, h, today)
    requires today.Number() - 1 <= m <= today.Number()
    requires TreeIs(r, h, m, t) && Expired(r, h, today.Number(), t.Keys, deleted)
    requires k in t && k !in deleted && forall f :: DayOf(clock(f)) == today.Number()
    ensures var node := Fate(t, ScannedPeriods(r, today), deleted, deleted, clock, k);
            var top := Top(r, h, today.Number(), k.name);
            && DayOf(node.mtime) == AgeDay(r, h, today.Number(), k)
            && if k.period == top then node.File? && node.content == h[k.name].content
               else node.Link? && node.target == Key(top, k.name)
  {
    var n := today.Number();
    var scanned := ScannedPeriods(r, today);
    hide DuePeriods, Alive, ScannedPeriods, FitsToday, BirthsOk, DayOf, MonthStart;
    forall p | Lives(r, h, n, Key(p, k.name))
      ensures Lives(r, h, m, Key(p, k.name))
    {
      StillLives(r, h, m, n, Key(p, k.name));
    }
    if t[k].Link? && t[k].target in deleted {
      var f := t[k].target;
      LinkToExpired(r, h, m, today, t, deleted, k);
      var w := LinksTo(t, scanned, f).wLink;
      assert f.period == Top(r, h, m, k.name);
      ScannedIfExpires(r, h, m, today, f);
      if f.period.Monthly? && k.period.Daily? && Lives(r, h, n, Key(Weekly, k.name)) {
        OutlivedMonthly(r, h, m, today, k.name);
      }
    }
  }

  lemma RotatedCopies(r: Retention, h: Births, m: int, today: Date, c: Copies, deleted: set<Key>)
    requires m <= today.Number()
    requires CopiesAre(r, h, m, c) && Expired(r, h, today.Number(), c.Keys, deleted)
    ensures CopiesAre(r, h, today.Number(), c - deleted)
  {
    hide DuePeriods, DayOf;
    forall k
      ensures k in c - deleted <==> Lives(r, h, today.Number(), k)
    {
      if Lives(r, h, today.Number(), k) { StillLives(r, h, m, today.Number(), k); }
    }
  }

  /* ---- One delivery ---- */

  lemma DueIsAlive(r: Retention, today: Date, p: Period, m: int)
    requires today.Valid() && m <= today.Number() && p in DuePeriods(r, today)
    ensures Alive(r, p, today, m)
  {
    DueMeans(r, today);
    if p.Monthly? {
      hide MonthStart;
      MonthsLast(today.month, r.months);
    }
  }

  lemma LivesAfterDelivery(r: Retention, h: Births, m: int, today: Date, name: string, content: Content, k: Key)
    requires today.Valid() && m <= today.Number() && name !in h
    ensures var g := h[name := Birth(today, content)];
            Lives(r, g, m, k) <==> if k.name == name then k.period in DuePeriods(r, today) else Lives(r, h, m, k)
  {
    if k.name == name && k.period in DuePeriods(r, today) {
      DueIsAlive(r, today, k.period, m);
    }
  }

  lemma TopAfterDelivery(r: Retention, h: Births, m: int, today: Date, name: string, content: Content, other: string)
    requires today.Valid() && m <= today.Number() && name !in h
    ensures var g := h[name := Birth(today, content)];
            Top(r, g, m, other) == if other != name then Top(r, h, m, other)
                                   else if DuePeriods(r, today) != [] then DuePeriods(r, today)[0] else Daily
  {
    FirstDue(r, today);
    hide DuePeriods, Lives;
    LivesAfterDelivery(r, h, m, today, name, content, Key(Monthly, other));
    LivesAfterDelivery(r, h, m, today, name, content, Key(Weekly, other));
  }

  lemma DeliveredIs(r: Retention, h: Births, m: int, t: Tree, today: Date, name: string, content: Content,
                    mtime: int, linkTime: Period -> int)
    requires TreeIs(r, h, m, t) && today.Valid() && m <= today.Number() && name !in h
    requires DayOf(mtime) == today.Number() && forall p :: DayOf(linkTime(p)) == today.Number()
    ensures TreeIs(r, h[name := Birth(today, content)], m,
                   Delivered(t, DuePeriods(r, today), name, File(content, mtime), linkTime))
  {
    var g := h[name := Birth(today, content)];
    var due := DuePeriods(r, today);
    var u := Delivered(t, due, name, File(content, mtime), linkTime);
    hide DuePeriods, Alive, DayOf, Top, AgeDay;
    forall k: Key
      ensures k in u <==> Lives(r, g, m, k)
      ensures Top(r, g, m, k.name) == if k.name != name then Top(r, h, m, k.name)
                                      else if due != [] then due[0] else Daily
      ensures k.name in g ==>
                AgeDay(r, g, m, k) == if k.name != name then AgeDay(r, h, m, k) else today.Number()
    {
      LivesAfterDelivery(r, h, m, today, name, content, k);
      TopAfterDelivery(r, h, m, today, name, content, k.name);
      if k.name in g {
        AgeAfterDelivery(r, h, m, today, name, content, k);
      }
      hide Lives;
      assert k == Key(k.period, k.name);
    }
  }

  lemma AgeAfterDelivery(r: Retention, h: Births, m: int, today: Date, name: string, content: Content, k: Key)
    requires today.Valid() && m <= today.Number() && name !in h && (k.name in h || k.name == name)
    ensures AgeDay(r, h[name := Birth(today, content)], m, k)
            == if k.name != name then AgeDay(r, h, m, k) else today.Number()
  {
    TopAfterDelivery(r, h, m, today, name, content, k.name);
    FirstDue(r, today);
    hide DuePeriods, Top, MonthStart;
  }

  lemma CopiedAre(r: Retention, h: Births, m: int, c: Copies, today: Date, name: string, content: Content,
                  time: Period -> int)
    requires CopiesAre(r, h, m, c) && today.Valid() && m <= today.Number() && name !in h
    requires forall p :: DayOf(time(p)) == today.Number()
    ensures CopiesAre(r, h[name := Birth(today, content)], m, Copied(c, DuePeriods(r, today), name, content, time))
  {
    var g := h[name := Birth(today, content)];
    var due := DuePeriods(r, today);
    var u := Copied(c, due, name, content, time);
    hide DuePeriods, Alive, DayOf;
    forall k: Key
      ensures k in u <==> Lives(r, g, m, k)
    {
      LivesAfterDelivery(r, h, m, today, name, content, k);
      hide Lives;
      assert k == Key(k.period, k.name);
    }
  }

  lemma FirstDue(r: Retention, today: Date)
    ensures var due := DuePeriods(r, today);
            due != [] ==>
              due[0] in due && due[0] == if Monthly in due then Monthly else if Weekly in due then Weekly else Daily
  {
  }

  /* ---- Runs ---- */

  // One run of a job with one local and one remote storage, with everything it leaves open: the
  // order of rotation and delivery, the times the system stamps, what is deleted and in which order.
  datatype Run = Run(today: Date, safe: bool, name: string, content: Content,
                     fileTime: int, linkTime: Period -> int, copyTime: Period -> int, clock: Key -> int,
                     deleted: set<Key>, order: seq<Key>, copyDeleted: set<Key>)

  datatype Sys = Sys(tree: Tree, copies: Copies)

  const EMPTY := Sys(map[], map[])

  function Deliver(r: Retention, run: Run, t: Tree): Tree {
    Delivered(t, DuePeriods(r, run.today), run.name, File(run.content, run.fileTime), run.linkTime)
  }

  function Upload(r: Retention, run: Run, c: Copies): Copies {
    Copied(c, DuePeriods(r, run.today), run.name, run.content, run.copyTime)
  }

  ghost function Rotate(r: Retention, run: Run, t: Tree): Progress {
    DeleteLoop(t, run.deleted, ScanRecords(t, ScannedPeriods(r, run.today)), run.order, run.clock)
  }

  // `Perform` on the local storage: nothing on a day that needs no backup; otherwise the rotation
  // comes last when it is safe and first when it is not.
  ghost function LocalRun(r: Retention, run: Run, t: Tree): Progress {
    if !IsNeedToBackup(r, run.today) then Progress(t, 0, false)
    else if run.safe then Rotate(r, run, Deliver(r, run, t))
    else var p := Rotate(r, run, t); p.(tree := Deliver(r, run, p.tree))
  }

  function CopyRun(r: Retention, run: Run, c: Copies): Copies {
    if !IsNeedToBackup(r, run.today) then c
    else if run.safe then Upload(r, run, c) - run.copyDeleted
    else Upload(r, run, c - run.copyDeleted)
  }

  ghost predicate WithinDay(run: Run) {
    && DayOf(run.fileTime) == run.today.Number()
    && (forall p :: DayOf(run.linkTime(p)) == run.today.Number())
    && (forall p :: DayOf(run.copyTime(p)) == run.today.Number())
    && (forall k :: DayOf(run.clock(k)) == run.today.Number())
  }

  // The run deletes what the rotation rules choose, each file once, and does not cross midnight.
  ghost predicate Admissible(r: Retention, run: Run, s: Sys) {
    && run.today.Valid() && Eligible(run.name) && WithinDay(run)
    && Enumerates(run.order, run.deleted)
    && LocalStorage.IsDeleteSet(if run.safe then Deliver(r, run, s.tree) else s.tree, r, run.today, run.safe, run.deleted)
    && CopyStore.IsDeleteSet(if run.safe then Upload(r, run, s.copies) else s.copies, r, run.today, run.safe, run.copyDeleted)
  }

  ghost predicate Step(r: Retention, run: Run, s: Sys, s': Sys) {
    Admissible(r, run, s) && s' == Sys(LocalRun(r, run, s.tree).tree, CopyRun(r, run, s.copies))
  }

  // From empty storages, at least one run a day, each with a name of its own.
  ghost predicate History(r: Retention, runs: seq<Run>, states: seq<Sys>) {
    && |states| == |runs| + 1 && states[0] == EMPTY
    && (forall i :: 0 <= i < |runs| ==> Step(r, runs[i], states[i], states[i + 1]))
    && (forall i, j :: 0 <= i < j < |runs| ==> runs[i].name != runs[j].name)
    && (forall i :: 0 < i < |runs| ==>
          runs[i - 1].today.Number() <= runs[i].today.Number() <= runs[i - 1].today.Number() + 1)
  }

  ghost function BirthsOf(runs: seq<Run>): Births {
    if runs == [] then map[]
    else
      var last := runs[|runs| - 1];
      BirthsOf(runs[..|runs| - 1])[last.name := Birth(last.today, last.content)]
  }

  lemma SameSchedule(r: Retention, h: Births, m: int, g: Births, n: int, t: Tree, c: Copies)
    requires forall k :: Lives(r, h, m, k) <==> Lives(r, g, n, k)
    requires forall k :: Lives(r, h, m, k) ==> k.name in h && k.name in g && g[k.name] == h[k.name]
    requires TreeIs(r, h, m, t) && CopiesAre(r, h, m, c)
    ensures TreeIs(r, g, n, t) && CopiesAre(r, g, n, c)
  {
    hide DayOf, Alive, DuePeriods;
    forall name
      ensures Top(r, h, m, name) == Top(r, g, n, name)
    {
    }
  }

  lemma IdleDay(r: Retention, h: Births, m: int, today: Date, t: Tree, c: Copies)
    requires r.NonNegative() && BirthsOk(h) && today.Valid() && !IsNeedToBackup(r, today)
    requires today.Number() - 1 <= m <= today.Number()
    requires TreeIs(r, h, m, t) && CopiesAre(r, h, m, c)
    ensures TreeIs(r, h, today.Number(), t) && CopiesAre(r, h, today.Number(), c)
  {
    var n := today.Number();
    forall k
      ensures Lives(r, h, m, k) <==> Lives(r, h, n, k)
    {
      if Lives(r, h, m, k) && !Lives(r, h, n, k) {
        ScannedIfExpires(r, h, m, today, k);
        SchedulesAgree(r, today);
        assert false;
      }
    }
    SameSchedule(r, h, m, h, n, t, c);
  }

  // The stretch of days that counting needs, before the run.
  ghost predicate Counted(r: Retention, h: Births, first: int, m: int, today: Date) {
    r.useCount ==> first <= today.Number() && m == today.Number() - 1 && OnePerDay(h, first, m)
  }

  lemma CountedPaces(r: Retention, h: Births, first: int, m: int, today: Date, name: string, content: Content)
    requires Counted(r, h, first, m, today) && name !in h
    ensures Paced(r, h, m, today, false)
    ensures var g := h[name := Birth(today, content)];
            Paced(r, g, m, today, true) && (r.useCount ==> OnePerDay(g, first, today.Number()))
  {
    var g := h[name := Birth(today, content)];
    if r.useCount {
      forall d | first <= d <= today.Number()
        ensures RunOn(g, d)
      {
        if d < today.Number() {
          assert RunOn(h, d);
          var s :| s in h && h[s].today.Number() == d;
          assert s in g && g[s].today.Number() == d;
        } else {
          assert name in g && g[name].today.Number() == d;
        }
      }
      assert OnePerDay(g, first, today.Number());
    }
  }

  lemma OneRun(r: Retention, h: Births, first: int, m: int, run: Run, s: Sys, s': Sys)
    requires r.NonNegative() && Counted(r, h, first, m, run.today) && BirthsOk(h)
    requires TreeIs(r, h, m, s.tree) && CopiesAre(r, h, m, s.copies)
    requires run.today.Number() - 1 <= m <= run.today.Number() && run.name !in h
    requires Step(r, run, s, s')
    requires FitsToday(r, h, run.today) && FitsToday(r, h[run.name := Birth(run.today, run.content)], run.today)
    ensures var g := h[run.name := Birth(run.today, run.content)];
            && BirthsOk(g)
            && TreeIs(r, g, run.today.Number(), s'.tree) && CopiesAre(r, g, run.today.Number(), s'.copies)
    ensures LocalRun(r, run, s.tree).errors == 0
    ensures r.useCount ==> OnePerDay(h[run.name := Birth(run.today, run.content)], first, run.today.Number())
  {
    var g := h[run.name := Birth(run.today, run.content)];
    var n := run.today.Number();
    CountedPaces(r, h, first, m, run.today, run.name, run.content);
    hide Paced, Counted, OnePerDay, TreeIs, CopiesAre, DayOf, FitsToday, IsNeedToBackup, DuePeriods, DeleteLoop, Eligible;
    if !IsNeedToBackup(r, run.today) {
      IdleDay(r, h, m, run.today, s.tree, s.copies);
      IdleDelivery(r, h, n, run, s.tree, s.copies);
    } else if run.safe {
      DeliveredIs(r, h, m, s.tree, run.today, run.name, run.content, run.fileTime, run.linkTime);
      CopiedAre(r, h, m, s.copies, run.today, run.name, run.content, run.copyTime);
      RotateIs(r, g, m, run, Deliver(r, run, s.tree));
      CopyExpiry(r, g, m, run.today, run.safe, Upload(r, run, s.copies), run.copyDeleted);
      RotatedCopies(r, g, m, run.today, Upload(r, run, s.copies), run.copyDeleted);
    } else {
      RotateIs(r, h, m, run, s.tree);
      CopyExpiry(r, h, m, run.today, run.safe, s.copies, run.copyDeleted);
      RotatedCopies(r, h, m, run.today, s.copies, run.copyDeleted);
      DeliveredIs(r, h, n, Rotate(r, run, s.tree).tree, run.today, run.name, run.content, run.fileTime, run.linkTime);
      CopiedAre(r, h, n, s.copies - run.copyDeleted, run.today, run.name, run.content, run.copyTime);
    }
  }

  lemma IdleDelivery(r: Retention, h: Births, n: int, run: Run, t: Tree, c: Copies)
    requires r.NonNegative() && run.today.Valid() && n == run.today.Number() && run.name !in h && WithinDay(run)
    requires !IsNeedToBackup(r, run.today)
    requires TreeIs(r, h, n, t) && CopiesAre(r, h, n, c)
    ensures var g := h[run.name := Birth(run.today, run.content)];
            TreeIs(r, g, n, t) && CopiesAre(r, g, n, c)
  {
    SchedulesAgree(r, run.today);
    var g := h[run.name := Birth(run.today, run.content)];
    forall k
      ensures Lives(r, g, n, k) <==> Lives(r, h, n, k)
      ensures Lives(r, h, n, k) ==> k.name != run.name
    {
      hide TreeIs, CopiesAre, Alive, WithinDay;
    }
    hide Lives;
    SameSchedule(r, h, n, g, n, t, c);
  }

  lemma RotateIs(r: Retention, h: Births, m: int, run: Run, t: Tree)
    requires r.NonNegative() && BirthsOk(h) && run.today.Valid() && FitsToday(r, h, run.today)
    requires Paced(r, h, m, run.today, run.safe)
    requires run.today.Number() - 1 <= m <= run.today.Number()
    requires TreeIs(r, h, m, t) && WithinDay(run)
    requires LocalStorage.IsDeleteSet(t, r, run.today, run.safe, run.deleted) && Enumerates(run.order, run.deleted)
    ensures TreeIs(r, h, run.today.Number(), Rotate(r, run, t).tree) && Rotate(r, run, t).errors == 0
  {
    hide TreeIs, FitsToday, BirthsOk, DeleteLoop, Rotated, Stuck;
    NoneStaleToday(r, h, m, run.today);
    TreeShape(r, h, m, t);
    LocalExpiry(r, h, m, run.today, run.safe, t, run.deleted);
    RotationSafe(r, h, m, run.today, t, run.deleted);
    RotatedIs(r, h, m, run.today, t, run.deleted, run.clock);
    RotationExactIff(t, ScannedPeriods(r, run.today), run.deleted, run.order, run.clock);
  }

  /* ---- Histories ---- */

  // The condition for the months that start within the history, as far as it has come.
  ghost predicate FitsThrough(r: Retention, first: int, last: int) {
    r.months > 0 && r.weeks > 0 ==>
      forall month :: first <= MonthStart(month) ==>
        && (MonthStart(month + r.months) <= last ==> HandsOver(r, month))
        && (MonthStart(month) + r.days <= last ==> Refreshes(r, month))
  }

  ghost predicate BornBetween(h: Births, first: int, last: int) {
    forall name :: name in h ==> first <= h[name].today.Number() <= last
  }

  lemma FitsThroughToday(r: Retention, h: Births, first: int, last: int, today: Date)
    requires r.NonNegative() && BornBetween(h, first, last) && FitsThrough(r, first, last)
    requires today.Number() <= last
    ensures FitsToday(r, h, today)
  {
    hide MonthStart, HandsOver, Refreshes;
    forall k: Key | k.name in h && Lives(r, h, today.Number() - 1, k) && Refreshed(r, h, today.Number() - 1, k)
      ensures Lives(r, h, today.Number(), k)
    {
      StaysRefreshed(r, h, first, last, today, k);
    }
    forall name | name in h && Lives(r, h, today.Number() - 1, Key(Monthly, name))
                  && today.Number() == MonthStart(h[name].today.month + r.months) && r.weeks > 0
      ensures HandsOver(r, h[name].today.month)
    {
      DueMeans(r, h[name].today);
    }
  }

  lemma StaysRefreshed(r: Retention, h: Births, first: int, last: int, today: Date, k: Key)
    requires r.NonNegative() && BornBetween(h, first, last) && FitsThrough(r, first, last) && today.Number() <= last
    requires k.name in h && Lives(r, h, today.Number() - 1, k) && Refreshed(r, h, today.Number() - 1, k)
    ensures Lives(r, h, today.Number(), k)
  {
    hide MonthStart;
    var born := h[k.name].today;
    DueMeans(r, born);
    assert MonthStart(born.month) + r.days <= last ==> Refreshes(r, born.month);
  }

  lemma {:induction false} BirthNames(runs: seq<Run>)
    ensures forall name :: name in BirthsOf(runs) <==> exists i :: 0 <= i < |runs| && runs[i].name == name
  {
    if runs != [] {
      var front := runs[..|runs| - 1];
      BirthNames(front);
      assert forall i :: 0 <= i < |front| ==> front[i] == runs[i];
    }
  }

  lemma {:induction false} DaysAdvance(r: Retention, runs: seq<Run>, states: seq<Sys>, i: nat, j: nat)
    requires History(r, runs, states) && i <= j < |runs|
    ensures runs[i].today.Number() <= runs[j].today.Number() <= runs[i].today.Number() + (j - i)
    decreases j
  {
    if i < j {
      DaysAdvance(r, runs, states, i, j - 1);
    }
  }

  // Counting keeps to the schedule when there is exactly one run a day.
  ghost predicate Regular(r: Retention, runs: seq<Run>) {
    r.useCount ==> forall i :: 0 < i < |runs| ==> runs[i].today.Number() == runs[i - 1].today.Number() + 1
  }

  // What both storages hold on `day`, the first run having been on `first`.
  ghost predicate Follows(r: Retention, h: Births, first: int, day: int, s: Sys) {
    && BirthsOk(h) && BornBetween(h, first, day)
    && (r.useCount ==> OnePerDay(h, first, day))
    && TreeIs(r, h, day, s.tree) && CopiesAre(r, h, day, s.copies)
  }

  lemma RunFollows(r: Retention, h: Births, first: int, m: int, run: Run, s: Sys, s': Sys)
    requires r.NonNegative() && Follows(r, h, first, m, s) && Step(r, run, s, s') && run.name !in h
    requires first <= run.today.Number() && run.today.Number() - 1 <= m <= run.today.Number()
    requires r.useCount ==> m == run.today.Number() - 1
    requires FitsThrough(r, first, run.today.Number())
    ensures Follows(r, h[run.name := Birth(run.today, run.content)], first, run.today.Number(), s')
    ensures LocalRun(r, run, s.tree).errors == 0
  {
    hide BirthsOk, OnePerDay, Step, FitsAt, LocalRun, TreeIs, CopiesAre;
    var g := h[run.name := Birth(run.today, run.content)];
    FitsThroughToday(r, h, first, run.today.Number(), run.today);
    FitsThroughToday(r, g, first, run.today.Number(), run.today);
    OneRun(r, h, first, m, run, s, s');
  }

  function DayAfter(runs: seq<Run>, n: nat): int
    requires n <= |runs| && runs != []
  {
    if n == 0 then runs[0].today.Number() - 1 else runs[n - 1].today.Number()
  }

  // After every run both storages are as the schedule says, as long as the condition holds for the
  // months past, and no rotation has failed.
  lemma {:induction false} HistoryFollowsSchedule(r: Retention, runs: seq<Run>, states: seq<Sys>, n: nat)
    requires r.NonNegative() && History(r, runs, states) && Regular(r, runs) && n <= |runs| && runs != []
    requires FitsThrough(r, runs[0].today.Number(), DayAfter(runs, n))
    ensures |states| == |runs| + 1
    ensures Follows(r, BirthsOf(runs[..n]), runs[0].today.Number(), DayAfter(runs, n), states[n])
    ensures forall i :: 0 <= i < n ==> LocalRun(r, runs[i], states[i].tree).errors == 0
  {
    hide Regular, History, BirthsOf, Step, FitsAt, LocalRun, Follows;
    if n == 0 {
      StartsEmpty(r, runs, states);
      EmptyFollows(r, runs[0].today.Number());
      assert runs[..0] == [];
      assert BirthsOf([]) == map[] by { NoBirths(); }
    } else {
      HistoryAt(r, runs, states, n);
      HistoryFollowsSchedule(r, runs, states, n - 1);
      RunFollows(r, BirthsOf(runs[..n - 1]), runs[0].today.Number(), DayAfter(runs, n - 1), runs[n - 1],
                 states[n - 1], states[n]);
    }
  }

  lemma NoBirths()
    ensures BirthsOf([]) == map[]
  {
  }

  lemma HistoryAt(r: Retention, runs: seq<Run>, states: seq<Sys>, n: nat)
    requires History(r, runs, states) && 0 < n <= |runs|
    ensures |states| == |runs| + 1 && states[0] == EMPTY
    ensures Step(r, runs[n - 1], states[n - 1], states[n])
    ensures n > 1 ==> runs[n - 2].today.Number() <= runs[n - 1].today.Number() <= runs[n - 2].today.Number() + 1
    ensures n > 1 ==> runs[0].today.Number() <= runs[n - 2].today.Number()
    ensures runs[0].today.Number() <= runs[n - 1].today.Number()
    ensures n > 1 && r.useCount && Regular(r, runs) ==> runs[n - 1].today.Number() == runs[n - 2].today.Number() + 1
    ensures var run := runs[n - 1]; var h := BirthsOf(runs[..n - 1]);
            run.name !in h && BirthsOf(runs[..n]) == h[run.name := Birth(run.today, run.content)]
  {
    hide Step, BirthsOf;
    BirthsGrow(runs, n);
    BirthNames(runs[..n - 1]);
    assert forall i :: 0 <= i < n - 1 ==> runs[..n - 1][i].name == runs[i].name != runs[n - 1].name;
    if n > 1 {
      DaysAdvance(r, runs, states, 0, n - 2);
    }
  }

  lemma BirthsGrow(runs: seq<Run>, n: nat)
    requires 0 < n <= |runs|
    ensures var run := runs[n - 1];
            BirthsOf(runs[..n]) == BirthsOf(runs[..n - 1])[run.name := Birth(run.today, run.content)]
  {
    assert runs[..n][..n - 1] == runs[..n - 1];
  }

  lemma EmptyFollows(r: Retention, first: int)
    ensures Follows(r, map[], first, first - 1, EMPTY)
  {
  }

  // A history on which the two storages agree after every run, no rotation reporting an error.
  ghost predicate Agreeing(r: Retention, runs: seq<Run>, states: seq<Sys>)
    requires History(r, runs, states)
  {
    && (forall i :: 0 <= i < |states| ==> Agree(states[i].tree, states[i].copies))
    && (forall i :: 0 <= i < |runs| ==> LocalRun(r, runs[i], states[i].tree).errors == 0)
  }

  // One on which they hold the same backups, no rotation reporting an error.
  ghost predicate SameAllAlong(r: Retention, runs: seq<Run>, states: seq<Sys>)
    requires History(r, runs, states)
  {
    && (forall i :: 0 <= i < |states| ==> SameBackups(states[i].tree, states[i].copies))
    && (forall i :: 0 <= i < |runs| ==> LocalRun(r, runs[i], states[i].tree).errors == 0)
  }

  lemma FitsThroughout(r: Retention, first: int, last: int)
    requires NamesFit(r)
    ensures FitsThrough(r, first, last)
  {
    hide HandsOver, Refreshes, MonthStart;
    assert r.months != 0 && r.weeks != 0 ==> forall month :: NamesFitAt(r, month) ==> HandsOver(r, month) && Refreshes(r, month);
  }

  lemma FitsMeansNamesFit(r: Retention)
    ensures Fits(r) ==> NamesFit(r)
  {
    hide FitsAt, NamesFitAt;
    forall month
      ensures FitsAt(r, month) ==> NamesFitAt(r, month)
    {
      FitsInNames(r, month);
    }
  }

  // Where dates have to fit, too, no link is ever re-pointed.
  lemma NothingRefreshed(r: Retention, h: Births, n: int, k: Key)
    requires r.NonNegative() && BirthsOk(h) && Fits(r) && k.name in h && Lives(r, h, n, k)
    ensures !Refreshed(r, h, n, k)
  {
    hide MonthStart;
    DueMeans(r, h[k.name].today);
    assert r.months != 0 && r.weeks != 0 ==> FitsAt(r, h[k.name].today.month);
  }

  // After `n` runs both storages hold the same backups, of the same age if dates fit.
  lemma AgreesAfter(r: Retention, runs: seq<Run>, states: seq<Sys>, n: nat)
    requires r.NonNegative() && NamesFit(r) && n <= |runs|
    requires History(r, runs, states) && Regular(r, runs)
    ensures |states| == |runs| + 1
    ensures SameBackups(states[n].tree, states[n].copies)
    ensures Fits(r) ==> Agree(states[n].tree, states[n].copies)
    ensures forall i :: 0 <= i < n ==> LocalRun(r, runs[i], states[i].tree).errors == 0
  {
    StartsEmpty(r, runs, states);
    hide History, TreeIs, CopiesAre, Agree, SameBackups, LocalRun, OnePerDay, Regular, Fits, NamesFit, Lives, Refreshed;
    var h, day := map[], -1;
    if runs == [] {
      EmptyFollows(r, 0);
    } else {
      h, day := BirthsOf(runs[..n]), DayAfter(runs, n);
      FitsThroughout(r, runs[0].today.Number(), day);
      HistoryFollowsSchedule(r, runs, states, n);
    }
    if Fits(r) {
      forall k: Key | k.name in h && Lives(r, h, day, k)
        ensures !Refreshed(r, h, day, k)
      {
        NothingRefreshed(r, h, day, k);
      }
    }
    DescribedAgree(r, h, day, states[n].tree, states[n].copies);
  }

  // Refinement: local storage with its links resolved is the plain copy store, run after run.
  lemma LocalRefinesCopies(r: Retention, runs: seq<Run>, states: seq<Sys>)
    requires r.NonNegative() && Fits(r)
    requires History(r, runs, states) && Regular(r, runs)
    ensures Agreeing(r, runs, states)
  {
    StartsEmpty(r, runs, states);
    FitsMeansNamesFit(r);
    hide History, Agree, LocalRun, Regular, Fits, NamesFit;
    forall n | 0 <= n <= |runs|
      ensures Agree(states[n].tree, states[n].copies)
    {
      AgreesAfter(r, runs, states, n);
    }
    AgreesAfter(r, runs, states, |runs|);
  }

  // The same for names and contents, on more retention numbers.
  lemma LocalHoldsBackups(r: Retention, runs: seq<Run>, states: seq<Sys>)
    requires r.NonNegative() && NamesFit(r)
    requires History(r, runs, states) && Regular(r, runs)
    ensures SameAllAlong(r, runs, states)
  {
    StartsEmpty(r, runs, states);
    hide History, SameBackups, LocalRun, Regular, NamesFit;
    forall n | 0 <= n <= |runs|
      ensures SameBackups(states[n].tree, states[n].copies)
    {
      AgreesAfter(r, runs, states, n);
    }
    AgreesAfter(r, runs, states, |runs|);
  }

  lemma StartsEmpty(r: Retention, runs: seq<Run>, states: seq<Sys>)
    requires History(r, runs, states)
    ensures |states| == |runs| + 1 && states[0] == EMPTY
  {
  }
}
