/** What retention by count keeps, and that it agrees with retention by age.

    On a schedule of one run a day both modes, rotating first or last, keep the same copies: the
    last `Days` days, `Weeks` Sundays and `Months` firsts of the month.  On a directory from which the
    chosen names are just removed, as on a store of copies, the two rotation orders of count mode end
    with the same newest `count` archives; CountedArchives has the runs, and local storage. */
module RetentionModes {
  import opened BackupTree
  import opened Calendar
  import opened CopyStore
  import opened Expiry
  import opened Options
  import opened RotatedObjects
  import opened RotationRuns
  import opened Schedule

  /* ---- Histories of copies ---- */

  ghost predicate CopiesFollow(r: Retention, h: Births, first: int, day: int, c: Copies) {
    BirthsOk(h) && (r.useCount ==> OnePerDay(h, first, day)) && CopiesAre(r, h, day, c)
  }

  lemma CopyRunFollows(r: Retention, h: Births, first: int, m: int, run: Run, s: Sys, s': Sys)
    requires r.NonNegative() && CopiesFollow(r, h, first, m, s.copies) && Step(r, run, s, s') && run.name !in h
    requires first <= run.today.Number() && run.today.Number() - 1 <= m <= run.today.Number()
    requires r.useCount ==> m == run.today.Number() - 1
    ensures CopiesFollow(r, h[run.name := Birth(run.today, run.content)], first, run.today.Number(), s'.copies)
  {
    var g := h[run.name := Birth(run.today, run.content)];
    var n := run.today.Number();
    CountedPaces(r, h, first, m, run.today, run.name, run.content);
    hide Paced, OnePerDay, CopiesAre, DayOf, IsNeedToBackup, DuePeriods, DeleteLoop, Eligible;
    if !IsNeedToBackup(r, run.today) {
      IdleCopies(r, h, m, run, s.copies);
    } else if run.safe {
      CopiedAre(r, h, m, s.copies, run.today, run.name, run.content, run.copyTime);
      CopyExpiry(r, g, m, run.today, run.safe, Upload(r, run, s.copies), run.copyDeleted);
      RotatedCopies(r, g, m, run.today, Upload(r, run, s.copies), run.copyDeleted);
    } else {
      CopyExpiry(r, h, m, run.today, run.safe, s.copies, run.copyDeleted);
      RotatedCopies(r, h, m, run.today, s.copies, run.copyDeleted);
      CopiedAre(r, h, n, s.copies - run.copyDeleted, run.today, run.name, run.content, run.copyTime);
    }
  }

  lemma IdleCopies(r: Retention, h: Births, m: int, run: Run, c: Copies)
    requires r.NonNegative() && BirthsOk(h) && run.today.Valid() && !IsNeedToBackup(r, run.today)
    requires run.today.Number() - 1 <= m <= run.today.Number() && run.name !in h
    requires CopiesAre(r, h, m, c)
    ensures CopiesAre(r, h[run.name := Birth(run.today, run.content)], run.today.Number(), c)
  {
    var g := h[run.name := Birth(run.today, run.content)];
    var n := run.today.Number();
    SchedulesAgree(r, run.today);
    hide IsNeedToBackup, BirthsOk, CopiesAre, DuePeriods, ScannedPeriods, GetRetention;
    forall k
      ensures Lives(r, h, m, k) <==> Lives(r, g, n, k)
    {
      LivesAfterDelivery(r, h, n, run.today, run.name, run.content, k);
      hide Alive;
      if Lives(r, h, m, k) && !Lives(r, h, n, k) {
        ScannedIfExpires(r, h, m, run.today, k);
      }
      if Lives(r, h, n, k) {
        StillLives(r, h, m, n, k);
      }
    }
    SameCopies(r, h, m, g, n, c);
  }

  lemma SameCopies(r: Retention, h: Births, m: int, g: Births, n: int, c: Copies)
    requires forall k :: Lives(r, h, m, k) <==> Lives(r, g, n, k)
    requires forall s :: s in h ==> s in g && g[s] == h[s]
    requires CopiesAre(r, h, m, c)
    ensures CopiesAre(r, g, n, c)
  {
    hide DayOf, DuePeriods, Alive;
  }

  lemma {:induction false} CopiesFollowSchedule(r: Retention, runs: seq<Run>, states: seq<Sys>, n: nat)
    requires r.NonNegative() && History(r, runs, states) && Regular(r, runs) && n <= |runs| && runs != []
    ensures |states| == |runs| + 1
    ensures CopiesFollow(r, BirthsOf(runs[..n]), runs[0].today.Number(), DayAfter(runs, n), states[n].copies)
  {
    hide Regular, History, BirthsOf, Step, CopiesFollow;
    if n == 0 {
      StartsEmpty(r, runs, states);
      NothingYet(r, runs[0].today.Number());
      assert runs[..0] == [];
      assert BirthsOf([]) == map[] by { NoBirths(); }
    } else {
      HistoryAt(r, runs, states, n);
      CopiesFollowSchedule(r, runs, states, n - 1);
      CopyRunFollows(r, BirthsOf(runs[..n - 1]), runs[0].today.Number(), DayAfter(runs, n - 1), runs[n - 1],
                     states[n - 1], states[n]);
    }
  }

  lemma NothingYet(r: Retention, first: int)
    ensures CopiesFollow(r, map[], first, first - 1, map[])
  {
  }

  // The copies kept after the last of `n` runs: of each period the last `count` due days.
  lemma KeptCopies(r: Retention, runs: seq<Run>, states: seq<Sys>, n: nat, i: nat, p: Period)
    requires r.NonNegative() && History(r, runs, states) && Regular(r, runs) && i < n <= |runs|
    ensures |states| == |runs| + 1
    ensures runs[i].today.Valid() && runs[n - 1].today.Valid()
    ensures var k := Key(p, runs[i].name); var c := states[n].copies;
            && (k in c <==> p in DuePeriods(r, runs[i].today)
                            && SlotOf(p, runs[n - 1].today) - SlotOf(p, runs[i].today) < CountOf(r, p))
            && (k in c ==> c[k].content == runs[i].content && DayOf(c[k].mtime) == runs[i].today.Number())
  {
    CopiesFollowSchedule(r, runs, states, n);
    ValidDays(r, runs, states);
    BirthOf(r, runs, states, n, i);
    hide History, Regular, BirthsOf;
    if p in DuePeriods(r, runs[i].today) {
      AliveSlots(r, p, runs[i].today, runs[n - 1].today);
    }
  }

  lemma ValidDays(r: Retention, runs: seq<Run>, states: seq<Sys>)
    requires History(r, runs, states)
    ensures forall i :: 0 <= i < |runs| ==> runs[i].today.Valid()
  {
    forall i | 0 <= i < |runs|
      ensures runs[i].today.Valid()
    {
      assert Step(r, runs[i], states[i], states[i + 1]);
      hide LocalRun;
    }
  }

  lemma {:induction false} BirthOf(r: Retention, runs: seq<Run>, states: seq<Sys>, n: nat, i: nat)
    requires i < n <= |runs| && History(r, runs, states)
    ensures var h := BirthsOf(runs[..n]);
            runs[i].name in h && h[runs[i].name] == Birth(runs[i].today, runs[i].content)
    decreases n
  {
    BirthsGrow(runs, n);
    if i < n - 1 {
      hide BirthsOf, Step;
      BirthOf(r, runs, states, n - 1, i);
    }
  }

  lemma AliveSlots(r: Retention, p: Period, born: Date, now: Date)
    requires born.Valid() && now.Valid() && p in DuePeriods(r, born)
    ensures Alive(r, p, born, now.Number()) <==> SlotOf(p, now) - SlotOf(p, born) < CountOf(r, p)
  {
    DueMeans(r, born);
    hide DuePeriods;
    match p {
      case Daily =>
      case Weekly =>
      case Monthly =>
        hide MonthStart, MonthLength;
        NextMonth(born.month + r.months);
        DateOrder(now, Date(born.month + r.months, 1));
    }
  }

  // Age and count, rotating before or after: the same copies, as long as there is one run a day.
  lemma ModesCoincide(r: Retention, runs: seq<Run>, states: seq<Sys>, runs': seq<Run>, states': seq<Sys>, n: nat)
    requires r.NonNegative() && n <= |runs| == |runs'|
    requires History(r.(useCount := false), runs, states) && History(r.(useCount := true), runs', states')
    requires Regular(r.(useCount := true), runs')
    requires forall i :: 0 <= i < |runs| ==>
               runs[i].today == runs'[i].today && runs[i].name == runs'[i].name && runs[i].content == runs'[i].content
    ensures |states| == |states'| == |runs| + 1
    ensures var c, c' := states[n].copies, states'[n].copies;
            && c.Keys == c'.Keys
            && forall k :: k in c ==> c[k].content == c'[k].content && DayOf(c[k].mtime) == DayOf(c'[k].mtime)
  {
    hide History, Step;
    StartsEmpty(r.(useCount := false), runs, states);
    StartsEmpty(r.(useCount := true), runs', states');
    if runs != [] {
      CopiesFollowSchedule(r.(useCount := false), runs, states, n);
      CopiesFollowSchedule(r.(useCount := true), runs', states', n);
      SameBirths(runs, runs', n);
      hide BirthsOf, Regular, CopiesFollow, CopiesAre, DayOf;
      BothFollow(r, BirthsOf(runs[..n]), runs[0].today.Number(), DayAfter(runs, n), states[n].copies, states'[n].copies);
    }
  }

  lemma BothFollow(r: Retention, h: Births, first: int, day: int, c: Copies, c': Copies)
    requires CopiesFollow(r.(useCount := false), h, first, day, c)
    requires CopiesFollow(r.(useCount := true), h, first, day, c')
    ensures c.Keys == c'.Keys
    ensures forall k :: k in c ==> c[k].content == c'[k].content && DayOf(c[k].mtime) == DayOf(c'[k].mtime)
  {
    hide DayOf, DuePeriods, Alive, OnePerDay, BirthsOk, Lives;
    forall k
      ensures k in c <==> k in c'
    {
      ModeBlind(r, h, day, k);
    }
  }

  lemma ModeBlind(r: Retention, h: Births, day: int, k: Key)
    ensures Lives(r.(useCount := false), h, day, k) == Lives(r.(useCount := true), h, day, k)
  {
  }

  lemma {:induction false} SameBirths(runs: seq<Run>, runs': seq<Run>, n: nat)
    requires n <= |runs| == |runs'|
    requires forall i :: 0 <= i < |runs| ==>
               runs[i].today == runs'[i].today && runs[i].name == runs'[i].name && runs[i].content == runs'[i].content
    ensures BirthsOf(runs[..n]) == BirthsOf(runs'[..n])
  {
    if n > 0 {
      BirthsGrow(runs, n);
      BirthsGrow(runs', n);
      hide BirthsOf;
      SameBirths(runs, runs', n - 1);
    }
  }

  /* ---- One directory, counted ---- */

  // With distinct times counting leaves no choice.
  lemma CountedChoice(dir: map<string, int>, a: set<string>, b: set<string>)
    requires DistinctTimes(dir) && a <= EligibleNames(dir) && b <= EligibleNames(dir) && |a| == |b|
    requires forall x, y :: x in a && y in EligibleNames(dir) && y !in a ==> dir[x] <= dir[y]
    requires forall x, y :: x in b && y in EligibleNames(dir) && y !in b ==> dir[x] <= dir[y]
    ensures a == b
  {
    if a != b {
      var x :| (x in a && x !in b) || (x in b && x !in a);
      if x in a {
        LargerMissing(b, a, x);
      } else {
        LargerMissing(a, b, x);
      }
    }
  }

  lemma LargerMissing(a: set<string>, b: set<string>, x: string)
    requires |a| == |b| && x in b && x !in a
    ensures exists y :: y in a && y !in b
  {
    if a <= b {
      assert a < b;
      SmallerSubset(a, b, x);
    }
  }

  lemma SmallerSubset(a: set<string>, b: set<string>, x: string)
    requires a <= b && x in b && x !in a
    ensures |a| < |b|
  {
    assert a <= b - {x};
    SubsetSize(a, b - {x});
  }

  lemma NewestStays(dir: map<string, int>, name: string, time: int, count: int, deleted: set<string>)
    requires count > 0 && name !in dir && Eligible(name) && forall n :: n in dir ==> dir[n] < time
    requires IsRotation(dir[name := time], count, None, true, true, deleted)
    ensures EligibleNames(dir[name := time]) == EligibleNames(dir) + {name}
    ensures |EligibleNames(dir) + {name}| == |EligibleNames(dir)| + 1
    ensures name !in deleted && deleted <= EligibleNames(dir)
  {
    var all := EligibleNames(dir[name := time]);
    assert all == EligibleNames(dir) + {name};
    if count <= |all| {
      KeptSize(all, deleted);
      assert all - deleted != {};
      var b :| b in all - deleted;
      assert name in deleted ==> b in dir;
    }
  }

  lemma KeptSize(all: set<string>, deleted: set<string>)
    requires deleted <= all
    ensures |all - deleted| == |all| - |deleted|
  {
  }

  lemma SameDeleted(dir: map<string, int>, name: string, time: int, count: int, safe: set<string>, unsafe: set<string>)
    requires count > 0 && name !in dir && Eligible(name)
    requires DistinctTimes(dir) && forall n :: n in dir ==> dir[n] < time
    requires IsRotation(dir[name := time], count, None, true, true, safe)
    requires IsRotation(dir, count, None, true, false, unsafe)
    ensures safe == unsafe && name !in safe && safe <= EligibleNames(dir)
    ensures |safe| == if count <= |EligibleNames(dir)| + 1 then |EligibleNames(dir)| + 1 - count else 0
    ensures forall x, y :: x in EligibleNames(dir) && x !in safe && y in safe ==> dir[y] < dir[x]
  {
    var all := EligibleNames(dir);
    NewestStays(dir, name, time, count, safe);
    hide Eligible;
    if count <= |all| + 1 {
      assert forall x, y :: x in safe && y in all && y !in safe ==> dir[name := time][x] <= dir[name := time][y];
      CountedChoice(dir, safe, unsafe);
    } else {
      assert |safe| == 0 && |unsafe| == 0;
    }
  }

  // Deliver then rotate, or rotate then deliver: a directory that loses the chosen names ends with the
  // same files, the newest min(n + 1, count) eligible ones.
  lemma OrdersAgree(dir: map<string, int>, name: string, time: int, count: int, safe: set<string>, unsafe: set<string>)
    requires count > 0 && name !in dir && Eligible(name)
    requires DistinctTimes(dir) && forall n :: n in dir ==> dir[n] < time
    requires IsRotation(dir[name := time], count, None, true, true, safe)
    requires IsRotation(dir, count, None, true, false, unsafe)
    ensures dir[name := time] - safe == (dir - unsafe)[name := time]
    ensures var after := dir[name := time] - safe; var n := |EligibleNames(dir)|;
            && |EligibleNames(after)| == (if n + 1 < count then n + 1 else count)
            && (forall x, y :: x in EligibleNames(after) && y in safe ==> y in dir && dir[y] < after[x])
            && (forall s :: s in dir && !Eligible(s) ==> s in after)
  {
    SameDeleted(dir, name, time, count, safe, unsafe);
    NewestStays(dir, name, time, count, safe);
    var all := EligibleNames(dir);
    var after := dir[name := time] - safe;
    AfterRotation(dir, name, time, safe);
    KeptSize(all + {name}, safe);
    hide IsRotation, DistinctTimes;
    forall x, y | x in EligibleNames(after) && y in safe
      ensures y in dir && dir[y] < after[x]
    {
      assert y in all;
      assert x == name || x in all;
    }
    hide EligibleNames, Eligible;
  }

  lemma AfterRotation(dir: map<string, int>, name: string, time: int, deleted: set<string>)
    requires name !in dir && Eligible(name) && name !in deleted && deleted <= EligibleNames(dir)
    ensures dir[name := time] - deleted == (dir - deleted)[name := time]
    ensures EligibleNames(dir[name := time] - deleted) == (EligibleNames(dir) + {name}) - deleted
    ensures forall s :: s in dir && !Eligible(s) ==> s in dir[name := time] - deleted
  {
  }

  // What "safe" buys: when nothing new was delivered, a rotation that came last has kept the newest
  // `count` archives, one that came first a single one less.
  lemma FailedRunKeeps(dir: map<string, int>, count: int, safe: bool, deleted: set<string>)
    requires count > 0 && IsRotation(dir, count, None, true, safe, deleted)
    ensures var n, keep := |EligibleNames(dir)|, if safe then count else count - 1;
            |EligibleNames(dir - deleted)| == if n < keep then n else keep
  {
    assert EligibleNames(dir - deleted) == EligibleNames(dir) - deleted;
    KeptSize(EligibleNames(dir), deleted);
  }
}
