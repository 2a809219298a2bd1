/** One job on one local and one remote storage, run after run (modules/backup/backup.go): the
    storages' own methods, in the order `Perform` calls them, carry out a step of the histories that
    RotationRuns and RetentionModes reason about. */
module JobRuns {
  import opened BackupTree
  import opened Calendar
  import opened CopyStore
  import opened LocalDelivery
  import opened Options
  import opened Paths
  import opened RotatedObjects
  import opened RotationRuns
  import opened Schedule
  import LocalStorage

  // What a run is given: the day, the dump and where it lies, and what the clocks will show.  The
  // rename may fail and fall back to copying.
  datatype Day = Day(today: Date, safe: bool, tmp: Path, content: Content, dumpTime: int, now: int, renameFails: bool,
                     linkTime: Period -> int, copyTime: Period -> int, clock: Key -> int)
  {
    ghost predicate Valid() {
      && today.Valid() && tmp != [] && Plain(tmp) && Eligible(Name())
      && DayOf(dumpTime) == today.Number() && DayOf(now) == today.Number()
      && (forall p :: DayOf(linkTime(p)) == today.Number()) && (forall p :: DayOf(copyTime(p)) == today.Number())
      && (forall k :: DayOf(clock(k)) == today.Number())
    }

    function Name(): string
      requires tmp != []
    {
      tmp[|tmp| - 1]
    }

    // The storages' faults, a failing rename aside.
    function Faults(): Faults {
      LocalDelivery.Faults(false, renameFails, false, false, None, _ => LinkFault.NoFault)
    }

    function FileTime(): int {
      if renameFails then now else dumpTime
    }
  }

  ghost function RunOf(d: Day, deleted: set<Key>, order: seq<Key>, copyDeleted: set<Key>): Run
    requires d.tmp != []
  {
    Run(d.today, d.safe, d.Name(), d.content, d.FileTime(), d.linkTime, d.copyTime, d.clock, deleted, order, copyDeleted)
  }

  lemma NothingToDelete(t: Tree, c: Copies, r: Retention, today: Date, safe: bool)
    requires r.NonNegative() && !IsNeedToBackup(r, today)
    ensures LocalStorage.IsDeleteSet(t, r, today, safe, {}) && CopyStore.IsDeleteSet(c, r, today, safe, {})
  {
    SchedulesAgree(r, today);
    hide IsRotation, GetRetention, ScannedPeriods, DuePeriods;
    forall p: Period
      ensures GetRetention(p, r, today) == (0, None) && NamesIn({}, p) == {}
    {
      ScannedMeans(p, r, today);
    }
  }

  // Dump and delivery: the remote storage first, the local one last, as it takes the dump away.
  method DoBackup(d: Day, local: LocalStorage.Local, sftp: Sftp)
    requires d.Valid() && local.PlainNames() && local.retention == sftp.retention
    requires local.retention.NonNegative() && Fresh(local.tree, d.Name())
    modifies local, sftp
    ensures local.PlainNames()
    ensures var due := DuePeriods(local.retention, d.today);
            && local.tree == (if due == [] then old(local.tree)
                              else Delivered(old(local.tree), due, d.Name(), File(d.content, d.FileTime()), d.linkTime))
            && sftp.store == Copied(old(sftp.store), due, d.Name(), d.content, d.copyTime)
    ensures local.temps == old(local.temps) - {d.tmp}
  {
    hide DayOf, DuePeriods, Plain, Delivered, Copied, CopyAll, DeliverWith, Eligible;
    var f := d.Faults();
    local.temps := local.temps[d.tmp := TempFile(d.content, d.dumpTime)];
    ghost var due := DuePeriods(local.retention, d.today);
    SchedulesAgree(local.retention, d.today);
    var uploaded := sftp.DeliverBackup(d.Name(), d.content, d.today, _ => CopyFault.NoFault, d.copyTime);
    UploadSucceeds(old(sftp.store), due, d.Name(), d.content, _ => CopyFault.NoFault, d.copyTime);
    ghost var before := Disk(local.tree, local.temps);
    var ok;
    ghost var order;
    ok, order := local.DeliverBackup(d.tmp, d.today, f, d.now, d.linkTime);
    if due == [] {
      NothingDue(before, d.Name(), d.tmp, f, d.now, order, d.linkTime);
    } else {
      assert Key(due[0], d.Name()) !in before.tree;
      DeliverySucceeds(before, due, d.Name(), d.tmp, f, d.now, order, d.linkTime);
    }
    local.temps := local.temps - {d.tmp};
  }

  lemma NothingDue(d: Disk, name: string, tmp: Path, f: Faults, now: int, order: seq<Period>, linkTime: Period -> int)
    ensures DeliverWith(d, [], name, tmp, f, now, order, linkTime) == (d, true)
  {
  }

  // Each storage rotates if its configuration says so.
  method DeleteOldBackups(d: Day, local: LocalStorage.Local, sftp: Sftp)
    returns (errors: nat, ghost deleted: set<Key>, ghost order: seq<Key>, ghost copyDeleted: set<Key>)
    requires local.Valid() && local.retention == sftp.retention
    modifies local`tree, sftp`store
    ensures local.Valid() && local.tree.Keys <= old(local.tree).Keys
    ensures sftp.store == old(sftp.store) - copyDeleted
    ensures if sftp.rotateEnabled
            then CopyStore.IsDeleteSet(old(sftp.store), local.retention, d.today, d.safe, copyDeleted)
            else copyDeleted == {} && sftp.store == old(sftp.store)
    ensures if local.rotateEnabled
            then
              && LocalStorage.IsDeleteSet(old(local.tree), local.retention, d.today, d.safe, deleted)
              && Enumerates(order, deleted)
              && var p := DeleteLoop(old(local.tree), deleted,
                                     ScanRecords(old(local.tree), ScannedPeriods(local.retention, d.today)), order, d.clock);
                 local.tree == p.tree && errors == p.errors
            else deleted == {} && order == [] && local.tree == old(local.tree) && errors == 0
  {
    hide DeleteLoop, ScannedPeriods, LocalStorage.IsDeleteSet, CopyStore.IsDeleteSet, Shape, LocalStorage.Local.PlainNames;
    var remote;
    remote, copyDeleted := sftp.DeleteOldBackups(d.today, d.safe, {}, {});
    assert copyDeleted - {} == copyDeleted && copyDeleted * {} == {};
    errors, deleted, order := local.DeleteOldBackups(d.today, d.safe, {}, d.clock);
    if local.rotateEnabled {
      LocalStorage.ChosenRotation(old(local.tree), local.retention, d.today, d.safe, deleted, order, d.clock);
    } else {
      deleted, order := {}, [];
    }
  }

  // No backup name is new, but for today's.
  ghost predicate NamesPlus(t: Tree, u: Tree, name: string) {
    forall k :: k in u ==> k.name == name || Named(t, k.name)
  }

  ghost predicate Named(t: Tree, name: string) {
    exists p :: Key(p, name) in t
  }

  lemma NamesThrough(t: Tree, u: Tree, v: Tree, w: Tree, name: string)
    requires u.Keys <= t.Keys && NamesPlus(u, v, name) && w.Keys <= v.Keys
    ensures NamesPlus(t, w, name)
  {
    forall k | k in w
      ensures k.name == name || Named(t, k.name)
    {
      if k.name != name {
        var p :| Key(p, k.name) in u;
        assert Key(p, k.name) in t;
      }
    }
  }

  lemma NamesOfSubtree(t: Tree, u: Tree, name: string)
    requires u.Keys <= t.Keys
    ensures NamesPlus(t, u, name)
    ensures Fresh(t, name) ==> Fresh(u, name)
  {
    forall k | k in u
      ensures Named(t, k.name)
    {
      assert Key(k.period, k.name) in t;
    }
  }

  // Today's delivery into a tree that does not know its name.
  lemma ReadyTree(r: Retention, run: Run, t: Tree)
    requires Shape(t) && Fresh(t, run.name) && DuePeriods(r, run.today) != []
    ensures Shape(Deliver(r, run, t)) && NamesPlus(t, Deliver(r, run, t), run.name)
  {
    LocalStorage.SchedulesAreDescending(r, run.today);
    hide DuePeriods, Delivered, Shape, Descending;
    DeliveredReads(t, DuePeriods(r, run.today), run.name, run.content, run.fileTime, run.linkTime);
    forall k | k in Deliver(r, run, t)
      ensures k.name == run.name || Named(t, k.name)
    {
      assert k in t ==> Key(k.period, k.name) in t;
    }
  }

  // A run that ends when its temporary directory cannot be made: only a rotation that comes first
  // has happened.
  ghost predicate Aborted(r: Retention, run: Run, s: Sys, s': Sys) {
    if !IsNeedToBackup(r, run.today) || run.safe then s' == s
    else Admissible(r, run, s) && s' == Sys(Rotate(r, run, s.tree).tree, s.copies - run.copyDeleted)
  }

  // What one storage's part in a run is, whatever the other's configuration.
  ghost predicate LocalPart(r: Retention, run: Run, t: Tree, t': Tree) {
    && LocalStorage.IsDeleteSet(if run.safe then Deliver(r, run, t) else t, r, run.today, run.safe, run.deleted)
    && Enumerates(run.order, run.deleted) && t' == LocalRun(r, run, t).tree
  }

  ghost predicate CopyPart(r: Retention, run: Run, c: Copies, c': Copies) {
    && CopyStore.IsDeleteSet(if run.safe then Upload(r, run, c) else c, r, run.today, run.safe, run.copyDeleted)
    && c' == CopyRun(r, run, c)
  }

  // A whole run.  With rotation switched on and a temporary directory it is a step of a history.
  method Perform(d: Day, tmpDirFails: bool, local: LocalStorage.Local, sftp: Sftp) returns (errors: nat, ghost run: Run)
    requires d.Valid() && local.Valid() && local.retention == sftp.retention && local.retention.NonNegative()
    requires Fresh(local.tree, d.Name())
    modifies local, sftp
    ensures local.Valid()
    ensures NamesPlus(old(local.tree), local.tree, d.Name())
    ensures run == RunOf(d, run.deleted, run.order, run.copyDeleted)
    ensures local.rotateEnabled && sftp.rotateEnabled && !tmpDirFails ==>
              && Step(local.retention, run, old(Sys(local.tree, sftp.store)), Sys(local.tree, sftp.store))
              && errors == LocalRun(local.retention, run, old(local.tree)).errors
    ensures local.rotateEnabled && sftp.rotateEnabled && tmpDirFails ==>
              && Aborted(local.retention, run, old(Sys(local.tree, sftp.store)), Sys(local.tree, sftp.store))
    ensures local.rotateEnabled && !tmpDirFails ==>
              LocalPart(local.retention, run, old(local.tree), local.tree) && errors == LocalRun(local.retention, run, old(local.tree)).errors
    ensures sftp.rotateEnabled && !tmpDirFails ==> CopyPart(local.retention, run, old(sftp.store), sftp.store)
    ensures !local.rotateEnabled ==>
              local.tree == if IsNeedToBackup(local.retention, d.today) && !tmpDirFails
                            then Deliver(local.retention, run, old(local.tree)) else old(local.tree)
    ensures tmpDirFails ==>
              errors == if !IsNeedToBackup(local.retention, d.today) then 0
                        else 1 + if d.safe || !local.rotateEnabled then 0
                                 else Rotate(local.retention, run, old(local.tree)).errors
    ensures !local.rotateEnabled && !tmpDirFails ==> errors == 0
    ensures !sftp.rotateEnabled ==>
              sftp.store == if IsNeedToBackup(local.retention, d.today) && !tmpDirFails
                            then Upload(local.retention, run, old(sftp.store)) else old(sftp.store)
  {
    hide DeleteLoop, IsNeedToBackup, LocalStorage.IsDeleteSet, CopyStore.IsDeleteSet, Shape, DuePeriods, DayOf, Eligible,
         ScannedPeriods, Delivered, Copied, Plain, Fresh, NamesPlus, Named, LocalStorage.Local.PlainNames;
    errors, run := 0, RunOf(d, {}, [], {});
    ghost var r := local.retention;
    ghost var deleted: set<Key>, order: seq<Key>, copyDeleted: set<Key> := {}, [], {};
    NamesOfSubtree(local.tree, local.tree, d.Name());
    if !IsNeedToBackup(local.retention, d.today) {
      NothingToDelete(if d.safe then Deliver(r, run, local.tree) else local.tree,
                      if d.safe then Upload(r, run, sftp.store) else sftp.store, r, d.today, d.safe);
      return;
    }
    SchedulesAgree(r, d.today);
    if !d.safe {
      errors, deleted, order, copyDeleted := DeleteOldBackups(d, local, sftp);
      run := RunOf(d, deleted, order, copyDeleted);
      NamesOfSubtree(old(local.tree), local.tree, d.Name());
    }
    if tmpDirFails {
      errors := errors + 1;
      return;
    }
    ghost var t := local.tree;
    ReadyTree(r, run, t);
    DoBackup(d, local, sftp);
    ghost var u := local.tree;
    if d.safe {
      errors, deleted, order, copyDeleted := DeleteOldBackups(d, local, sftp);
      run := RunOf(d, deleted, order, copyDeleted);
    }
    NamesThrough(old(local.tree), t, u, local.tree, d.Name());
  }

  /* ---- Day after day ---- */

  // At least one run a day, exactly one when counting, each under a name of its own.
  ghost predicate Calendared(r: Retention, days: seq<Day>) {
    && (forall i :: 0 <= i < |days| ==> days[i].tmp != [] && days[i].Valid())
    && (forall i, j :: 0 <= i < j < |days| ==> days[i].Name() != days[j].Name())
    && (forall i :: 0 < i < |days| ==> Follow(r, days[i - 1].today, days[i].today))
  }

  ghost predicate Follow(r: Retention, a: Date, b: Date) {
    a.Number() <= b.Number() <= a.Number() + 1 && (r.useCount ==> b.Number() == a.Number() + 1)
  }

  ghost predicate Performs(runs: seq<Run>, days: seq<Day>) {
    && |runs| == |days|
    && forall i :: 0 <= i < |runs| ==>
         days[i].tmp != [] && runs[i] == RunOf(days[i], runs[i].deleted, runs[i].order, runs[i].copyDeleted)
  }

  // The first `i` days are over: what was run is a history that ends in the storages' state.
  ghost predicate Over(r: Retention, days: seq<Day>, i: nat, runs: seq<Run>, states: seq<Sys>, s: Sys)
    requires i <= |days|
  {
    |runs| == i && |states| == i + 1 && Performs(runs, days[..i]) && History(r, runs, states) && states[i] == s
  }

  lemma PerformsMore(days: seq<Day>, i: nat, runs: seq<Run>, run: Run)
    requires i < |days| && Performs(runs, days[..i]) && days[i].tmp != []
    requires run == RunOf(days[i], run.deleted, run.order, run.copyDeleted)
    ensures Performs(runs + [run], days[..i + 1])
  {
    hide RunOf;
    assert forall j :: 0 <= j < i ==> days[..i][j] == days[..i + 1][j];
    assert days[..i + 1][i] == days[i];
  }

  lemma NewRun(r: Retention, days: seq<Day>, i: nat, runs: seq<Run>, run: Run)
    requires Calendared(r, days) && i < |days| && Performs(runs, days[..i])
    requires run == RunOf(days[i], run.deleted, run.order, run.copyDeleted)
    ensures forall j :: 0 <= j < i ==> runs[j].name != run.name
    ensures i > 0 ==> runs[i - 1].today.Number() <= run.today.Number() <= runs[i - 1].today.Number() + 1
  {
    hide Day.Valid, Day.Faults, Day.FileTime;
    assert forall j :: 0 <= j < i ==> days[..i][j] == days[j];
    if i > 0 {
      assert Follow(r, days[i - 1].today, days[i].today);
    }
  }

  lemma OneMore(r: Retention, days: seq<Day>, i: nat, runs: seq<Run>, states: seq<Sys>, s: Sys, run: Run, s': Sys)
    requires Calendared(r, days) && i < |days| && Over(r, days, i, runs, states, s)
    requires run == RunOf(days[i], run.deleted, run.order, run.copyDeleted) && Step(r, run, s, s')
    ensures Over(r, days, i + 1, runs + [run], states + [s'], s')
  {
    hide Step, Day.Valid, RunOf, Performs;
    NewRun(r, days, i, runs, run);
    PerformsMore(days, i, runs, run);
  }

  // The names in the tree are those of the days gone by.
  ghost predicate NamesSoFar(days: seq<Day>, i: nat, t: Tree)
    requires i <= |days| && forall j :: 0 <= j < |days| ==> days[j].tmp != []
  {
    forall k :: k in t ==> exists j :: 0 <= j < i && days[j].Name() == k.name
  }

  lemma NameIsNew(r: Retention, days: seq<Day>, i: nat, t: Tree)
    requires Calendared(r, days) && i < |days| && NamesSoFar(days, i, t)
    ensures Fresh(t, days[i].Name())
  {
    hide Day.Valid;
    forall k | k in t
      ensures k.name != days[i].Name()
    {
      var j :| 0 <= j < i && days[j].Name() == k.name;
    }
  }

  lemma NamesGrow(r: Retention, days: seq<Day>, i: nat, t: Tree, u: Tree)
    requires Calendared(r, days) && i < |days| && NamesSoFar(days, i, t) && NamesPlus(t, u, days[i].Name())
    ensures NamesSoFar(days, i + 1, u)
  {
    hide Day.Valid;
    forall k | k in u
      ensures exists j :: 0 <= j < i + 1 && days[j].Name() == k.name
    {
      if k.name != days[i].Name() {
        var p :| Key(p, k.name) in t;
        var j :| 0 <= j < i && days[j].Name() == Key(p, k.name).name;
      }
    }
  }

  // The errors all the rotations of a history report.
  ghost function Failures(r: Retention, runs: seq<Run>, states: seq<Sys>): nat
    requires |states| > |runs|
  {
    if runs == [] then 0
    else
      var n := |runs| - 1;
      Failures(r, runs[..n], states[..n + 1]) + LocalRun(r, runs[n], states[n].tree).errors
  }

  lemma {:induction false} NoFailures(r: Retention, runs: seq<Run>, states: seq<Sys>)
    requires |states| > |runs|
    requires forall i :: 0 <= i < |runs| ==> LocalRun(r, runs[i], states[i].tree).errors == 0
    ensures Failures(r, runs, states) == 0
  {
    hide LocalRun;
    if runs != [] {
      NoFailures(r, runs[..|runs| - 1], states[..|runs|]);
    }
  }

  lemma FailuresGrow(r: Retention, runs: seq<Run>, states: seq<Sys>, run: Run, s: Sys)
    requires |states| == |runs| + 1
    ensures Failures(r, runs + [run], states + [s])
            == Failures(r, runs, states) + LocalRun(r, run, states[|runs|].tree).errors
  {
    hide LocalRun;
    assert (runs + [run])[..|runs|] == runs && (states + [s])[..|runs| + 1] == states;
  }

  lemma OneDay(r: Retention, days: seq<Day>, i: nat, runs: seq<Run>, states: seq<Sys>, s: Sys, run: Run, s': Sys)
    requires Calendared(r, days) && i < |days| && Over(r, days, i, runs, states, s)
    requires run == RunOf(days[i], run.deleted, run.order, run.copyDeleted) && Step(r, run, s, s')
    ensures Over(r, days, i + 1, runs + [run], states + [s'], s')
    ensures |states| == |runs| + 1
    ensures Failures(r, runs + [run], states + [s']) == Failures(r, runs, states) + LocalRun(r, run, s.tree).errors
  {
    OneMore(r, days, i, runs, states, s, run, s');
    hide Performs, History, Step, LocalRun, Failures, Calendared;
    FailuresGrow(r, runs, states, run, s');
  }

  lemma Outset(r: Retention, days: seq<Day>)
    ensures Over(r, days, 0, [], [EMPTY], EMPTY) && Failures(r, [], [EMPTY]) == 0
  {
  }

  lemma RegularRuns(r: Retention, days: seq<Day>, runs: seq<Run>)
    requires Calendared(r, days) && Performs(runs, days)
    ensures Regular(r, runs)
  {
    hide Day.Valid, Day.Faults, Day.FileTime;
    forall i | 0 < i < |runs|
      ensures r.useCount ==> runs[i].today.Number() == runs[i - 1].today.Number() + 1
    {
      assert Follow(r, days[i - 1].today, days[i].today);
    }
  }

  // All that has been run: a history, and an agreeing one if the retention numbers fit.
  lemma AllOver(r: Retention, days: seq<Day>, runs: seq<Run>, states: seq<Sys>, s: Sys)
    requires r.NonNegative() && Calendared(r, days) && Over(r, days, |days|, runs, states, s)
    ensures Performs(runs, days) && |states| == |runs| + 1 == |days| + 1 && states[|days|] == s
    ensures History(r, runs, states)
    ensures Fits(r) ==> Agreeing(r, runs, states) && Failures(r, runs, states) == 0
  {
    hide Step, Day.Valid, Fits, Regular, LocalRun, Agree;
    assert days[..|days|] == days;
    RegularRuns(r, days, runs);
    if Fits(r) {
      hide History, Calendared, Performs;
      LocalRefinesCopies(r, runs, states);
      NoFailures(r, runs, states);
    }
  }

  // The two storages driven over any number of days, whatever the retention numbers: the runs are a
  // history, and where the numbers fit, the storages hold the same backups at the end of each day.
  method Operate(days: seq<Day>, local: LocalStorage.Local, sftp: Sftp)
    returns (failures: nat, ghost runs: seq<Run>, ghost states: seq<Sys>)
    requires Calendared(local.retention, days) && local.retention == sftp.retention && local.retention.NonNegative()
    requires local.rotateEnabled && sftp.rotateEnabled
    requires Plain(local.base) && local.tree == map[] && sftp.store == map[]
    modifies local, sftp
    ensures local.Valid()
    ensures Performs(runs, days) && |states| == |runs| + 1 == |days| + 1 && states[|days|] == Sys(local.tree, sftp.store)
    ensures History(local.retention, runs, states) && failures == Failures(local.retention, runs, states)
    ensures Fits(local.retention) ==> Agreeing(local.retention, runs, states) && failures == 0
  {
    ghost var r := local.retention;
    runs, states, failures := [], [EMPTY], 0;
    Outset(r, days);
    hide Step, Day.Valid, Fits, Shape, Fresh, LocalRun, Plain, Over, Agreeing, History, Performs, NamesSoFar, NamesPlus,
         Failures;
    assert NamesSoFar(days, 0, local.tree) by { NoNames(days); }
    for i := 0 to |days|
      invariant local.Valid() && |states| == |runs| + 1 && failures == Failures(r, runs, states)
      invariant Over(r, days, i, runs, states, Sys(local.tree, sftp.store)) && NamesSoFar(days, i, local.tree)
    {
      ghost var s := Sys(local.tree, sftp.store);
      NameIsNew(r, days, i, local.tree);
      ghost var run;
      var errors;
      errors, run := Perform(days[i], false, local, sftp);
      OneDay(r, days, i, runs, states, s, run, Sys(local.tree, sftp.store));
      NamesGrow(r, days, i, s.tree, local.tree);
      runs, states := runs + [run], states + [Sys(local.tree, sftp.store)];
      failures := failures + errors;
    }
    AllOver(r, days, runs, states, Sys(local.tree, sftp.store));
  }

  lemma NoNames(days: seq<Day>)
    requires forall j :: 0 <= j < |days| ==> days[j].tmp != []
    ensures NamesSoFar(days, 0, map[])
  {
  }
}
