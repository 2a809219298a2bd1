/** How many archives retention by count keeps, over any runs: several a day, with days left out, in
    either rotation order.

    On a store of copies every directory holds the newest `count` of what it was given.  On local
    storage the same number is there as long as the delete loop is not stopped; a file that stops it
    can leave more. */
module CountedArchives {
  import opened BackupTree
  import opened Calendar
  import opened CopyStore
  import opened Expiry
  import opened LocalDelivery
  import opened Options
  import opened RotatedObjects
  import opened RotationRuns
  import opened Schedule
  import LocalStorage

  // Runs from empty storages, each with a name of its own; the days are any.
  ghost predicate Chain(r: Retention, runs: seq<Run>, states: seq<Sys>) {
    && |states| == |runs| + 1 && states[0] == EMPTY
    && (forall i :: 0 <= i < |runs| ==> Step(r, runs[i], states[i], states[i + 1]))
    && (forall i, j :: 0 <= i < j < |runs| ==> runs[i].name != runs[j].name)
  }

  lemma HistoriesAreChains(r: Retention, runs: seq<Run>, states: seq<Sys>)
    requires History(r, runs, states)
    ensures Chain(r, runs, states)
  {
    hide Step;
  }

  // The archives among some keys, in one directory.
  ghost function Archives(keys: set<Key>, p: Period): set<string> {
    set k | k in keys && k.period == p && Eligible(k.name) :: k.name
  }

  function Min(a: int, b: int): int {
    if a < b then a else b
  }

  // How many of the runs from `from` on, before `n`, gave the directory an archive.
  function Given(r: Retention, runs: seq<Run>, p: Period, from: nat, n: nat): nat
    requires n <= |runs|
    decreases n
  {
    if n <= from then 0
    else Given(r, runs, p, from, n - 1) + (if p in DuePeriods(r, runs[n - 1].today) then 1 else 0)
  }

  /* ---- One run, on keys ---- */

  ghost function DueKeys(r: Retention, today: Date, name: string): set<Key> {
    set p | p in DuePeriods(r, today) :: Key(p, name)
  }

  // The rotation by count of one directory: as many of its archives as are too many.
  ghost predicate Thins(archives: set<string>, keep: int, deleted: set<string>) {
    deleted <= archives && |deleted| == if keep <= |archives| then |archives| - keep else 0
  }

  ghost predicate ThinsOut(r: Retention, today: Date, safe: bool, keys: set<Key>, deleted: set<Key>) {
    forall p ::
      if p in DuePeriods(r, today)
      then Thins(Archives(keys, p), if safe then CountOf(r, p) else CountOf(r, p) - 1, NamesIn(deleted, p))
      else NamesIn(deleted, p) == {}
  }

  lemma RotationThins(dir: map<string, int>, count: int, date: Option<int>, safe: bool, names: set<string>)
    requires count > 0 && IsRotation(dir, count, date, true, safe, names)
    ensures Thins(EligibleNames(dir), if safe then count else count - 1, names)
  {
  }

  lemma LocalThins(t: Tree, r: Retention, today: Date, safe: bool, deleted: set<Key>)
    requires r.useCount && r.NonNegative() && LocalStorage.IsDeleteSet(t, r, today, safe, deleted)
    ensures ThinsOut(r, today, safe, t.Keys, deleted)
  {
    SchedulesAgree(r, today);
    hide IsRotation, GetRetention, DuePeriods, Eligible, ScannedPeriods;
    forall p: Period
      ensures if p in DuePeriods(r, today)
              then Thins(Archives(t.Keys, p), if safe then CountOf(r, p) else CountOf(r, p) - 1, NamesIn(deleted, p))
              else NamesIn(deleted, p) == {}
    {
      var (count, date) := GetRetention(p, r, today);
      assert LocalStorage.Chosen(t, r, today, safe, p, NamesIn(deleted, p));
      ScannedMeans(p, r, today);
      if p in DuePeriods(r, today) {
        CountIs(p, r, today);
        RotationThins(LocalStorage.Listing(t, p), count, date, safe, NamesIn(deleted, p));
        assert EligibleNames(LocalStorage.Listing(t, p)) == Archives(t.Keys, p);
      }
    }
  }

  lemma CopiesThin(c: Copies, r: Retention, today: Date, safe: bool, deleted: set<Key>)
    requires r.useCount && r.NonNegative() && CopyStore.IsDeleteSet(c, r, today, safe, deleted)
    ensures ThinsOut(r, today, safe, c.Keys, deleted)
  {
    SchedulesAgree(r, today);
    hide IsRotation, GetRetention, DuePeriods, Eligible, ScannedPeriods;
    forall p: Period
      ensures if p in DuePeriods(r, today)
              then Thins(Archives(c.Keys, p), if safe then CountOf(r, p) else CountOf(r, p) - 1, NamesIn(deleted, p))
              else NamesIn(deleted, p) == {}
    {
      var (count, date) := GetRetention(p, r, today);
      assert CopyStore.Chosen(c, r, today, safe, p, deleted);
      ScannedMeans(p, r, today);
      if p in DuePeriods(r, today) {
        CountIs(p, r, today);
        RotationThins(CopyStore.Listing(c, p), count, date, safe, NamesIn(deleted, p));
        assert EligibleNames(CopyStore.Listing(c, p)) == Archives(c.Keys, p);
      }
    }
  }

  lemma CountIs(p: Period, r: Retention, today: Date)
    requires p in DuePeriods(r, today)
    ensures GetRetention(p, r, today).0 == CountOf(r, p) > 0
  {
  }

  lemma ArchivesLess(keys: set<Key>, deleted: set<Key>, p: Period)
    requires NamesIn(deleted, p) <= Archives(keys, p)
    ensures Archives(keys - deleted, p) == Archives(keys, p) - NamesIn(deleted, p)
    ensures |Archives(keys - deleted, p)| == |Archives(keys, p)| - |NamesIn(deleted, p)|
  {
    forall s
      ensures s in Archives(keys - deleted, p) <==> s in Archives(keys, p) - NamesIn(deleted, p)
    {
      assert s in NamesIn(deleted, p) <==> Key(p, s) in deleted;
      assert s in Archives(keys, p) <==> Key(p, s) in keys && Eligible(s);
      assert s in Archives(keys - deleted, p) <==> Key(p, s) in keys - deleted && Eligible(s);
    }
  }

  lemma ArchivesMore(r: Retention, today: Date, name: string, keys: set<Key>, p: Period)
    requires Eligible(name) && forall q :: Key(q, name) !in keys
    ensures var more := Archives(keys + DueKeys(r, today, name), p);
            && more == Archives(keys, p) + (if p in DuePeriods(r, today) then {name} else {})
            && |more| == |Archives(keys, p)| + (if p in DuePeriods(r, today) then 1 else 0)
  {
    hide DuePeriods, Eligible, Archives;
    forall s
      ensures s in Archives(keys + DueKeys(r, today, name), p)
              <==> s in Archives(keys, p) || (s == name && p in DuePeriods(r, today))
    {
      ArchiveAt(keys, p, s);
      ArchiveAt(keys + DueKeys(r, today, name), p, s);
    }
    ArchiveAt(keys, p, name);
  }

  lemma ArchiveAt(keys: set<Key>, p: Period, s: string)
    ensures s in Archives(keys, p) <==> Key(p, s) in keys && Eligible(s)
  {
    hide Eligible;
  }

  // The keys after a run that deletes exactly what it means to.
  ghost function KeysAfter(r: Retention, today: Date, safe: bool, name: string, keys: set<Key>, deleted: set<Key>): set<Key> {
    if safe then keys + DueKeys(r, today, name) - deleted else keys - deleted + DueKeys(r, today, name)
  }

  // Either order ends with min(n + 1, count) archives in a due directory, and changes no other.
  lemma OneCounted(r: Retention, today: Date, safe: bool, name: string, keys: set<Key>, deleted: set<Key>, p: Period)
    requires r.NonNegative() && Eligible(name) && forall q :: Key(q, name) !in keys
    requires ThinsOut(r, today, safe, if safe then keys + DueKeys(r, today, name) else keys, deleted)
    ensures var n := |Archives(keys, p)|;
            |Archives(KeysAfter(r, today, safe, name, keys, deleted), p)|
            == if p in DuePeriods(r, today) then Min(n + 1, CountOf(r, p)) else n
  {
    DueMeans(r, today);
    hide DuePeriods, Eligible, Archives, NamesIn;
    if safe {
      ArchivesMore(r, today, name, keys, p);
      ArchivesLess(keys + DueKeys(r, today, name), deleted, p);
    } else {
      ArchivesLess(keys, deleted, p);
      assert forall q :: Key(q, name) !in keys - deleted;
      ArchivesMore(r, today, name, keys - deleted, p);
    }
  }

  /* ---- Over the runs ---- */

  // No name that a run to come will use.
  ghost predicate NamesOfPast(runs: seq<Run>, n: nat, keys: set<Key>)
    requires n <= |runs|
  {
    forall k :: k in keys ==> exists i :: 0 <= i < n && runs[i].name == k.name
  }

  lemma NamesStayPast(r: Retention, runs: seq<Run>, n: nat, keys: set<Key>, deleted: set<Key>)
    requires n < |runs| && NamesOfPast(runs, n, keys)
    ensures NamesOfPast(runs, n + 1, KeysAfter(r, runs[n].today, runs[n].safe, runs[n].name, keys, deleted))
  {
    hide DuePeriods;
    var after := KeysAfter(r, runs[n].today, runs[n].safe, runs[n].name, keys, deleted);
    forall k | k in after
      ensures exists i :: 0 <= i < n + 1 && runs[i].name == k.name
    {
      if k in keys {
        var i :| 0 <= i < n && runs[i].name == k.name;
      } else {
        assert runs[n].name == k.name;
      }
    }
  }

  lemma NameToCome(r: Retention, runs: seq<Run>, states: seq<Sys>, n: nat, keys: set<Key>)
    requires Chain(r, runs, states) && n < |runs| && NamesOfPast(runs, n, keys)
    ensures forall q :: Key(q, runs[n].name) !in keys
  {
    hide Step;
  }

  // The copies a run leaves.
  lemma CopyKeys(r: Retention, run: Run, s: Sys, s': Sys)
    requires r.NonNegative() && r.useCount && Step(r, run, s, s')
    ensures Eligible(run.name)
    ensures ThinsOut(r, run.today, run.safe,
                     if run.safe then s.copies.Keys + DueKeys(r, run.today, run.name) else s.copies.Keys, run.copyDeleted)
    ensures s'.copies.Keys == KeysAfter(r, run.today, run.safe, run.name, s.copies.Keys, run.copyDeleted)
  {
    SchedulesAgree(r, run.today);
    hide Eligible, LocalRun, LocalStorage.IsDeleteSet, CopyStore.IsDeleteSet, DuePeriods, IsNeedToBackup, WithinDay, ThinsOut;
    UploadKeys(r, run, s.copies);
    UploadKeys(r, run, s.copies - run.copyDeleted);
    CopiesThin(if run.safe then Upload(r, run, s.copies) else s.copies, r, run.today, run.safe, run.copyDeleted);
    if !IsNeedToBackup(r, run.today) {
      NothingThinned(r, run.today, run.safe, Upload(r, run, s.copies).Keys, run.copyDeleted);
      NothingThinned(r, run.today, run.safe, s.copies.Keys, run.copyDeleted);
      assert DueKeys(r, run.today, run.name) == {};
    }
  }

  lemma UploadKeys(r: Retention, run: Run, c: Copies)
    ensures Upload(r, run, c).Keys == c.Keys + DueKeys(r, run.today, run.name)
  {
    hide DuePeriods;
  }

  lemma NothingThinned(r: Retention, today: Date, safe: bool, keys: set<Key>, deleted: set<Key>)
    requires DuePeriods(r, today) == []
    ensures ThinsOut(r, today, safe, keys, deleted) ==> deleted == {}
  {
    if ThinsOut(r, today, safe, keys, deleted) {
      forall k: Key
        ensures k !in deleted
      {
        assert k in deleted ==> k.name in NamesIn(deleted, k.period);
        assert NamesIn(deleted, k.period) == {};
      }
    }
  }

  lemma ChainAt(r: Retention, runs: seq<Run>, states: seq<Sys>, n: nat)
    requires Chain(r, runs, states) && 0 < n <= |runs|
    ensures |states| == |runs| + 1 && Step(r, runs[n - 1], states[n - 1], states[n])
  {
    hide Step;
  }

  lemma ChainStart(r: Retention, runs: seq<Run>, states: seq<Sys>, p: Period)
    requires Chain(r, runs, states)
    ensures |states| == |runs| + 1 && states[0].tree.Keys == states[0].copies.Keys == {} && Shape(states[0].tree)
    ensures NamesOfPast(runs, 0, {}) && Archives({}, p) == {} && Given(r, runs, p, 0, 0) == 0
  {
    hide Step;
  }

  // On a store of copies the bound is reached exactly, whatever the days and the order.
  lemma {:induction false} CopiesCounted(r: Retention, runs: seq<Run>, states: seq<Sys>, n: nat, p: Period)
    requires r.NonNegative() && r.useCount && Chain(r, runs, states) && n <= |runs|
    ensures NamesOfPast(runs, n, states[n].copies.Keys)
    ensures |Archives(states[n].copies.Keys, p)| == Min(Given(r, runs, p, 0, n), CountOf(r, p))
  {
    hide Chain, Step, DuePeriods, Archives, ThinsOut, NamesOfPast, Eligible, KeysAfter;
    ChainStart(r, runs, states, p);
    if n > 0 {
      var run, s, s' := runs[n - 1], states[n - 1], states[n];
      CopiesCounted(r, runs, states, n - 1, p);
      NameToCome(r, runs, states, n - 1, s.copies.Keys);
      ChainAt(r, runs, states, n);
      CopyKeys(r, run, s, s');
      OneCounted(r, run.today, run.safe, run.name, s.copies.Keys, run.copyDeleted, p);
      NamesStayPast(r, runs, n - 1, s.copies.Keys, run.copyDeleted);
      AtMost(Given(r, runs, p, 0, n - 1), CountOf(r, p));
    }
  }

  lemma AtMost(n: int, count: int)
    ensures Min(Min(n, count) + 1, count) == Min(n + 1, count)
  {
  }

  /* ---- Local storage ---- */

  lemma DeliverKeys(r: Retention, run: Run, t: Tree)
    ensures Deliver(r, run, t).Keys == t.Keys + DueKeys(r, run.today, run.name)
  {
    hide DuePeriods;
  }

  lemma DeliverShape(r: Retention, run: Run, t: Tree)
    requires Shape(t) && forall q :: Key(q, run.name) !in t
    ensures Shape(Deliver(r, run, t))
  {
    LocalStorage.SchedulesAreDescending(r, run.today);
    hide DuePeriods, Shape, Descending, Resolve;
    if DuePeriods(r, run.today) == [] {
      assert Deliver(r, run, t) == t;
    } else {
      DeliveredReads(t, DuePeriods(r, run.today), run.name, run.content, run.fileTime, run.linkTime);
      hide Delivered;
    }
  }

  // The tree a run leaves: never more than what should stay and what is stuck, and just that unless a
  // rotation error is reported.
  lemma LocalKeys(r: Retention, run: Run, s: Sys, s': Sys)
    requires r.NonNegative() && r.useCount && Step(r, run, s, s')
    requires Shape(s.tree) && forall q :: Key(q, run.name) !in s.tree
    ensures Shape(s'.tree) && Eligible(run.name)
    ensures ThinsOut(r, run.today, run.safe,
                     if run.safe then s.tree.Keys + DueKeys(r, run.today, run.name) else s.tree.Keys, run.deleted)
    ensures var meant := KeysAfter(r, run.today, run.safe, run.name, s.tree.Keys, run.deleted);
            && meant <= s'.tree.Keys <= s.tree.Keys + DueKeys(r, run.today, run.name)
            && (LocalRun(r, run, s.tree).errors == 0 ==> s'.tree.Keys == meant)
  {
    SchedulesAgree(r, run.today);
    hide Eligible, LocalStorage.IsDeleteSet, CopyStore.IsDeleteSet, DuePeriods, IsNeedToBackup, WithinDay, ThinsOut, Shape,
         ReadsAfter, Stuck, Unseen, DeleteLoop, Resolve, ScannedPeriods, Deliver;
    var t := if run.safe then Deliver(r, run, s.tree) else s.tree;
    DeliverShape(r, run, s.tree);
    DeliverKeys(r, run, s.tree);
    LocalThins(t, r, run.today, run.safe, run.deleted);
    LocalStorage.ChosenRotation(t, r, run.today, run.safe, run.deleted, run.order, run.clock);
    var u := Rotate(r, run, t).tree;
    if !IsNeedToBackup(r, run.today) {
      NothingThinned(r, run.today, run.safe, t.Keys, run.deleted);
      assert DueKeys(r, run.today, run.name) == {};
    } else if !run.safe {
      DeliverShape(r, run, u);
      DeliverKeys(r, run, u);
    }
  }

  lemma {:induction false} TreesShaped(r: Retention, runs: seq<Run>, states: seq<Sys>, n: nat)
    requires r.NonNegative() && r.useCount && Chain(r, runs, states) && n <= |runs|
    ensures |states| == |runs| + 1 && Shape(states[n].tree) && NamesOfPast(runs, n, states[n].tree.Keys)
  {
    hide Chain, Step, DuePeriods, ThinsOut, Eligible, Shape, LocalRun, KeysAfter;
    ChainStart(r, runs, states, Monthly);
    if n > 0 {
      TreesShaped(r, runs, states, n - 1);
      NameToCome(r, runs, states, n - 1, states[n - 1].tree.Keys);
      ChainAt(r, runs, states, n);
      LocalKeys(r, runs[n - 1], states[n - 1], states[n]);
      PastGrows(r, runs, n - 1, states[n - 1].tree.Keys, states[n].tree.Keys);
    }
  }

  lemma PastGrows(r: Retention, runs: seq<Run>, n: nat, keys: set<Key>, after: set<Key>)
    requires n < |runs| && NamesOfPast(runs, n, keys) && after <= keys + DueKeys(r, runs[n].today, runs[n].name)
    ensures NamesOfPast(runs, n + 1, after)
  {
    hide DuePeriods;
    forall k | k in after
      ensures exists i :: 0 <= i < n + 1 && runs[i].name == k.name
    {
      if k in keys {
        var i :| 0 <= i < n && runs[i].name == k.name;
      } else {
        assert runs[n].name == k.name;
      }
    }
  }

  // On local storage the same number is there as long as no rotation reports an error.
  lemma {:induction false} LocalCounted(r: Retention, runs: seq<Run>, states: seq<Sys>, n: nat, p: Period)
    requires r.NonNegative() && r.useCount && Chain(r, runs, states) && n <= |runs| && |states| == |runs| + 1
    requires forall i :: 0 <= i < n ==> LocalRun(r, runs[i], states[i].tree).errors == 0
    ensures |Archives(states[n].tree.Keys, p)| == Min(Given(r, runs, p, 0, n), CountOf(r, p))
  {
    hide Chain, Step, DuePeriods, Archives, ThinsOut, NamesOfPast, Eligible, KeysAfter, LocalRun, Shape;
    ChainStart(r, runs, states, p);
    if n > 0 {
      var run, s, s' := runs[n - 1], states[n - 1], states[n];
      LocalCounted(r, runs, states, n - 1, p);
      TreesShaped(r, runs, states, n - 1);
      NameToCome(r, runs, states, n - 1, s.tree.Keys);
      ChainAt(r, runs, states, n);
      LocalKeys(r, run, s, s');
      OneCounted(r, run.today, run.safe, run.name, s.tree.Keys, run.deleted, p);
      AtMost(Given(r, runs, p, 0, n - 1), CountOf(r, p));
    }
  }

  // What one run leaves when the loop takes this order.
  ghost function Ordered(r: Retention, run: Run, t: Tree, order: seq<Key>): set<Key> {
    LocalRun(r, run.(order := order), t).tree.Keys
  }

  // The tree the rotation of a run works on.
  ghost function Worked(r: Retention, run: Run, t: Tree): Tree {
    if run.safe then Deliver(r, run, t) else t
  }

  ghost predicate Bounded(r: Retention, run: Run, t: Tree, order: seq<Key>) {
    forall p :: p in DuePeriods(r, run.today) ==>
      |Archives(Ordered(r, run, t, order), p)| == Min(|Archives(t.Keys, p)| + 1, CountOf(r, p))
  }

  ghost predicate StuckAlone(r: Retention, run: Run, t: Tree) {
    forall f :: f in run.deleted && Stuck(Worked(r, run, t), ScannedPeriods(r, run.today), run.deleted, f) ==>
      run.deleted == {f}
  }

  // A run on local storage, in either order of rotation and delivery, ends with min(n + 1, count)
  // archives in every due directory, whatever the order of the loop, if and only if no stuck file is
  // deleted together with another.
  lemma LocalBoundIff(r: Retention, run: Run, t: Tree)
    requires r.NonNegative() && r.useCount && IsNeedToBackup(r, run.today)
    requires Shape(t) && Eligible(run.name) && forall q :: Key(q, run.name) !in t
    requires LocalStorage.IsDeleteSet(Worked(r, run, t), r, run.today, run.safe, run.deleted)
    ensures (forall order | Enumerates(order, run.deleted) :: Bounded(r, run, t, order)) <==> StuckAlone(r, run, t)
  {
    var w, scanned := Worked(r, run, t), ScannedPeriods(r, run.today);
    hide IsNeedToBackup, Eligible, LocalStorage.IsDeleteSet, DuePeriods, ScannedPeriods, Stuck, Shape, DeleteLoop, Archives,
         LocalRun, Deletable, Bounded;
    WorkedShape(r, run, t);
    LocalStorage.DeleteSetDeletable(w, r, run.today, run.safe, run.deleted);
    AllOrdersDeleteIff(w, scanned, run.deleted, run.clock);
    forall order | Enumerates(order, run.deleted)
      ensures Bounded(r, run, t, order) <==>
              DeleteLoop(w, run.deleted, ScanRecords(w, scanned), order, run.clock).tree.Keys == w.Keys - run.deleted
    {
      OrderBounded(r, run, t, order);
    }
  }

  lemma WorkedShape(r: Retention, run: Run, t: Tree)
    requires Shape(t) && forall q :: Key(q, run.name) !in t
    ensures Shape(Worked(r, run, t))
    ensures Worked(r, run, t).Keys == if run.safe then t.Keys + DueKeys(r, run.today, run.name) else t.Keys
  {
    hide Shape, Deliver, DuePeriods;
    DeliverShape(r, run, t);
    DeliverKeys(r, run, t);
  }

  lemma OrderBounded(r: Retention, run: Run, t: Tree, order: seq<Key>)
    requires r.NonNegative() && r.useCount && IsNeedToBackup(r, run.today)
    requires Shape(t) && Eligible(run.name) && forall q :: Key(q, run.name) !in t
    requires LocalStorage.IsDeleteSet(Worked(r, run, t), r, run.today, run.safe, run.deleted)
    requires Enumerates(order, run.deleted)
    ensures var w := Worked(r, run, t);
            Bounded(r, run, t, order) <==>
            DeleteLoop(w, run.deleted, ScanRecords(w, ScannedPeriods(r, run.today)), order, run.clock).tree.Keys
            == w.Keys - run.deleted
  {
    hide IsNeedToBackup, Eligible, LocalStorage.IsDeleteSet, DuePeriods, ScannedPeriods, Stuck, Shape, DeleteLoop, Archives,
         LocalRun, ReadsAfter, Unseen, ThinsOut, Resolve, KeysAfter;
    var w := Worked(r, run, t);
    var u := DeleteLoop(w, run.deleted, ScanRecords(w, ScannedPeriods(r, run.today)), order, run.clock).tree;
    WorkedShape(r, run, t);
    LocalThins(w, r, run.today, run.safe, run.deleted);
    LocalStorage.ChosenRotation(w, r, run.today, run.safe, run.deleted, order, run.clock);
    OrderedKeys(r, run, t, order);
    MeantBounded(r, run, t);
    hide Worked, Ordered, Bounded;
    if u.Keys == w.Keys - run.deleted {
      ExactBounded(r, run, t, order);
    } else {
      var other :| other in u.Keys && other in run.deleted;
      LeftOver(r, run, t, u, other);
      Unbounded(r, run, t, order, other.period);
    }
  }

  lemma ExactBounded(r: Retention, run: Run, t: Tree, order: seq<Key>)
    requires Ordered(r, run, t, order) == KeysAfter(r, run.today, run.safe, run.name, t.Keys, run.deleted)
    requires forall p :: p in DuePeriods(r, run.today) ==>
               |Archives(KeysAfter(r, run.today, run.safe, run.name, t.Keys, run.deleted), p)|
               == Min(|Archives(t.Keys, p)| + 1, CountOf(r, p))
    ensures Bounded(r, run, t, order)
  {
    hide DuePeriods, Archives, Ordered, KeysAfter;
  }

  lemma Unbounded(r: Retention, run: Run, t: Tree, order: seq<Key>, p: Period)
    requires p in DuePeriods(r, run.today)
    requires |Archives(Ordered(r, run, t, order), p)| > Min(|Archives(t.Keys, p)| + 1, CountOf(r, p))
    ensures !Bounded(r, run, t, order)
  {
    hide DuePeriods, Archives, Ordered;
  }

  lemma MeantBounded(r: Retention, run: Run, t: Tree)
    requires r.NonNegative() && Eligible(run.name) && forall q :: Key(q, run.name) !in t
    requires ThinsOut(r, run.today, run.safe, if run.safe then t.Keys + DueKeys(r, run.today, run.name) else t.Keys, run.deleted)
    ensures var meant := KeysAfter(r, run.today, run.safe, run.name, t.Keys, run.deleted);
            forall p :: p in DuePeriods(r, run.today) ==>
              |Archives(meant, p)| == Min(|Archives(t.Keys, p)| + 1, CountOf(r, p))
  {
    hide DuePeriods, Eligible, Archives, ThinsOut, KeysAfter;
    forall p | p in DuePeriods(r, run.today)
      ensures |Archives(KeysAfter(r, run.today, run.safe, run.name, t.Keys, run.deleted), p)|
              == Min(|Archives(t.Keys, p)| + 1, CountOf(r, p))
    {
      OneCounted(r, run.today, run.safe, run.name, t.Keys, run.deleted, p);
    }
  }

  lemma OrderedKeys(r: Retention, run: Run, t: Tree, order: seq<Key>)
    requires IsNeedToBackup(r, run.today)
    ensures var w := Worked(r, run, t);
            var u := DeleteLoop(w, run.deleted, ScanRecords(w, ScannedPeriods(r, run.today)), order, run.clock).tree;
            Ordered(r, run, t, order) == u.Keys + (if run.safe then {} else DueKeys(r, run.today, run.name))
            && (u.Keys == w.Keys - run.deleted ==>
                  Ordered(r, run, t, order) == KeysAfter(r, run.today, run.safe, run.name, t.Keys, run.deleted))
  {
    hide DuePeriods, ScannedPeriods, DeleteLoop, IsNeedToBackup, Delivered;
    var again := run.(order := order);
    var w := Worked(r, run, t);
    var u := DeleteLoop(w, run.deleted, ScanRecords(w, ScannedPeriods(r, run.today)), order, run.clock).tree;
    DeliverKeys(r, run, t);
    DeliverKeys(r, run, u);
    assert Deliver(r, again, u) == Deliver(r, run, u) && Deliver(r, again, t) == Deliver(r, run, t);
  }

  // A name that should have gone makes its directory too large.
  lemma LeftOver(r: Retention, run: Run, t: Tree, u: Tree, other: Key)
    requires r.NonNegative() && Eligible(run.name) && forall q :: Key(q, run.name) !in t
    requires var w := Worked(r, run, t);
             && w.Keys - run.deleted <= u.Keys <= w.Keys && other in u && other in run.deleted
             && w.Keys == (if run.safe then t.Keys + DueKeys(r, run.today, run.name) else t.Keys)
             && ThinsOut(r, run.today, run.safe, w.Keys, run.deleted)
    ensures var after := u.Keys + (if run.safe then {} else DueKeys(r, run.today, run.name));
            var meant := KeysAfter(r, run.today, run.safe, run.name, t.Keys, run.deleted);
            other.period in DuePeriods(r, run.today) && |Archives(after, other.period)| > |Archives(meant, other.period)|
  {
    hide DuePeriods, Eligible;
    var after := u.Keys + (if run.safe then {} else DueKeys(r, run.today, run.name));
    var meant := KeysAfter(r, run.today, run.safe, run.name, t.Keys, run.deleted);
    var p := other.period;
    assert other.name in NamesIn(run.deleted, p);
    assert other == Key(p, other.name);
    assert other.name in Archives(Worked(r, run, t).Keys, p);
    assert other.name in Archives(after, p) && other.name !in Archives(meant, p);
    assert meant <= after;
    assert Archives(meant, p) <= Archives(after, p) - {other.name};
    SubsetSize(Archives(meant, p), Archives(after, p) - {other.name});
  }

  /* ---- Which copies stay ---- */

  // The archives of a directory that are newer than one of them.
  ghost function Newer(dir: map<string, int>, x: string): set<string>
    requires x in dir
  {
    set y | y in EligibleNames(dir) && dir[y] > dir[x]
  }

  // With distinct times counting deletes by rank.
  lemma DeletedByRank(dir: map<string, int>, count: int, date: Option<int>, safe: bool, names: set<string>, x: string)
    requires count > 0 && IsRotation(dir, count, date, true, safe, names) && DistinctTimes(dir)
    requires x in EligibleNames(dir)
    ensures x in names <==> |Newer(dir, x)| >= if safe then count else count - 1
  {
    var all, keep := EligibleNames(dir), if safe then count else count - 1;
    assert |all - names| == |all| - |names|;
    if keep > |all| {
      SubsetSize(Newer(dir, x), all);
    } else if x in names {
      assert all - names <= Newer(dir, x);
      SubsetSize(all - names, Newer(dir, x));
    } else {
      assert Newer(dir, x) <= all - names - {x};
      SubsetSize(Newer(dir, x), all - names - {x});
    }
  }

  // Later runs upload later.
  ghost predicate TimesIncrease(runs: seq<Run>) {
    forall i, j, p :: 0 <= i < j < |runs| ==> runs[i].copyTime(p) < runs[j].copyTime(p)
  }

  // The names given to the directory by the runs from `from` on, before `n`.
  ghost function NamesGiven(r: Retention, runs: seq<Run>, p: Period, from: nat, n: nat): set<string>
    requires n <= |runs|
    decreases n
  {
    if n <= from then {}
    else
      NamesGiven(r, runs, p, from, n - 1)
      + (if p in DuePeriods(r, runs[n - 1].today) then {runs[n - 1].name} else {})
  }

  ghost predicate NamesDistinct(runs: seq<Run>) {
    forall i, j :: 0 <= i < j < |runs| ==> runs[i].name != runs[j].name
  }

  lemma {:induction false} GivenNames(r: Retention, runs: seq<Run>, p: Period, from: nat, n: nat, i: nat)
    requires i < |runs| && n <= |runs| && NamesDistinct(runs)
    ensures runs[i].name in NamesGiven(r, runs, p, from, n) <==> from <= i < n && p in DuePeriods(r, runs[i].today)
    decreases n
  {
    hide DuePeriods;
    if n > from {
      GivenNames(r, runs, p, from, n - 1, i);
      assert i != n - 1 ==> runs[i].name != runs[n - 1].name;
    }
  }

  lemma {:induction false} GivenByRuns(r: Retention, runs: seq<Run>, p: Period, from: nat, n: nat, name: string)
    requires n <= |runs| && name in NamesGiven(r, runs, p, from, n)
    ensures exists i :: from <= i < n && runs[i].name == name
    decreases n
  {
    hide DuePeriods;
    if name !in NamesGiven(r, runs, p, from, n - 1) {
      assert runs[n - 1].name == name;
    } else {
      GivenByRuns(r, runs, p, from, n - 1, name);
    }
  }

  lemma {:induction false} GivenSize(r: Retention, runs: seq<Run>, p: Period, from: nat, n: nat)
    requires n <= |runs| && NamesDistinct(runs)
    ensures |NamesGiven(r, runs, p, from, n)| == Given(r, runs, p, from, n)
    decreases n
  {
    hide DuePeriods, NamesDistinct, NamesGiven;
    GivenStep(r, runs, p, from, n);
    if n > from {
      GivenSize(r, runs, p, from, n - 1);
      GivenNames(r, runs, p, from, n - 1, n - 1);
      OneMoreName(NamesGiven(r, runs, p, from, n - 1), runs[n - 1].name);
    }
  }

  lemma GivenStep(r: Retention, runs: seq<Run>, p: Period, from: nat, n: nat)
    requires n <= |runs|
    ensures NamesGiven(r, runs, p, from, n)
            == if n <= from then {}
               else NamesGiven(r, runs, p, from, n - 1)
                    + (if p in DuePeriods(r, runs[n - 1].today) then {runs[n - 1].name} else {})
  {
  }

  lemma OneMoreName(names: set<string>, name: string)
    requires name !in names
    ensures |names + {name}| == |names| + 1 && names + {} == names
  {
  }

  lemma {:induction false} GivenLess(r: Retention, runs: seq<Run>, p: Period, i: nat, j: nat, n: nat)
    requires i <= j && n <= |runs|
    ensures Given(r, runs, p, j, n) <= Given(r, runs, p, i, n)
    ensures i < j <= n && p in DuePeriods(r, runs[i].today) ==> Given(r, runs, p, j, n) < Given(r, runs, p, i, n)
    decreases n
  {
    hide DuePeriods;
    if n > j {
      GivenLess(r, runs, p, i, j, n - 1);
    } else if i < j == n && p in DuePeriods(r, runs[i].today) {
      GivenFirst(r, runs, p, i, n);
    }
  }

  lemma {:induction false} GivenFirst(r: Retention, runs: seq<Run>, p: Period, i: nat, n: nat)
    requires i < n <= |runs| && p in DuePeriods(r, runs[i].today)
    ensures Given(r, runs, p, i, n) > 0
    decreases n
  {
    hide DuePeriods;
    if n - 1 > i {
      GivenFirst(r, runs, p, i, n - 1);
    }
  }

  // The directory of period `p` holds what the newest `keep` of the runs before `n` gave it, dated by them.
  ghost predicate HoldsNewest(r: Retention, runs: seq<Run>, p: Period, n: nat, keep: int, c: Copies)
    requires n <= |runs|
  {
    && (forall i :: 0 <= i < n ==>
          (Key(p, runs[i].name) in c
           <==> p in DuePeriods(r, runs[i].today) && Given(r, runs, p, i + 1, n) < keep))
    && (forall i :: 0 <= i < n && Key(p, runs[i].name) in c ==>
          c[Key(p, runs[i].name)] == Copy(runs[i].content, runs[i].copyTime(p)))
    && (forall k: Key :: k in c && k.period == p ==> exists i :: 0 <= i < n && runs[i].name == k.name)
  }

  // The listing of such a directory, as far as counting looks at it.
  lemma NewestListed(r: Retention, runs: seq<Run>, p: Period, n: nat, keep: int, c: Copies)
    requires n <= |runs| && NamesDistinct(runs) && TimesIncrease(runs) && HoldsNewest(r, runs, p, n, keep, c)
    requires forall i :: 0 <= i < n ==> Eligible(runs[i].name)
    ensures DistinctTimes(CopyStore.Listing(c, p))
    ensures forall i :: 0 <= i < n && Key(p, runs[i].name) in c ==>
              runs[i].name in EligibleNames(CopyStore.Listing(c, p))
              && |Newer(CopyStore.Listing(c, p), runs[i].name)| == Given(r, runs, p, i + 1, n)
  {
    hide Eligible, DuePeriods, Given, HoldsNewest, NamesDistinct, TimesIncrease, DistinctTimes, EligibleNames, Newer,
         CopyStore.Listing, NamesGiven;
    TimesListed(r, runs, p, n, keep, c);
    forall i | 0 <= i < n && Key(p, runs[i].name) in c
      ensures runs[i].name in EligibleNames(CopyStore.Listing(c, p)) && runs[i].name in CopyStore.Listing(c, p)
      ensures |Newer(CopyStore.Listing(c, p), runs[i].name)| == Given(r, runs, p, i + 1, n)
    {
      NewerGiven(r, runs, p, n, keep, c, i);
      GivenSize(r, runs, p, i + 1, n);
    }
  }

  lemma TimesListed(r: Retention, runs: seq<Run>, p: Period, n: nat, keep: int, c: Copies)
    requires n <= |runs| && TimesIncrease(runs) && HoldsNewest(r, runs, p, n, keep, c)
    ensures DistinctTimes(CopyStore.Listing(c, p))
  {
    hide DuePeriods, Given, HoldsNewest, TimesIncrease, CopyStore.Listing;
    var dir := CopyStore.Listing(c, p);
    forall a, b | a in dir && b in dir && dir[a] == dir[b]
      ensures a == b
    {
      var i := ListedRun(r, runs, p, n, keep, c, a);
      var j := ListedRun(r, runs, p, n, keep, c, b);
      LaterIsNewer(runs, p, i, j);
      LaterIsNewer(runs, p, j, i);
    }
  }

  lemma ListedRun(r: Retention, runs: seq<Run>, p: Period, n: nat, keep: int, c: Copies, name: string) returns (i: nat)
    requires n <= |runs| && HoldsNewest(r, runs, p, n, keep, c) && name in CopyStore.Listing(c, p)
    ensures i < n && runs[i].name == name && CopyStore.Listing(c, p)[name] == runs[i].copyTime(p)
  {
    hide DuePeriods, Given;
    assert Key(p, name) in c;
    i :| 0 <= i < n && runs[i].name == Key(p, name).name;
    assert c[Key(p, runs[i].name)] == Copy(runs[i].content, runs[i].copyTime(p));
  }

  lemma NewerGiven(r: Retention, runs: seq<Run>, p: Period, n: nat, keep: int, c: Copies, i: nat)
    requires n <= |runs| && NamesDistinct(runs) && TimesIncrease(runs) && HoldsNewest(r, runs, p, n, keep, c)
    requires forall j :: 0 <= j < n ==> Eligible(runs[j].name)
    requires i < n && Key(p, runs[i].name) in c
    ensures runs[i].name in EligibleNames(CopyStore.Listing(c, p)) && runs[i].name in CopyStore.Listing(c, p)
    ensures Newer(CopyStore.Listing(c, p), runs[i].name) == NamesGiven(r, runs, p, i + 1, n)
  {
    hide Eligible, DuePeriods, Given, NamesGiven, NamesDistinct, HoldsNewest, TimesIncrease;
    var dir, x := CopyStore.Listing(c, p), runs[i].name;
    assert Key(p, x) in c;
    forall y
      ensures y in Newer(dir, x) <==> y in NamesGiven(r, runs, p, i + 1, n)
    {
      if y in Newer(dir, x) {
        NewerWasGiven(r, runs, p, n, keep, c, i, y);
      }
      if y in NamesGiven(r, runs, p, i + 1, n) {
        GivenIsNewer(r, runs, p, n, keep, c, i, y);
      }
    }
  }

  lemma LaterIsNewer(runs: seq<Run>, p: Period, i: nat, j: nat)
    requires TimesIncrease(runs) && i < |runs| && j < |runs|
    ensures runs[i].copyTime(p) < runs[j].copyTime(p) <==> i < j
  {
  }

  lemma NewerWasGiven(r: Retention, runs: seq<Run>, p: Period, n: nat, keep: int, c: Copies, i: nat, y: string)
    requires n <= |runs| && NamesDistinct(runs) && TimesIncrease(runs) && HoldsNewest(r, runs, p, n, keep, c)
    requires i < n && Key(p, runs[i].name) in c && Key(p, y) in c && c[Key(p, y)].mtime > c[Key(p, runs[i].name)].mtime
    ensures y in NamesGiven(r, runs, p, i + 1, n)
  {
    hide Eligible, DuePeriods, Given, NamesGiven;
    var j :| 0 <= j < n && runs[j].name == Key(p, y).name;
    assert c[Key(p, y)] == Copy(runs[j].content, runs[j].copyTime(p));
    LaterIsNewer(runs, p, i, j);
    GivenNames(r, runs, p, i + 1, n, j);
  }

  lemma GivenIsNewer(r: Retention, runs: seq<Run>, p: Period, n: nat, keep: int, c: Copies, i: nat, y: string)
    requires n <= |runs| && NamesDistinct(runs) && TimesIncrease(runs) && HoldsNewest(r, runs, p, n, keep, c)
    requires forall j :: 0 <= j < n ==> Eligible(runs[j].name)
    requires i < n && Key(p, runs[i].name) in c && y in NamesGiven(r, runs, p, i + 1, n)
    ensures Eligible(y) && Key(p, y) in c && c[Key(p, y)].mtime > c[Key(p, runs[i].name)].mtime
  {
    hide Eligible, DuePeriods, Given, NamesGiven;
    GivenByRuns(r, runs, p, i + 1, n, y);
    var j :| i + 1 <= j < n && runs[j].name == y;
    GivenNames(r, runs, p, i + 1, n, j);
    GivenLess(r, runs, p, i + 1, j + 1, n);
    assert Key(p, runs[j].name) in c;
  }

  // Counting to `fewer` what holds the newest `keep`.
  lemma ThinnedNewest(r: Retention, runs: seq<Run>, p: Period, n: nat, keep: int, c: Copies, date: Option<int>,
                      safe: bool, deleted: set<Key>)
    requires n <= |runs| && NamesDistinct(runs) && TimesIncrease(runs) && HoldsNewest(r, runs, p, n, keep, c)
    requires forall i :: 0 <= i < n ==> Eligible(runs[i].name)
    requires CountOf(r, p) > 0 && keep == (if safe then CountOf(r, p) else CountOf(r, p) - 1) + 1
    requires IsRotation(CopyStore.Listing(c, p), CountOf(r, p), date, true, safe, NamesIn(deleted, p))
    ensures HoldsNewest(r, runs, p, n, keep - 1, c - deleted)
  {
    hide Eligible, DuePeriods, Given, IsRotation, TimesIncrease, EligibleNames, Newer, CountOf;
    NewestListed(r, runs, p, n, keep, c);
    var u := c - deleted;
    forall i | 0 <= i < n
      ensures Key(p, runs[i].name) in u <==> p in DuePeriods(r, runs[i].today) && Given(r, runs, p, i + 1, n) < keep - 1
    {
      var k := Key(p, runs[i].name);
      assert k in deleted <==> k.name in NamesIn(deleted, p);
      if k in c {
        DeletedByRank(CopyStore.Listing(c, p), CountOf(r, p), date, safe, NamesIn(deleted, p), k.name);
      }
    }
  }

  lemma UploadedNewest(r: Retention, runs: seq<Run>, p: Period, n: nat, keep: int, c: Copies)
    requires n < |runs| && NamesDistinct(runs) && HoldsNewest(r, runs, p, n, keep, c) && keep >= 0
    ensures HoldsNewest(r, runs, p, n + 1, if p in DuePeriods(r, runs[n].today) then keep + 1 else keep,
                        Upload(r, runs[n], c))
  {
    hide DuePeriods, Upload, NamesDistinct, HoldsNewest, Given;
    var u, keep' := Upload(r, runs[n], c), if p in DuePeriods(r, runs[n].today) then keep + 1 else keep;
    NameNotHeld(r, runs, p, n, keep, c);
    forall i | 0 <= i < n + 1
      ensures Key(p, runs[i].name) in u <==> p in DuePeriods(r, runs[i].today) && Given(r, runs, p, i + 1, n + 1) < keep'
      ensures Key(p, runs[i].name) in u ==> u[Key(p, runs[i].name)] == Copy(runs[i].content, runs[i].copyTime(p))
    {
      if i < n {
        OlderUploaded(r, runs, p, n, keep, c, i);
      } else {
        NewestUploaded(r, runs, p, n, c);
      }
    }
    forall k: Key | k in u && k.period == p
      ensures exists i :: 0 <= i < n + 1 && runs[i].name == k.name
    {
      if k.name != runs[n].name {
        HeldBefore(r, runs, p, n, keep, c, k);
      }
    }
    HoldsIf(r, runs, p, n + 1, keep', u);
  }

  lemma HoldsIf(r: Retention, runs: seq<Run>, p: Period, n: nat, keep: int, c: Copies)
    requires n <= |runs|
    requires forall i :: 0 <= i < n ==>
               && (Key(p, runs[i].name) in c <==> p in DuePeriods(r, runs[i].today) && Given(r, runs, p, i + 1, n) < keep)
               && (Key(p, runs[i].name) in c ==> c[Key(p, runs[i].name)] == Copy(runs[i].content, runs[i].copyTime(p)))
    requires forall k: Key :: k in c && k.period == p ==> exists i :: 0 <= i < n && runs[i].name == k.name
    ensures HoldsNewest(r, runs, p, n, keep, c)
  {
    hide DuePeriods, Given;
  }

  lemma OlderUploaded(r: Retention, runs: seq<Run>, p: Period, n: nat, keep: int, c: Copies, i: nat)
    requires i < n < |runs| && runs[i].name != runs[n].name && HoldsNewest(r, runs, p, n, keep, c)
    ensures var u, k := Upload(r, runs[n], c), Key(p, runs[i].name);
            && (k in u <==> p in DuePeriods(r, runs[i].today)
                            && Given(r, runs, p, i + 1, n + 1) < if p in DuePeriods(r, runs[n].today) then keep + 1 else keep)
            && (k in u ==> u[k] == Copy(runs[i].content, runs[i].copyTime(p)))
  {
    hide DuePeriods, Upload;
    UploadAdds(r, runs[n], c);
    var k := Key(p, runs[i].name);
    assert k in Upload(r, runs[n], c) <==> k in c;
  }

  lemma NewestUploaded(r: Retention, runs: seq<Run>, p: Period, n: nat, c: Copies)
    requires n < |runs| && Key(p, runs[n].name) !in c
    ensures var u, k := Upload(r, runs[n], c), Key(p, runs[n].name);
            && (k in u <==> p in DuePeriods(r, runs[n].today)) && Given(r, runs, p, n + 1, n + 1) == 0
            && (k in u ==> u[k] == Copy(runs[n].content, runs[n].copyTime(p)))
  {
    hide DuePeriods, Upload;
    UploadAdds(r, runs[n], c);
    assert Key(p, runs[n].name).name == runs[n].name;
  }

  lemma HeldBefore(r: Retention, runs: seq<Run>, p: Period, n: nat, keep: int, c: Copies, k: Key)
    requires n < |runs| && HoldsNewest(r, runs, p, n, keep, c)
    requires k in Upload(r, runs[n], c) && k.period == p && k.name != runs[n].name
    ensures exists i :: 0 <= i < n && runs[i].name == k.name
  {
    hide DuePeriods, Upload, Given;
    UploadAdds(r, runs[n], c);
    assert k in c;
  }

  lemma UploadAdds(r: Retention, run: Run, c: Copies)
    ensures var u := Upload(r, run, c);
            forall k: Key ::
              && (k in u <==> k in c || (k.name == run.name && k.period in DuePeriods(r, run.today)))
              && (k in u && k.name != run.name ==> u[k] == c[k])
              && (k in u && k.name == run.name && k.period in DuePeriods(r, run.today) ==>
                    u[k] == Copy(run.content, run.copyTime(k.period)))
  {
    hide DuePeriods, Copied;
    forall k: Key
      ensures var u := Upload(r, run, c);
              && (k in u <==> k in c || (k.name == run.name && k.period in DuePeriods(r, run.today)))
              && (k in u && k.name != run.name ==> u[k] == c[k])
              && (k in u && k.name == run.name && k.period in DuePeriods(r, run.today) ==>
                    u[k] == Copy(run.content, run.copyTime(k.period)))
    {
      CopiedAt(c, DuePeriods(r, run.today), run.name, run.content, run.copyTime, k);
    }
  }

  lemma NameNotHeld(r: Retention, runs: seq<Run>, p: Period, n: nat, keep: int, c: Copies)
    requires n < |runs| && NamesDistinct(runs) && HoldsNewest(r, runs, p, n, keep, c)
    ensures Key(p, runs[n].name) !in c && forall i :: 0 <= i < n ==> runs[i].name != runs[n].name
  {
    hide DuePeriods, Given;
    forall k: Key | k in c && k.period == p
      ensures k.name != runs[n].name
    {
      var i :| 0 <= i < n && runs[i].name == k.name;
    }
  }

  // Over any runs by count whose uploads have increasing times, in either order: after each of them a
  // directory of the copy store holds exactly the newest `count` archives it has been given.
  lemma {:induction false} CopiesKeepNewest(r: Retention, runs: seq<Run>, states: seq<Sys>, n: nat, p: Period)
    requires r.NonNegative() && r.useCount && Chain(r, runs, states) && n <= |runs| && |states| == |runs| + 1
    requires TimesIncrease(runs)
    ensures HoldsNewest(r, runs, p, n, CountOf(r, p), states[n].copies)
  {
    hide Chain, Step, DuePeriods, HoldsNewest, TimesIncrease, CountOf;
    if n == 0 {
      ChainStart(r, runs, states, p);
      NothingHeld(r, runs, p, CountOf(r, p), states[0].copies);
    } else {
      CopiesKeepNewest(r, runs, states, n - 1, p);
      ChainAt(r, runs, states, n);
      ChainNames(r, runs, states);
      NewestAfterRun(r, runs, n - 1, p, states[n - 1], states[n]);
    }
  }

  lemma NothingHeld(r: Retention, runs: seq<Run>, p: Period, keep: int, c: Copies)
    requires c.Keys == {}
    ensures HoldsNewest(r, runs, p, 0, keep, c)
  {
  }

  lemma ChainNames(r: Retention, runs: seq<Run>, states: seq<Sys>)
    requires Chain(r, runs, states)
    ensures NamesDistinct(runs) && forall i :: 0 <= i < |runs| ==> Eligible(runs[i].name)
  {
    hide LocalRun, Eligible, WithinDay;
    forall i | 0 <= i < |runs|
      ensures Eligible(runs[i].name)
    {
      assert Step(r, runs[i], states[i], states[i + 1]);
    }
  }

  lemma NewestAfterRun(r: Retention, runs: seq<Run>, n: nat, p: Period, s: Sys, s': Sys)
    requires r.NonNegative() && r.useCount && n < |runs| && Step(r, runs[n], s, s')
    requires NamesDistinct(runs) && TimesIncrease(runs) && forall i :: 0 <= i < |runs| ==> Eligible(runs[i].name)
    requires HoldsNewest(r, runs, p, n, CountOf(r, p), s.copies)
    ensures HoldsNewest(r, runs, p, n + 1, CountOf(r, p), s'.copies)
  {
    hide Step, Eligible, DuePeriods, HoldsNewest, TimesIncrease, NamesDistinct, IsRotation, CopyStore.Listing, NamesIn, Upload,
         CountOf, IsNeedToBackup;
    var run, count := runs[n], CountOf(r, p);
    var date := CopyStep(r, run, s, s', p);
    UploadedNewest(r, runs, p, n, count, s.copies);
    if !IsNeedToBackup(r, run.today) {
      SameHeld(r, runs, p, n, count, s.copies);
    } else if p !in DuePeriods(r, run.today) {
      NoneDeleted(r, runs, p, n, count, s.copies, run.copyDeleted);
      UploadedNewest(r, runs, p, n, count, s.copies - run.copyDeleted);
      NoneDeleted(r, runs, p, n + 1, count, Upload(r, run, s.copies), run.copyDeleted);
    } else if run.safe {
      ThinnedNewest(r, runs, p, n + 1, count + 1, Upload(r, run, s.copies), date, true, run.copyDeleted);
    } else {
      ThinnedNewest(r, runs, p, n, count, s.copies, date, false, run.copyDeleted);
      UploadedNewest(r, runs, p, n, count - 1, s.copies - run.copyDeleted);
    }
  }

  lemma CopyFacts(r: Retention, run: Run, s: Sys, s': Sys)
    requires Step(r, run, s, s')
    ensures CopyStore.IsDeleteSet(if run.safe then Upload(r, run, s.copies) else s.copies, r, run.today, run.safe, run.copyDeleted)
    ensures s'.copies == CopyRun(r, run, s.copies)
  {
    hide LocalRun, LocalStorage.IsDeleteSet, CopyStore.IsDeleteSet, Upload;
  }

  // What a run does to the copies of one directory.
  lemma CopyStep(r: Retention, run: Run, s: Sys, s': Sys, p: Period) returns (date: Option<int>)
    requires r.NonNegative() && r.useCount && Step(r, run, s, s')
    ensures CountOf(r, p) >= 0
    ensures p !in DuePeriods(r, run.today) ==> NamesIn(run.copyDeleted, p) == {}
    ensures p in DuePeriods(r, run.today) ==>
              && CountOf(r, p) > 0
              && IsRotation(CopyStore.Listing(if run.safe then Upload(r, run, s.copies) else s.copies, p), CountOf(r, p),
                            date, true, run.safe, NamesIn(run.copyDeleted, p))
    ensures s'.copies == CopyRun(r, run, s.copies)
    ensures p in DuePeriods(r, run.today) ==> IsNeedToBackup(r, run.today)
  {
    SchedulesAgree(r, run.today);
    ScannedMeans(p, r, run.today);
    CopyFacts(r, run, s, s');
    hide Step, DuePeriods, IsNeedToBackup, IsRotation, GetRetention, CopyStore.Listing, NamesIn, Upload, ScannedPeriods,
         CopyRun;
    assert CopyStore.Chosen(if run.safe then Upload(r, run, s.copies) else s.copies, r, run.today, run.safe, p, run.copyDeleted);
    date := GetRetention(p, r, run.today).1;
    if p in DuePeriods(r, run.today) {
      CountIs(p, r, run.today);
    }
  }

  lemma NoneDeleted(r: Retention, runs: seq<Run>, p: Period, n: nat, keep: int, c: Copies, deleted: set<Key>)
    requires n <= |runs| && NamesIn(deleted, p) == {}
    ensures HoldsNewest(r, runs, p, n, keep, c) ==> HoldsNewest(r, runs, p, n, keep, c - deleted)
  {
    hide DuePeriods, Given;
    assert forall k: Key :: k in deleted && k.period == p ==> k.name in NamesIn(deleted, p);
  }

  lemma SameHeld(r: Retention, runs: seq<Run>, p: Period, n: nat, keep: int, c: Copies)
    requires n < |runs| && p !in DuePeriods(r, runs[n].today) && NamesDistinct(runs)
    ensures HoldsNewest(r, runs, p, n, keep, c) ==> HoldsNewest(r, runs, p, n + 1, keep, c)
  {
    hide DuePeriods;
    if HoldsNewest(r, runs, p, n, keep, c) {
      NameNotHeld(r, runs, p, n, keep, c);
    }
  }
}
