/** Local storage (modules/storage/local/local.go): the object that delivers into the link tree and
    rotates it, with the directory scan and the delete loop as the source runs them. */
module LocalStorage {
  import opened BackupTree
  import opened Calendar
  import opened LocalDelivery
  import opened Options
  import opened Paths
  import opened RotatedObjects
  import opened Schedule

  // The names and times `ReadDir` and `Info` report for one directory; a link reports its own time.
  ghost function Listing(t: Tree, p: Period): map<string, int> {
    map k | k in t && k.period == p :: k.name := t[k].mtime
  }

  ghost function KeysIn(t: Tree, p: Period): set<Key> {
    set k | k in t && k.period == p
  }

  // What a rotation chooses in one directory: nothing, unless the directory is scanned.
  ghost predicate Chosen(t: Tree, r: Retention, today: Date, safe: bool, p: Period, names: set<string>) {
    var (count, date) := GetRetention(p, r, today);
    if (count, date) == (0, None) then names == {}
    else IsRotation(Listing(t, p), count, date, r.useCount, safe, names)
  }

  // The delete set of one rotation: in each scanned directory what DGetRotatedObjects may choose.
  ghost predicate IsDeleteSet(t: Tree, r: Retention, today: Date, safe: bool, toDelete: set<Key>) {
    forall p :: Chosen(t, r, today, safe, p, NamesIn(toDelete, p))
  }

  lemma DeleteSetDeletable(t: Tree, r: Retention, today: Date, safe: bool, toDelete: set<Key>)
    requires IsDeleteSet(t, r, today, safe, toDelete)
    ensures Deletable(t, ScannedPeriods(r, today), toDelete)
  {
    forall k | k in toDelete
      ensures k in t && k.period in ScannedPeriods(r, today)
    {
      assert k.name in NamesIn(toDelete, k.period);
      assert k.period in PERIODS;
      assert Chosen(t, r, today, safe, k.period, NamesIn(toDelete, k.period));
      assert k.name in Listing(t, k.period);
    }
  }

  lemma ChoiceExists(t: Tree, r: Retention, today: Date, safe: bool, p: Period) returns (names: set<string>)
    ensures Chosen(t, r, today, safe, p, names)
  {
    var (count, date) := GetRetention(p, r, today);
    names := RotationExists(Listing(t, p), count, date, r.useCount, safe);
    if (count, date) == (0, None) {
      names := {};
    }
  }

  lemma DeleteSetExists(t: Tree, r: Retention, today: Date, safe: bool) returns (toDelete: set<Key>)
    ensures IsDeleteSet(t, r, today, safe, toDelete)
  {
    var monthly := ChoiceExists(t, r, today, safe, Monthly);
    var weekly := ChoiceExists(t, r, today, safe, Weekly);
    var daily := ChoiceExists(t, r, today, safe, Daily);
    hide Chosen, NamesIn;
    toDelete := KeysNamed(monthly, weekly, daily);
    forall p: Period
      ensures Chosen(t, r, today, safe, p, NamesIn(toDelete, p))
    {
      match p {
        case Monthly =>
        case Weekly =>
        case Daily =>
      }
    }
  }

  // One rotation on the delete set it chooses, in any order: the tree keeps its shape, every other name
  // reads as before or is an unseen link left dangling, and without an error exactly the delete set is
  // gone, which is so if and only if no file of it is stuck.
  lemma ChosenRotation(t: Tree, r: Retention, today: Date, safe: bool, toDelete: set<Key>, order: seq<Key>,
                       clock: Key -> int)
    requires Shape(t) && IsDeleteSet(t, r, today, safe, toDelete) && Enumerates(order, toDelete)
    ensures var scanned := ScannedPeriods(r, today);
            var p := DeleteLoop(t, toDelete, ScanRecords(t, scanned), order, clock);
            && Shape(p.tree) && t.Keys - toDelete <= p.tree.Keys <= t.Keys
            && (forall k :: k in t && k !in toDelete ==>
                  || Resolve(p.tree, k) == Resolve(t, k)
                  || (Unseen(t, scanned, toDelete, k) && Resolve(p.tree, k) == None))
            && (p.errors == 0 <==> forall f :: f in toDelete ==> !Stuck(t, scanned, toDelete, f))
            && (p.errors == 0 ==> p.tree.Keys == t.Keys - toDelete
                                  && ReadsAfter(t, scanned, toDelete, toDelete, p.tree))
  {
    hide IsDeleteSet, Shape, Deletable, DeleteLoop, Stuck, ReadsAfter, Rotated, Resolve;
    DeleteSetDeletable(t, r, today, safe, toDelete);
    LoopKeepsShape(t, ScannedPeriods(r, today), toDelete, order, clock);
    RotationExactIff(t, ScannedPeriods(r, today), toDelete, order, clock);
  }

  // The links recorded once the names in `visited` have been read.
  ghost function LinkIn(t: Tree, visited: set<Key>, p: Period, file: Key): Option<Key> {
    var k := Key(p, file.name);
    if k in visited && k in t && t[k].Link? && t[k].target == file then Some(k) else None
  }

  ghost function LinksIn(t: Tree, visited: set<Key>, file: Key): FileLinks {
    FileLinks(LinkIn(t, visited, Weekly, file), LinkIn(t, visited, Daily, file))
  }

  ghost predicate Recorded(t: Tree, visited: set<Key>, filesMap: map<Key, FileLinks>) {
    filesMap.Keys == visited && forall f :: f in visited ==> filesMap[f] == LinksIn(t, visited, f)
  }

  function Record(t: Tree, filesMap: map<Key, FileLinks>, k: Key): map<Key, FileLinks>
    requires k in t
  {
    var m := filesMap[k := FileLinks(None, None)];
    if t[k].Link? && t[k].target in m then
      var target := t[k].target;
      match k.period
      case Monthly => m
      case Weekly => m[target := m[target].(wLink := Some(k))]
      case Daily => m[target := m[target].(dLink := Some(k))]
    else m
  }

  lemma RecordStep(t: Tree, visited: set<Key>, filesMap: map<Key, FileLinks>, k: Key)
    requires Shape(t) && Recorded(t, visited, filesMap)
    requires k in t && k !in visited
    requires forall v :: v in visited ==> v in t && !Above(k.period, v.period)
    ensures Recorded(t, visited + {k}, Record(t, filesMap, k))
  {
    var m := Record(t, filesMap, k);
    assert m.Keys == visited + {k};
    forall f | f in visited + {k}
      ensures m[f] == LinksIn(t, visited + {k}, f)
    {
      if f == k {
        assert forall p :: LinkIn(t, visited + {k}, p, k) == None;
      }
    }
  }

  lemma AllVisited(t: Tree, scanned: set<Period>, visited: set<Key>, filesMap: map<Key, FileLinks>)
    requires Recorded(t, visited, filesMap)
    requires forall k :: k in visited <==> k in t && k.period in scanned
    ensures forall f :: f in filesMap ==> filesMap[f] == LinksTo(t, scanned, f)
  {
  }

  ghost function VisitedIn(t: Tree, r: Retention, today: Date, done: set<Period>): set<Key> {
    set k | k in t && k.period in done && k.period in ScannedPeriods(r, today)
  }

  // The scan after the directories in `done`.
  ghost predicate ScanState(t: Tree, r: Retention, today: Date, safe: bool, done: set<Period>,
                            filesMap: map<Key, FileLinks>, filesToDelete: set<Key>)
  {
    && Recorded(t, VisitedIn(t, r, today, done), filesMap)
    && filesToDelete <= VisitedIn(t, r, today, done)
    && (forall p :: p in done ==> Chosen(t, r, today, safe, p, NamesIn(filesToDelete, p)))
    && (forall p :: p !in done ==> NamesIn(filesToDelete, p) == {})
  }

  lemma ScanComplete(t: Tree, r: Retention, today: Date, safe: bool, done: set<Period>,
                     filesMap: map<Key, FileLinks>, filesToDelete: set<Key>)
    requires ScanState(t, r, today, safe, done, filesMap, filesToDelete)
    requires forall p :: p in done
    ensures IsDeleteSet(t, r, today, safe, filesToDelete)
    ensures filesToDelete <= filesMap.Keys
    ensures forall f :: f in filesMap ==> filesMap[f] == LinksTo(t, ScannedPeriods(r, today), f)
  {
    AllVisited(t, ScannedPeriods(r, today), VisitedIn(t, r, today, done), filesMap);
  }

  // An early stop leaves the rest of the order unvisited.
  lemma {:induction false} StopIgnoresRest(t: Tree, toDelete: set<Key>, links: Key -> FileLinks,
                                          order: seq<Key>, rest: seq<Key>, clock: Key -> int)
    requires DeleteLoop(t, toDelete, links, order, clock).stopped
    ensures DeleteLoop(t, toDelete, links, order + rest, clock) == DeleteLoop(t, toDelete, links, order, clock)
  {
    if rest == [] {
      assert order + rest == order;
    } else {
      var front := rest[..|rest| - 1];
      StopIgnoresRest(t, toDelete, links, order, front, clock);
      assert (order + rest)[..|order + rest| - 1] == order + front;
    }
  }

  lemma LoopStep(t: Tree, toDelete: set<Key>, links: Key -> FileLinks, order: seq<Key>, file: Key, clock: Key -> int)
    ensures var p := DeleteLoop(t, toDelete, links, order, clock);
            !p.stopped ==>
              var q := DeleteOne(p.tree, toDelete, links(file), file, clock(file));
              DeleteLoop(t, toDelete, links, order + [file], clock) == Progress(q.tree, p.errors + q.errors, q.stopped)
  {
    assert (order + [file])[..|order|] == order;
  }

  lemma NoFilesYet(t: Tree, toDelete: set<Key>, links: Key -> FileLinks, clock: Key -> int)
    ensures DeleteLoop(t, toDelete, links, [], clock) == Progress(t, 0, false)
    ensures Visited([], toDelete, toDelete)
  {
  }

  ghost predicate Visited(order: seq<Key>, toDelete: set<Key>, pending: set<Key>) {
    Enumerates(order, toDelete - pending)
  }

  lemma VisitOne(order: seq<Key>, toDelete: set<Key>, pending: set<Key>, file: Key)
    requires Visited(order, toDelete, pending) && file in pending && pending <= toDelete
    ensures Visited(order + [file], toDelete, pending - {file})
  {
    assert file !in Elements(order);
    assert Elements(order + [file]) == Elements(order) + {file};
  }

  // The files an early stop leaves over complete the order in any way.
  lemma StoppedOrder(t: Tree, toDelete: set<Key>, links: Key -> FileLinks, order: seq<Key>, pending: set<Key>,
                     clock: Key -> int) returns (all: seq<Key>)
    requires Visited(order, toDelete, pending) && pending <= toDelete
    requires DeleteLoop(t, toDelete, links, order, clock).stopped
    ensures Enumerates(all, toDelete)
    ensures DeleteLoop(t, toDelete, links, all, clock) == DeleteLoop(t, toDelete, links, order, clock)
  {
    var rest := EnumerationExists(pending);
    StopIgnoresRest(t, toDelete, links, order, rest, clock);
    all := order + rest;
    Concatenated(order, rest);
  }

  lemma {:induction false} FailureIgnoresRest(t: Tree, dst: Key, order: seq<Period>, rest: seq<Period>, f: Faults,
                                              linkTime: Period -> int)
    requires !MakeLinks(t, dst, order, f, linkTime).1
    ensures MakeLinks(t, dst, order + rest, f, linkTime) == MakeLinks(t, dst, order, f, linkTime)
  {
    if rest == [] {
      assert order + rest == order;
    } else {
      FailureIgnoresRest(t, dst, order, rest[..|rest| - 1], f, linkTime);
      assert (order + rest)[..|order + rest| - 1] == order + rest[..|rest| - 1];
    }
  }

  lemma NoLinks(t: Tree, dst: Key, f: Faults, linkTime: Period -> int)
    ensures MakeLinks(t, dst, [], f, linkTime) == (t, true)
  {
  }

  lemma LinksStep(t: Tree, dst: Key, order: seq<Period>, p: Period, f: Faults, linkTime: Period -> int)
    ensures var (u, ok) := MakeLinks(t, dst, order, f, linkTime);
            ok ==> MakeLinks(t, dst, order + [p], f, linkTime)
                   == MakeLink(u, Key(p, dst.name), dst, f.link(p), linkTime(p))
  {
    assert (order + [p])[..|order|] == order;
  }

  lemma FailedLinks(t: Tree, dst: Key, order: seq<Period>, all: set<Period>, f: Faults, linkTime: Period -> int)
    returns (full: seq<Period>)
    requires Distinct(order) && Elements(order) <= all
    requires !MakeLinks(t, dst, order, f, linkTime).1
    ensures Enumerates(full, all)
    ensures MakeLinks(t, dst, full, f, linkTime) == MakeLinks(t, dst, order, f, linkTime)
  {
    var rest := EnumerationExists(all - Elements(order));
    FailureIgnoresRest(t, dst, order, rest, f, linkTime);
    full := order + rest;
    Concatenated(order, rest);
  }

  lemma SchedulesAreDescending(r: Retention, today: Date)
    ensures Descending(DuePeriods(r, today))
  {
  }

  lemma DeliveryShape(d: Disk, due: seq<Period>, name: string, tmp: Path, f: Faults, now: int, order: seq<Period>,
                      linkTime: Period -> int)
    requires Descending(due) && due != [] && Enumerates(order, Elements(due[1..]))
    ensures var (after, _) := DeliverWith(d, due, name, tmp, f, now, order, linkTime);
            Shape(d.tree) && Ready(d.tree, due, name) ==> Shape(after.tree) && Ready(after.tree, due, name)
  {
    if Shape(d.tree) && Ready(d.tree, due, name) {
      DeliveryKeepsShape(d, due, name, tmp, f, now, order, linkTime);
    }
  }

  ghost predicate PlainTree(t: Tree) {
    forall k :: k in t ==> Plain([k.name]) && (t[k].Link? ==> Plain([t[k].target.name]))
  }

  lemma PlainKept(t: Tree, u: Tree)
    requires PlainTree(t) && Shape(u) && u.Keys <= t.Keys
    ensures PlainTree(u)
  {
    hide Plain;
  }

  class Local {
    var tree: Tree
    var temps: map<Path, TempFile>
    const base: Path
    const rotateEnabled: bool
    const retention: Retention

    ghost predicate PlainNames()
      reads this
    {
      Plain(base) && PlainTree(tree)
    }

    ghost predicate Valid()
      reads this
    {
      PlainNames() && Shape(tree)
    }

    constructor (base: Path, rotateEnabled: bool, retention: Retention)
      requires Plain(base)
      ensures Valid() && tree == map[] && temps == map[] && this.base == base
      ensures this.rotateEnabled == rotateEnabled && this.retention == retention
    {
      this.base := base;
      this.rotateEnabled := rotateEnabled;
      this.retention := retention;
      tree, temps := map[], map[];
    }

    /* ---- System calls ---- */

    method Remove(k: Key) returns (ok: bool)
      modifies this`tree
      ensures ok == (k in old(tree)) && tree == old(tree) - {k}
    {
      ok := k in tree;
      tree := tree - {k};
    }

    method Rename(from: Key, to: Key) returns (ok: bool)
      modifies this`tree
      ensures ok == (from in old(tree))
      ensures tree == if ok then (old(tree) - {from})[to := old(tree)[from]] else old(tree)
    {
      ok := from in tree;
      if ok {
        tree := (tree - {from})[to := tree[from]];
      }
    }

    // A symbolic link stores a text; what it points to is the text joined to the link's directory.
    method Symlink(text: Path, at: Key, now: int) returns (ok: bool)
      requires KeyAt(base, Join(PeriodDir(base, at.period), text)).Some?
      modifies this`tree
      ensures ok == (at !in old(tree))
      ensures tree == if ok then old(tree)[at := Link(KeyAt(base, Join(PeriodDir(base, at.period), text)).value, now)]
                      else old(tree)
    {
      ok := at !in tree;
      if ok {
        tree := tree[at := Link(KeyAt(base, Join(PeriodDir(base, at.period), text)).value, now)];
      }
    }

    // Directory entries come in no particular order.
    method ReadDir(p: Period) returns (names: seq<string>)
      ensures Enumerates(names, set k | k in tree && k.period == p :: k.name)
    {
      names := [];
      var pending := set k | k in tree && k.period == p :: k.name;
      ghost var all := pending;
      while pending != {}
        invariant pending <= all && Distinct(names) && Elements(names) == all - pending
        decreases pending
      {
        var n :| n in pending;
        assert Elements(names + [n]) == Elements(names) + {n};
        names, pending := names + [n], pending - {n};
      }
    }

    method MoveFile(from: Key, to: Key) returns (ok: bool)
      modifies this`tree
      ensures (tree, ok) == BackupTree.MoveFile(old(tree), from, to)
    {
      ok := Remove(to);
      if ok {
        ok := Rename(from, to);
      } else {
        assert tree == old(tree);
      }
    }

    /* ---- Delivery ---- */

    // Rename, or copy when that fails; `f` says which calls fail.
    method PlaceFile(dst: Key, tmp: Path, f: Faults, now: int) returns (ok: bool)
      modifies this`tree, this`temps
      ensures (Disk(tree, temps), ok) == Place(old(Disk(tree, temps)), dst, tmp, f, now)
    {
      if f.mkdir {
        return false;
      }
      if !f.rename && tmp in temps {
        tree := tree[dst := File(temps[tmp].content, temps[tmp].mtime)];
        temps := temps - {tmp};
        return true;
      }
      if f.create {
        return false;
      }
      var at := WriteThrough(tree, dst);
      tree := tree[at := File([], now)];
      if f.open || tmp !in temps {
        return false;
      }
      if f.partial.Some? {
        tree := tree[at := File(f.partial.value, now)];
        assert tree == old(tree)[at := File(f.partial.value, now)];
        return false;
      }
      tree := tree[at := File(temps[tmp].content, now)];
      assert tree == old(tree)[at := File(temps[tmp].content, now)];
      return true;
    }

    method DeliverBackup(tmp: Path, today: Date, f: Faults, now: int, linkTime: Period -> int)
      returns (ok: bool, ghost order: seq<Period>)
      requires PlainNames() && tmp != [] && Plain(tmp)
      modifies this`tree, this`temps
      ensures PlainNames()
      ensures var due, name := DuePeriods(retention, today), tmp[|tmp| - 1];
              old(Valid()) && Ready(old(tree), due, name) ==> Valid() && Ready(tree, due, name)
      ensures var due := DuePeriods(retention, today);
              && (due != [] ==> Enumerates(order, Elements(due[1..])))
              && (Disk(tree, temps), ok)
                 == DeliverWith(old(Disk(tree, temps)), due, tmp[|tmp| - 1], tmp, f, now, order, linkTime)
    {
      var name := tmp[|tmp| - 1];
      assert Plain([name]);
      ghost var due := DuePeriods(retention, today);
      ghost var before := Disk(tree, temps);
      SchedulesAreDescending(retention, today);
      order := [];
      var dst, links := GetBackupDstAndLinks(name, base, retention, today);
      if dst.None? {
        return true, [];
      }
      KeyOfKeyPath(base, Key(due[0], name));
      var dstKey := KeyAt(base, dst.value).value;
      ok := PlaceFile(dstKey, tmp, f, now);
      if !ok {
        order := EnumerationExists(Elements(due[1..]));
        DeliveryShape(before, due, name, tmp, f, now, order, linkTime);
        return;
      }
      ok, order := LinkTo(dstKey, links, due, f, linkTime);
      DeliveryShape(before, due, name, tmp, f, now, order, linkTime);
    }

    // The loop over the link map, in any order; it ends with the first failure.
    method LinkTo(dst: Key, links: map<Path, Path>, ghost due: seq<Period>, f: Faults, linkTime: Period -> int)
      returns (ok: bool, ghost order: seq<Period>)
      requires PlainNames() && Plain([dst.name]) && due != []
      requires forall p :: p in due[1..] <==> KeyPath(base, Key(p, dst.name)) in links
      requires forall k :: k in links ==> exists p :: k == KeyPath(base, Key(p, dst.name))
      requires forall p :: p in due[1..] ==>
                 Join(PeriodDir(base, p), links[KeyPath(base, Key(p, dst.name))]) == KeyPath(base, dst)
      modifies this`tree
      ensures PlainNames()
      ensures Enumerates(order, Elements(due[1..]))
      ensures (tree, ok) == MakeLinks(old(tree), dst, order, f, linkTime)
    {
      hide KeyPath, KeyAt, Join, Plain, MakeLink, MakeLinks;
      ok, order := true, [];
      NoLinks(tree, dst, f, linkTime);
      var pending := set p | p in PERIODS && KeyPath(base, Key(p, dst.name)) in links;
      forall p: Period
        ensures p in pending <==> p in due[1..]
      {
        AllPeriods(p);
      }
      ghost var all := pending;
      assert all == Elements(due[1..]);
      KeyOfKeyPath(base, dst);
      while pending != {}
        invariant pending <= all && Distinct(order) && Elements(order) == all - pending
        invariant PlainNames()
        invariant (tree, true) == MakeLinks(old(tree), dst, order, f, linkTime)
        decreases pending
      {
        var p :| p in pending;
        pending := pending - {p};
        var at := Key(p, dst.name);
        LinksStep(old(tree), dst, order, p, f, linkTime);
        assert p !in Elements(order) && Elements(order + [p]) == Elements(order) + {p};
        order := order + [p];
        assert p in due[1..];
        ok := LinkOne(links[KeyPath(base, at)], at, dst, f.link(p), linkTime(p));
        if !ok {
          order := FailedLinks(old(tree), dst, order, all, f, linkTime);
          return;
        }
      }
    }

    method LinkOne(text: Path, at: Key, dst: Key, fault: LinkFault, now: int) returns (ok: bool)
      requires KeyAt(base, Join(PeriodDir(base, at.period), text)) == Some(dst)
      requires PlainNames() && Plain([at.name]) && Plain([dst.name])
      modifies this`tree
      ensures PlainNames()
      ensures (tree, ok) == MakeLink(old(tree), at, dst, fault, now)
    {
      if fault.NoDirectory? {
        return false;
      }
      var removed := Remove(at);
      if fault.NoLink? {
        return false;
      }
      ok := Symlink(text, at, now);
      assert (old(tree) - {at})[at := Link(dst, now)] == old(tree)[at := Link(dst, now)];
    }

    /* ---- Rotation ---- */

    method ScanDir(p: Period, names: seq<string>, filesMap: map<Key, FileLinks>, ghost visited: set<Key>)
      returns (after: map<Key, FileLinks>, objs: seq<Obj>)
      requires Shape(tree)
      requires Enumerates(names, set k | k in tree && k.period == p :: k.name)
      requires Recorded(tree, visited, filesMap)
      requires forall v :: v in visited ==> v in tree && Above(v.period, p)
      ensures Recorded(tree, visited + KeysIn(tree, p), after)
      ensures Lists(objs, Listing(tree, p))
    {
      after, objs := filesMap, [];
      ghost var seen: set<Key> := {};
      for i := 0 to |names|
        invariant seen == set k | k in tree && k.period == p && k.name in names[..i]
        invariant Recorded(tree, visited + seen, after)
      {
        var k := Key(p, names[i]);
        assert names[i] in Elements(names);
        assert k !in visited + seen;
        RecordStep(tree, visited + seen, after, k);
        after := Record(tree, after, k);
        assert visited + (seen + {k}) == visited + seen + {k};
        seen := seen + {k};
      }
      assert forall k :: k in tree && k.period == p ==> k.name in Elements(names);
      assert seen == KeysIn(tree, p);
      objs := Describe(p, names);
    }

    method Describe(p: Period, names: seq<string>) returns (objs: seq<Obj>)
      requires Enumerates(names, set k | k in tree && k.period == p :: k.name)
      ensures Lists(objs, Listing(tree, p))
    {
      objs := [];
      assert forall i :: 0 <= i < |names| ==> names[i] in Elements(names);
      for i := 0 to |names|
        invariant |objs| == i
        invariant forall j :: 0 <= j < i ==> objs[j].name == names[j]
        invariant forall j :: 0 <= j < i ==> Key(p, names[j]) in tree && objs[j].modtime == tree[Key(p, names[j])].mtime
      {
        objs := objs + [Obj(names[i], tree[Key(p, names[i])].mtime)];
      }
      forall n | n in Listing(tree, p)
        ensures exists o :: o in objs && o.name == n
      {
        assert n in Elements(names);
        var i :| 0 <= i < |names| && names[i] == n;
        assert objs[i] in objs;
      }
    }

    // One pass of the loop body: `break` is the second result.
    method DeleteFile(file: Key, fl: FileLinks, toDelete: set<Key>, now: int) returns (errors: nat, stop: bool)
      requires Plain(base)
      requires fl.wLink.Some? ==> Plain([fl.wLink.value.name])
      modifies this`tree
      ensures Progress(tree, errors, stop) == DeleteOne(old(tree), toDelete, fl, file, now)
    {
      hide KeyPath, KeyAt, Join, Rel, BackupTree.MoveFile;
      errors, stop := 0, false;
      var delFile, moved := true, false;
      if fl.wLink.Some? {
        var w := fl.wLink.value;
        if w !in toDelete {
          delFile := false;
          var ok := MoveFile(file, w);
          if !ok {
            errors := errors + 1;
          } else {
            moved := true;
          }
          if fl.dLink.None? || fl.dLink.value !in toDelete {
            var removed := false;
            if fl.dLink.Some? {
              removed := Remove(fl.dLink.value);
            }
            if !removed {
              return errors + 1, true;
            }
            var d := fl.dLink.value;
            var relative := Rel(PeriodDir(base, d.period), KeyPath(base, w));
            LinkText(base, d.period, w);
            KeyOfKeyPath(base, w);
            ok := Symlink(relative, d, now);
            assert tree == BackupTree.MoveFile(old(tree), file, w).0[d := Link(w, now)];
            errors := errors + (if ok then 0 else 1);
          }
        }
      }
      if fl.dLink.Some? && !moved {
        if fl.dLink.value !in toDelete {
          delFile := false;
          var ok := MoveFile(file, fl.dLink.value);
          if !ok {
            errors := errors + 1;
          }
        }
      }
      if delFile {
        var ok := Remove(file);
        if !ok {
          assert tree == old(tree);
          errors := errors + 1;
        }
      }
    }

    // The loop over the delete set, in the order a Go map happens to be walked.
    method DeleteFiles(toDelete: set<Key>, filesMap: map<Key, FileLinks>, ghost scanned: set<Period>, clock: Key -> int)
      returns (errors: nat, ghost order: seq<Key>)
      requires Valid()
      requires toDelete <= filesMap.Keys
      requires forall f :: f in filesMap ==> filesMap[f] == LinksTo(tree, scanned, f)
      modifies this`tree
      ensures Enumerates(order, toDelete)
      ensures var p := DeleteLoop(old(tree), toDelete, ScanRecords(old(tree), scanned), order, clock);
              tree == p.tree && errors == p.errors
    {
      ghost var t, records := tree, ScanRecords(tree, scanned);
      assert forall f :: f in filesMap ==> filesMap[f] == records(f);
      assert forall f :: f in filesMap && filesMap[f].wLink.Some? ==> Plain([filesMap[f].wLink.value.name]);
      NoFilesYet(t, toDelete, records, clock);
      hide DeleteOne, DeleteLoop, LinksTo, ScanRecords, Shape, Plain, Distinct;
      errors, order := 0, [];
      var pending := toDelete;
      while pending != {}
        invariant pending <= toDelete && Visited(order, toDelete, pending)
        invariant DeleteLoop(t, toDelete, records, order, clock) == Progress(tree, errors, false)
        decreases pending
      {
        var file :| file in pending;
        LoopStep(t, toDelete, records, order, file, clock);
        VisitOne(order, toDelete, pending, file);
        var errs, stop := DeleteFile(file, filesMap[file], toDelete, clock(file));
        errors := errors + errs;
        order := order + [file];
        pending := pending - {file};
        if stop {
          order := StoppedOrder(t, toDelete, records, order, pending, clock);
          return;
        }
      }
    }

    // One directory of the scan: what it holds, which links it has, and what is to go.
    method RotateDir(p: Period, today: Date, count: int, date: Option<int>, safe: bool, filesMap: map<Key, FileLinks>,
                     ghost visited: set<Key>)
      returns (after: map<Key, FileLinks>, chosen: set<Key>)
      requires Shape(tree) && Recorded(tree, visited, filesMap)
      requires forall v :: v in visited ==> v in tree && Above(v.period, p)
      requires (count, date) == GetRetention(p, retention, today) && (count, date) != (0, None)
      ensures Recorded(tree, visited + KeysIn(tree, p), after)
      ensures chosen <= KeysIn(tree, p)
      ensures Chosen(tree, retention, today, safe, p, NamesIn(chosen, p))
      ensures forall q :: q != p ==> NamesIn(chosen, q) == {}
    {
      var names := ReadDir(p);
      var objs;
      after, objs := ScanDir(p, names, filesMap, visited);
      var rFiles := DGetRotatedObjects(objs, count, date, retention.useCount, safe, Listing(tree, p));
      chosen := set n | n in rFiles :: Key(p, n);
      assert chosen == set n | n in Elements(rFiles) :: Key(p, n);
      forall q
        ensures NamesIn(chosen, q) == if p == q then Elements(rFiles) else {}
      {
        NamesInKeys(Elements(rFiles), p, q);
      }
      forall n | n in rFiles
        ensures Key(p, n) in tree
      {
        assert n in Elements(rFiles);
        assert n in Listing(tree, p);
      }
    }

    // The body of the scan loop; a directory that cannot be read ends the rotation.
    method ScanPeriod(p: Period, today: Date, safe: bool, unreadable: set<Period>,
                      filesMap: map<Key, FileLinks>, filesToDelete: set<Key>, ghost done: set<Period>)
      returns (ok: bool, after: map<Key, FileLinks>, toDelete: set<Key>)
      requires Shape(tree) && ScanState(tree, retention, today, safe, done, filesMap, filesToDelete)
      requires forall q :: q in done ==> Above(q, p)
      ensures ok <==> !(p in ScannedPeriods(retention, today) && p in unreadable)
      ensures ok ==> ScanState(tree, retention, today, safe, done + {p}, after, toDelete)
    {
      after, toDelete := filesMap, filesToDelete;
      var (count, date) := GetRetention(p, retention, today);
      ScannedMeans(p, retention, today);
      hide GetRetention, IsRotation, ScannedPeriods, Recorded, Listing, Shape, NamesIn;
      if (count, date) == (0, None) {
        assert VisitedIn(tree, retention, today, done + {p}) == VisitedIn(tree, retention, today, done);
        return true, after, toDelete;
      }
      if p in unreadable {
        return false, after, toDelete;
      }
      ok := true;
      ghost var visited := VisitedIn(tree, retention, today, done);
      assert VisitedIn(tree, retention, today, done + {p}) == visited + KeysIn(tree, p);
      var chosen;
      after, chosen := RotateDir(p, today, count, date, safe, filesMap, visited);
      toDelete := filesToDelete + chosen;
      forall q
        ensures NamesIn(toDelete, q) == if q == p then NamesIn(chosen, p) else NamesIn(filesToDelete, q)
      {
        NamesInUnion(filesToDelete, chosen, q);
      }
    }

    method DeleteDiscBackup(today: Date, safe: bool, unreadable: set<Period>, clock: Key -> int)
      returns (errors: nat, ghost toDelete: set<Key>, ghost order: seq<Key>)
      requires Valid()
      modifies this`tree
      ensures Valid()
      ensures ScannedPeriods(retention, today) !! unreadable ==>
                && IsDeleteSet(old(tree), retention, today, safe, toDelete)
                && Enumerates(order, toDelete)
                && var p := DeleteLoop(old(tree), toDelete,
                                       ScanRecords(old(tree), ScannedPeriods(retention, today)), order, clock);
                   tree == p.tree && errors == p.errors
      ensures !(ScannedPeriods(retention, today) !! unreadable) ==> tree == old(tree) && errors == 1
    {
      hide IsDeleteSet, DeleteLoop, Plain;
      var filesMap: map<Key, FileLinks> := map[];
      var filesToDelete: set<Key> := {};
      ghost var scanned := ScannedPeriods(retention, today);
      ghost var done: set<Period> := {};
      errors, toDelete, order := 0, {}, [];
      for i := 0 to |PERIODS|
        invariant tree == old(tree)
        invariant done == set p | p in PERIODS[..i]
        invariant done * scanned !! unreadable
        invariant ScanState(tree, retention, today, safe, done, filesMap, filesToDelete)
      {
        hide ScanState, ScannedPeriods, Shape;
        var ok;
        ok, filesMap, filesToDelete := ScanPeriod(PERIODS[i], today, safe, unreadable, filesMap, filesToDelete, done);
        if !ok {
          errors := 1;
          return;
        }
        done := done + {PERIODS[i]};
      }
      toDelete := filesToDelete;
      assert PERIODS[..|PERIODS|] == PERIODS;
      forall p: Period
        ensures p in done
      {
        AllPeriods(p);
      }
      ScanComplete(tree, retention, today, safe, done, filesMap, filesToDelete);
      errors, order := DeleteFiles(filesToDelete, filesMap, scanned, clock);
      ChosenRotation(old(tree), retention, today, safe, toDelete, order, clock);
      PlainKept(old(tree), tree);
    }

    // Rotation can be switched off.
    method DeleteOldBackups(today: Date, safe: bool, unreadable: set<Period>, clock: Key -> int)
      returns (errors: nat, ghost toDelete: set<Key>, ghost order: seq<Key>)
      requires Valid()
      modifies this`tree
      ensures Valid()
      ensures rotateEnabled && ScannedPeriods(retention, today) !! unreadable ==>
                && IsDeleteSet(old(tree), retention, today, safe, toDelete)
                && Enumerates(order, toDelete)
                && var p := DeleteLoop(old(tree), toDelete,
                                       ScanRecords(old(tree), ScannedPeriods(retention, today)), order, clock);
                   tree == p.tree && errors == p.errors
      ensures rotateEnabled && !(ScannedPeriods(retention, today) !! unreadable) ==> tree == old(tree) && errors == 1
      ensures !rotateEnabled ==> tree == old(tree) && errors == 0
    {
      if !rotateEnabled {
        return 0, {}, [];
      }
      errors, toDelete, order := DeleteDiscBackup(today, safe, unreadable, clock);
    }
  }
}
