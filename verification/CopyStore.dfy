/** A remote storage that keeps plain copies (modules/storage/sftp/sftp.go): every due period gets
    its own file, and rotation removes files one directory at a time. */
module CopyStore {
  import opened BackupTree
  import opened Calendar
  import opened Options
  import opened Paths
  import opened RotatedObjects
  import opened Schedule

  datatype Copy = Copy(content: Content, mtime: int)

  type Copies = map<Key, Copy>

  ghost function Listing(c: Copies, p: Period): map<string, int> {
    map k | k in c && k.period == p :: k.name := c[k].mtime
  }

  ghost predicate IsDeleteSet(c: Copies, r: Retention, today: Date, safe: bool, deleted: set<Key>) {
    forall p :: Chosen(c, r, today, safe, p, deleted)
  }

  ghost predicate Chosen(c: Copies, r: Retention, today: Date, safe: bool, p: Period, deleted: set<Key>) {
    var (count, date) := GetRetention(p, r, today);
    if (count, date) == (0, None) then NamesIn(deleted, p) == {}
    else IsRotation(Listing(c, p), count, date, r.useCount, safe, NamesIn(deleted, p))
  }

  function Copied(c: Copies, due: seq<Period>, name: string, content: Content, time: Period -> int): Copies {
    c + map p | p in due :: Key(p, name) := Copy(content, time(p))
  }

  // What can go wrong with one upload; the old file is removed before the new one is created.
  datatype CopyFault = NoFault | NoDirectory | NoFile | NoSource | Broken(partial: Content)

  function CopyOne(c: Copies, at: Key, content: Content, fault: CopyFault, now: int): (Copies, bool) {
    match fault
    case NoFault => (c[at := Copy(content, now)], true)
    case NoDirectory => (c, false)
    case NoFile => (c - {at}, false)
    case NoSource => (c[at := Copy([], now)], false)
    case Broken(partial) => (c[at := Copy(partial, now)], false)
  }

  // The upload loop: the first failure ends it.
  function CopyAll(c: Copies, due: seq<Period>, name: string, content: Content, fault: Period -> CopyFault,
                   time: Period -> int): (Copies, bool)
  {
    if due == [] then (c, true)
    else
      var (c1, ok) := CopyAll(c, due[..|due| - 1], name, content, fault, time);
      var p := due[|due| - 1];
      if !ok then (c1, false) else CopyOne(c1, Key(p, name), content, fault(p), time(p))
  }

  lemma {:induction false} UploadSucceeds(c: Copies, due: seq<Period>, name: string, content: Content,
                                          fault: Period -> CopyFault, time: Period -> int)
    requires forall p :: p in due ==> fault(p).NoFault?
    ensures CopyAll(c, due, name, content, fault, time) == (Copied(c, due, name, content, time), true)
  {
    if due == [] {
      assert Copied(c, due, name, content, time) == c;
    } else {
      var front, p := due[..|due| - 1], due[|due| - 1];
      assert due == front + [p];
      UploadSucceeds(c, front, name, content, fault, time);
      CopiedGrows(c, front, p, name, content, time);
    }
  }

  lemma CopiedAt(c: Copies, due: seq<Period>, name: string, content: Content, time: Period -> int, k: Key)
    ensures var u := Copied(c, due, name, content, time); var copied := k.name == name && k.period in due;
            && (k in u <==> copied || k in c)
            && (k in u ==> u[k] == if copied then Copy(content, time(k.period)) else c[k])
  {
    assert k == Key(k.period, k.name);
  }

  lemma CopiedGrows(c: Copies, due: seq<Period>, p: Period, name: string, content: Content, time: Period -> int)
    ensures Copied(c, due, name, content, time)[Key(p, name) := Copy(content, time(p))]
            == Copied(c, due + [p], name, content, time)
  {
    hide Copied;
    var u := Copied(c, due, name, content, time)[Key(p, name) := Copy(content, time(p))];
    var v := Copied(c, due + [p], name, content, time);
    forall k: Key
      ensures k in u <==> k in v
      ensures k in u ==> u[k] == v[k]
    {
      CopiedAt(c, due, name, content, time, k);
      CopiedAt(c, due + [p], name, content, time, k);
    }
    assert u == v;
  }

  lemma {:induction false} UploadSucceedsIff(c: Copies, due: seq<Period>, name: string, content: Content,
                                            fault: Period -> CopyFault, time: Period -> int)
    ensures CopyAll(c, due, name, content, fault, time).1 <==> forall i :: 0 <= i < |due| ==> fault(due[i]).NoFault?
  {
    if due != [] {
      UploadSucceedsIff(c, due[..|due| - 1], name, content, fault, time);
    }
  }

  // What a fault leaves of the copy it befalls: the old one, none, an empty one, or what came through.
  ghost predicate LeftBy(c: Copies, at: Key, fault: CopyFault, now: int, u: Copies) {
    match fault
    case NoFault => false
    case NoDirectory => (at in u <==> at in c) && (at in c ==> u[at] == c[at])
    case NoFile => at !in u
    case NoSource => at in u && u[at] == Copy([], now)
    case Broken(partial) => at in u && u[at] == Copy(partial, now)
  }

  // The periods before the first fault have the backup, its own has what the fault leaves, and
  // everything else is as it was.
  lemma FirstFault(c: Copies, due: seq<Period>, n: nat, name: string, content: Content, fault: Period -> CopyFault,
                   time: Period -> int)
    requires n < |due| && Distinct(due) && !fault(due[n]).NoFault?
    requires forall i :: 0 <= i < n ==> fault(due[i]).NoFault?
    ensures var (u, ok) := CopyAll(c, due, name, content, fault, time);
            && !ok
            && (forall i :: 0 <= i < n ==> Key(due[i], name) in u && u[Key(due[i], name)] == Copy(content, time(due[i])))
            && LeftBy(c, Key(due[n], name), fault(due[n]), time(due[n]), u)
            && forall k: Key :: k.name != name || k.period !in due[..n + 1] ==> (k in u <==> k in c) && (k in c ==> u[k] == c[k])
  {
    hide CopyAll, CopyOne, Copied, LeftBy, Distinct;
    var front, at := due[..n], Key(due[n], name);
    UploadSucceeds(c, front, name, content, fault, time);
    UploadStopsAt(c, due, n, name, content, fault, time);
    var u1 := Copied(c, front, name, content, time);
    FaultLeaves(u1, at, content, fault(due[n]), time(due[n]));
    PeriodsUpTo(due, n);
    CopiedAt(c, front, name, content, time, at);
    var u := CopyOne(u1, at, content, fault(due[n]), time(due[n])).0;
    LeftSame(c, u1, at, fault(due[n]), time(due[n]), u);
    forall k: Key
      ensures k.name == name && k.period in front ==> k in u && u[k] == Copy(content, time(k.period))
      ensures k.name != name || k.period !in due[..n + 1] ==> (k in u <==> k in c) && (k in c ==> u[k] == c[k])
    {
      CopiedAt(c, front, name, content, time, k);
    }
    forall i | 0 <= i < n
      ensures Key(due[i], name) in u && u[Key(due[i], name)] == Copy(content, time(due[i]))
    {
      assert due[i] in front;
    }
  }

  lemma PeriodsUpTo(due: seq<Period>, n: nat)
    requires n < |due| && Distinct(due)
    ensures due[n] !in due[..n] && forall p :: p in due[..n + 1] <==> p in due[..n] || p == due[n]
    ensures forall i :: 0 <= i < n ==> due[i] in due[..n]
  {
    assert due[..n + 1] == due[..n] + [due[n]];
  }

  lemma LeftSame(c: Copies, c1: Copies, at: Key, fault: CopyFault, now: int, u: Copies)
    requires LeftBy(c1, at, fault, now, u) && (at in c1 <==> at in c) && (at in c ==> c1[at] == c[at])
    ensures LeftBy(c, at, fault, now, u)
  {
  }

  lemma FaultLeaves(c: Copies, at: Key, content: Content, fault: CopyFault, now: int)
    requires !fault.NoFault?
    ensures var (u, ok) := CopyOne(c, at, content, fault, now);
            !ok && LeftBy(c, at, fault, now, u) && forall k :: k != at ==> (k in u <==> k in c) && (k in c ==> u[k] == c[k])
  {
  }

  lemma UploadStopsAt(c: Copies, due: seq<Period>, n: nat, name: string, content: Content, fault: Period -> CopyFault,
                      time: Period -> int)
    requires n < |due| && CopyAll(c, due[..n], name, content, fault, time).1 && !fault(due[n]).NoFault?
    ensures CopyAll(c, due, name, content, fault, time)
            == CopyOne(CopyAll(c, due[..n], name, content, fault, time).0, Key(due[n], name), content, fault(due[n]), time(due[n]))
  {
    assert due[..n + 1][..n] == due[..n];
    FaultLeaves(CopyAll(c, due[..n], name, content, fault, time).0, Key(due[n], name), content, fault(due[n]), time(due[n]));
    UploadStops(c, due, n + 1, name, content, fault, time);
  }

  class Sftp {
    var store: Copies
    const base: Path
    const rotateEnabled: bool
    const retention: Retention

    constructor (base: Path, rotateEnabled: bool, retention: Retention)
      ensures store == map[] && this.base == base
      ensures this.rotateEnabled == rotateEnabled && this.retention == retention
    {
      this.base := base;
      this.rotateEnabled := rotateEnabled;
      this.retention := retention;
      store := map[];
    }

    method DeliverBackup(name: string, content: Content, today: Date, fault: Period -> CopyFault, time: Period -> int)
      returns (ok: bool)
      modifies this`store
      ensures (store, ok) == CopyAll(old(store), DuePeriods(retention, today), name, content, fault, time)
    {
      ghost var due := DuePeriods(retention, today);
      var dst := GetBackupDstList(name, base, retention, today);
      ok := true;
      for i := 0 to |dst|
        invariant (store, true) == CopyAll(old(store), due[..i], name, content, fault, time)
      {
        hide CopyOne, DuePeriods;
        KeyOfKeyPath(base, Key(due[i], name));
        var at := KeyAt(base, dst[i]).value;
        assert due[..i + 1][..i] == due[..i];
        var copied := CopyOne(store, at, content, fault(at.period), time(at.period));
        store, ok := copied.0, copied.1;
        if !ok {
          UploadStops(old(store), due, i + 1, name, content, fault, time);
          return;
        }
      }
      assert due[..|dst|] == due;
    }

    method ReadDir(p: Period) returns (objs: seq<Obj>)
      ensures Lists(objs, Listing(store, p))
    {
      objs := [];
      var pending := set k | k in store && k.period == p;
      ghost var all := pending;
      while pending != {}
        invariant pending <= all
        invariant forall o :: o in objs <==> Key(p, o.name) in all - pending && o.modtime == store[Key(p, o.name)].mtime
        invariant NamesDiffer(objs)
        decreases pending
      {
        var k :| k in pending;
        var o := Obj(k.name, store[k].mtime);
        assert k == Key(p, k.name);
        objs, pending := objs + [o], pending - {k};
      }
      forall n | n in Listing(store, p)
        ensures exists o :: o in objs && o.name == n
      {
        assert Obj(n, store[Key(p, n)].mtime) in objs;
      }
    }

    // Files whose removal is refused stay, and are reported.
    method RemoveAll(p: Period, names: seq<string>, refused: set<Key>) returns (errors: nat, ghost keys: seq<Key>)
      requires Distinct(names)
      modifies this`store
      ensures |keys| == |names| && forall i :: 0 <= i < |keys| ==> keys[i] == Key(p, names[i])
      ensures store == old(store) - (Elements(keys) - refused)
      ensures errors == |Elements(keys) * refused|
    {
      errors, keys := 0, [];
      for i := 0 to |names|
        invariant |keys| == i && forall j :: 0 <= j < i ==> keys[j] == Key(p, names[j])
        invariant store == old(store) - (Elements(keys) - refused)
        invariant errors == |Elements(keys) * refused|
      {
        var k := Key(p, names[i]);
        RemovalStep(old(store), keys, k, refused);
        if k in refused {
          errors := errors + 1;
        } else {
          store := store - {k};
        }
        keys := keys + [k];
      }
    }

    method RotateDir(p: Period, today: Date, count: int, date: Option<int>, safe: bool, refused: set<Key>)
      returns (errors: nat, ghost chosen: set<Key>)
      requires (count, date) == GetRetention(p, retention, today) && (count, date) != (0, None)
      modifies this`store
      ensures forall k :: k in chosen ==> k in old(store) && k.period == p
      ensures Chosen(old(store), retention, today, safe, p, chosen)
      ensures store == old(store) - (chosen - refused) && errors == |chosen * refused|
    {
      hide IsRotation, Listing, GetRetention;
      var objs := ReadDir(p);
      var names := DGetRotatedObjects(objs, count, date, retention.useCount, safe, Listing(store, p));
      ChosenNames(store, p, count, date, retention.useCount, safe, Elements(names));
      ghost var keys;
      errors, keys := RemoveAll(p, names, refused);
      chosen := set n | n in Elements(names) :: Key(p, n);
      KeysOfNames(p, names, keys);
      NamesInKeys(Elements(names), p, p);
    }

    // The body of the loop over the periods.
    method RotatePeriod(p: Period, today: Date, safe: bool, unreadable: set<Period>, refused: set<Key>,
                        ghost c: Copies, ghost done: set<Period>, ghost deleted: set<Key>)
      returns (ok: bool, errors: nat, ghost chosen: set<Key>)
      requires Rotating(c, retention, today, safe, done, deleted) && p !in done
      requires store == c - (deleted - refused)
      modifies this`store
      ensures ok <==> !(p in ScannedPeriods(retention, today) && p in unreadable)
      ensures ok ==> Rotating(c, retention, today, safe, done + {p}, deleted + chosen)
      ensures store == c - (deleted + chosen - refused)
      ensures chosen !! deleted && errors == |chosen * refused|
      ensures !ok ==> chosen == {}
    {
      ScannedMeans(p, retention, today);
      RotatingWithin(c, retention, today, safe, done, deleted);
      hide ScannedPeriods, GetRetention, IsRotation, Rotating, Chosen, Listing, NamesIn;
      errors, chosen := 0, {};
      assert deleted + chosen == deleted && chosen * refused == {};
      var (count, date) := GetRetention(p, retention, today);
      if (count, date) == (0, None) {
        NothingChosen(c, retention, today, safe, p);
        DirectoryDone(c, retention, today, safe, done, deleted, p, {});
        return true, errors, chosen;
      }
      if p in unreadable {
        return false, errors, chosen;
      }
      ok := true;
      errors, chosen := RotateDir(p, today, count, date, safe, refused);
      GoneTwice(c, deleted, chosen, refused);
      SameChoice(c, deleted - refused, retention, today, safe, p, chosen);
      DirectoryDone(c, retention, today, safe, done, deleted, p, chosen);
    }

    // One directory after the other; a directory that cannot be read ends the rotation, and its error
    // is then the only one returned.
    method DeleteDiscBackup(today: Date, safe: bool, unreadable: set<Period>, refused: set<Key>)
      returns (errors: nat, ghost deleted: set<Key>)
      modifies this`store
      ensures store == old(store) - (deleted - refused)
      ensures RotatedUpTo(old(store), retention, today, safe, unreadable, deleted)
      ensures ScannedPeriods(retention, today) !! unreadable ==>
                IsDeleteSet(old(store), retention, today, safe, deleted) && errors == |deleted * refused|
      ensures !(ScannedPeriods(retention, today) !! unreadable) ==> errors == 1
    {
      hide ScannedPeriods, Rotating, IsDeleteSet;
      errors, deleted := 0, {};
      ghost var done: set<Period> := {};
      NothingRotated(store, retention, today, safe);
      assert deleted * refused == {} && store - (deleted - refused) == store;
      for i := 0 to |PERIODS|
        invariant done == Firsts(i)
        invariant done * ScannedPeriods(retention, today) !! unreadable
        invariant Rotating(old(store), retention, today, safe, done, deleted)
        invariant store == old(store) - (deleted - refused) && errors == |deleted * refused|
      {
        var ok, refusals;
        ghost var chosen;
        ok, refusals, chosen := RotatePeriod(PERIODS[i], today, safe, unreadable, refused, old(store), done, deleted);
        errors := errors + refusals;
        Refusals(deleted, chosen, refused);
        deleted := deleted + chosen;
        if !ok {
          EndsAt(old(store), retention, today, safe, unreadable, deleted, i);
          return 1, deleted;
        }
        FirstsGrow(i);
        done := done + {PERIODS[i]};
      }
      EndsAt(old(store), retention, today, safe, unreadable, deleted, |PERIODS|);
      RotatingComplete(old(store), retention, today, safe, done, deleted);
    }

    // Rotation can be switched off.
    method DeleteOldBackups(today: Date, safe: bool, unreadable: set<Period>, refused: set<Key>)
      returns (errors: nat, ghost deleted: set<Key>)
      modifies this`store
      ensures store == old(store) - (deleted - refused)
      ensures rotateEnabled ==> RotatedUpTo(old(store), retention, today, safe, unreadable, deleted)
      ensures rotateEnabled && ScannedPeriods(retention, today) !! unreadable ==>
                IsDeleteSet(old(store), retention, today, safe, deleted) && errors == |deleted * refused|
      ensures rotateEnabled && !(ScannedPeriods(retention, today) !! unreadable) ==> errors == 1
      ensures !rotateEnabled ==> deleted == {} && errors == 0
    {
      if !rotateEnabled {
        return 0, {};
      }
      errors, deleted := DeleteDiscBackup(today, safe, unreadable, refused);
    }
  }

  // The deletions chosen so far, directory by directory.
  ghost predicate Rotating(c: Copies, r: Retention, today: Date, safe: bool, done: set<Period>, deleted: set<Key>) {
    && (forall k :: k in deleted ==> k in c && k.period in done)
    && (forall p :: p in done ==> Chosen(c, r, today, safe, p, deleted))
  }

  function Firsts(n: nat): set<Period>
    requires n <= |PERIODS|
  {
    set p | p in PERIODS[..n]
  }

  // The rotation ends before the n-th directory: the first it reads that cannot be read, if there is one.
  ghost predicate Ends(r: Retention, today: Date, unreadable: set<Period>, n: nat) {
    && n <= |PERIODS|
    && (n < |PERIODS| ==> PERIODS[n] in ScannedPeriods(r, today) * unreadable)
    && Firsts(n) * ScannedPeriods(r, today) !! unreadable
  }

  // Every directory before the end is rotated, and no other.
  ghost predicate RotatedUpTo(c: Copies, r: Retention, today: Date, safe: bool, unreadable: set<Period>, deleted: set<Key>) {
    exists n: nat :: Ends(r, today, unreadable, n) && Rotating(c, r, today, safe, Firsts(n), deleted)
  }

  lemma FirstsGrow(n: nat)
    requires n < |PERIODS|
    ensures PERIODS[n] !in Firsts(n) && Firsts(n + 1) == Firsts(n) + {PERIODS[n]}
  {
    assert PERIODS[..n + 1] == PERIODS[..n] + [PERIODS[n]];
  }

  lemma EndsAt(c: Copies, r: Retention, today: Date, safe: bool, unreadable: set<Period>, deleted: set<Key>, n: nat)
    requires Ends(r, today, unreadable, n)
    requires Rotating(c, r, today, safe, Firsts(n), deleted)
    ensures RotatedUpTo(c, r, today, safe, unreadable, deleted)
  {
  }

  lemma {:induction false} UploadStops(c: Copies, due: seq<Period>, n: nat, name: string, content: Content,
                                       fault: Period -> CopyFault, time: Period -> int)
    requires n <= |due| && !CopyAll(c, due[..n], name, content, fault, time).1
    ensures CopyAll(c, due, name, content, fault, time) == CopyAll(c, due[..n], name, content, fault, time)
    decreases |due| - n
  {
    if n == |due| {
      assert due[..n] == due;
    } else {
      assert due[..n + 1][..n] == due[..n];
      UploadStops(c, due, n + 1, name, content, fault, time);
    }
  }

  lemma ChosenNames(c: Copies, p: Period, count: int, date: Option<int>, useCount: bool, safe: bool,
                    names: set<string>)
    requires IsRotation(Listing(c, p), count, date, useCount, safe, names)
    ensures forall n :: n in names ==> Key(p, n) in c
  {
    forall n | n in names
      ensures Key(p, n) in c
    {
      assert n in Listing(c, p);
    }
  }

  lemma RemovalStep(c: Copies, keys: seq<Key>, k: Key, refused: set<Key>)
    requires k !in keys
    ensures c - (Elements(keys + [k]) - refused)
            == if k in refused then c - (Elements(keys) - refused) else c - (Elements(keys) - refused) - {k}
    ensures |Elements(keys + [k]) * refused| == |Elements(keys) * refused| + (if k in refused then 1 else 0)
  {
    assert Elements(keys + [k]) == Elements(keys) + {k};
    if k in refused {
      assert Elements(keys + [k]) * refused == Elements(keys) * refused + {k};
    } else {
      assert Elements(keys + [k]) * refused == Elements(keys) * refused;
    }
  }

  lemma RotatingComplete(c: Copies, r: Retention, today: Date, safe: bool, done: set<Period>, deleted: set<Key>)
    requires Rotating(c, r, today, safe, done, deleted)
    requires done == set p | p in PERIODS[..|PERIODS|]
    ensures IsDeleteSet(c, r, today, safe, deleted)
    ensures ScannedPeriods(r, today) <= done
  {
    assert PERIODS[..|PERIODS|] == PERIODS;
    forall p: Period
      ensures p in done
    {
      AllPeriods(p);
    }
  }

  lemma NothingRotated(c: Copies, r: Retention, today: Date, safe: bool)
    ensures Rotating(c, r, today, safe, {}, {})
  {
  }

  lemma RotatingWithin(c: Copies, r: Retention, today: Date, safe: bool, done: set<Period>, deleted: set<Key>)
    requires Rotating(c, r, today, safe, done, deleted)
    ensures forall k :: k in deleted ==> k in c && k.period in done
  {
  }

  lemma SameChoice(c: Copies, gone: set<Key>, r: Retention, today: Date, safe: bool, p: Period, chosen: set<Key>)
    requires forall k :: k in gone ==> k.period != p
    requires Chosen(c - gone, r, today, safe, p, chosen)
    ensures Chosen(c, r, today, safe, p, chosen)
  {
    assert Listing(c - gone, p) == Listing(c, p);
  }

  lemma GoneTwice(c: Copies, deleted: set<Key>, chosen: set<Key>, refused: set<Key>)
    ensures c - (deleted - refused) - (chosen - refused) == c - (deleted + chosen - refused)
  {
  }

  lemma Refusals(deleted: set<Key>, chosen: set<Key>, refused: set<Key>)
    requires deleted !! chosen
    ensures |(deleted + chosen) * refused| == |deleted * refused| + |chosen * refused|
  {
    assert (deleted + chosen) * refused == deleted * refused + chosen * refused;
    assert (deleted * refused) !! (chosen * refused);
  }

  lemma NothingChosen(c: Copies, r: Retention, today: Date, safe: bool, p: Period)
    requires GetRetention(p, r, today) == (0, None)
    ensures Chosen(c, r, today, safe, p, {})
  {
  }

  lemma DirectoryDone(c: Copies, r: Retention, today: Date, safe: bool, done: set<Period>, deleted: set<Key>,
                      p: Period, chosen: set<Key>)
    requires Rotating(c, r, today, safe, done, deleted) && p !in done
    requires Chosen(c, r, today, safe, p, chosen) && forall k :: k in chosen ==> k in c && k.period == p
    ensures Rotating(c, r, today, safe, done + {p}, deleted + chosen)
  {
    hide GetRetention, IsRotation, Listing;
    forall q
      ensures NamesIn(deleted + chosen, q) == if q == p then NamesIn(chosen, p) else NamesIn(deleted, q)
    {
      NamesInUnion(deleted, chosen, q);
    }
  }

  lemma KeysOfNames(p: Period, names: seq<string>, keys: seq<Key>)
    requires |keys| == |names| && forall i :: 0 <= i < |keys| ==> keys[i] == Key(p, names[i])
    ensures Elements(keys) == set n | n in Elements(names) :: Key(p, n)
  {
    assert forall i :: 0 <= i < |names| ==> names[i] in Elements(names) && keys[i] in Elements(keys);
  }

  lemma ChoiceExists(c: Copies, r: Retention, today: Date, safe: bool, p: Period) returns (names: set<string>)
    ensures forall keys :: NamesIn(keys, p) == names ==> Chosen(c, r, today, safe, p, keys)
  {
    var (count, date) := GetRetention(p, r, today);
    names := RotationExists(Listing(c, p), count, date, r.useCount, safe);
    if (count, date) == (0, None) {
      names := {};
    }
  }

  lemma DeleteSetExists(c: Copies, r: Retention, today: Date, safe: bool) returns (deleted: set<Key>)
    ensures IsDeleteSet(c, r, today, safe, deleted)
  {
    var monthly := ChoiceExists(c, r, today, safe, Monthly);
    var weekly := ChoiceExists(c, r, today, safe, Weekly);
    var daily := ChoiceExists(c, r, today, safe, Daily);
    hide Chosen, NamesIn;
    deleted := KeysNamed(monthly, weekly, daily);
    forall p: Period
      ensures Chosen(c, r, today, safe, p, deleted)
    {
      match p {
        case Monthly =>
        case Weekly =>
        case Daily =>
      }
    }
  }
}
