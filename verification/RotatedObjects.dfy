/** Which files of one directory a rotation deletes: `DGetRotatedObjects` of
    modules/storage/common.go, and what counting the newest backups means. */
module RotatedObjects {
  import opened Options

  datatype Obj = Obj(name: string, modtime: int)

  predicate HasSuffix(s: string, suffix: string) {
    |suffix| <= |s| && s[|s| - |suffix|..] == suffix
  }

  // Only backup archives may be deleted.
  predicate Eligible(name: string) {
    name != ".." && name != "." && (HasSuffix(name, ".tar") || HasSuffix(name, ".tar.gz"))
  }

  // An archive by its name: a stem and one of two endings.
  ghost predicate IsArchive(name: string) {
    exists stem :: name == stem + ".tar" || name == stem + ".tar.gz"
  }

  lemma EligibleAreArchives(name: string)
    ensures Eligible(name) <==> IsArchive(name)
  {
    if Eligible(name) {
      if HasSuffix(name, ".tar") {
        assert name == name[..|name| - 4] + ".tar";
      } else {
        assert name == name[..|name| - 7] + ".tar.gz";
      }
    }
    if stem :| name == stem + ".tar" {
      assert name[|name| - 4..] == ".tar";
    } else if stem :| name == stem + ".tar.gz" {
      assert name[|name| - 7..] == ".tar.gz";
    }
  }

  // Nothing but archives is ever deleted, by age every one that is old enough, and by a count of
  // nought every one.
  ghost predicate RotatesArchives(dir: map<string, int>, count: int, date: Option<int>, useCount: bool, names: set<string>) {
    && (forall n :: n in names ==> n in dir && IsArchive(n))
    && (!useCount ==> forall stem :: Goes(dir, date, names, stem + ".tar") && Goes(dir, date, names, stem + ".tar.gz"))
    && (useCount && count == 0 ==> forall n :: n in dir && IsArchive(n) ==> n in names)
  }

  ghost predicate Goes(dir: map<string, int>, date: Option<int>, names: set<string>, name: string) {
    name in names <==> name in dir && date.Some? && dir[name] < date.value
  }

  lemma RotationOfArchives(dir: map<string, int>, count: int, date: Option<int>, useCount: bool, safe: bool,
                           names: set<string>)
    requires IsRotation(dir, count, date, useCount, safe, names)
    ensures RotatesArchives(dir, count, date, useCount, names)
  {
    hide Eligible, IsArchive;
    forall n
      ensures Eligible(n) <==> IsArchive(n)
    {
      EligibleAreArchives(n);
    }
    forall stem
      ensures IsArchive(stem + ".tar") && IsArchive(stem + ".tar.gz")
    {
      Endings(stem);
    }
  }

  lemma Endings(stem: string)
    ensures IsArchive(stem + ".tar") && IsArchive(stem + ".tar.gz")
  {
  }

  ghost function EligibleNames(dir: map<string, int>): set<string> {
    set n | n in dir && Eligible(n)
  }

  // A listing of a directory: every name once, with its modification time.
  ghost predicate Lists(objects: seq<Obj>, dir: map<string, int>) {
    && NamesDiffer(objects)
    && (forall n :: n in dir <==> exists o :: o in objects && o.name == n)
    && (forall o :: o in objects ==> o.name in dir && dir[o.name] == o.modtime)
  }

  // What may be deleted from a directory, independent of how the objects are listed and sorted.
  ghost predicate IsRotation(dir: map<string, int>, count: int, date: Option<int>, useCount: bool, safe: bool,
                             deleted: set<string>)
  {
    var eligible := EligibleNames(dir);
    if useCount then
      if count > 0 then
        var keep := if safe then count else count - 1;
        if keep <= |eligible| then
          && deleted <= eligible && |deleted| == |eligible| - keep
          && forall a, b :: a in deleted && b in eligible && b !in deleted ==> dir[a] <= dir[b]
        else deleted == {}
      else if count == 0 then deleted == eligible
      else deleted == {}
    else
      deleted == if date.Some? then set n | n in eligible && dir[n] < date.value else {}
  }

  ghost predicate DistinctTimes(dir: map<string, int>) {
    forall a, b :: a in dir && b in dir && dir[a] == dir[b] ==> a == b
  }

  ghost predicate Sorted(s: seq<Obj>) {
    forall i, j :: 0 <= i < j < |s| ==> s[i].modtime <= s[j].modtime
  }

  ghost predicate SameElements<T>(a: seq<T>, b: seq<T>) {
    multiset(a) == multiset(b)
  }

  lemma InsertedElements(s: seq<Obj>, at: nat, o: Obj)
    requires at <= |s|
    ensures multiset(s[..at] + [o] + s[at..]) == multiset(s) + multiset{o}
  {
    assert s == s[..at] + s[at..];
  }

  method InsertByTime(s: seq<Obj>, o: Obj) returns (r: seq<Obj>)
    requires Sorted(s)
    ensures Sorted(r) && multiset(r) == multiset(s) + multiset{o}
  {
    var at := |s|;
    while at > 0 && o.modtime < s[at - 1].modtime
      invariant 0 <= at <= |s|
      invariant forall k :: at <= k < |s| ==> o.modtime <= s[k].modtime
    {
      at := at - 1;
    }
    r := s[..at] + [o] + s[at..];
    InsertedElements(s, at, o);
    assert Sorted(r) by {
      assert forall i :: 0 <= i < at ==> r[i] == s[i] && s[i].modtime <= o.modtime;
      assert forall i :: at < i < |r| ==> r[i] == s[i - 1];
    }
  }

  // sort.Slice by modification time: some sorted permutation, here the one of an insertion sort.
  method SortByTime(objects: seq<Obj>) returns (sorted: seq<Obj>)
    ensures Sorted(sorted) && SameElements(sorted, objects)
  {
    sorted := [];
    for i := 0 to |objects|
      invariant Sorted(sorted) && SameElements(sorted, objects[..i])
    {
      assert objects[..i + 1] == objects[..i] + [objects[i]];
      sorted := InsertByTime(sorted, objects[i]);
    }
    assert objects[..|objects|] == objects;
  }

  function Names(objects: seq<Obj>): seq<string> {
    seq(|objects|, i requires 0 <= i < |objects| => objects[i].name)
  }

  ghost predicate NamesDiffer(objects: seq<Obj>) {
    forall i, j :: 0 <= i < j < |objects| ==> objects[i].name != objects[j].name
  }

  lemma NamesOf(objects: seq<Obj>)
    ensures forall o :: o in objects ==> o.name in Names(objects)
    ensures forall n :: n in Names(objects) ==> exists o :: o in objects && o.name == n
    ensures NamesDiffer(objects) ==> Distinct(Names(objects)) && |Elements(Names(objects))| == |objects|
  {
    var names := Names(objects);
    forall n | n in names
      ensures exists o :: o in objects && o.name == n
    {
      var i :| 0 <= i < |names| && names[i] == n;
      assert objects[i] in objects;
    }
    forall o | o in objects
      ensures o.name in names
    {
      var i :| 0 <= i < |objects| && objects[i] == o;
      assert names[i] == o.name;
    }
    if NamesDiffer(objects) {
      DistinctSize(names);
    }
  }

  // slices.DeleteFunc: only eligible objects stay.
  method Compact(objects: seq<Obj>, ghost dir: map<string, int>) returns (eligible: seq<Obj>)
    requires Lists(objects, dir)
    ensures NamesDiffer(eligible)
    ensures forall o :: o in eligible <==> o in objects && Eligible(o.name)
  {
    eligible := [];
    for i := 0 to |objects|
      invariant forall o :: o in eligible <==> o in objects[..i] && Eligible(o.name)
      invariant NamesDiffer(eligible)
    {
      var o := objects[i];
      if Eligible(o.name) {
        assert forall e :: e in eligible ==> e in objects[..i];
        eligible := eligible + [o];
      }
    }
    assert objects[..|objects|] == objects;
  }

  // Oldest first, all but the newest `keep`.
  method OldestNames(eligible: seq<Obj>, keep: int, ghost dir: map<string, int>) returns (names: seq<string>)
    requires NamesDiffer(eligible) && keep >= 0
    requires forall o :: o in eligible ==> o.name in dir && dir[o.name] == o.modtime && Eligible(o.name)
    requires forall n :: n in EligibleNames(dir) ==> exists o :: o in eligible && o.name == n
    ensures Distinct(names)
    ensures var deleted := Elements(names); var all := EligibleNames(dir);
            if keep <= |all| then
              && deleted <= all && |deleted| == |all| - keep
              && forall a, b :: a in deleted && b in all && b !in deleted ==> dir[a] <= dir[b]
            else deleted == {}
  {
    names := [];
    var sorted := SortByTime(eligible);
    SortedKeepsNames(eligible, sorted);
    ghost var all := EligibleNames(dir);
    NamesOf(sorted);
    assert Elements(Names(sorted)) == all;
    if keep <= |sorted| {
      ghost var oldest := sorted[..|sorted| - keep];
      names := Names(sorted[..|sorted| - keep]);
      NamesOf(oldest);
      OldestFirst(sorted, |sorted| - keep, dir);
    }
  }

  lemma OldestFirst(sorted: seq<Obj>, n: nat, dir: map<string, int>)
    requires Sorted(sorted) && n <= |sorted|
    requires forall o :: o in sorted ==> o.name in dir && dir[o.name] == o.modtime
    ensures forall a, b :: a in Names(sorted[..n]) && b in Names(sorted) && b !in Names(sorted[..n]) ==>
              a in dir && b in dir && dir[a] <= dir[b]
  {
    var all, oldest := Names(sorted), Names(sorted[..n]);
    forall a, b | a in oldest && b in all && b !in oldest
      ensures a in dir && b in dir && dir[a] <= dir[b]
    {
      var i :| 0 <= i < n && oldest[i] == a;
      var j :| 0 <= j < |sorted| && all[j] == b;
      assert oldest == all[..n];
      assert j >= n;
      assert sorted[i] in sorted && sorted[j] in sorted;
    }
  }

  method ExpiredNames(eligible: seq<Obj>, date: int, ghost dir: map<string, int>) returns (names: seq<string>)
    requires NamesDiffer(eligible)
    requires forall o :: o in eligible ==> o.name in dir && dir[o.name] == o.modtime && Eligible(o.name)
    requires forall n :: n in EligibleNames(dir) ==> exists o :: o in eligible && o.name == n
    ensures Distinct(names)
    ensures Elements(names) == set n | n in EligibleNames(dir) && dir[n] < date
  {
    names := [];
    for i := 0 to |eligible|
      invariant forall n :: n in names <==> exists k :: 0 <= k < i && eligible[k].name == n && eligible[k].modtime < date
      invariant Distinct(names)
    {
      if eligible[i].modtime < date {
        assert eligible[i].name !in names;
        names := names + [eligible[i].name];
      }
    }
    forall n | n in EligibleNames(dir) && dir[n] < date
      ensures n in names
    {
      var o :| o in eligible && o.name == n;
      var k :| 0 <= k < |eligible| && eligible[k] == o;
    }
  }

  // The list of names to delete.
  method DGetRotatedObjects(objects: seq<Obj>, count: int, date: Option<int>, useCount: bool, safe: bool,
                            ghost dir: map<string, int>)
    returns (names: seq<string>)
    requires Lists(objects, dir)
    ensures Distinct(names)
    ensures IsRotation(dir, count, date, useCount, safe, Elements(names))
    ensures RotatesArchives(dir, count, date, useCount, Elements(names))
  {
    hide IsArchive, RotatesArchives, Eligible;
    var eligible := Compact(objects, dir);
    names := [];
    if useCount {
      if count > 0 {
        var keep := if safe then count else count - 1;
        names := OldestNames(eligible, keep, dir);
      } else if count == 0 {
        names := Names(eligible);
        NamesOf(eligible);
      }
    } else if date.Some? {
      names := ExpiredNames(eligible, date.value, dir);
    }
    RotationOfArchives(dir, count, date, useCount, safe, Elements(names));
  }

  lemma SortedKeepsNames(eligible: seq<Obj>, sorted: seq<Obj>)
    requires SameElements(sorted, eligible)
    requires NamesDiffer(eligible)
    ensures |sorted| == |eligible|
    ensures forall o :: o in sorted <==> o in eligible
    ensures NamesDiffer(sorted)
  {
    assert |multiset(sorted)| == |multiset(eligible)|;
    forall o
      ensures o in sorted <==> o in eligible
    {
      assert o in multiset(sorted) <==> o in multiset(eligible);
    }
    forall j, k | 0 <= j < k < |sorted|
      ensures sorted[j].name != sorted[k].name
    {
      if sorted[j].name == sorted[k].name {
        assert sorted[j] in eligible && sorted[k] in eligible;
        assert sorted[j] == sorted[k];
        TwiceInSequence(sorted, j, k);
        OnceInSequence(eligible, sorted[j]);
        assert false;
      }
    }
  }

  lemma TwiceInSequence<T>(s: seq<T>, j: nat, k: nat)
    requires j < k < |s| && s[j] == s[k]
    ensures multiset(s)[s[j]] >= 2
  {
    assert s == s[..k] + s[k..];
    assert s[j] in s[..k] && s[k] in s[k..];
    assert multiset(s[..k])[s[j]] >= 1 && multiset(s[k..])[s[j]] >= 1;
  }

  lemma OnceInSequence(s: seq<Obj>, o: Obj)
    requires NamesDiffer(s)
    ensures multiset(s)[o] <= 1
  {
    if s != [] {
      OnceInSequence(s[..|s| - 1], o);
      assert s == s[..|s| - 1] + [s[|s| - 1]];
      if s[|s| - 1] == o {
        assert o !in s[..|s| - 1];
      }
    }
  }

  /* ---- A rotation can always choose ---- */

  lemma {:induction false} OldestOf(dir: map<string, int>, names: set<string>) returns (oldest: string)
    requires names != {} && names <= dir.Keys
    ensures oldest in names && forall n :: n in names ==> dir[oldest] <= dir[n]
    decreases names
  {
    oldest :| oldest in names;
    if names != {oldest} {
      assert names - {oldest} != {};
      var other := OldestOf(dir, names - {oldest});
      if dir[other] < dir[oldest] {
        oldest := other;
      }
    }
  }

  lemma {:induction false} OldestExist(dir: map<string, int>, names: set<string>, k: nat) returns (oldest: set<string>)
    requires names <= dir.Keys && k <= |names|
    ensures oldest <= names && |oldest| == k
    ensures forall a, b :: a in oldest && b in names && b !in oldest ==> dir[a] <= dir[b]
    decreases k
  {
    if k == 0 {
      oldest := {};
    } else {
      var fewer := OldestExist(dir, names, k - 1);
      assert |names - fewer| == |names| - |fewer|;
      assert names - fewer != {};
      var next := OldestOf(dir, names - fewer);
      oldest := fewer + {next};
    }
  }

  lemma RotationExists(dir: map<string, int>, count: int, date: Option<int>, useCount: bool, safe: bool)
    returns (names: set<string>)
    ensures IsRotation(dir, count, date, useCount, safe, names)
  {
    var eligible := EligibleNames(dir);
    var keep := if safe then count else count - 1;
    if !useCount {
      names := if date.Some? then set n | n in eligible && dir[n] < date.value else {};
    } else if count > 0 && keep <= |eligible| {
      names := OldestExist(dir, eligible, |eligible| - keep);
    } else {
      names := if count == 0 then eligible else {};
    }
  }
}
