/** The walk of a remote tree with an explicit stack (lib/ftp/walker.go). */
module FtpWalker {
  import opened Options
  import opened Paths

  datatype Entry = Entry(name: string, folder: bool)

  datatype Item = Item(path: Path, entry: Entry)

  // What the server lists, by directory; listing anything else is an error.
  type Listings = map<Path, seq<Entry>>

  predicate IsDot(name: string) {
    name == "." || name == ".."
  }

  // The entries of a directory that the walk looks at, as stack items.
  function Items(dir: Path, entries: seq<Entry>): (items: seq<Item>)
    ensures forall i :: 0 <= i < |items| ==>
              items[i].path == dir + [items[i].entry.name] && items[i].entry in entries && !IsDot(items[i].entry.name)
  {
    if entries == [] then []
    else
      var last := entries[|entries| - 1];
      var front := Items(dir, entries[..|entries| - 1]);
      if IsDot(last.name) then front else front + [Item(dir + [last.name], last)]
  }

  ghost function Below(l: Listings, dir: Path): set<Path> {
    set p | p in l && dir <= p
  }

  // The recursive traversal: an entry, then what is inside it, the last child first.
  ghost function Visits(l: Listings, item: Item): seq<Item>
    decreases Below(l, item.path), 1, 0
  {
    [item] + (if item.entry.folder then Inside(l, item.path) else [])
  }

  ghost function Inside(l: Listings, dir: Path): seq<Item>
    decreases Below(l, dir), 0, 0
  {
    if dir !in l then []
    else
      var items := Items(dir, l[dir]);
      InsideSmaller(l, dir);
      StackVisits(l, dir, items)
  }

  // The traversals of the items on a stack, top first; all of them lie below `dir`.
  ghost function StackVisits(l: Listings, dir: Path, items: seq<Item>): seq<Item>
    requires forall i :: 0 <= i < |items| ==> Below(l, items[i].path) < Below(l, dir)
    decreases Below(l, dir), -1, |items|
  {
    if items == [] then []
    else Visits(l, items[|items| - 1]) + StackVisits(l, dir, items[..|items| - 1])
  }

  lemma InsideSmaller(l: Listings, dir: Path)
    requires dir in l
    ensures forall name :: Below(l, dir + [name]) < Below(l, dir)
  {
    forall name
      ensures Below(l, dir + [name]) < Below(l, dir)
    {
      assert dir in Below(l, dir) && dir !in Below(l, dir + [name]);
      forall p | p in Below(l, dir + [name])
        ensures p in Below(l, dir)
      {
        assert dir <= dir + [name] <= p;
      }
    }
  }

  // The bound on the stack plays no part in the result.
  lemma {:induction false} SameVisits(l: Listings, a: Path, b: Path, items: seq<Item>)
    requires forall i :: 0 <= i < |items| ==> Below(l, items[i].path) < Below(l, a)
    requires forall i :: 0 <= i < |items| ==> Below(l, items[i].path) < Below(l, b)
    ensures StackVisits(l, a, items) == StackVisits(l, b, items)
  {
    if items != [] {
      SameVisits(l, a, b, items[..|items| - 1]);
    }
  }

  // What is pushed last is visited first.
  lemma {:induction false} VisitsOfPush(l: Listings, dir: Path, below: seq<Item>, pushed: seq<Item>)
    requires forall i :: 0 <= i < |below| ==> Below(l, below[i].path) < Below(l, dir)
    requires forall i :: 0 <= i < |pushed| ==> Below(l, pushed[i].path) < Below(l, dir)
    ensures StackVisits(l, dir, below + pushed) == StackVisits(l, dir, pushed) + StackVisits(l, dir, below)
  {
    hide StackVisits, Visits, Below;
    if pushed == [] {
      assert below + pushed == below;
      EmptyStack(l, dir);
    } else {
      var front, top := pushed[..|pushed| - 1], pushed[|pushed| - 1];
      VisitsOfPush(l, dir, below, front);
      assert (below + pushed)[..|below + pushed| - 1] == below + front;
      TopOfStack(l, dir, below + pushed);
      TopOfStack(l, dir, pushed);
      Associates(Visits(l, top), StackVisits(l, dir, front), StackVisits(l, dir, below));
    }
  }

  lemma Associates(a: seq<Item>, b: seq<Item>, c: seq<Item>)
    ensures a + (b + c) == a + b + c
  {
  }

  lemma TopOfStack(l: Listings, dir: Path, items: seq<Item>)
    requires items != [] && forall i :: 0 <= i < |items| ==> Below(l, items[i].path) < Below(l, dir)
    ensures StackVisits(l, dir, items)
            == Visits(l, items[|items| - 1]) + StackVisits(l, dir, items[..|items| - 1])
  {
  }

  lemma TopFirst(l: Listings, root: Path, stack: seq<Item>)
    requires stack != [] && forall i :: 0 <= i < |stack| ==> Below(l, stack[i].path) < Below(l, root)
    ensures var top := stack[|stack| - 1];
            StackVisits(l, root, stack)
            == [top] + ((if top.entry.folder then Inside(l, top.path) else [])
                        + StackVisits(l, root, stack[..|stack| - 1]))
  {
  }

  lemma EmptyStack(l: Listings, root: Path)
    ensures StackVisits(l, root, []) == []
  {
  }

  ghost predicate Complete(l: Listings) {
    forall p, i :: p in l && 0 <= i < |l[p]| && l[p][i].folder && !IsDot(l[p][i].name) ==> p + [l[p][i].name] in l
  }

  class Walker {
    const listings: Listings
    const root: Path
    var cur: Option<Item>
    var err: bool
    var stack: seq<Item>
    var descend: bool

    // The current item; before the first call that is the root itself.
    function Current(): Item
      reads this
    {
      if cur.None? then Item(root, Entry("", true)) else cur.value
    }

    ghost predicate Valid()
      reads this
    {
      && (forall i :: 0 <= i < |stack| ==> Below(listings, stack[i].path) < Below(listings, root))
      && (root == Current().path || Below(listings, Current().path) < Below(listings, root))
    }

    // Folders still to be listed can be listed.
    ghost predicate Listable()
      reads this
    {
      && (Current().entry.folder ==> Current().path in listings)
      && (forall i :: 0 <= i < |stack| && stack[i].entry.folder ==> stack[i].path in listings)
    }

    // What repeated calls of Next have yet to show.
    ghost function Pending(): seq<Item>
      requires Valid()
      reads this
    {
      (if descend && Current().entry.folder then Inside(listings, Current().path) else [])
      + StackVisits(listings, root, stack)
    }

    constructor (listings: Listings, root: Path)
      ensures Valid() && this.listings == listings && this.root == root
      ensures Pending() == Inside(listings, root)
      ensures root in listings ==> Listable()
    {
      this.listings, this.root := listings, root;
      cur, err, stack, descend := None, false, [], true;
    }

    method List(path: Path) returns (ok: bool, entries: seq<Entry>)
      ensures ok == (path in listings) && (ok ==> entries == listings[path])
    {
      ok := path in listings;
      entries := if ok then listings[path] else [];
    }

    method Push(dir: Path, entries: seq<Entry>)
      modifies this`stack
      ensures stack == old(stack) + Items(dir, entries)
    {
      for i := 0 to |entries|
        invariant stack == old(stack) + Items(dir, entries[..i])
      {
        assert entries[..i + 1][..i] == entries[..i];
        if !IsDot(entries[i].name) {
          stack := stack + [Item(dir + [entries[i].name], entries[i])];
        }
      }
      assert entries[..|entries|] == entries;
    }

    // Shows the next item of the traversal, or reports the end; a directory that cannot be listed
    // ends the walk there.
    method Next() returns (more: bool)
      requires Valid()
      modifies this
      ensures Valid()
      ensures var listed := !(old(descend) && old(Current()).entry.folder && old(Current()).path !in listings);
              if listed then
                && more == (old(Pending()) != [])
                && (if more then
                      cur == Some(old(Pending())[0]) && Pending() == old(Pending())[1..] && descend && !err
                    else Pending() == [])
              else !more && err && stack == old(stack)
      ensures Complete(listings) && old(Listable()) ==> Listable()
    {
      if cur.None? {
        cur := Some(Item(root, Entry("", true)));
      }
      if descend && cur.value.entry.folder {
        var ok := Expand();
        if !ok {
          err := true;
          return false;
        }
      }
      assert StackVisits(listings, root, stack) == old(Pending());
      EmptyStack(listings, root);
      if |stack| == 0 {
        return false;
      }
      hide StackVisits, Visits, Inside, Below, Complete;
      Pop();
      return true;
    }

    method Pop()
      requires Valid() && stack != []
      modifies this
      ensures Valid() && cur.Some? && descend && !err
      ensures StackVisits(listings, root, old(stack)) == [cur.value] + Pending()
      ensures cur == Some(old(stack)[|old(stack)| - 1]) && stack == old(stack)[..|old(stack)| - 1]
    {
      TopFirst(listings, root, stack);
      hide StackVisits, Visits, Inside, Below;
      var i := |stack| - 1;
      cur := Some(stack[i]);
      err := false;
      stack := stack[..i];
      descend := true;
    }

    // Puts the entries of the current directory on the stack.
    method Expand() returns (ok: bool)
      requires Valid() && cur.Some? && descend && cur.value.entry.folder
      modifies this`stack
      ensures Valid() && ok == (cur.value.path in listings)
      ensures !ok ==> stack == old(stack)
      ensures ok ==> StackVisits(listings, root, stack) == old(Pending())
      ensures Complete(listings) && old(Listable()) ==> Listable()
    {
      var entries;
      ok, entries := List(cur.value.path);
      if ok {
        ghost var items := Items(cur.value.path, entries);
        ChildrenSmaller(listings, root, cur.value.path, items);
        VisitsOfPush(listings, root, stack, items);
        ChildrenListed(listings, cur.value.path);
        Push(cur.value.path, entries);
      }
    }

    // The current item is shown without what is inside it.
    method SkipDir()
      requires Valid()
      modifies this`descend
      ensures Valid()
      ensures old(Pending())
              == (if old(descend) && Current().entry.folder then Inside(listings, Current().path) else []) + Pending()
      ensures Pending() == StackVisits(listings, root, stack)
    {
      descend := false;
    }
  }

  lemma ChildrenSmaller(l: Listings, root: Path, dir: Path, items: seq<Item>)
    requires dir in l && items == Items(dir, l[dir])
    requires root == dir || Below(l, dir) < Below(l, root)
    ensures forall i :: 0 <= i < |items| ==> Below(l, items[i].path) < Below(l, root)
    ensures forall i :: 0 <= i < |items| ==> Below(l, items[i].path) < Below(l, dir)
    ensures StackVisits(l, root, items) == Inside(l, dir)
  {
    InsideSmaller(l, dir);
    SameVisits(l, root, dir, items);
  }

  lemma ChildrenListed(l: Listings, dir: Path)
    requires dir in l
    ensures Complete(l) ==>
              forall i :: 0 <= i < |Items(dir, l[dir])| && Items(dir, l[dir])[i].entry.folder ==>
                Items(dir, l[dir])[i].path in l
  {
    hide Items;
    forall i | 0 <= i < |Items(dir, l[dir])| && Items(dir, l[dir])[i].entry.folder
      ensures Complete(l) ==> Items(dir, l[dir])[i].path in l
    {
      var j :| 0 <= j < |l[dir]| && l[dir][j] == Items(dir, l[dir])[i].entry;
    }
  }

  // The loop every caller of Next writes: it ends, and has shown the traversal.
  method WalkAll(w: Walker) returns (visited: seq<Item>)
    requires w.Valid() && w.Listable() && Complete(w.listings)
    modifies w
    ensures visited == old(w.Pending())
  {
    visited := [];
    var more := w.Next();
    while more
      invariant w.Valid() && w.Listable()
      invariant more ==> w.cur.Some? && old(w.Pending()) == visited + [w.cur.value] + w.Pending()
      invariant !more ==> old(w.Pending()) == visited
      decreases |w.Pending()|, more
    {
      visited := visited + [w.cur.value];
      more := w.Next();
    }
  }

  /* ---- Every entry once ---- */

  ghost predicate HasEntry(entries: seq<Entry>, name: string, folder: bool) {
    !IsDot(name) && exists i :: 0 <= i < |entries| && entries[i].name == name && (folder ==> entries[i].folder)
  }

  // A path below `root`: every step is an entry of the directory before it.
  ghost predicate InTree(l: Listings, root: Path, p: Path) {
    root < p && forall n :: |root| <= n < |p| ==> p[..n] in l && HasEntry(l[p[..n]], p[n], n < |p| - 1)
  }

  ghost predicate DistinctNames(l: Listings) {
    forall p, i, j :: p in l && 0 <= i < j < |l[p]| ==> l[p][i].name != l[p][j].name
  }

  ghost predicate Shown(visits: seq<Item>, p: Path) {
    exists i :: 0 <= i < |visits| && visits[i].path == p
  }

  ghost predicate Once(visits: seq<Item>) {
    forall i, j :: 0 <= i < j < |visits| ==> visits[i].path != visits[j].path
  }

  ghost predicate Under(l: Listings, item: Item, p: Path) {
    p == item.path || (item.entry.folder && InTree(l, item.path, p))
  }

  ghost predicate UnderSome(l: Listings, items: seq<Item>, p: Path) {
    exists j :: 0 <= j < |items| && Under(l, items[j], p)
  }

  lemma ShownInEither(a: seq<Item>, b: seq<Item>, p: Path)
    ensures Shown(a + b, p) <==> Shown(a, p) || Shown(b, p)
  {
    if Shown(a, p) {
      var i :| 0 <= i < |a| && a[i].path == p;
      assert (a + b)[i].path == p;
    }
    if Shown(b, p) {
      var i :| 0 <= i < |b| && b[i].path == p;
      assert (a + b)[|a| + i].path == p;
    }
  }

  lemma OnceInBoth(a: seq<Item>, b: seq<Item>)
    requires Once(a) && Once(b) && forall p :: !(Shown(a, p) && Shown(b, p))
    ensures Once(a + b)
  {
    forall i, j | 0 <= i < j < |a + b|
      ensures (a + b)[i].path != (a + b)[j].path
    {
      if i < |a| <= j {
        assert Shown(a, a[i].path);
        assert !Shown(b, a[i].path);
        assert b[j - |a|].path != a[i].path;
      }
    }
  }

  ghost predicate NamesDiffer(items: seq<Item>) {
    forall i, j :: 0 <= i < j < |items| ==> items[i].entry.name != items[j].entry.name
  }

  lemma {:induction false} ItemNames(dir: Path, entries: seq<Entry>)
    requires forall i, j :: 0 <= i < j < |entries| ==> entries[i].name != entries[j].name
    ensures NamesDiffer(Items(dir, entries))
  {
    if entries != [] {
      var front, last := entries[..|entries| - 1], entries[|entries| - 1];
      ItemNames(dir, front);
      LastItem(dir, entries);
      var items := Items(dir, front);
      forall i | 0 <= i < |items|
        ensures items[i].entry.name != last.name
      {
        var j :| 0 <= j < |front| && front[j] == items[i].entry;
        assert front[j] == entries[j];
      }
      hide Items, IsDot;
    }
  }

  lemma {:induction false} ItemAt(dir: Path, entries: seq<Entry>, i: nat)
    requires i < |entries| && !IsDot(entries[i].name)
    ensures Item(dir + [entries[i].name], entries[i]) in Items(dir, entries)
  {
    hide Items, IsDot;
    LastItem(dir, entries);
    if i < |entries| - 1 {
      ItemAt(dir, entries[..|entries| - 1], i);
    }
  }

  lemma LastItem(dir: Path, entries: seq<Entry>)
    requires entries != []
    ensures var last := entries[|entries| - 1];
            Items(dir, entries) == Items(dir, entries[..|entries| - 1])
                                   + if IsDot(last.name) then [] else [Item(dir + [last.name], last)]
  {
  }

  // The item of the entry that a path below the directory starts with.
  lemma ItemOfStep(l: Listings, dir: Path, p: Path) returns (j: nat)
    requires dir in l && DistinctNames(l) && InTree(l, dir, p)
    ensures j < |Items(dir, l[dir])|
    ensures var item := Items(dir, l[dir])[j];
            item.entry.name == p[|dir|] && item.path == p[..|dir| + 1] && (|dir| < |p| - 1 ==> item.entry.folder)
  {
    hide Items, Below;
    var items, name := Items(dir, l[dir]), p[|dir|];
    assert p[..|dir|] == dir && HasEntry(l[dir], name, |dir| < |p| - 1);
    var i :| 0 <= i < |l[dir]| && l[dir][i].name == name && (|dir| < |p| - 1 ==> l[dir][i].folder);
    ItemAt(dir, l[dir], i);
    var item := Item(dir + [name], l[dir][i]);
    j :| 0 <= j < |items| && items[j] == item;
    assert p[..|dir| + 1] == item.path;
  }

  lemma Siblings(dir: Path, a: string, b: string, p: Path)
    requires dir + [a] <= p && dir + [b] <= p
    ensures a == b
  {
    assert p[|dir|] == (dir + [a])[|dir|] == (dir + [b])[|dir|];
  }

  lemma StepDown(l: Listings, dir: Path, p: Path) returns (j: nat)
    requires dir in l && DistinctNames(l) && InTree(l, dir, p)
    ensures j < |Items(dir, l[dir])| && Under(l, Items(dir, l[dir])[j], p)
  {
    hide Items, Below, DistinctNames;
    j := ItemOfStep(l, dir, p);
    var item := Items(dir, l[dir])[j];
    if |p| == |dir| + 1 {
      assert p == item.path;
    } else {
      assert item.path < p;
    }
  }

  lemma StepUp(l: Listings, dir: Path, entry: Entry, p: Path)
    requires dir in l && entry in l[dir] && !IsDot(entry.name)
    requires Under(l, Item(dir + [entry.name], entry), p)
    ensures InTree(l, dir, p)
  {
    var child := dir + [entry.name];
    assert child <= p && dir < p && p[|dir|] == entry.name && p[..|dir|] == dir;
    var i :| 0 <= i < |l[dir]| && l[dir][i] == entry;
    assert HasEntry(l[dir], p[|dir|], |dir| < |p| - 1) by {
      assert p == child || entry.folder;
      assert p == child ==> |p| == |dir| + 1;
    }
    forall n | |dir| <= n < |p|
      ensures p[..n] in l && HasEntry(l[p[..n]], p[n], n < |p| - 1)
    {
      assert n > |dir| ==> p != child;
    }
  }

  // One step down: a path below `dir` is one of its items or lies below one.
  lemma OneStep(l: Listings, dir: Path, p: Path)
    requires dir in l && DistinctNames(l)
    ensures InTree(l, dir, p) <==> UnderSome(l, Items(dir, l[dir]), p)
  {
    var items := Items(dir, l[dir]);
    hide InTree, Under, DistinctNames;
    if InTree(l, dir, p) {
      var j := StepDown(l, dir, p);
    }
    if j :| 0 <= j < |items| && Under(l, items[j], p) {
      assert items[j] == Item(dir + [items[j].entry.name], items[j].entry);
      StepUp(l, dir, items[j].entry, p);
    }
  }

  lemma {:induction false} StackOnce(l: Listings, dir: Path, items: seq<Item>)
    requires DistinctNames(l)
    requires forall i :: 0 <= i < |items| ==>
               Below(l, items[i].path) < Below(l, dir) && items[i].path == dir + [items[i].entry.name]
    requires NamesDiffer(items)
    ensures Once(StackVisits(l, dir, items))
    ensures forall p :: Shown(StackVisits(l, dir, items), p) <==> UnderSome(l, items, p)
    decreases Below(l, dir), -1, |items|
  {
    if items != [] {
      var front, top := items[..|items| - 1], items[|items| - 1];
      var a, b := Visits(l, top), StackVisits(l, dir, front);
      StackOnce(l, dir, front);
      VisitsOnce(l, top);
      hide Below, Visits, Once, DistinctNames, InTree;
      forall p
        ensures Shown(a + b, p) <==> UnderSome(l, items, p)
        ensures !(Shown(a, p) && Shown(b, p))
      {
        ShownInEither(a, b, p);
        if Shown(a, p) && Shown(b, p) {
          var j :| 0 <= j < |front| && Under(l, front[j], p);
          UnderPrefix(l, top, p);
          UnderPrefix(l, front[j], p);
          assert items[j] == front[j];
          Siblings(dir, top.entry.name, front[j].entry.name, p);
        }
      }
      OnceInBoth(a, b);
    }
  }

  lemma UnderPrefix(l: Listings, item: Item, p: Path)
    requires Under(l, item, p)
    ensures item.path <= p
  {
  }

  lemma {:induction false} VisitsOnce(l: Listings, item: Item)
    requires DistinctNames(l)
    ensures Once(Visits(l, item))
    ensures forall p :: Shown(Visits(l, item), p) <==> Under(l, item, p)
    decreases Below(l, item.path), 1, 0
  {
    var inside := if item.entry.folder then Inside(l, item.path) else [];
    if item.entry.folder {
      InsideOnce(l, item.path);
    }
    assert Visits(l, item) == [item] + inside;
    hide Below, Visits, Inside, DistinctNames;
    forall p
      ensures Shown([item] + inside, p) <==> Under(l, item, p)
      ensures !(Shown([item], p) && Shown(inside, p))
    {
      ShownInEither([item], inside, p);
      assert Shown([item], p) <==> p == item.path by { assert [item][0].path == item.path; }
    }
    OnceInBoth([item], inside);
  }

  // The traversal shows every entry below the directory exactly once.
  lemma {:induction false} InsideOnce(l: Listings, dir: Path)
    requires DistinctNames(l)
    ensures Once(Inside(l, dir))
    ensures forall p :: Shown(Inside(l, dir), p) <==> InTree(l, dir, p)
    decreases Below(l, dir), 0, 0
  {
    if dir in l {
      InsideSmaller(l, dir);
      ItemNames(dir, l[dir]);
      StackOnce(l, dir, Items(dir, l[dir]));
      StepsInside(l, dir);
    } else {
      forall p
        ensures !InTree(l, dir, p)
      {
        assert dir < p ==> p[..|dir|] == dir;
      }
    }
  }

  lemma InsideIs(l: Listings, dir: Path)
    requires dir in l
    requires forall j :: 0 <= j < |Items(dir, l[dir])| ==> Below(l, Items(dir, l[dir])[j].path) < Below(l, dir)
    ensures Inside(l, dir) == StackVisits(l, dir, Items(dir, l[dir]))
  {
  }

  lemma StepsInside(l: Listings, dir: Path)
    requires dir in l && DistinctNames(l)
    requires forall j :: 0 <= j < |Items(dir, l[dir])| ==> Below(l, Items(dir, l[dir])[j].path) < Below(l, dir)
    requires forall p :: Shown(StackVisits(l, dir, Items(dir, l[dir])), p) <==> UnderSome(l, Items(dir, l[dir]), p)
    ensures forall p :: Shown(Inside(l, dir), p) <==> InTree(l, dir, p)
  {
    hide Below, Visits, StackVisits, Items, Once, DistinctNames, UnderSome, InTree, Shown;
    InsideIs(l, dir);
    forall p
      ensures Shown(Inside(l, dir), p) <==> InTree(l, dir, p)
    {
      OneStep(l, dir, p);
    }
  }

  // The two dot entries are never shown nor entered; every other entry of a directory shown, or of the
  // root, is.
  lemma DotsNotShown(l: Listings, dir: Path, p: Path)
    requires DistinctNames(l) && Shown(Inside(l, dir), p)
    ensures dir < p && forall n :: |dir| <= n < |p| ==> p[n] != "." && p[n] != ".."
  {
    InsideOnce(l, dir);
    hide Inside, Shown, Once, DistinctNames;
    forall n | |dir| <= n < |p|
      ensures p[n] != "." && p[n] != ".."
    {
      assert p[..n] in l && HasEntry(l[p[..n]], p[n], n < |p| - 1);
    }
  }

  lemma OthersShown(l: Listings, dir: Path, p: Path, i: nat)
    requires DistinctNames(l) && p in l && (p == dir || (InTree(l, dir, p) && IsFolder(l, p)))
    requires i < |l[p]| && l[p][i].name != "." && l[p][i].name != ".."
    ensures Shown(Inside(l, dir), p + [l[p][i].name])
  {
    InsideOnce(l, dir);
    hide Inside, Shown, Once, DistinctNames;
    var child := p + [l[p][i].name];
    forall n | |dir| <= n < |child|
      ensures child[..n] in l && HasEntry(l[child[..n]], child[n], n < |child| - 1)
    {
      if n < |p| {
        assert child[..n] == p[..n] && child[n] == p[n];
      } else {
        assert child[..n] == p;
      }
    }
    assert dir < child;
  }

  // The directory above lists it as a folder.
  ghost predicate IsFolder(l: Listings, p: Path) {
    p != [] && p[..|p| - 1] in l && HasEntry(l[p[..|p| - 1]], p[|p| - 1], true)
  }
}
