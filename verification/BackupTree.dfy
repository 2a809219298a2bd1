/** The directories `monthly`, `weekly` and `daily` of one backup target on local storage, and
    what one rotation does to them (modules/storage/local/local.go).

    On a day that is several kinds of backup day at once the tree holds one real file, in the
    directory of the highest period, and symbolic links to it in the others. */
module BackupTree {
  import opened Options
  import opened Schedule

  type Content = seq<bv8>

  datatype Node = File(content: Content, mtime: int) | Link(target: Key, mtime: int)

  type Tree = map<Key, Node>

  // Reading a name follows its link, as `GetFileReader` does.  Trees of the right shape have no
  // chains, so one step is enough; a link to a link counts as unreadable here.
  function Resolve(t: Tree, k: Key): Option<Content> {
    if k !in t then None
    else match t[k]
      case File(content, _) => Some(content)
      case Link(target, _) =>
        if target in t && t[target].File? then Some(t[target].content) else None
  }

  // Links carry their target's name, point to a higher period, and never to another link.  A link may
  // dangle: a rotation can leave it so, and the next one has to cope.
  ghost predicate Shape(t: Tree) {
    forall k :: k in t && t[k].Link? ==>
      && t[k].target.name == k.name
      && Above(t[k].target.period, k.period)
      && (t[k].target in t ==> t[t[k].target].File?)
  }

  /* ---- System calls ---- */

  // `moveFile`: remove the new path, then rename the old one onto it.
  function MoveFile(t: Tree, from: Key, to: Key): (Tree, bool) {
    if to !in t then (t, false)
    else if from !in t - {to} then (t - {to}, false)
    else ((t - {to} - {from})[to := t[from]], true)
  }

  /* ---- The delete loop ---- */

  // What the scan recorded about a file: the paths of the weekly and daily links to it.
  datatype FileLinks = FileLinks(wLink: Option<Key>, dLink: Option<Key>)

  datatype Progress = Progress(tree: Tree, errors: nat, stopped: bool)

  predicate Kept(k: Option<Key>, toDelete: set<Key>) {
    k.Some? && k.value !in toDelete
  }

  // One iteration of the loop.  A missing daily link is the path "", which is in no delete set,
  // so removing it is attempted, fails and stops the loop.
  function DeleteOne(t: Tree, toDelete: set<Key>, links: FileLinks, file: Key, now: int): Progress {
    if Kept(links.wLink, toDelete) then
      var w := links.wLink.value;
      var (t1, moved) := MoveFile(t, file, w);
      var errors := if moved then 0 else 1;
      if links.dLink.None? || (Kept(links.dLink, toDelete) && links.dLink.value !in t1) then
        Progress(t1, errors + 1, true)
      else if Kept(links.dLink, toDelete) then
        var d := links.dLink.value;
        var t2 := t1[d := Link(w, now)];
        if moved then Progress(t2, errors, false)
        else
          var (t3, movedToDaily) := MoveFile(t2, file, d);
          Progress(t3, errors + (if movedToDaily then 0 else 1), false)
      else
        Progress(t1, errors, false)
    else if Kept(links.dLink, toDelete) then
      var (t1, moved) := MoveFile(t, file, links.dLink.value);
      Progress(t1, if moved then 0 else 1, false)
    else if file in t then
      Progress(t - {file}, 0, false)
    else
      Progress(t, 1, false)
  }

  // The loop over the delete set in the order the map iteration happens to take.
  function DeleteLoop(t: Tree, toDelete: set<Key>, links: Key -> FileLinks, order: seq<Key>,
                      clock: Key -> int): Progress
  {
    if order == [] then Progress(t, 0, false)
    else
      var file := order[|order| - 1];
      var p := DeleteLoop(t, toDelete, links, order[..|order| - 1], clock);
      if p.stopped then p
      else
        var q := DeleteOne(p.tree, toDelete, links(file), file, clock(file));
        Progress(q.tree, p.errors + q.errors, q.stopped)
  }

  /* ---- The scan ---- */

  function LinkAt(t: Tree, scanned: set<Period>, p: Period, file: Key): Option<Key> {
    var k := Key(p, file.name);
    if p in scanned && k in t && t[k].Link? && t[k].target == file then Some(k) else None
  }

  // The record the scan leaves for a file: the inverse of the link relation on scanned directories.
  function LinksTo(t: Tree, scanned: set<Period>, file: Key): FileLinks {
    FileLinks(LinkAt(t, scanned, Weekly, file), LinkAt(t, scanned, Daily, file))
  }

  function ScanRecords(t: Tree, scanned: set<Period>): Key -> FileLinks {
    file => LinksTo(t, scanned, file)
  }

  // Only names in scanned directories can be marked for deletion.
  ghost predicate Deletable(t: Tree, scanned: set<Period>, toDelete: set<Key>) {
    forall k :: k in toDelete ==> k in t && k.period in scanned
  }

  // Every link to a deleted file sits in a scanned directory.
  ghost predicate LinksSeen(t: Tree, scanned: set<Period>, toDelete: set<Key>) {
    forall k :: k in t && t[k].Link? && t[k].target in toDelete ==> k.period in scanned
  }

  // The weekly link is kept but no daily link is known: the iteration that ends the loop.
  predicate Stuck(t: Tree, scanned: set<Period>, toDelete: set<Key>, file: Key) {
    var l := LinksTo(t, scanned, file);
    Kept(l.wLink, toDelete) && l.dLink.None?
  }

  /* ---- What the loop amounts to ---- */

  // The node at a kept name once the files in `done` have been dealt with.
  function Fate(t: Tree, scanned: set<Period>, toDelete: set<Key>, done: set<Key>, clock: Key -> int,
                k: Key): Node
    requires k in t
  {
    if k in toDelete || !t[k].Link? || t[k].target !in done || t[k].target !in t || k.period !in scanned then t[k]
    else
      var file := t[k].target;
      var w := LinksTo(t, scanned, file).wLink;
      if w != Some(k) && Kept(w, toDelete) then Link(w.value, clock(file)) else t[file]
  }

  function Partial(t: Tree, scanned: set<Period>, toDelete: set<Key>, done: set<Key>, clock: Key -> int): Tree {
    map k | k in t.Keys - done :: Fate(t, scanned, toDelete, done, clock, k)
  }

  // The outcome of a full rotation, without reference to any order.
  function Rotated(t: Tree, scanned: set<Period>, toDelete: set<Key>, clock: Key -> int): Tree {
    Partial(t, scanned, toDelete, toDelete, clock)
  }

  // Every name outside the delete set still reads as it did in `t`.
  ghost predicate OthersRead(t: Tree, toDelete: set<Key>, after: Tree) {
    forall k :: k in t && k !in toDelete ==> Resolve(after, k) == Resolve(t, k)
  }

  // A link the scan has not seen, to a file in `done`.
  predicate Unseen(t: Tree, scanned: set<Period>, done: set<Key>, k: Key)
    requires k in t
  {
    t[k].Link? && t[k].target in done && k.period !in scanned
  }

  // What each name outside the delete set reads once the files in `done` have been dealt with: what it
  // read before, unless its link went unseen and has been left dangling.
  ghost predicate ReadsAfter(t: Tree, scanned: set<Period>, toDelete: set<Key>, done: set<Key>, after: Tree) {
    forall k :: k in t && k !in toDelete ==>
      k in after && Resolve(after, k) == if Unseen(t, scanned, done, k) then None else Resolve(t, k)
  }

  // Moving a file onto its kept link, and the daily link after it.
  function Replaced(t: Tree, toDelete: set<Key>, links: FileLinks, file: Key, now: int): Tree
    requires file in t
  {
    if Kept(links.wLink, toDelete) then
      var moved := (t - {file})[links.wLink.value := t[file]];
      if Kept(links.dLink, toDelete) then moved[links.dLink.value := Link(links.wLink.value, now)] else moved
    else if Kept(links.dLink, toDelete) then (t - {file})[links.dLink.value := t[file]]
    else t - {file}
  }

  lemma IterationReplaces(t: Tree, toDelete: set<Key>, links: FileLinks, file: Key, now: int)
    requires file in t && file in toDelete
    requires Kept(links.wLink, toDelete) ==> links.wLink.value in t
    requires Kept(links.dLink, toDelete) ==> links.dLink.value in t
    requires links.wLink.Some? && links.dLink.Some? ==> links.wLink != links.dLink
    ensures var stuck := Kept(links.wLink, toDelete) && links.dLink.None?;
            DeleteOne(t, toDelete, links, file, now)
            == Progress(Replaced(t, toDelete, links, file, now), if stuck then 1 else 0, stuck)
  {
    if Kept(links.wLink, toDelete) {
      var w := links.wLink.value;
      assert (t - {w} - {file})[w := t[file]] == (t - {file})[w := t[file]];
      assert MoveFile(t, file, w) == ((t - {file})[w := t[file]], true);
    } else if Kept(links.dLink, toDelete) {
      var d := links.dLink.value;
      assert (t - {d} - {file})[d := t[file]] == (t - {file})[d := t[file]];
      assert MoveFile(t, file, d) == ((t - {file})[d := t[file]], true);
    }
  }

  lemma PartialGrows(t: Tree, scanned: set<Period>, toDelete: set<Key>, done: set<Key>, file: Key, clock: Key -> int)
    requires Shape(t) && Deletable(t, scanned, toDelete)
    requires done <= toDelete && file in toDelete && file !in done
    ensures Replaced(Partial(t, scanned, toDelete, done, clock), toDelete, LinksTo(t, scanned, file), file, clock(file))
            == Partial(t, scanned, toDelete, done + {file}, clock)
  {
    var before := Partial(t, scanned, toDelete, done, clock);
    var after := Partial(t, scanned, toDelete, done + {file}, clock);
    var l := LinksTo(t, scanned, file);
    var r := Replaced(before, toDelete, l, file, clock(file));
    assert before[file] == t[file];
    assert r.Keys == after.Keys;
    forall k | k in after
      ensures r[k] == after[k]
    {
      if k !in toDelete && t[k].Link? && t[k].target == file && k.period in scanned {
        assert Some(k) == l.wLink || Some(k) == l.dLink;
      } else {
        assert Some(k) == l.wLink || Some(k) == l.dLink ==> k in toDelete;
      }
    }
  }

  lemma OneIteration(t: Tree, scanned: set<Period>, toDelete: set<Key>, done: set<Key>, file: Key, clock: Key -> int)
    requires Shape(t) && Deletable(t, scanned, toDelete)
    requires done <= toDelete && file in toDelete && file !in done
    ensures var stuck := Stuck(t, scanned, toDelete, file);
            DeleteOne(Partial(t, scanned, toDelete, done, clock), toDelete, LinksTo(t, scanned, file), file, clock(file))
            == Progress(Partial(t, scanned, toDelete, done + {file}, clock), if stuck then 1 else 0, stuck)
  {
    PartialGrows(t, scanned, toDelete, done, file, clock);
    var before := Partial(t, scanned, toDelete, done, clock);
    var l := LinksTo(t, scanned, file);
    IterationReplaces(before, toDelete, l, file, clock(file));
  }

  lemma NothingDone(t: Tree, scanned: set<Period>, toDelete: set<Key>, clock: Key -> int)
    ensures Partial(t, scanned, toDelete, {}, clock) == t
  {
  }

  // What `n` files of the order have done, the loop having stopped after them or not.
  ghost predicate Boundary(t: Tree, scanned: set<Period>, toDelete: set<Key>, order: seq<Key>, clock: Key -> int,
                           n: nat, p: Progress)
    requires n <= |order|
  {
    && p.tree == Partial(t, scanned, toDelete, Elements(order[..n]), clock)
    && p.errors == (if p.stopped then 1 else 0)
    && (p.stopped <==> exists f :: f in order && Stuck(t, scanned, toDelete, f))
    && (p.stopped ==> n > 0 && Stuck(t, scanned, toDelete, order[n - 1]))
    && (!p.stopped ==> n == |order|)
  }

  lemma StoppedBoundary(t: Tree, scanned: set<Period>, toDelete: set<Key>, order: seq<Key>, clock: Key -> int,
                        n: nat, p: Progress)
    requires order != [] && n <= |order| - 1 && p.stopped
    requires Boundary(t, scanned, toDelete, order[..|order| - 1], clock, n, p)
    ensures Boundary(t, scanned, toDelete, order, clock, n, p)
  {
    hide Partial, Stuck;
    var front := order[..|order| - 1];
    assert front[..n] == order[..n];
    var f :| f in front && Stuck(t, scanned, toDelete, f);
    assert f in order;
  }

  lemma NextBoundary(t: Tree, scanned: set<Period>, toDelete: set<Key>, order: seq<Key>, clock: Key -> int, p: Progress)
    requires Shape(t) && Deletable(t, scanned, toDelete)
    requires order != [] && Distinct(order) && Elements(order) <= toDelete && !p.stopped
    requires Boundary(t, scanned, toDelete, order[..|order| - 1], clock, |order| - 1, p)
    ensures var file := order[|order| - 1];
            var q := DeleteOne(p.tree, toDelete, LinksTo(t, scanned, file), file, clock(file));
            Boundary(t, scanned, toDelete, order, clock, |order|, Progress(q.tree, p.errors + q.errors, q.stopped))
  {
    hide Partial, Stuck, Shape, Deletable, DeleteOne, LinksTo;
    var front, file := order[..|order| - 1], order[|order| - 1];
    assert front[..|front|] == front && order[..|order|] == order && order == front + [file];
    assert file in Elements(order) && file !in Elements(front) && Elements(front) <= Elements(order);
    assert Elements(order) == Elements(front) + {file};
    OneIteration(t, scanned, toDelete, Elements(front), file, clock);
  }

  // At every iteration boundary, early stop or not, the tree is the partial rotation of some prefix.
  lemma {:induction false} LoopBoundary(t: Tree, scanned: set<Period>, toDelete: set<Key>, order: seq<Key>, clock: Key -> int)
    returns (n: nat)
    requires Shape(t) && Deletable(t, scanned, toDelete)
    requires Distinct(order) && Elements(order) <= toDelete
    ensures n <= |order|
    ensures Boundary(t, scanned, toDelete, order, clock, n, DeleteLoop(t, toDelete, ScanRecords(t, scanned), order, clock))
  {
    hide Partial, DeleteOne, Stuck, Shape, Deletable;
    if order == [] {
      n := 0;
      assert Elements(order[..n]) == {};
      NothingDone(t, scanned, toDelete, clock);
    } else {
      hide Boundary;
      var front := order[..|order| - 1];
      assert Elements(front) <= Elements(order);
      n := LoopBoundary(t, scanned, toDelete, front, clock);
      var p := DeleteLoop(t, toDelete, ScanRecords(t, scanned), front, clock);
      if p.stopped {
        StoppedBoundary(t, scanned, toDelete, order, clock, n, p);
      } else {
        BoundaryEnds(t, scanned, toDelete, front, clock, n, p);
        NextBoundary(t, scanned, toDelete, order, clock, p);
        n := |order|;
      }
    }
  }

  lemma BoundaryEnds(t: Tree, scanned: set<Period>, toDelete: set<Key>, order: seq<Key>, clock: Key -> int,
                     n: nat, p: Progress)
    requires n <= |order| && Boundary(t, scanned, toDelete, order, clock, n, p) && !p.stopped
    ensures n == |order|
  {
  }

  // After any part of the rotation the tree has its shape, and what is outside the delete set reads as
  // it did, unseen links apart.
  lemma PartialReads(t: Tree, scanned: set<Period>, toDelete: set<Key>, done: set<Key>, clock: Key -> int)
    requires Shape(t) && Deletable(t, scanned, toDelete)
    requires done <= toDelete
    ensures Shape(Partial(t, scanned, toDelete, done, clock))
    ensures ReadsAfter(t, scanned, toDelete, done, Partial(t, scanned, toDelete, done, clock))
  {
    var u := Partial(t, scanned, toDelete, done, clock);
    forall k | k in u
      ensures u[k].Link? ==> u[k].target.name == k.name && Above(u[k].target.period, k.period)
      ensures u[k].Link? && u[k].target in u ==> u[u[k].target].File?
      ensures k !in toDelete ==> Resolve(u, k) == if Unseen(t, scanned, done, k) then None else Resolve(t, k)
    {
      if t[k].Link? && k !in toDelete && t[k].target in done && k.period in scanned {
        var file := t[k].target;
        var l := LinksTo(t, scanned, file);
        assert Some(k) == l.wLink || Some(k) == l.dLink;
        if Kept(l.wLink, toDelete) {
          assert u[l.wLink.value] == t[file];
        }
      }
    }
  }

  // Whatever the delete set, the order and an early stop: the tree keeps its shape, no name is added,
  // and a name outside the delete set reads as before or is an unseen link left dangling.
  lemma LoopKeepsShape(t: Tree, scanned: set<Period>, toDelete: set<Key>, order: seq<Key>, clock: Key -> int)
    requires Shape(t) && Deletable(t, scanned, toDelete)
    requires Distinct(order) && Elements(order) <= toDelete
    ensures var u := DeleteLoop(t, toDelete, ScanRecords(t, scanned), order, clock).tree;
            && Shape(u) && t.Keys - toDelete <= u.Keys <= t.Keys
            && forall k :: k in t && k !in toDelete ==>
                 Resolve(u, k) == Resolve(t, k) || (Unseen(t, scanned, toDelete, k) && Resolve(u, k) == None)
  {
    var n := LoopBoundary(t, scanned, toDelete, order, clock);
    assert Elements(order[..n]) <= Elements(order);
    PartialReads(t, scanned, toDelete, Elements(order[..n]), clock);
  }

  // Safety of the rotation, whatever the delete set and the order: after any number of iterations,
  // even when the loop stops early, every name outside the delete set reads as before, if every link
  // to a deleted file has been seen.
  lemma RotationKeepsOthers(t: Tree, scanned: set<Period>, toDelete: set<Key>, order: seq<Key>, clock: Key -> int)
    requires Shape(t) && Deletable(t, scanned, toDelete) && LinksSeen(t, scanned, toDelete)
    requires Distinct(order) && Elements(order) <= toDelete
    ensures OthersRead(t, toDelete, DeleteLoop(t, toDelete, ScanRecords(t, scanned), order, clock).tree)
  {
    var n := LoopBoundary(t, scanned, toDelete, order, clock);
    assert Elements(order[..n]) <= Elements(order);
    PartialReads(t, scanned, toDelete, Elements(order[..n]), clock);
  }

  // The condition is exact: when a kept link to a deleted file lies in a directory that was not
  // scanned, dealing with that one file already leaves the link dangling.
  lemma RotationKeepsOthersIff(t: Tree, scanned: set<Period>, toDelete: set<Key>, clock: Key -> int)
    requires Shape(t) && Deletable(t, scanned, toDelete)
    ensures LinksSeen(t, scanned, toDelete) <==>
            forall order | Distinct(order) && Elements(order) <= toDelete ::
              OthersRead(t, toDelete, DeleteLoop(t, toDelete, ScanRecords(t, scanned), order, clock).tree)
  {
    if LinksSeen(t, scanned, toDelete) {
      forall order | Distinct(order) && Elements(order) <= toDelete
        ensures OthersRead(t, toDelete, DeleteLoop(t, toDelete, ScanRecords(t, scanned), order, clock).tree)
      {
        RotationKeepsOthers(t, scanned, toDelete, order, clock);
      }
    } else {
      var k :| k in t && t[k].Link? && t[k].target in toDelete && k.period !in scanned;
      var order := [t[k].target];
      UnseenLinkDangles(t, scanned, toDelete, k, clock);
      assert Distinct(order) && Elements(order) <= toDelete;
    }
  }

  lemma UnseenLinkDangles(t: Tree, scanned: set<Period>, toDelete: set<Key>, k: Key, clock: Key -> int)
    requires Shape(t) && Deletable(t, scanned, toDelete)
    requires k in t && t[k].Link? && t[k].target in toDelete && k.period !in scanned
    ensures var u := DeleteLoop(t, toDelete, ScanRecords(t, scanned), [t[k].target], clock).tree;
            k !in toDelete && Resolve(t, k).Some? && Resolve(u, k) == None
  {
    var file := t[k].target;
    var l := LinksTo(t, scanned, file);
    var records := ScanRecords(t, scanned);
    assert records(file) == l;
    assert DeleteLoop(t, toDelete, records, [file][..0], clock) == Progress(t, 0, false);
    IterationReplaces(t, toDelete, l, file, clock(file));
    assert l.wLink != Some(k) && l.dLink != Some(k);
  }

  // Liveness of the rotation: it deletes exactly the delete set, with the same tree for every
  // order, and reports no error, if and only if no deleted file is stuck.
  lemma RotationExactIff(t: Tree, scanned: set<Period>, toDelete: set<Key>, order: seq<Key>, clock: Key -> int)
    requires Shape(t) && Deletable(t, scanned, toDelete)
    requires Enumerates(order, toDelete)
    ensures var p := DeleteLoop(t, toDelete, ScanRecords(t, scanned), order, clock);
            var exact := forall f :: f in toDelete ==> !Stuck(t, scanned, toDelete, f);
            && (p.errors == 0 <==> exact)
            && (exact ==> p.tree == Rotated(t, scanned, toDelete, clock) && p.tree.Keys == t.Keys - toDelete
                          && ReadsAfter(t, scanned, toDelete, toDelete, p.tree) && !p.stopped)
  {
    var n := LoopBoundary(t, scanned, toDelete, order, clock);
    assert order[..|order|] == order;
    assert forall f :: f in toDelete <==> f in order;
    PartialReads(t, scanned, toDelete, toDelete, clock);
  }

  // A stuck file that is not alone costs other deletions: some order leaves one of them undone.
  lemma StuckLeavesOthers(t: Tree, scanned: set<Period>, toDelete: set<Key>, stuck: Key, other: Key, clock: Key -> int)
    returns (order: seq<Key>)
    requires Shape(t) && Deletable(t, scanned, toDelete)
    requires stuck in toDelete && other in toDelete && stuck != other
    requires Stuck(t, scanned, toDelete, stuck)
    ensures Enumerates(order, toDelete)
    ensures other in DeleteLoop(t, toDelete, ScanRecords(t, scanned), order, clock).tree
  {
    var rest := EnumerationExists(toDelete - {stuck});
    order := [stuck] + rest;
    assert Elements(order) == {stuck} + Elements(rest);
    StopsAtFirst(t, scanned, toDelete, order, clock);
  }

  lemma {:induction false} StopsAtFirst(t: Tree, scanned: set<Period>, toDelete: set<Key>, order: seq<Key>, clock: Key -> int)
    requires Shape(t) && Deletable(t, scanned, toDelete)
    requires order != [] && Elements(order) <= toDelete
    requires Stuck(t, scanned, toDelete, order[0])
    ensures var p := DeleteLoop(t, toDelete, ScanRecords(t, scanned), order, clock);
            p.stopped && p.tree == Partial(t, scanned, toDelete, {order[0]}, clock)
  {
    if |order| == 1 {
      assert order == [order[0]];
      var n := LoopBoundary(t, scanned, toDelete, order, clock);
      assert order[0] in order;
      assert Elements(order[..1]) == {order[0]};
    } else {
      var front := order[..|order| - 1];
      assert Elements(front) <= Elements(order);
      StopsAtFirst(t, scanned, toDelete, front, clock);
    }
  }

  // Every order deletes exactly the delete set if and only if no stuck file has company.
  lemma AllOrdersDeleteIff(t: Tree, scanned: set<Period>, toDelete: set<Key>, clock: Key -> int)
    requires Shape(t) && Deletable(t, scanned, toDelete)
    ensures (forall order | Enumerates(order, toDelete) ::
               DeleteLoop(t, toDelete, ScanRecords(t, scanned), order, clock).tree.Keys == t.Keys - toDelete)
            <==> (forall f :: f in toDelete && Stuck(t, scanned, toDelete, f) ==> toDelete == {f})
  {
    if f, other :| f in toDelete && Stuck(t, scanned, toDelete, f) && other in toDelete && other != f {
      var order := StuckLeavesOthers(t, scanned, toDelete, f, other, clock);
    } else {
      forall f | f in toDelete && Stuck(t, scanned, toDelete, f)
        ensures toDelete == {f}
      {
      }
      forall order | Enumerates(order, toDelete)
        ensures DeleteLoop(t, toDelete, ScanRecords(t, scanned), order, clock).tree.Keys == t.Keys - toDelete
      {
        AloneIsDeleted(t, scanned, toDelete, order, clock);
      }
    }
  }

  lemma AloneIsDeleted(t: Tree, scanned: set<Period>, toDelete: set<Key>, order: seq<Key>, clock: Key -> int)
    requires Shape(t) && Deletable(t, scanned, toDelete) && Enumerates(order, toDelete)
    requires forall f :: f in toDelete && Stuck(t, scanned, toDelete, f) ==> toDelete == {f}
    ensures DeleteLoop(t, toDelete, ScanRecords(t, scanned), order, clock).tree.Keys == t.Keys - toDelete
  {
    hide Stuck, Shape, Deletable, Fate;
    var n := LoopBoundary(t, scanned, toDelete, order, clock);
    var p := DeleteLoop(t, toDelete, ScanRecords(t, scanned), order, clock);
    assert order[..|order|] == order;
    if p.stopped {
      var f :| f in order && Stuck(t, scanned, toDelete, f);
      assert f in Elements(order);
      assert order[n - 1] in Elements(order) && order[n - 1] in Elements(order[..n]);
      assert Elements(order[..n]) <= Elements(order) == {f};
      assert Elements(order[..n]) == toDelete;
    }
  }
}
