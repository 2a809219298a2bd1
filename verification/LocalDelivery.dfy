/** Delivery of one temporary file into the link tree (modules/storage/local/local.go:41-98), with
    every system call that can fail as a parameter. */
module LocalDelivery {
  import opened BackupTree
  import opened Options
  import opened Paths
  import opened Schedule

  datatype TempFile = TempFile(content: Content, mtime: int)

  datatype Disk = Disk(tree: Tree, temps: map<Path, TempFile>)

  // MkdirAll fails before the old link is removed, Symlink after it.
  datatype LinkFault = NoFault | NoDirectory | NoLink

  // `partial` is what a copy that breaks off has written.
  datatype Faults = Faults(mkdir: bool, rename: bool, create: bool, open: bool, partial: Option<Content>,
                           link: Period -> LinkFault)

  // Where a created file ends up: a rename replaces a link at the destination, but `os.Create` writes
  // through it.
  function WriteThrough(t: Tree, dst: Key): Key {
    if dst in t && t[dst].Link? then t[dst].target else dst
  }

  // Renaming fails on its own, too, when the temporary file is gone; the fallback truncates the
  // destination before it opens the source.
  function Place(d: Disk, dst: Key, tmp: Path, f: Faults, now: int): (Disk, bool) {
    var at := WriteThrough(d.tree, dst);
    if f.mkdir then (d, false)
    else if !f.rename && tmp in d.temps then
      (Disk(d.tree[dst := File(d.temps[tmp].content, d.temps[tmp].mtime)], d.temps - {tmp}), true)
    else if f.create then (d, false)
    else if f.open || tmp !in d.temps then (d.(tree := d.tree[at := File([], now)]), false)
    else if f.partial.Some? then (d.(tree := d.tree[at := File(f.partial.value, now)]), false)
    else (d.(tree := d.tree[at := File(d.temps[tmp].content, now)]), true)
  }

  // The links, in the order the map iteration takes; the first failure ends it.
  function MakeLinks(t: Tree, dst: Key, order: seq<Period>, f: Faults, linkTime: Period -> int): (Tree, bool) {
    if order == [] then (t, true)
    else
      var (t1, ok) := MakeLinks(t, dst, order[..|order| - 1], f, linkTime);
      var p := order[|order| - 1];
      var at := Key(p, dst.name);
      if !ok then (t1, false) else MakeLink(t1, at, dst, f.link(p), linkTime(p))
  }

  function MakeLink(t: Tree, at: Key, dst: Key, fault: LinkFault, now: int): (Tree, bool) {
    match fault
    case NoDirectory => (t, false)
    case NoLink => (t - {at}, false)
    case NoFault => (t[at := Link(dst, now)], true)
  }

  function DeliverWith(d: Disk, due: seq<Period>, name: string, tmp: Path, f: Faults, now: int,
                       order: seq<Period>, linkTime: Period -> int): (Disk, bool)
  {
    if due == [] then (d, true)
    else
      var dst := Key(due[0], name);
      var (d1, placed) := Place(d, dst, tmp, f, now);
      if !placed then (d1, false)
      else
        var (t2, linked) := MakeLinks(d1.tree, dst, order, f, linkTime);
        (d1.(tree := t2), linked)
  }

  // What an undisturbed delivery leaves: the file in the highest due period, links to it elsewhere.
  function Delivered(t: Tree, due: seq<Period>, name: string, file: Node, linkTime: Period -> int): Tree {
    t + map p | p in due :: Key(p, name) := if p == due[0] then file else Link(Key(due[0], name), linkTime(p))
  }

  ghost function LinkMap(dst: Key, periods: set<Period>, linkTime: Period -> int): Tree {
    map p | p in periods :: Key(p, dst.name) := Link(dst, linkTime(p))
  }

  ghost predicate Descending(due: seq<Period>) {
    forall i, j :: 0 <= i < j < |due| ==> Above(due[i], due[j])
  }

  ghost predicate Fresh(t: Tree, name: string) {
    forall p :: Key(p, name) !in t
  }

  ghost predicate SameOtherNames(t: Tree, u: Tree, name: string) {
    forall k: Key :: k.name != name ==> (k in u <==> k in t) && (k in t ==> k in u && u[k] == t[k])
  }

  ghost predicate Undisturbed(f: Faults) {
    !f.mkdir && !f.create && !f.open && f.partial.None? && forall p :: f.link(p) == NoFault
  }

  lemma LinkMapGrows(t: Tree, dst: Key, periods: set<Period>, p: Period, linkTime: Period -> int)
    ensures (t + LinkMap(dst, periods, linkTime))[Key(p, dst.name) := Link(dst, linkTime(p))]
         == t + LinkMap(dst, periods + {p}, linkTime)
  {
  }

  lemma NoLinkMap(t: Tree, dst: Key, linkTime: Period -> int)
    ensures t + LinkMap(dst, {}, linkTime) == t
  {
  }

  lemma {:induction false} LinksMade(t: Tree, dst: Key, order: seq<Period>, f: Faults, linkTime: Period -> int)
    requires forall p :: f.link(p) == NoFault
    ensures MakeLinks(t, dst, order, f, linkTime) == (t + LinkMap(dst, Elements(order), linkTime), true)
  {
    hide LinkMap;
    if order == [] {
      NoLinkMap(t, dst, linkTime);
      assert Elements(order) == {};
    } else {
      var front, p := order[..|order| - 1], order[|order| - 1];
      LinksMade(t, dst, front, f, linkTime);
      assert order == front + [p];
      assert Elements(order) == Elements(front) + {p};
      LinkMapGrows(t, dst, Elements(front), p, linkTime);
    }
  }

  lemma FirstAndRest(due: seq<Period>)
    requires Descending(due) && due != []
    ensures forall p :: p in due <==> p == due[0] || p in Elements(due[1..])
    ensures due[0] !in Elements(due[1..])
  {
    assert due == [due[0]] + due[1..];
    assert forall i :: 0 <= i < |due| - 1 ==> due[1..][i] == due[i + 1] && Above(due[0], due[i + 1]);
  }

  lemma FileAndLinks(t: Tree, due: seq<Period>, name: string, file: Node, linkTime: Period -> int)
    requires Descending(due) && due != []
    ensures var dst := Key(due[0], name);
            t[dst := file] + LinkMap(dst, Elements(due[1..]), linkTime) == Delivered(t, due, name, file, linkTime)
  {
    hide Descending, Elements;
    FirstAndRest(due);
  }

  // Renamed or copied, with its links made in any order: the same tree.
  lemma DeliverySucceeds(d: Disk, due: seq<Period>, name: string, tmp: Path, f: Faults, now: int,
                         order: seq<Period>, linkTime: Period -> int)
    requires Descending(due) && due != [] && Enumerates(order, Elements(due[1..]))
    requires Undisturbed(f) && tmp in d.temps && (f.rename ==> WriteThrough(d.tree, Key(due[0], name)) == Key(due[0], name))
    ensures var (after, ok) := DeliverWith(d, due, name, tmp, f, now, order, linkTime);
            var file := File(d.temps[tmp].content, if f.rename then now else d.temps[tmp].mtime);
            ok && after == Disk(Delivered(d.tree, due, name, file, linkTime),
                                if f.rename then d.temps else d.temps - {tmp})
  {
    var dst := Key(due[0], name);
    var file := File(d.temps[tmp].content, if f.rename then now else d.temps[tmp].mtime);
    LinksMade(d.tree[dst := file], dst, order, f, linkTime);
    FileAndLinks(d.tree, due, name, file, linkTime);
  }

  // The destination is no link, and no link leads to one of the names that are about to become links.
  ghost predicate Ready(t: Tree, due: seq<Period>, name: string) {
    due != [] ==>
      && (Key(due[0], name) in t ==> t[Key(due[0], name)].File?)
      && forall k :: k in t && t[k].Link? && t[k].target.name == name ==> t[k].target.period !in due[1..]
  }

  // A delivered name reads as the backup in every due period, other names do not change, and the tree
  // keeps its shape exactly when no link that stays leads to a name that has become a link.
  lemma DeliveredReads(t: Tree, due: seq<Period>, name: string, content: Content, mtime: int, linkTime: Period -> int)
    requires Shape(t) && Descending(due) && due != []
    ensures var u := Delivered(t, due, name, File(content, mtime), linkTime);
            && u.Keys == t.Keys + (set p | p in due :: Key(p, name))
            && (forall p :: p in due ==> Resolve(u, Key(p, name)) == Some(content))
            && (forall k :: k in t && (k.name != name || k.period !in due) ==> u[k] == t[k])
            && (forall k :: k in t && k.name != name ==> Resolve(u, k) == Resolve(t, k))
            && (Shape(u) <==> forall k :: k in t && k.name == name && k.period !in due && t[k].Link? ==>
                                t[k].target.period !in due[1..])
  {
    hide Descending, Delivered, Shape, Resolve;
    var u := Delivered(t, due, name, File(content, mtime), linkTime);
    DeliveredNodes(t, due, name, File(content, mtime), linkTime);
    LowerLinks(due);
    FirstAndRest(due);
    NewNodesRead(t, u, due, name, content, mtime, linkTime);
    NewNodesShape(t, u, due, name, content, mtime, linkTime);
  }

  // Delivery writes the due names and keeps the other nodes.
  lemma DeliveredNodes(t: Tree, due: seq<Period>, name: string, file: Node, linkTime: Period -> int)
    ensures var u := Delivered(t, due, name, file, linkTime);
            && u.Keys == t.Keys + (set p | p in due :: Key(p, name))
            && (forall k :: k in t && (k.name != name || k.period !in due) ==> u[k] == t[k])
            && (forall p :: p in due ==>
                  u[Key(p, name)] == if p == due[0] then file else Link(Key(due[0], name), linkTime(p)))
  {
    assert forall k :: k in t ==> k == Key(k.period, k.name);
  }

  lemma LowerLinks(due: seq<Period>)
    requires Descending(due)
    ensures forall p :: p in due ==> p == due[0] || Above(due[0], p)
  {
    forall p | p in due
      ensures p == due[0] || Above(due[0], p)
    {
      var i :| 0 <= i < |due| && due[i] == p;
    }
  }

  lemma NewNodesRead(t: Tree, u: Tree, due: seq<Period>, name: string, content: Content, mtime: int,
                     linkTime: Period -> int)
    requires Shape(t) && u.Keys == t.Keys + (set p | p in due :: Key(p, name)) && due != []
    requires forall k :: k in t && (k.name != name || k.period !in due) ==> u[k] == t[k]
    requires forall p :: p in due ==>
               u[Key(p, name)] == if p == due[0] then File(content, mtime) else Link(Key(due[0], name), linkTime(p))
    ensures forall p :: p in due ==> Resolve(u, Key(p, name)) == Some(content)
    ensures forall k :: k in t && k.name != name ==> Resolve(u, k) == Resolve(t, k)
  {
    assert due[0] in due && Key(due[0], name) in u;
  }

  lemma NewNodesShape(t: Tree, u: Tree, due: seq<Period>, name: string, content: Content, mtime: int,
                      linkTime: Period -> int)
    requires Shape(t) && u.Keys == t.Keys + (set p | p in due :: Key(p, name)) && due != []
    requires forall k :: k in t && (k.name != name || k.period !in due) ==> u[k] == t[k]
    requires forall p :: p in due ==>
               u[Key(p, name)] == if p == due[0] then File(content, mtime) else Link(Key(due[0], name), linkTime(p))
    requires forall p :: p in due ==> p == due[0] || Above(due[0], p)
    requires forall p :: p in due <==> p == due[0] || p in due[1..]
    requires due[0] !in due[1..]
    ensures Shape(u) <==> forall k :: k in t && k.name == name && k.period !in due && t[k].Link? ==>
                            t[k].target.period !in due[1..]
  {
    assert due[0] in due && Key(due[0], name) in u;
    if k :| k in t && k.name == name && k.period !in due && t[k].Link? && t[k].target.period in due[1..] {
      assert u[k] == t[k] && u[t[k].target].Link? && t[k].target in u;
    } else {
      forall k | k in u && u[k].Link?
        ensures u[k].target.name == k.name && Above(u[k].target.period, k.period)
        ensures u[k].target in u ==> u[u[k].target].File?
      {
        if k.name == name && k.period in due {
          assert k == Key(k.period, name);
        }
      }
    }
  }

  lemma {:induction false} LinksKeepShape(t: Tree, dst: Key, due: seq<Period>, order: seq<Period>, f: Faults,
                                          linkTime: Period -> int)
    requires Shape(t) && dst in t && t[dst].File? && Ready(t, due, dst.name)
    requires due != [] && dst.period == due[0] && due[0] !in due[1..]
    requires forall p :: p in order ==> p in due[1..] && Above(due[0], p)
    ensures var u := MakeLinks(t, dst, order, f, linkTime).0;
            Shape(u) && dst in u && u[dst].File? && Ready(u, due, dst.name)
  {
    if order != [] {
      var front, p := order[..|order| - 1], order[|order| - 1];
      assert order == front + [p];
      LinksKeepShape(t, dst, due, front, f, linkTime);
    }
  }

  // A delivery keeps the shape of the tree whatever fails, and leaves it ready to be tried again.
  lemma DeliveryKeepsShape(d: Disk, due: seq<Period>, name: string, tmp: Path, f: Faults, now: int,
                           order: seq<Period>, linkTime: Period -> int)
    requires Shape(d.tree) && Ready(d.tree, due, name) && Descending(due)
    requires due != [] ==> Elements(order) <= Elements(due[1..])
    ensures var (after, _) := DeliverWith(d, due, name, tmp, f, now, order, linkTime);
            Shape(after.tree) && Ready(after.tree, due, name)
  {
    if due != [] {
      var dst := Key(due[0], name);
      var (d1, placed) := Place(d, dst, tmp, f, now);
      FirstAndRest(due);
      LowerLinks(due);
      assert Shape(d1.tree) && Ready(d1.tree, due, name);
      if placed {
        forall p | p in order
          ensures p in due[1..] && Above(due[0], p)
        {
          assert p in Elements(order);
        }
        LinksKeepShape(d1.tree, dst, due, order, f, linkTime);
      }
    }
  }

  lemma {:induction false} LinksTouchOnly(t: Tree, dst: Key, order: seq<Period>, f: Faults, linkTime: Period -> int)
    ensures var u := MakeLinks(t, dst, order, f, linkTime).0;
            && (forall k: Key :: k in t && (k.name != dst.name || k.period !in order) ==> k in u && u[k] == t[k])
            && SameOtherNames(t, u, dst.name)
  {
    if order != [] {
      LinksTouchOnly(t, dst, order[..|order| - 1], f, linkTime);
    }
  }

  // A link at the destination carries its name and leads up.
  predicate LeadsUp(t: Tree, dst: Key) {
    dst in t && t[dst].Link? ==> t[dst].target.name == dst.name && Above(t[dst].target.period, dst.period)
  }

  lemma PlacedReads(d: Disk, dst: Key, tmp: Path, f: Faults, now: int, order: seq<Period>, linkTime: Period -> int)
    requires LeadsUp(d.tree, dst) && forall p :: p in order ==> Above(dst.period, p)
    requires tmp in d.temps && Place(d, dst, tmp, f, now).1
    ensures var u := MakeLinks(Place(d, dst, tmp, f, now).0.tree, dst, order, f, linkTime).0;
            Resolve(u, dst) == Some(d.temps[tmp].content) && LeadsUp(u, dst)
  {
    var d1 := Place(d, dst, tmp, f, now).0;
    LinksTouchOnly(d1.tree, dst, order, f, linkTime);
    hide MakeLinks;
    var at := WriteThrough(d.tree, dst);
    assert dst.period !in order && at.period !in order;
  }

  // Whatever fails, other names are untouched and the backup is still in one of two places: the
  // temporary file or the destination.
  lemma DeliveryKeepsData(d: Disk, due: seq<Period>, name: string, tmp: Path, f: Faults, now: int,
                          order: seq<Period>, linkTime: Period -> int)
    requires due != [] && LeadsUp(d.tree, Key(due[0], name)) && tmp in d.temps
    requires forall p :: p in order ==> Above(due[0], p)
    ensures var (after, ok) := DeliverWith(d, due, name, tmp, f, now, order, linkTime);
            && SameOtherNames(d.tree, after.tree, name)
            && LeadsUp(after.tree, Key(due[0], name))
            && ((tmp in after.temps && after.temps[tmp] == d.temps[tmp])
                || Resolve(after.tree, Key(due[0], name)) == Some(d.temps[tmp].content))
            && (ok ==> Resolve(after.tree, Key(due[0], name)) == Some(d.temps[tmp].content))
  {
    var dst := Key(due[0], name);
    var (d1, placed) := Place(d, dst, tmp, f, now);
    assert SameOtherNames(d.tree, d1.tree, name);
    if placed {
      LinksTouchOnly(d1.tree, dst, order, f, linkTime);
      PlacedReads(d, dst, tmp, f, now, order, linkTime);
    }
  }

  // A delivery that fails after the rename is not repeatable: with the temporary file gone, a
  // second attempt truncates the destination.  It spares the backup exactly when the file is still
  // there to copy, or the attempt ends before the truncation.
  lemma RetryKeepsBackupIff(d: Disk, due: seq<Period>, name: string, tmp: Path, order: seq<Period>,
                            first: Faults, second: Faults, now: int, later: int, linkTime: Period -> int)
    requires due != [] && LeadsUp(d.tree, Key(due[0], name)) && tmp in d.temps && d.temps[tmp].content != []
    requires forall p :: p in order ==> Above(due[0], p)
    requires !DeliverWith(d, due, name, tmp, first, now, order, linkTime).1
    ensures var failed := DeliverWith(d, due, name, tmp, first, now, order, linkTime).0;
            var (after, _) := DeliverWith(failed, due, name, tmp, second, later, order, linkTime);
            (tmp in after.temps || Resolve(after.tree, Key(due[0], name)) == Some(d.temps[tmp].content))
            <==> (tmp in failed.temps || second.mkdir || second.create)
  {
    var dst := Key(due[0], name);
    var failed := DeliverWith(d, due, name, tmp, first, now, order, linkTime).0;
    DeliveryKeepsData(d, due, name, tmp, first, now, order, linkTime);
    if tmp in failed.temps {
      DeliveryKeepsData(failed, due, name, tmp, second, later, order, linkTime);
      assert failed.temps[tmp] == d.temps[tmp];
    } else {
      LinksTouchOnly(Place(d, dst, tmp, first, now).0.tree, dst, order, first, linkTime);
      assert failed.tree[dst].File?;
      var (d1, placed) := Place(failed, dst, tmp, second, later);
      assert !placed;
    }
  }

  // Which failed deliveries leave the temporary file: those that did not get to rename it.
  lemma FailedDeliveryKeepsTempIff(d: Disk, due: seq<Period>, name: string, tmp: Path, f: Faults, now: int,
                                   order: seq<Period>, linkTime: Period -> int)
    requires tmp in d.temps && !DeliverWith(d, due, name, tmp, f, now, order, linkTime).1
    ensures tmp in DeliverWith(d, due, name, tmp, f, now, order, linkTime).0.temps <==> f.mkdir || f.rename
  {
  }

  // Without a link fault a failed delivery leaves the temporary file.
  lemma OrderlyWithoutLinkFaults(d: Disk, due: seq<Period>, name: string, tmp: Path, f: Faults, now: int,
                                 order: seq<Period>, linkTime: Period -> int)
    requires tmp in d.temps && (forall p :: f.link(p) == NoFault)
    requires !DeliverWith(d, due, name, tmp, f, now, order, linkTime).1
    ensures tmp in DeliverWith(d, due, name, tmp, f, now, order, linkTime).0.temps
  {
    FailedDeliveryKeepsTempIff(d, due, name, tmp, f, now, order, linkTime);
    var dst := Key(due[0], name);
    LinksMade(Place(d, dst, tmp, f, now).0.tree, dst, order, f, linkTime);
  }

  // The failing input: a Sunday's backup is renamed into `weekly`, its daily link cannot be made, and
  // the second attempt, itself undisturbed, empties the file.
  lemma RetryTruncates()
    ensures var tmp: Path := ["tmp", "etc.tar"]; var content: Content := [0x42];
            var d := Disk(map[], map[tmp := TempFile(content, 0)]);
            var first := Faults(false, false, false, false, None, _ => NoLink);
            var second := Faults(false, false, false, false, None, _ => NoFault);
            var due, order := [Weekly, Daily], [Daily];
            var (failed, ok) := DeliverWith(d, due, "etc.tar", tmp, first, 1, order, _ => 1);
            var (after, again) := DeliverWith(failed, due, "etc.tar", tmp, second, 2, order, _ => 2);
            && !ok && failed == Disk(map[Key(Weekly, "etc.tar") := File(content, 0)], map[])
            && !again && after == Disk(map[Key(Weekly, "etc.tar") := File([], 2)], map[])
  {
    var tmp: Path := ["tmp", "etc.tar"];
    var content: Content := [0x42];
    var dst := Key(Weekly, "etc.tar");
    var d := Disk(map[], map[tmp := TempFile(content, 0)]);
    var first := Faults(false, false, false, false, None, _ => NoLink);
    var second := Faults(false, false, false, false, None, _ => NoFault);
    assert [Daily][..0] == [];
    var d1 := Disk(map[dst := File(content, 0)], map[]);
    assert Place(d, dst, tmp, first, 1) == (d1, true);
    assert d1.tree - {Key(Daily, "etc.tar")} == d1.tree;
    assert MakeLinks(d1.tree, dst, [Daily], first, _ => 1) == (d1.tree, false);
    assert d1.tree[dst := File([], 2)] == map[dst := File([], 2)];
    assert Place(d1, dst, tmp, second, 2) == (Disk(map[dst := File([], 2)], map[]), false);
  }
}
