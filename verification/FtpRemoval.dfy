/** Recursive removal over FTP (lib/ftp/ftp.go:1025-1063) on a server that keeps a tree and a
    current directory (RFC 959, section 4.1.3).

    The server may refuse any command.  Names in replies carry no slash and no quote. */
module FtpRemoval {
  import opened FtpControl
  import opened Options
  import opened Paths
  import opened Texts

  datatype Kind = Folder | File | Link

  datatype Entry = Entry(name: string, kind: Kind)

  type Nodes = map<Path, Kind>

  predicate PlainName(name: string) {
    name != "" && name != "." && name != ".." && Lacks(name, '/')
  }

  predicate PlainPath(p: Path) {
    forall i :: 0 <= i < |p| ==> PlainName(p[i])
  }

  // The root is a folder, and what is not the root lies in a folder.
  ghost predicate IsTree(t: Nodes) {
    && [] in t && t[[]].Folder?
    && forall p :: p in t ==>
         PlainPath(p) && (p != [] ==> p[..|p| - 1] in t && t[p[..|p| - 1]].Folder?)
  }

  // How the server reads a path argument.
  function Locate(cwd: Path, text: string): Path {
    if text != "" && text[0] == '/' then Clean(Split(text, '/')) else Clean(cwd + Split(text, '/'))
  }

  // The path the server reports for a directory.
  function Render(p: Path): string {
    if p == [] then "/"
    else if |p| == 1 then "/" + p[0]
    else Render(p[..|p| - 1]) + "/" + p[|p| - 1]
  }

  ghost function Subtree(t: Nodes, root: Path): set<Path> {
    set p | p in t && root <= p
  }

  function Parent(p: Path): Path {
    if p == [] then [] else p[..|p| - 1]
  }

  lemma {:induction false} LeadingEmpty(p: Path)
    ensures Clean([""] + p) == Clean(p)
  {
    if p == [] {
      assert ([""] + p)[..0] == [];
      assert Clean([""] + p) == Clean([]);
    } else {
      LeadingEmpty(p[..|p| - 1]);
      assert ([""] + p)[..|p|] == [""] + p[..|p| - 1];
    }
  }

  lemma {:induction false} RenderSplits(p: Path)
    requires PlainPath(p)
    ensures Render(p) != "" && Render(p)[0] == '/'
    ensures Clean(Split(Render(p), '/')) == p
    ensures p != [] ==> Split(Render(p), '/') == [""] + p
  {
    hide Split, Clean, PlainPath;
    if p == [] {
      RootSplits();
    } else {
      var front, name := p[..|p| - 1], p[|p| - 1];
      PlainParts(p);
      SplitWhole(name, '/');
      if |p| == 1 {
        SplitJoin("", name, '/');
        SplitWhole("", '/');
        assert "/" + name == "" + ['/'] + name;
        assert p == [name];
      } else {
        RenderSplits(front);
        SplitJoin(Render(front), name, '/');
        assert Render(p) == Render(front) + ['/'] + name;
        assert front + [name] == p && [""] + front + [name] == [""] + p;
      }
      LeadingEmpty(p);
      PlainCleans(p);
    }
  }

  lemma PlainParts(p: Path)
    requires PlainPath(p) && p != []
    ensures PlainPath(p[..|p| - 1]) && PlainName(p[|p| - 1])
  {
  }

  lemma RootSplits()
    ensures Split("/", '/') == ["", ""] && Clean(["", ""]) == []
  {
    SplitJoin("", "", '/');
    assert "/" == "" + ['/'] + "";
    LeadingEmpty([""]);
    LeadingEmpty([]);
    assert [""] + [] == [""] && [""] + [""] == ["", ""];
  }

  lemma {:induction false} PlainCleans(p: Path)
    requires PlainPath(p)
    ensures Clean(p) == p
  {
    if p != [] {
      PlainCleans(p[..|p| - 1]);
    }
  }

  // The child path the client builds leads to the child, from any directory and below the root too.
  lemma ChildPath(p: Path, name: string, cwd: Path)
    requires PlainPath(p) && PlainName(name)
    ensures Locate(cwd, Render(p) + "/" + name) == p + [name]
  {
    RenderSplits(p);
    SplitWhole(name, '/');
    SplitJoin(Render(p), name, '/');
    assert Render(p) + "/" + name == Render(p) + ['/'] + name;
    var parts := Split(Render(p), '/');
    assert (parts + [name])[..|parts|] == parts;
  }

  lemma OwnPath(p: Path, cwd: Path)
    requires PlainPath(p)
    ensures Locate(cwd, Render(p)) == p
  {
    RenderSplits(p);
  }

  lemma RelativeName(cwd: Path, name: string)
    requires PlainPath(cwd) && PlainName(name)
    ensures Locate(cwd, name) == cwd + [name]
  {
    SplitWhole(name, '/');
    PlainCleans(cwd + [name]);
  }

  // Part of the way: of the children of `root`, those named in `done` are gone with all below them.
  ghost predicate Cleared(before: Nodes, root: Path, done: set<string>, after: Nodes) {
    && (forall p :: p in after ==> p in before && after[p] == before[p])
    && (forall p :: p in before ==> (p in after <==> !(root < p && p[|root|] in done)))
  }

  // Nothing outside the subtree is touched, whatever happens.
  ghost predicate OnlyWithin(before: Nodes, root: Path, after: Nodes) {
    && (forall p :: p in after ==> p in before && after[p] == before[p])
    && (forall p :: p in before && !(root <= p) ==> p in after)
  }

  ghost predicate Removed(before: Nodes, root: Path, after: Nodes) {
    after == before - Subtree(before, root)
  }

  predicate IsDot(name: string) {
    name == "." || name == ".."
  }

  ghost predicate Named(entries: seq<Entry>, name: string) {
    exists i :: 0 <= i < |entries| && entries[i].name == name
  }

  // A listing names every child once, with its kind; servers may add the two dot entries.
  ghost predicate ListsChildren(t: Nodes, dir: Path, entries: seq<Entry>) {
    && (forall i, j :: 0 <= i < j < |entries| ==> entries[i].name != entries[j].name)
    && (forall i :: 0 <= i < |entries| && !IsDot(entries[i].name) ==>
          dir + [entries[i].name] in t && t[dir + [entries[i].name]] == entries[i].kind)
    && (forall name :: dir + [name] in t ==> Named(entries, name))
  }

  ghost function ChildPaths(t: Nodes, dir: Path): set<Path> {
    set p | p in t && |p| == |dir| + 1 && dir < p
  }

  lemma ChildFacts(t: Nodes, dir: Path, p: Path)
    requires IsTree(t) && p in ChildPaths(t, dir)
    ensures p in t && |p| == |dir| + 1 && p == dir + [p[|dir|]] && !IsDot(p[|dir|])
  {
    TreePaths(t, p);
    hide IsTree;
    assert PlainName(p[|dir|]);
  }

  lemma ChildEntries(t: Nodes, dir: Path, paths: seq<Path>, entries: seq<Entry>)
    requires IsTree(t) && Enumerates(paths, ChildPaths(t, dir)) && |entries| == |paths|
    requires forall i :: 0 <= i < |paths| ==>
               paths[i] in t && |paths[i]| == |dir| + 1 && entries[i] == Entry(paths[i][|dir|], t[paths[i]])
    ensures ListsChildren(t, dir, entries)
    ensures forall i :: 0 <= i < |entries| ==> !IsDot(entries[i].name)
  {
    hide IsTree, IsDot, ChildPaths, Named;
    forall i | 0 <= i < |paths|
      ensures paths[i] == dir + [entries[i].name] && !IsDot(entries[i].name)
    {
      assert paths[i] in Elements(paths);
      ChildFacts(t, dir, paths[i]);
    }
    forall i, j | 0 <= i < j < |entries|
      ensures entries[i].name != entries[j].name
    {
      assert paths[i] != paths[j];
    }
    forall name | dir + [name] in t
      ensures Named(entries, name)
    {
      EntryOfChild(t, dir, paths, entries, name);
    }
  }

  lemma EntryOfChild(t: Nodes, dir: Path, paths: seq<Path>, entries: seq<Entry>, name: string)
    requires Enumerates(paths, ChildPaths(t, dir)) && |entries| == |paths| && dir + [name] in t
    requires forall i :: 0 <= i < |paths| ==> paths[i] == dir + [entries[i].name]
    ensures Named(entries, name)
  {
    var p := dir + [name];
    assert p in ChildPaths(t, dir) && p in Elements(paths);
    var i :| 0 <= i < |paths| && paths[i] == p;
    assert p[|dir|] == name && paths[i][|dir|] == entries[i].name;
  }

  lemma DotsListed(t: Nodes, dir: Path, entries: seq<Entry>)
    requires ListsChildren(t, dir, entries) && forall i :: 0 <= i < |entries| ==> !IsDot(entries[i].name)
    ensures ListsChildren(t, dir, [Entry(".", Folder), Entry("..", Folder)] + entries)
  {
    var dotted := [Entry(".", Folder), Entry("..", Folder)] + entries;
    forall name | dir + [name] in t
      ensures Named(dotted, name)
    {
      assert Named(entries, name);
      var i :| 0 <= i < |entries| && entries[i].name == name;
      assert dotted[i + 2].name == name;
    }
  }

  lemma {:induction false} AncestorsAreFolders(t: Nodes, p: Path, n: nat)
    requires IsTree(t) && p in t && n < |p|
    ensures p[..n] in t && t[p[..n]].Folder?
    decreases |p| - n
  {
    if n < |p| - 1 {
      AncestorsAreFolders(t, p, n + 1);
      assert p[..n + 1][..n] == p[..n];
    }
  }

  lemma FileIsLeaf(t: Nodes, target: Path)
    requires IsTree(t) && target in t && !t[target].Folder?
    ensures target != [] && forall p :: p in t ==> !(target < p)
  {
    forall p | p in t
      ensures !(target < p)
    {
      assert target < p ==> p[..|target|] == target;
      if |target| < |p| {
        AncestorsAreFolders(t, p, |target|);
      }
    }
  }

  lemma RemovalKeepsTree(t: Nodes, target: Path)
    requires IsTree(t) && target in t && target != [] && forall p :: p in t ==> !(target < p)
    ensures IsTree(t - {target})
  {
    forall p | p in t - {target} && p != []
      ensures p[..|p| - 1] in t - {target}
    {
      assert p[..|p| - 1] == target ==> target < p;
    }
  }

  ghost function DoneNames(entries: seq<Entry>, n: nat): set<string>
    requires n <= |entries|
  {
    set i | 0 <= i < n && !IsDot(entries[i].name) :: entries[i].name
  }

  lemma ClearedStart(t: Nodes, root: Path, entries: seq<Entry>)
    ensures Cleared(t, root, DoneNames(entries, 0), t)
  {
  }

  lemma ClearedStep(before: Nodes, root: Path, done: set<string>, mid: Nodes, name: string, after: Nodes)
    requires Cleared(before, root, done, mid) && Removed(mid, root + [name], after)
    ensures Cleared(before, root, done + {name}, after)
  {
    forall p | p in before
      ensures p in after <==> !(root < p && p[|root|] in done + {name})
    {
      if root < p {
        assert root + [name] <= p <==> p[|root|] == name;
      }
    }
  }

  lemma ClearedOnly(before: Nodes, root: Path, done: set<string>, mid: Nodes)
    requires Cleared(before, root, done, mid)
    ensures OnlyWithin(before, root, mid)
  {
  }

  lemma WithinChild(before: Nodes, root: Path, mid: Nodes, name: string, after: Nodes)
    requires OnlyWithin(before, root, mid) && OnlyWithin(mid, root + [name], after)
    ensures OnlyWithin(before, root, after)
  {
    forall p | p in before && !(root <= p)
      ensures !(root + [name] <= p)
    {
      assert root + [name] <= p ==> root <= p;
    }
  }

  // Once every listed child has gone, the directory is empty.
  lemma AllCleared(before: Nodes, root: Path, entries: seq<Entry>, after: Nodes)
    requires IsTree(before) && ListsChildren(before, root, entries)
    requires Cleared(before, root, DoneNames(entries, |entries|), after)
    ensures forall p :: p in after ==> !(root < p)
    ensures forall p :: p in before && !(root < p) ==> p in after
  {
    forall p | p in before && root < p
      ensures p[|root|] in DoneNames(entries, |entries|)
    {
      ChildAbove(before, root, p);
      hide IsTree;
      assert Named(entries, p[|root|]);
    }
  }

  lemma ChildAbove(t: Nodes, root: Path, p: Path)
    requires IsTree(t) && p in t && root < p
    ensures root + [p[|root|]] in t && !IsDot(p[|root|])
  {
    var child := p[..|root| + 1];
    assert child == root + [p[|root|]];
    if |root| + 1 < |p| {
      AncestorsAreFolders(t, p, |root| + 1);
    } else {
      assert child == p;
    }
    assert PlainName(child[|root|]);
  }

  lemma PrefixCases(root: Path, p: Path)
    ensures root <= p <==> root == p || root < p
  {
    if root <= p && |root| == |p| {
      assert p == p[..|root|];
    }
  }

  lemma NothingTouched(t: Nodes, root: Path)
    ensures OnlyWithin(t, root, t)
  {
  }

  lemma TreePaths(t: Nodes, p: Path)
    requires IsTree(t) && p in t
    ensures PlainPath(p)
  {
  }

  lemma ListedChild(before: Nodes, root: Path, entries: seq<Entry>, i: nat, mid: Nodes)
    requires IsTree(before) && ListsChildren(before, root, entries)
    requires i < |entries| && !IsDot(entries[i].name)
    requires Cleared(before, root, DoneNames(entries, i), mid)
    ensures var child := root + [entries[i].name];
            PlainName(entries[i].name) && child in mid && mid[child] == entries[i].kind
  {
    var child := root + [entries[i].name];
    assert child in before && PlainName(child[|root|]);
    hide IsTree;
    assert entries[i].name !in DoneNames(entries, i);
  }

  lemma SmallerSubtree(before: Nodes, root: Path, mid: Nodes, name: string)
    requires OnlyWithin(before, root, mid) && root in before
    ensures Subtree(mid, root + [name]) < Subtree(before, root)
  {
    assert root in Subtree(before, root) && root !in Subtree(mid, root + [name]);
    forall p | p in Subtree(mid, root + [name])
      ensures p in Subtree(before, root)
    {
      assert root <= root + [name] <= p;
    }
  }

  lemma FileRemoval(t: Nodes, p: Path)
    requires IsTree(t) && p in t && !t[p].Folder?
    ensures Removed(t, p, t - {p})
  {
    FileIsLeaf(t, p);
    hide IsTree;
    forall q | q in t
      ensures p <= q <==> q == p
    {
      PrefixCases(p, q);
    }
    assert Subtree(t, p) == {p};
  }

  lemma NextDone(entries: seq<Entry>, i: nat)
    requires i < |entries|
    ensures DoneNames(entries, i + 1)
            == if IsDot(entries[i].name) then DoneNames(entries, i) else DoneNames(entries, i) + {entries[i].name}
  {
  }

  lemma LastRemoval(before: Nodes, root: Path, mid: Nodes)
    requires OnlyWithin(before, root, mid) && root in before && before[root].Folder?
    requires forall p :: p in mid ==> !(root < p)
    requires forall p :: p in before && !(root < p) ==> p in mid
    ensures root != [] ==> Removable(mid, Parent(root), root) && Removed(before, root, mid - {root})
    ensures OnlyWithin(before, root, mid - {root})
  {
    forall p | p in before
      ensures root <= p <==> root == p || root < p
    {
      PrefixCases(root, p);
    }
  }

  const STATUS_PATH_CREATED: FinalCode := 257
  const STATUS_FILE_UNAVAILABLE: FinalCode := 550

  // A connection and the server's side of it.
  class Remote {
    const conn: ServerConn
    var nodes: Nodes
    var cwd: Path
    // An obliging server carries out whatever can be carried out, and nothing else goes wrong.
    const obliging: bool

    ghost predicate Standing()
      reads this
    {
      IsTree(nodes) && cwd in nodes && nodes[cwd].Folder?
    }

    ghost predicate Valid()
      reads this, conn
    {
      Standing() && conn.Idle()
    }

    constructor (conn: ServerConn, nodes: Nodes, cwd: Path, obliging: bool)
      requires IsTree(nodes) && cwd in nodes && nodes[cwd].Folder? && conn.Idle()
      ensures Valid() && this.conn == conn && this.nodes == nodes && this.cwd == cwd && this.obliging == obliging
    {
      this.conn, this.nodes, this.cwd, this.obliging := conn, nodes, cwd, obliging;
    }

    // One command and its reply, `accepted` if the server carries it out; it has reasons of its own to
    // refuse: rights, locks, limits.
    method Command(expected: FinalCode, accepted: FinalCode, possible: bool) returns (ok: bool)
      requires conn.Idle() && expected != STATUS_FILE_UNAVAILABLE
      modifies conn
      ensures conn.Idle()
      ensures ok ==> possible
      ensures obliging && possible && expected == accepted ==> ok
    {
      var answer := if possible then accepted else STATUS_FILE_UNAVAILABLE;
      if !obliging {
        if * {
          answer := STATUS_FILE_UNAVAILABLE;
        }
      }
      var reply;
      ok, reply := conn.Cmd(expected, answer, Other);
    }

    // CWD
    method ChangeDir(path: string) returns (ok: bool)
      requires Valid()
      modifies this`cwd, conn
      ensures Valid()
      ensures ok ==> Locate(old(cwd), path) in nodes && nodes[Locate(old(cwd), path)].Folder?
      ensures cwd == if ok then Locate(old(cwd), path) else old(cwd)
      ensures obliging && Locate(old(cwd), path) in nodes && nodes[Locate(old(cwd), path)].Folder? ==> ok
    {
      var target := Locate(cwd, path);
      ok := Command(STATUS_REQUESTED_FILE_ACTION_OK, 250, target in nodes && nodes[target].Folder?);
      if ok {
        cwd := target;
      }
    }

    // CDUP; the root is its own parent.
    method ChangeDirToParent() returns (ok: bool)
      requires Valid()
      modifies this`cwd, conn
      ensures Valid()
      ensures cwd == if ok then Parent(old(cwd)) else old(cwd)
      ensures obliging ==> ok
    {
      ok := Command(STATUS_REQUESTED_FILE_ACTION_OK, 250, true);
      if ok {
        cwd := Parent(cwd);
      }
    }

    // PWD
    method CurrentDir() returns (ok: bool, path: string)
      requires Valid()
      modifies conn
      ensures Valid()
      ensures ok ==> path == Render(cwd)
      ensures obliging ==> ok
    {
      ok := Command(STATUS_PATH_CREATED, 257, true);
      path := Render(cwd);
    }

    // How the server answers a listing.
    method ListAnswers(possible: bool) returns (a: Answers)
      ensures !possible ==> !Starts(Exchange(Transfer, a.first))
      ensures obliging && possible ==> forall tryEpsv :: a.Start(tryEpsv, 0)
      ensures obliging && possible ==> forall shutTimeout :: a.Finish(shutTimeout)
      ensures obliging ==> !a.deadlineFails
    {
      a := Answers(200, 229, 227, 350, 150, 226, false, false, false);
      if !obliging {
        a := *;
      }
      if !possible {
        a := a.(first := STATUS_FILE_UNAVAILABLE);
      }
    }

    // LIST or MLSD, in no particular order.  It can leave its final reply unread.
    method List(path: string) returns (ok: bool, entries: seq<Entry>)
      requires Valid()
      modifies conn
      ensures conn.Idle() || (conn.OutOfStep() && conn.shutTimeout && !obliging)
      ensures ok ==> Valid() && ListsChildren(nodes, Locate(cwd, path), entries)
      ensures obliging && Locate(cwd, path) in nodes && nodes[Locate(cwd, path)].Folder? ==> ok
    {
      var dir := Locate(cwd, path);
      var answers := ListAnswers(dir in nodes && nodes[dir].Folder?);
      ok := conn.List(answers);
      entries := Children(dir);
      if * {
        DotsListed(nodes, dir, entries);
        entries := [Entry(".", Folder), Entry("..", Folder)] + entries;
      }
    }

    method Children(dir: Path) returns (entries: seq<Entry>)
      requires Standing()
      ensures ListsChildren(nodes, dir, entries)
      ensures forall i :: 0 <= i < |entries| ==> !IsDot(entries[i].name)
    {
      hide IsTree;
      entries := [];
      var pending := set p | p in nodes && |p| == |dir| + 1 && dir < p;
      ghost var paths, all := [], pending;
      while pending != {}
        invariant pending <= all && Distinct(paths) && Elements(paths) == all - pending
        invariant |entries| == |paths|
        invariant forall i :: 0 <= i < |paths| ==> paths[i] in all && entries[i] == Entry(paths[i][|dir|], nodes[paths[i]])
        decreases pending
      {
        var p :| p in pending;
        assert Elements(paths + [p]) == Elements(paths) + {p};
        entries := entries + [Entry(p[|dir|], nodes[p])];
        paths, pending := paths + [p], pending - {p};
      }
      ChildEntries(nodes, dir, paths, entries);
    }

    // DELE
    method Delete(path: string) returns (ok: bool)
      requires Valid()
      modifies this`nodes, conn
      ensures Valid()
      ensures ok ==> Locate(cwd, path) in old(nodes) && !old(nodes)[Locate(cwd, path)].Folder?
      ensures nodes == if ok then old(nodes) - {Locate(cwd, path)} else old(nodes)
      ensures obliging && Locate(cwd, path) in old(nodes) && !old(nodes)[Locate(cwd, path)].Folder? ==> ok
    {
      var target := Locate(cwd, path);
      ok := Command(STATUS_REQUESTED_FILE_ACTION_OK, 250, target in nodes && !nodes[target].Folder?);
      if ok {
        FileIsLeaf(nodes, target);
        RemovalKeepsTree(nodes, target);
        nodes := nodes - {target};
      }
    }

    // RMD, only of an empty directory that is neither the root nor the current one.
    method RemoveDir(path: string) returns (ok: bool)
      requires Valid()
      modifies this`nodes, conn
      ensures Valid()
      ensures ok ==> Removable(old(nodes), cwd, Locate(cwd, path))
      ensures nodes == if ok then old(nodes) - {Locate(cwd, path)} else old(nodes)
      ensures obliging && Removable(old(nodes), cwd, Locate(cwd, path)) ==> ok
    {
      var target := Locate(cwd, path);
      var below := set p | p in nodes && target < p;
      ok := Command(STATUS_REQUESTED_FILE_ACTION_OK, 250,
                    target in nodes && nodes[target].Folder? && target != [] && target != cwd && below == {});
      if ok {
        assert forall p :: p in nodes && target < p ==> p in below;
        RemovalKeepsTree(nodes, target);
        nodes := nodes - {target};
      }
    }

    // One entry of the current directory: folders by their full path, files by their bare name.
    method RemoveEntry(currentDir: string, entry: Entry) returns (ok: bool)
      requires Valid() && PlainName(entry.name) && currentDir == Render(cwd)
      requires cwd + [entry.name] in nodes && nodes[cwd + [entry.name]] == entry.kind
      modifies this`nodes, this`cwd, conn
      ensures Standing() && (ok ==> conn.Idle())
      ensures conn.Idle() || (conn.OutOfStep() && conn.shutTimeout && !obliging)
      ensures var child := old(cwd) + [entry.name];
              && OnlyWithin(old(nodes), child, nodes)
              && (ok ==> Removed(old(nodes), child, nodes) && cwd == old(cwd))
              && (obliging ==> ok)
      decreases Subtree(nodes, cwd + [entry.name]), 1
    {
      ghost var child := cwd + [entry.name];
      TreePaths(nodes, cwd);
      assert Parent(child) == cwd;
      if entry.kind == Folder {
        ChildPath(cwd, entry.name, cwd);
        ok := RemoveDirRecur(currentDir + "/" + entry.name);
      } else {
        RelativeName(cwd, entry.name);
        FileRemoval(nodes, child);
        ok := Delete(entry.name);
      }
    }

    // Deletes a directory with everything below it.  On success exactly that subtree is gone and the
    // server stands at its parent; on failure nothing outside the subtree has been touched.
    method RemoveDirRecur(path: string) returns (ok: bool)
      requires Valid()
      modifies this`nodes, this`cwd, conn
      ensures Standing() && (ok ==> conn.Idle())
      ensures conn.Idle() || (conn.OutOfStep() && conn.shutTimeout && !obliging)
      ensures var target := Locate(old(cwd), path); var isDir := target in old(nodes) && old(nodes)[target].Folder?;
              && OnlyWithin(old(nodes), target, nodes)
              && (ok ==> isDir && target != [] && Removed(old(nodes), target, nodes) && cwd == Parent(target))
              && (!isDir ==> !ok && nodes == old(nodes) && cwd == old(cwd))
              && (obliging && isDir ==> ok == (target != []))
      decreases Subtree(nodes, Locate(cwd, path)), 0
    {
      ghost var before, target := nodes, Locate(cwd, path);
      NothingTouched(before, target);
      hide ServerConn.Idle, ServerConn.OutOfStep, IsTree, Locate, Clean, PlainName, ListsChildren, Cleared, Subtree, OnlyWithin, Removed, DoneNames, Render,
           PlainPath;
      ok := ChangeDir(path);
      if !ok {
        return;
      }
      var currentDir;
      ok, currentDir := CurrentDir();
      if !ok {
        return;
      }
      TreePaths(nodes, target);
      OwnPath(target, cwd);
      var entries;
      ok, entries := List(currentDir);
      if !ok {
        return;
      }
      ClearedStart(nodes, target, entries);
      for i := 0 to |entries|
        invariant Valid() && cwd == target && ok
        invariant Cleared(before, target, DoneNames(entries, i), nodes)
      {
        var entry := entries[i];
        if entry.name != ".." && entry.name != "." {
          ListedChild(before, target, entries, i, nodes);
          ClearedOnly(before, target, DoneNames(entries, i), nodes);
          SmallerSubtree(before, target, nodes, entry.name);
          ghost var mid := nodes;
          ok := RemoveEntry(currentDir, entry);
          if !ok {
            WithinChild(before, target, mid, entry.name, nodes);
            return;
          }
          ClearedStep(before, target, DoneNames(entries, i), mid, entry.name, nodes);
        }
        NextDone(entries, i);
      }
      ClearedOnly(before, target, DoneNames(entries, |entries|), nodes);
      AllCleared(before, target, entries, nodes);
      ok := ChangeDirToParent();
      if !ok {
        return;
      }
      OwnPath(target, cwd);
      LastRemoval(before, target, nodes);
      ok := RemoveDir(currentDir);
    }
  }

  ghost predicate Removable(t: Nodes, cwd: Path, target: Path) {
    target in t && t[target].Folder? && target != [] && target != cwd && forall p :: p in t ==> !(target < p)
  }
}
