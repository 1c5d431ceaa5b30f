/**
 The recursive copy behind a static site, over graphs that may have cycles
 (crates/riku-nginx/src/static_copy.rs).

 The checkout is a graph: a directory maps entry names to what their path
 canonicalizes to, a node of the checkout, something outside it, or nothing.
 Symlinks may make the graph cyclic. Every system call may be refused by the
 environment; `faults` counts the refusals.
 */
module StaticCopy {
  import opened Wrappers

  type Bytes = seq<nat>
  type NodeId = nat
  type Path = seq<string>

  datatype Link = Inside(node: NodeId) | Outside | Broken

  /** `Special` is a socket, fifo or device. */
  datatype Node = Dir(entries: map<string, Link>) | File(bytes: Bytes) | Special

  type Graph = g: map<NodeId, Node> | IsClosed(g) witness map[]

  /** Every entry that canonicalizes into the checkout leads to a node of it. */
  predicate IsClosed(g: map<NodeId, Node>) {
    forall n | n in g && g[n].Dir? ::
      forall name | name in g[n].entries && g[n].entries[name].Inside? :: g[n].entries[name].node in g
  }

  datatype Entry = DirEntry(mode: nat) | FileEntry(mode: nat, bytes: Bytes) | LinkEntry(target: string)

  type Tree = map<Path, Entry>

  const DIR_MODE: nat := 0x5E8   // 0o2750
  const FILE_MODE: nat := 0x1A0  // 0o640
  const MAX_DEPTH: nat := 64

  function At(tree: Tree, path: Path): Option<Entry> { if path in tree then Some(tree[path]) else None }

  /** The trees agree everywhere but at and below `dest`. */
  ghost predicate SameOutside(a: Tree, b: Tree, dest: Path) {
    forall path | !(dest <= path) :: At(a, path) == At(b, path)
  }

  // ---- What a copy should be ----

  /** The node reached from `n` by following entry names. */
  function Walk(g: Graph, n: NodeId, names: Path): (m: Option<NodeId>)
    requires n in g
    ensures m.Some? ==> m.value in g
    decreases names
  {
    if names == [] then Some(n)
    else if g[n].Dir? && names[0] in g[n].entries && g[n].entries[names[0]].Inside?
    then Walk(g, g[n].entries[names[0]].node, names[1..])
    else None
  }

  /** What the copy holds at `names`: the node the names lead to, with the published mode; special files are skipped. */
  function Image(g: Graph, n: NodeId, names: Path): Option<Entry>
    requires n in g
  {
    match Walk(g, n, names)
    case None => None
    case Some(m) =>
      match g[m]
      case Dir(_) => Some(DirEntry(DIR_MODE))
      case File(bytes) => Some(FileEntry(FILE_MODE, bytes))
      case Special => None
  }

  /** Every entry of the directory `n` resolves into the checkout. */
  predicate EntriesInside(g: Graph, n: NodeId)
    requires n in g && g[n].Dir?
  {
    forall name | name in g[n].entries :: g[n].entries[name].Inside?
  }

  /** The answer of `copy_tree` when the environment refuses nothing. */
  predicate Copies(g: Graph, n: NodeId, depth: nat)
    requires n in g && g[n].Dir?
    decreases MAX_DEPTH + 1 - depth, 1
  {
    && depth <= MAX_DEPTH
    && EntriesInside(g, n)
    && forall name | name in g[n].entries :: EntryCopies(g, g[n].entries[name], depth)
  }

  predicate EntryCopies(g: Graph, link: Link, depth: nat)
    requires link.Inside? ==> link.node in g
    requires depth <= MAX_DEPTH
    decreases MAX_DEPTH + 1 - depth, 0
  {
    link.Inside? && (g[link.node].Dir? ==> Copies(g, link.node, depth + 1))
  }

  /** A source path of the checkout: absent, or what it canonicalizes to. */
  datatype Source = Missing | Present(link: Link)

  predicate SourceIn(g: Graph, source: Source) {
    source.Present? && source.link.Inside? ==> source.link.node in g
  }

  predicate SourceCopies(g: Graph, source: Source)
    requires SourceIn(g, source)
  {
    match source
    case Missing => true
    case Present(link) => link.Inside? && g[link.node].Dir? && Copies(g, link.node, 0)
  }

  /** What the copy of a source holds at `names`. */
  function SourceImage(g: Graph, source: Source, names: Path): Option<Entry>
    requires SourceIn(g, source)
  {
    match source
    case Missing => if names == [] then Some(DirEntry(DIR_MODE)) else None
    case Present(link) => if link.Inside? then Image(g, link.node, names) else None
  }

  // ---- The image on disk ----

  /** At and below `dest` is exactly the image of node `n`. */
  ghost predicate HoldsIn(tree: Tree, g: Graph, dest: Path, n: NodeId)
    requires n in g
  {
    forall path | dest <= path :: At(tree, path) == Image(g, n, path[|dest|..])
  }

  /** In the directory `dest` there is nothing under a name that is left or is no entry. */
  ghost predicate RestVacant(tree: Tree, dest: Path, entries: map<string, Link>, left: set<string>) {
    forall path | dest < path && (path[|dest|] in left || path[|dest|] !in entries) :: path !in tree
  }

  lemma {:induction false} NextIsVacant(
      tree: Tree, dest: Path, entries: map<string, Link>, left: set<string>, name: string)
    requires RestVacant(tree, dest, entries, left) && name in left
    ensures forall path | dest + [name] <= path :: path !in tree
  {
    forall path | dest + [name] <= path
      ensures path !in tree
    {
      assert dest < path && path[|dest|] == name;
    }
  }

  lemma {:induction false} OtherEntryStays(
      now: Tree, before: Tree, g: Graph, dest: Path, name: string, other: string, n: NodeId)
    requires n in g && name != other
    requires SameOutside(now, before, dest + [name]) && HoldsIn(before, g, dest + [other], n)
    ensures HoldsIn(now, g, dest + [other], n)
  {
    forall path | dest + [other] <= path
      ensures At(now, path) == Image(g, n, path[|dest + [other]|..])
    {
      assert path[|dest|] == other;
      assert !(dest + [name] <= path);
    }
  }

  lemma {:induction false} RestStaysVacant(
      now: Tree, before: Tree, dest: Path, entries: map<string, Link>, left: set<string>, name: string)
    requires RestVacant(before, dest, entries, left) && name in left && left <= entries.Keys
    requires SameOutside(now, before, dest + [name])
    ensures RestVacant(now, dest, entries, left - {name})
  {
    forall path | dest < path && (path[|dest|] in left - {name} || path[|dest|] !in entries)
      ensures path !in now
    {
      assert !(dest + [name] <= path);
      assert At(now, path) == At(before, path);
    }
  }

  lemma {:induction false} EntriesMakeTheImage(tree: Tree, g: Graph, dest: Path, source: NodeId)
    requires source in g && g[source].Dir? && At(tree, dest) == Some(DirEntry(DIR_MODE))
    requires RestVacant(tree, dest, g[source].entries, {})
    requires forall name | name in g[source].entries ::
               var link := g[source].entries[name]; link.Inside? && HoldsIn(tree, g, dest + [name], link.node)
    ensures HoldsIn(tree, g, dest, source)
  {
    var entries := g[source].entries;
    forall path | dest <= path
      ensures At(tree, path) == Image(g, source, path[|dest|..])
    {
      if path == dest {
        assert path[|dest|..] == [];
      } else {
        var name := path[|dest|];
        assert path[|dest|..][0] == name && path[|dest|..][1..] == path[|dest| + 1..];
        if name in entries {
          assert dest + [name] <= path;
          assert HoldsIn(tree, g, dest + [name], entries[name].node);
        }
      }
    }
  }

  // ---- The copy ----

  /** The static root's tree of entries, with the checkout copied from. */
  class StaticRoot {
    const graph: Graph
    var tree: Tree
    var faults: nat
    /** The tree after each change, oldest first. */
    ghost var trace: seq<Tree>

    constructor (graph: Graph, tree: Tree)
      ensures this.graph == graph && this.tree == tree && faults == 0 && trace == []
    {
      this.graph, this.tree, faults, trace := graph, tree, 0, [];
    }

    /** Neither now nor in any state since `from` does anything outside `dest` differ from `before`. */
    ghost predicate OnlyBelow(dest: Path, from: seq<Tree>, before: Tree)
      reads this
    {
      && SameOutside(tree, before, dest)
      && from <= trace
      && forall i | |from| <= i < |trace| :: SameOutside(trace[i], before, dest)
    }

    /** Nothing exists at or below `dest`. */
    ghost predicate Vacant(dest: Path)
      reads this
    {
      forall path | dest <= path :: path !in tree
    }

    /** Below `dest` is exactly the image of node `n`. */
    ghost predicate Holds(dest: Path, n: NodeId)
      requires n in graph
      reads this
    {
      HoldsIn(tree, graph, dest, n)
    }

    /** One system call that puts `entry` at `path`, unless it is refused. */
    method Put(path: Path, entry: Entry) returns (ok: bool)
      modifies this
      ensures tree == if ok then old(tree)[path := entry] else old(tree)
      ensures trace == if ok then old(trace) + [tree] else old(trace)
      ensures faults == old(faults) + if ok then 0 else 1
    {
      ok := *;
      if !ok {
        faults := faults + 1;
        return;
      }
      tree := tree[path := entry];
      trace := trace + [tree];
    }

    /** Creates a directory, under any mode, and then sets its mode. */
    method MakeDir(dir: Path) returns (ok: bool)
      requires dir !in tree
      modifies this
      ensures ok ==> tree == old(tree)[dir := DirEntry(DIR_MODE)]
      ensures forall path | path != dir :: At(tree, path) == At(old(tree), path)
      ensures OnlyBelow(dir, old(trace), old(tree))
      ensures ok ==> |trace| == |old(trace)| + 2
      ensures faults >= old(faults) && (ok <==> faults == old(faults))
    {
      var mode: nat :| mode >= 0;
      ok := Put(dir, DirEntry(mode));
      if !ok {
        return;
      }
      ok := Put(dir, DirEntry(DIR_MODE));
    }

    /** Copies a file and sets its mode; a refused copy may leave part of the file. */
    method CopyFile(bytes: Bytes, dest: Path) returns (ok: bool)
      requires dest !in tree
      modifies this
      ensures ok ==> tree == old(tree)[dest := FileEntry(FILE_MODE, bytes)]
      ensures forall path | path != dest :: At(tree, path) == At(old(tree), path)
      ensures OnlyBelow(dest, old(trace), old(tree))
      ensures ok ==> |trace| == |old(trace)| + 3
      ensures faults >= old(faults) && (ok <==> faults == old(faults))
    {
      var written: nat :| written <= |bytes|;
      var mode: nat :| mode >= 0;
      ok := Put(dest, FileEntry(mode, bytes[..written]));
      if !ok {
        return;
      }
      ok := Put(dest, FileEntry(mode, bytes));
      if !ok {
        return;
      }
      ok := Put(dest, FileEntry(FILE_MODE, bytes));
    }

    method CopyTree(source: NodeId, dest: Path, depth: nat) returns (ok: bool)
      requires source in graph && graph[source].Dir? && depth <= MAX_DEPTH + 1
      requires Vacant(dest)
      modifies this
      ensures OnlyBelow(dest, old(trace), old(tree))
      ensures ok ==> Holds(dest, source) && Copies(graph, source, depth)
      ensures faults >= old(faults)
      ensures faults == old(faults) ==> (ok <==> Copies(graph, source, depth))
      decreases MAX_DEPTH + 1 - depth, 1
    {
      if depth > MAX_DEPTH {
        return false;
      }
      ok := MakeDir(dest);
      if !ok {
        return false;
      }
      var entries := graph[source].entries;
      var left := entries.Keys;
      while left != {}
        invariant left <= entries.Keys
        invariant OnlyBelow(dest, old(trace), old(tree))
        invariant At(tree, dest) == Some(DirEntry(DIR_MODE))
        invariant RestVacant(tree, dest, entries, left)
        invariant forall name | name in entries && name !in left ::
                    EntryCopies(graph, entries[name], depth) && HoldsIn(tree, graph, dest + [name], entries[name].node)
        invariant faults >= old(faults)
        decreases left
      {
        var unread: bool := *;
        if unread {
          faults := faults + 1;
          return false;
        }
        var name :| name in left;
        ghost var before := tree;
        NextIsVacant(tree, dest, entries, left, name);
        ok := CopyEntry(entries[name], dest + [name], depth);
        if !ok {
          return false;
        }
        forall other | other in entries && other !in left
          ensures HoldsIn(tree, graph, dest + [other], entries[other].node)
        {
          OtherEntryStays(tree, before, graph, dest, name, other, entries[other].node);
        }
        RestStaysVacant(tree, before, dest, entries, left, name);
        left := left - {name};
      }
      assert Copies(graph, source, depth);
      EntriesMakeTheImage(tree, graph, dest, source);
      return true;
    }

    /** The image of one link of the graph: nothing outside the checkout is ever read. */
    method CopyEntry(link: Link, dest: Path, depth: nat) returns (ok: bool)
      requires link.Inside? ==> link.node in graph
      requires depth <= MAX_DEPTH && Vacant(dest)
      modifies this
      ensures OnlyBelow(dest, old(trace), old(tree))
      ensures ok ==> EntryCopies(graph, link, depth) && Holds(dest, link.node)
      ensures faults >= old(faults)
      ensures faults == old(faults) ==> (ok <==> EntryCopies(graph, link, depth))
      decreases MAX_DEPTH + 1 - depth, 0
    {
      if !link.Inside? {
        return false;
      }
      var inspected: bool := *;
      if !inspected {
        faults := faults + 1;
        return false;
      }
      match graph[link.node] {
        case Dir(_) =>
          ok := CopyTree(link.node, dest, depth + 1);
        case Special =>
          LeafImage(graph, link.node);
          return true;
        case File(bytes) =>
          assert dest <= dest;
          ok := CopyFile(bytes, dest);
          LeafImage(graph, link.node);
          if ok {
            forall path | dest <= path
              ensures At(tree, path) == Image(graph, link.node, path[|dest|..])
            {
              assert path == dest <==> path[|dest|..] == [];
            }
          }
      }
    }

    /**
     The image of one source: empty for one that does not exist. One that leads
     out of the checkout, or to no directory, is refused.
     */
    method CopySource(source: Source, dest: Path) returns (ok: bool)
      requires SourceIn(graph, source)
      requires Vacant(dest)
      modifies this
      ensures OnlyBelow(dest, old(trace), old(tree))
      ensures ok ==> SourceCopies(graph, source)
      ensures ok ==> forall path | dest <= path :: At(tree, path) == SourceImage(graph, source, path[|dest|..])
      ensures faults >= old(faults)
      ensures faults == old(faults) ==> (ok <==> SourceCopies(graph, source))
    {
      var inspected: bool := *;
      if !inspected {
        faults := faults + 1;
        return false;
      }
      if source.Missing? {
        assert dest <= dest;
        ok := MakeDir(dest);
        if ok {
          forall path | dest <= path
            ensures At(tree, path) == SourceImage(graph, source, path[|dest|..])
          {
            assert path == dest <==> path[|dest|..] == [];
          }
        }
        return;
      }
      if !source.link.Inside? || !graph[source.link.node].Dir? {
        return false;
      }
      ok := CopyTree(source.link.node, dest, 0);
    }
  }

  lemma {:induction false} LeafImage(g: Graph, n: NodeId)
    requires n in g && !g[n].Dir?
    ensures forall names: Path | names != [] :: Image(g, n, names) == None
  {
  }

  // ---- When a copy succeeds ----

  /** What `names` lead to from `n` is within reach of a copy at `depth`: shallow enough, with all entries inside. */
  ghost predicate WithinReach(g: Graph, n: NodeId, names: Path, depth: nat)
    requires n in g
  {
    var m := Walk(g, n, names);
    m.Some? && g[m.value].Dir? ==> depth + |names| <= MAX_DEPTH && EntriesInside(g, m.value)
  }

  /** A copy has the published modes and nests its directories at most 64 deep. */
  lemma {:induction false} CopiesAreShallow(g: Graph, n: NodeId, names: Path)
    requires n in g && g[n].Dir? && Copies(g, n, 0)
    ensures match Image(g, n, names)
            case Some(DirEntry(mode)) => mode == 0x5E8 && |names| <= 64
            case Some(FileEntry(mode, bytes)) =>
              mode == 0x1A0 && Walk(g, n, names).Some? && g[Walk(g, n, names).value] == File(bytes)
            case Some(LinkEntry(_)) => false
            case None => true
  {
    CopiesReach(g, n, 0, names);
  }

  lemma {:induction false} CopiesReach(g: Graph, n: NodeId, depth: nat, names: Path)
    requires n in g && g[n].Dir? && Copies(g, n, depth)
    ensures WithinReach(g, n, names, depth)
    decreases names
  {
    if names != [] && names[0] in g[n].entries {
      var link := g[n].entries[names[0]];
      assert EntryCopies(g, link, depth);
      if g[link.node].Dir? {
        CopiesReach(g, link.node, depth + 1, names[1..]);
      } else {
        assert names[1..] == [] || Walk(g, link.node, names[1..]) == None;
      }
    }
  }

  lemma {:induction false} ReachCopies(g: Graph, n: NodeId, depth: nat)
    requires n in g && g[n].Dir? && depth <= MAX_DEPTH + 1
    requires forall names: Path :: WithinReach(g, n, names, depth)
    ensures Copies(g, n, depth)
    decreases MAX_DEPTH + 1 - depth
  {
    assert WithinReach(g, n, [], depth);
    forall name | name in g[n].entries
      ensures EntryCopies(g, g[n].entries[name], depth)
    {
      var m := g[n].entries[name].node;
      if g[m].Dir? {
        var deeper := depth + 1;
        forall names: Path
          ensures WithinReach(g, m, names, deeper)
        {
          assert WithinReach(g, n, [name] + names, depth);
          assert ([name] + names)[1..] == names;
        }
        ReachCopies(g, m, deeper);
      }
    }
  }

  /**
   With no refused system call, `copy_tree` succeeds if and only if no
   directory reachable from the source is nested deeper than `MAX_DEPTH` and
   every entry of every one of them resolves into the checkout.
   */
  lemma {:induction false} CopySucceedsIff(g: Graph, n: NodeId)
    requires n in g && g[n].Dir?
    ensures Copies(g, n, 0) <==> forall names: Path :: WithinReach(g, n, names, 0)
  {
    if Copies(g, n, 0) {
      forall names: Path
        ensures WithinReach(g, n, names, 0)
      {
        CopiesReach(g, n, 0, names);
      }
    }
    if forall names: Path :: WithinReach(g, n, names, 0) {
      ReachCopies(g, n, 0);
    }
  }

  // ---- A copied graph has no cycle ----

  /**
   With no refused system call a source is published if and only if it does not
   exist, or leads to a directory of the checkout within reach of the copy.
   */
  lemma {:induction false} SourceIsPublishedIff(g: Graph, source: Source)
    requires SourceIn(g, source)
    ensures SourceCopies(g, source) <==>
            || source.Missing?
            || (&& source.link.Inside? && g[source.link.node].Dir?
                && forall names: Path :: WithinReach(g, source.link.node, names, 0))
  {
    if source.Present? && source.link.Inside? && g[source.link.node].Dir? {
      CopySucceedsIff(g, source.link.node);
    }
  }

  /**
   What a published source holds, name by name: a source that does not exist is an
   empty directory, a directory holds the images of its entries, a file its bytes,
   and anything else is left out.
   */
  lemma {:induction false} SourceImageIs(g: Graph, source: Source, name: string, rest: Path)
    requires SourceIn(g, source)
    ensures source.Missing? ==>
              && SourceImage(g, source, []) == Some(DirEntry(0x5E8))
              && SourceImage(g, source, [name] + rest) == None
    ensures source.Present? && source.link.Inside? ==>
              match g[source.link.node]
              case Dir(entries) =>
                && SourceImage(g, source, []) == Some(DirEntry(0x5E8))
                && SourceImage(g, source, [name] + rest) ==
                   if name in entries then SourceImage(g, Present(entries[name]), rest) else None
              case File(bytes) =>
                && SourceImage(g, source, []) == Some(FileEntry(0x1A0, bytes))
                && SourceImage(g, source, [name] + rest) == None
              case Special =>
                && SourceImage(g, source, []) == None
                && SourceImage(g, source, [name] + rest) == None
  {
    var names := [name] + rest;
    assert names[0] == name && names[1..] == rest;
  }

  lemma {:induction false} WalkAppend(g: Graph, n: NodeId, a: Path, b: Path)
    requires n in g
    ensures Walk(g, n, a + b) == match Walk(g, n, a) case Some(m) => Walk(g, m, b) case None => None
    decreases a
  {
    if a == [] {
      assert a + b == b;
    } else {
      assert (a + b)[0] == a[0] && (a + b)[1..] == a[1..] + b;
      if g[n].Dir? && a[0] in g[n].entries && g[n].entries[a[0]].Inside? {
        WalkAppend(g, g[n].entries[a[0]].node, a[1..], b);
      }
    }
  }

  function Repeat(names: Path, k: nat): (r: Path)
    ensures |r| == k * |names|
  {
    if k == 0 then [] else names + Repeat(names, k - 1)
  }

  lemma {:induction false} WalkRound(g: Graph, n: NodeId, names: Path, k: nat)
    requires n in g && Walk(g, n, names) == Some(n)
    ensures Walk(g, n, Repeat(names, k)) == Some(n)
  {
    if k > 0 {
      WalkRound(g, n, names, k - 1);
      WalkAppend(g, n, names, Repeat(names, k - 1));
    }
  }

  /** A source that was copied has no cycle: no directory reachable from it leads back to itself. */
  lemma {:induction false} CopiedGraphIsAcyclic(g: Graph, n: NodeId, there: Path, round: Path)
    requires n in g && g[n].Dir? && Copies(g, n, 0)
    requires Walk(g, n, there).Some? && round != []
    ensures Walk(g, Walk(g, n, there).value, round) != Walk(g, n, there)
  {
    var m := Walk(g, n, there).value;
    if Walk(g, m, round) == Some(m) {
      WalkRound(g, m, round, MAX_DEPTH + 1);
      WalkAppend(g, n, there, Repeat(round, MAX_DEPTH + 1));
      CopiesReach(g, n, 0, there + Repeat(round, MAX_DEPTH + 1));
    }
  }
}
