/**
 How a static site is replaced (crates/riku-nginx/src/static_site.rs): a new copy
 is staged beside the old one and swapped in by one rename of a link.

 The static root is one tree of entries. `<app>` is a link to the current copy
 `<app>~<stamp>`; `<app>~link` is the link about to be renamed over it.
 */
module StaticSite {
  import opened Wrappers
  import opened Text
  import opened StaticCopy
  import RouteGate

  // ---- The static path mappings ----

  const STATIC_PATHS_KEY := "RIKU_NGINX_STATIC_PATHS"

  datatype StaticPath = StaticPath(location: string, source: string)

  function ParseMapping(mapping: string): Option<StaticPath> {
    var sides := Split(mapping, ":");
    if |sides| == 2 && Trim(sides[0]) != "" && Trim(sides[1]) != ""
    then Some(StaticPath(Trim(sides[0]), Trim(sides[1])))
    else None
  }

  function ParseMappings(mappings: seq<string>): seq<StaticPath> {
    if mappings == [] then []
    else
      match ParseMapping(mappings[0])
      case Some(path) => [path] + ParseMappings(mappings[1..])
      case None => ParseMappings(mappings[1..])
  }

  /** A mapping is read as what stands before and after its one colon, without blanks around them. */
  lemma {:induction false} MappingReads(location: string, source: string)
    requires ':' !in location && ':' !in source
    ensures ParseMapping(location + ":" + source) ==
            if Trim(location) == "" || Trim(source) == "" then None else Some(StaticPath(Trim(location), Trim(source)))
  {
    var mapping := location + ":" + source;
    FindAfter(location, ":", source);
    FindNothing(source, ":");
    assert Split(mapping, ":") == [location] + Split(source, ":");
  }

  predicate IsMapping(mapping: string, location: string, source: string) {
    && mapping == location + ":" + source && ':' !in location && ':' !in source
    && Trim(location) != "" && Trim(source) != ""
  }

  /** Every mapping that is read has exactly one colon with something on both sides. */
  lemma {:induction false} MappingsHaveOneColon(mapping: string)
    ensures ParseMapping(mapping).Some? <==> exists location, source :: IsMapping(mapping, location, source)
  {
    if ParseMapping(mapping).Some? {
      var sides := Split(mapping, ":");
      JoinSplit(mapping, ":");
      SplitHasNone(mapping, ':');
      assert sides[0] in sides && sides[1] in sides;
      assert sides[1..] == [sides[1]];
      assert Join(sides, ":") == sides[0] + ":" + Join(sides[1..], ":");
      assert IsMapping(mapping, sides[0], sides[1]);
    }
    if location, source :| IsMapping(mapping, location, source) {
      MappingReads(location, source);
    }
  }

  lemma {:induction false} SplitHasNone(s: string, c: char)
    ensures forall part <- Split(s, [c]) :: c !in part
  {
    match Find(s, [c])
    case Some(i) =>
      FirstHit(s, c);
      SplitHasNone(s[i + 1..], c);
    case None =>
      NoHit(s, c);
  }

  /** The mappings among some entries, in order. */
  function Mappings(entries: seq<string>): seq<StaticPath> {
    if entries == [] then []
    else
      var n := |entries| - 1;
      match ParseMapping(entries[n])
      case Some(path) => Mappings(entries[..n]) + [path]
      case None => Mappings(entries[..n])
  }

  lemma {:induction false} MappingsFromTheFront(entries: seq<string>)
    ensures ParseMappings(entries) == Mappings(entries)
  {
    hide ParseMapping;
    if entries != [] {
      var n := |entries| - 1;
      MappingsFromTheFront(entries[..n]);
      ParseMappingsAppend(entries[..n], entries[n]);
      assert entries[..n] + [entries[n]] == entries;
    }
  }

  lemma {:induction false} ParseMappingsAppend(entries: seq<string>, last: string)
    ensures ParseMappings(entries + [last]) ==
            ParseMappings(entries) + match ParseMapping(last) case Some(path) => [path] case None => []
  {
    hide ParseMapping;
    if entries != [] {
      assert (entries + [last])[1..] == entries[1..] + [last];
      ParseMappingsAppend(entries[1..], last);
    } else {
      assert entries + [last] == [last];
    }
  }

  /** The setting is read as its comma separated entries, of which the mappings count, in order. */
  lemma {:induction false} SettingReads(env: map<string, string>, entries: seq<string>)
    requires entries != [] && forall each <- entries :: ',' !in each
    requires "RIKU_NGINX_STATIC_PATHS" in env && env["RIKU_NGINX_STATIC_PATHS"] == Join(entries, ",")
    ensures StaticPaths(env) == Mappings(entries)
  {
    SplitJoin(entries, ",");
    MappingsFromTheFront(entries);
  }

  /** The well formed `location:source` entries, in order. */
  function StaticPaths(env: map<string, string>): seq<StaticPath> {
    if STATIC_PATHS_KEY in env then ParseMappings(Split(env[STATIC_PATHS_KEY], ",")) else []
  }

  /** The locations of the mappings, in the order their copies are numbered. */
  function StaticLocations(env: map<string, string>): (locations: seq<string>)
    ensures |locations| == |StaticPaths(env)|
    ensures forall i | 0 <= i < |locations| :: locations[i] == StaticPaths(env)[i].location
  {
    seq(|StaticPaths(env)|, i requires 0 <= i < |StaticPaths(env)| => StaticPaths(env)[i].location)
  }

  // ---- What a published copy holds ----

  /** The number below `k` whose decimal text is `name`. */
  function Numbered(name: string, k: nat): (i: Option<nat>)
    ensures i.Some? ==> i.value < k && Decimal(i.value) == name
  {
    if k == 0 then None
    else if Decimal(k - 1) == name then Some(k - 1)
    else Numbered(name, k - 1)
  }

  lemma {:induction false} NumberedDecimal(n: nat, k: nat)
    ensures Numbered(Decimal(n), k) == if n < k then Some(n) else None
  {
    if k > 0 {
      NumberedDecimal(n, k - 1);
      if Decimal(k - 1) == Decimal(n) {
        DecimalInjective(k - 1, n);
      }
    }
  }

  ghost predicate SourcesIn(g: Graph, root: Option<Source>, sources: seq<Source>) {
    && (root.Some? ==> SourceIn(g, root.value))
    && forall i | 0 <= i < |sources| :: SourceIn(g, sources[i])
  }

  /** Every source can be copied. */
  ghost predicate AllCopy(g: Graph, root: Option<Source>, sources: seq<Source>)
    requires SourcesIn(g, root, sources)
  {
    && (root.Some? ==> SourceCopies(g, root.value))
    && forall i | 0 <= i < |sources| :: SourceCopies(g, sources[i])
  }

  /** The entry at `names` of a copy: `root` for the document root and `paths/<n>` for the n-th source. */
  ghost function StageImage(g: Graph, root: Option<Source>, sources: seq<Source>, paths: bool, names: Path)
    : Option<Entry>
    requires SourcesIn(g, root, sources)
  {
    if names == [] then Some(DirEntry(DIR_MODE))
    else if names[0] == "root" then
      if root.Some? then SourceImage(g, root.value, names[1..]) else None
    else if names[0] == "paths" && paths then
      if |names| == 1 then Some(DirEntry(DIR_MODE))
      else
        match Numbered(names[1], |sources|)
        case Some(i) => SourceImage(g, sources[i], names[2..])
        case None => None
    else None
  }

  /** What nginx finds at `names` under `<static root>/<app>`. */
  function Seen(tree: Tree, app: string, names: Path): Option<Entry> {
    match At(tree, [app])
    case Some(LinkEntry(target)) => At(tree, [target] + names)
    case _ => At(tree, [app] + names)
  }

  ghost predicate SeenAs(now: Tree, before: Tree, app: string) {
    forall names: Path :: Seen(now, app, names) == Seen(before, app, names)
  }

  /** nginx finds the whole new copy. */
  ghost predicate Serves(tree: Tree, app: string, g: Graph, root: Option<Source>, sources: seq<Source>)
    requires SourcesIn(g, root, sources)
  {
    forall names: Path :: Seen(tree, app, names) == StageImage(g, root, sources, sources != [], names)
  }

  // ---- Whose entry is it ----

  function Stage(app: string, stamp: nat): string { app + "~" + Decimal(stamp) }

  function NextLink(app: string): string { app + "~link" }

  /** The names of `app` in the static root. */
  predicate Owns(app: string, name: string) { name == app || StartsWith(name, app + "~") }

  ghost predicate OthersKept(now: Tree, before: Tree, app: string) {
    forall path: Path | path == [] || !Owns(app, path[0]) :: At(now, path) == At(before, path)
  }

  /** The part of a name before its first `~`. */
  function AppPart(name: string): string {
    match Find(name, "~")
    case Some(i) => name[..i]
    case None => name
  }

  lemma {:induction false} OwnedNamesSayTheirApp(app: string, name: string)
    requires '~' !in app && Owns(app, name)
    ensures AppPart(name) == app
  {
    if name == app {
      FindNothing(app, "~");
    } else {
      var rest := name[|app| + 1..];
      assert name == app + "~" + rest;
      FindAfter(app, "~", rest);
    }
  }

  /** A name in the static root has at most one app as its owner. */
  lemma {:induction false} AppsOwnDifferentNames(app: string, other: string, name: string)
    requires '~' !in app && '~' !in other && app != other
    ensures !(Owns(app, name) && Owns(other, name))
  {
    if Owns(app, name) {
      OwnedNamesSayTheirApp(app, name);
      if Owns(other, name) {
        OwnedNamesSayTheirApp(other, name);
      }
    }
  }

  lemma {:induction false} StageNames(app: string, stamp: nat)
    ensures Stage(app, stamp) != app && Stage(app, stamp) != NextLink(app) && NextLink(app) != app
    ensures Owns(app, Stage(app, stamp)) && Owns(app, NextLink(app))
  {
    var digits := Decimal(stamp);
    assert |Stage(app, stamp)| > |app| && |NextLink(app)| > |app|;
    assert (app + "~") <= Stage(app, stamp);
    assert (app + "~") <= NextLink(app) by {
      assert NextLink(app)[..|app| + 1] == app + "~";
    }
    assert Stage(app, stamp)[|app| + 1] == digits[0] && digits[0] in digits;
    assert NextLink(app)[|app| + 1] == 'l';
  }

  lemma {:induction false} EmptyStage(tree: Tree, g: Graph, stage: string)
    requires At(tree, [stage]) == Some(DirEntry(DIR_MODE))
    requires forall path: Path | [stage] < path :: path !in tree
    ensures forall path: Path | [stage] <= path ::
              At(tree, path) == StageImage(g, None, [], false, path[1..])
  {
    forall path: Path | [stage] <= path
      ensures At(tree, path) == StageImage(g, None, [], false, path[1..])
    {
      assert path == [stage] <==> path[1..] == [];
    }
  }

  // ---- What an operation may do ----

  /** A publish or a removal of an app's static files, with its outcome. */
  datatype Event =
    | Publish(app: string, graph: Graph, root: Option<Source>, sources: seq<Source>, stamp: nat, ok: bool)
    | Remove(app: string, ok: bool)

  ghost predicate WellFormed(event: Event) {
    event.Publish? ==> SourcesIn(event.graph, event.root, event.sources)
  }

  /** The entry of `app` is gone, or it is there still and nothing else has changed. */
  ghost predicate KeptOrGone(now: Tree, before: Tree, app: string) {
    && (At(now, [app]) == None ||
        (At(now, [app]) == At(before, [app]) &&
         forall path: Path | path == [] || path[0] != app :: At(now, path) == At(before, path)))
    && forall path: Path | [app] < path && path in now :: path in before
  }

  ghost predicate Published(before: Tree, event: Event, after: Tree)
    requires event.Publish? && WellFormed(event)
  {
    var stage := Stage(event.app, event.stamp);
    && OthersKept(after, before, event.app)
    && (!IsDirectory(before, event.app) ==> OldOrNewLink(after, before, event.app, stage))
    && (!IsDirectory(before, event.app) && LinkApart(before, event.app, stage) ==>
          || (SeenAs(after, before, event.app) && At(after, [event.app]) == At(before, [event.app]))
          || Serves(after, event.app, event.graph, event.root, event.sources))
    && (event.ok ==>
          && Serves(after, event.app, event.graph, event.root, event.sources)
          && At(after, [event.app]) == Some(LinkEntry(stage)))
  }

  ghost predicate Removed(before: Tree, app: string, ok: bool, after: Tree) {
    && OthersKept(after, before, app)
    && (!IsDirectory(before, app) ==> KeptOrGone(after, before, app))
    && (ok ==> forall path: Path | [app] <= path :: path !in after)
  }

  /** What one operation may do to the static root. */
  ghost predicate Step(before: Tree, event: Event, after: Tree)
    requires WellFormed(event)
  {
    if event.Publish? && Publishes(event.root, event.sources) then Published(before, event, after)
    else Removed(before, event.app, event.ok, after)
  }

  // ---- Publishing ----

  class Publisher {
    const disk: StaticRoot

    constructor (disk: StaticRoot)
      ensures this.disk == disk
    {
      this.disk := disk;
    }

    /** Copies the document root and every mapping's source into a new stage directory. */
    method CopySources(root: Option<Source>, sources: seq<Source>, stage: string) returns (ok: bool)
      requires SourcesIn(disk.graph, root, sources)
      requires [stage] !in disk.tree ==> disk.Vacant([stage])
      modifies disk
      ensures disk.OnlyBelow([stage], old(disk.trace), old(disk.tree))
      ensures ok ==> Staged(stage, root, sources, sources != []) && AllCopy(disk.graph, root, sources)
      ensures disk.faults >= old(disk.faults)
      ensures [stage] in old(disk.tree) ==>
                !ok && disk.tree == old(disk.tree) && disk.trace == old(disk.trace) && disk.faults == old(disk.faults)
      ensures disk.faults == old(disk.faults) && [stage] !in old(disk.tree) ==>
                (ok <==> AllCopy(disk.graph, root, sources))
    {
      assert [stage] <= [stage];
      if [stage] in disk.tree {
        return false;
      }
      ok := disk.MakeDir([stage]);
      if !ok {
        return;
      }
      EmptyStage(disk.tree, disk.graph, stage);
      hide StageImage, SourceCopies;
      if root.Some? {
        ok := CopyRoot(root.value, stage);
        if !ok {
          return;
        }
      }
      if sources == [] {
        return;
      }
      assert Staged(stage, root, [], false);
      ok := MakePaths(root, stage);
      if !ok {
        return;
      }
      ok := CopyMapped(root, sources, stage);
    }

    /** Copies the mapped sources, numbered in order, into a stage that holds the document root. */
    method CopyMapped(root: Option<Source>, sources: seq<Source>, stage: string) returns (ok: bool)
      requires SourcesIn(disk.graph, root, sources) && Staged(stage, root, [], true)
      requires AllCopy(disk.graph, root, [])
      modifies disk
      ensures disk.OnlyBelow([stage], old(disk.trace), old(disk.tree))
      ensures ok ==> Staged(stage, root, sources, true) && AllCopy(disk.graph, root, sources)
      ensures disk.faults >= old(disk.faults)
      ensures disk.faults == old(disk.faults) ==> (ok <==> AllCopy(disk.graph, root, sources))
    {
      hide StageImage, SourceCopies;
      for i := 0 to |sources|
        invariant disk.OnlyBelow([stage], old(disk.trace), old(disk.tree))
        invariant Staged(stage, root, sources[..i], true)
        invariant disk.faults >= old(disk.faults)
        invariant AllCopy(disk.graph, root, sources[..i])
      {
        ok := CopyNth(root, sources, i, stage);
        if !ok {
          return;
        }
      }
      assert sources[..|sources|] == sources;
      return true;
    }

    /** At and below `stage` is exactly the image of the given sources. */
    ghost predicate Staged(stage: string, root: Option<Source>, sources: seq<Source>, paths: bool)
      requires SourcesIn(disk.graph, root, sources)
      reads disk
    {
      forall path: Path | [stage] <= path ::
        At(disk.tree, path) == StageImage(disk.graph, root, sources, paths, path[1..])
    }

    method CopyRoot(source: Source, stage: string) returns (ok: bool)
      requires SourceIn(disk.graph, source) && Staged(stage, None, [], false)
      modifies disk
      ensures disk.OnlyBelow([stage], old(disk.trace), old(disk.tree))
      ensures ok ==> Staged(stage, Some(source), [], false) && SourceCopies(disk.graph, source)
      ensures disk.faults >= old(disk.faults)
      ensures disk.faults == old(disk.faults) ==> (ok <==> SourceCopies(disk.graph, source))
    {
      var dest := [stage, "root"];
      ghost var before := disk.tree;
      assert disk.Vacant(dest) by {
        forall path: Path | dest <= path
          ensures path !in disk.tree
        {
          assert [stage] <= path && path[1..][0] == path[1] == "root";
        }
      }
      ok := disk.CopySource(source, dest);
      assert forall path: Path {:trigger At(disk.tree, path)} | !([stage] <= path) :: !(dest <= path);
      if ok {
        forall path: Path | [stage] <= path
          ensures At(disk.tree, path) == StageImage(disk.graph, Some(source), [], false, path[1..])
        {
          assert |path| >= 2 && path[1] == "root" ==> dest <= path;
          if dest <= path {
            assert path[1..][0] == "root" && path[1..][1..] == path[2..];
          } else {
            assert At(disk.tree, path) == At(before, path);
          }
        }
      }
    }

    method MakePaths(root: Option<Source>, stage: string) returns (ok: bool)
      requires SourcesIn(disk.graph, root, [])
      requires Staged(stage, root, [], false)
      modifies disk
      ensures disk.OnlyBelow([stage], old(disk.trace), old(disk.tree))
      ensures ok ==> Staged(stage, root, [], true)
      ensures disk.faults >= old(disk.faults) && (ok <==> disk.faults == old(disk.faults))
    {
      var dest := [stage, "paths"];
      ghost var before := disk.tree;
      assert [stage] <= dest && dest[1..] == ["paths"];
      assert At(disk.tree, dest) == None;
      ok := disk.MakeDir(dest);
      assert forall path: Path {:trigger At(disk.tree, path)} | !([stage] <= path) :: !(dest <= path);
      if ok {
        forall path: Path | [stage] <= path
          ensures At(disk.tree, path) == StageImage(disk.graph, root, [], true, path[1..])
        {
          assert path == dest <==> path[1..] == ["paths"];
          if path != dest {
            assert At(disk.tree, path) == At(before, path);
          }
        }
      }
    }

    method CopyNth(root: Option<Source>, sources: seq<Source>, i: nat, stage: string) returns (ok: bool)
      requires SourcesIn(disk.graph, root, sources)
      requires i < |sources| && Staged(stage, root, sources[..i], true)
      modifies disk
      ensures disk.OnlyBelow([stage], old(disk.trace), old(disk.tree))
      ensures ok ==> Staged(stage, root, sources[..i + 1], true) && SourceCopies(disk.graph, sources[i])
      ensures disk.faults >= old(disk.faults)
      ensures disk.faults == old(disk.faults) ==> (ok <==> SourceCopies(disk.graph, sources[i]))
    {
      var dest := [stage, "paths", Decimal(i)];
      ghost var before := disk.tree;
      assert disk.Vacant(dest) by {
        forall path: Path | dest <= path
          ensures path !in disk.tree
        {
          NumberedDecimal(i, i);
          assert [stage] <= path && path[1..][0] == "paths" && path[1..][1] == Decimal(i);
        }
      }
      ok := disk.CopySource(sources[i], dest);
      assert forall path: Path {:trigger At(disk.tree, path)} | !([stage] <= path) :: !(dest <= path);
      if ok {
        forall path: Path | [stage] <= path
          ensures At(disk.tree, path) == StageImage(disk.graph, root, sources[..i + 1], true, path[1..])
        {
          assert |path| >= 3 && path[1] == "paths" && path[2] == Decimal(i) ==> dest <= path;
          if dest <= path {
            NumberedDecimal(i, i + 1);
            assert path[1..][0] == "paths" && path[1..][1] == Decimal(i) && path[1..][2..] == path[3..];
          } else {
            assert At(disk.tree, path) == At(before, path);
            if |path| > 2 && path[1] == "paths" {
              assert Numbered(path[2], i + 1) == Numbered(path[2], i);
            }
          }
        }
      }
    }

    /** Empties a name of the static root, in any order of what is below it. */
    method RemoveEntry(name: string) returns (ok: bool)
      modifies disk
      ensures disk.OnlyBelow([name], old(disk.trace), old(disk.tree))
      ensures ok ==> disk.Vacant([name])
      ensures forall path | path in disk.tree :: path in old(disk.tree) && disk.tree[path] == old(disk.tree)[path]
      ensures disk.tree == old(disk.tree) || (disk.trace != [] && disk.trace[|disk.trace| - 1] == disk.tree)
      ensures disk.faults >= old(disk.faults) && (ok <==> disk.faults == old(disk.faults))
    {
      ok := *;
      if !ok {
        disk.faults := disk.faults + 1;
        return;
      }
      var below := set path | path in disk.tree && [name] <= path;
      assert forall path | [name] <= path && path in disk.tree :: path in below;
      if below == {} {
        return;
      }
      var steps: nat :| steps >= 0;
      for i := 0 to steps
        invariant disk.OnlyBelow([name], old(disk.trace), old(disk.tree))
        invariant disk.faults == old(disk.faults)
        invariant disk.tree == old(disk.tree) || (disk.trace != [] && disk.trace[|disk.trace| - 1] == disk.tree)
        invariant forall path | path in disk.tree :: path in old(disk.tree) && disk.tree[path] == old(disk.tree)[path]
        invariant forall path | [name] <= path && path in disk.tree :: path in below
      {
        var gone: set<Path> :| gone <= below;
        disk.tree := disk.tree - gone;
        disk.trace := disk.trace + [disk.tree];
      }
      ok := *;
      if !ok {
        disk.faults := disk.faults + 1;
        return;
      }
      disk.tree := disk.tree - below;
      disk.trace := disk.trace + [disk.tree];
    }

    /** Every state since `from` differs from `before` only in copies of `app` other than `keep`. */
    ghost predicate OnlyCopies(app: string, keep: Option<string>, from: seq<Tree>, before: Tree)
      reads disk
    {
      && CopiesDiffer(disk.tree, before, app, keep)
      && from <= disk.trace
      && forall i | |from| <= i < |disk.trace| :: CopiesDiffer(disk.trace[i], before, app, keep)
    }

    /** Clears the app's copies but the one to keep; a name the listing fails on is passed over. */
    method RemoveCopies(app: string, keep: Option<string>) returns (ok: bool)
      modifies disk
      ensures OnlyCopies(app, keep, old(disk.trace), old(disk.tree))
      ensures disk.faults >= old(disk.faults) && (disk.faults == old(disk.faults) ==> ok)
      ensures disk.faults == old(disk.faults) ==> forall path | path in disk.tree :: !IsCopy(app, keep, path)
    {
      ok := *;
      if !ok {
        disk.faults := disk.faults + 1;
        return;
      }
      var listed := set path | path in disk.tree && path != [] :: path[0];
      var left := listed;
      while left != {}
        invariant left <= listed
        invariant OnlyCopies(app, keep, old(disk.trace), old(disk.tree))
        invariant disk.faults >= old(disk.faults)
        invariant forall path | path in disk.tree && path != [] :: path[0] in listed
        invariant disk.faults == old(disk.faults) ==>
                    forall path | path in disk.tree && path != [] && path[0] !in left :: !IsCopy(app, keep, path)
        decreases left
      {
        var name :| name in left;
        left := left - {name};
        var unlisted: bool := *;
        if unlisted {
          disk.faults := disk.faults + 1;
        } else if StartsWith(name, app + "~") && keep != Some(name) {
          ghost var before := disk.tree;
          var removed := RemoveEntry(name);
          forall path: Path | !([name] <= path)
            ensures At(disk.tree, path) == At(before, path)
          {
          }
          if !removed {
            return false;
          }
          forall path | path in disk.tree && path != []
            ensures path[0] in listed && path[0] != name && path in before
          {
            assert path[0] == name ==> [name] <= path;
            assert At(disk.tree, path) == At(before, path);
          }
        }
      }
      return true;
    }

    /** Makes the link that is about to be renamed over `<app>`. */
    method MakeNextLink(app: string, stage: string) returns (ok: bool)
      modifies disk
      ensures disk.OnlyBelow([NextLink(app)], old(disk.trace), old(disk.tree))
      ensures ok ==> At(disk.tree, [NextLink(app)]) == Some(LinkEntry(stage))
      ensures ok ==> disk.trace != [] && disk.trace[|disk.trace| - 1] == disk.tree
      ensures disk.faults >= old(disk.faults) && (ok <==> disk.faults == old(disk.faults))
    {
      var next := NextLink(app);
      ok := RemoveEntry(next);
      if !ok {
        return;
      }
      ok := disk.Put([next], LinkEntry(stage));
    }

    /** The rename itself, which cannot replace a directory. */
    method RenameLink(app: string, stage: string) returns (ok: bool)
      requires At(disk.tree, [NextLink(app)]) == Some(LinkEntry(stage))
      modifies disk
      ensures disk.tree == if ok then (old(disk.tree) - {[NextLink(app)]})[[app] := LinkEntry(stage)] else old(disk.tree)
      ensures disk.trace == if ok then old(disk.trace) + [disk.tree] else old(disk.trace)
      ensures IsDirectory(old(disk.tree), app) ==> !ok
      ensures disk.faults == old(disk.faults) + if ok || IsDirectory(old(disk.tree), app) then 0 else 1
    {
      if IsDirectory(disk.tree, app) {
        return false;
      }
      ok := *;
      if !ok {
        disk.faults := disk.faults + 1;
        return;
      }
      disk.tree := (disk.tree - {[NextLink(app)]})[[app] := LinkEntry(stage)];
      disk.trace := disk.trace + [disk.tree];
    }

    ghost predicate SwapStates(app: string, stage: string, from: seq<Tree>, before: Tree)
      reads disk
    {
      && SwapState(disk.tree, before, app, stage)
      && from <= disk.trace
      && forall i | |from| <= i < |disk.trace| :: SwapState(disk.trace[i], before, app, stage)
    }

    /** The swap: one step makes the stage current, all others are unseen by nginx. */
    method SwapIn(app: string, stage: string) returns (ok: bool)
      requires StartsWith(stage, app + "~") && stage != NextLink(app)
      modifies disk
      ensures SwapStates(app, stage, old(disk.trace), old(disk.tree))
      ensures ok ==> At(disk.tree, [app]) == Some(LinkEntry(stage))
      ensures disk.faults >= old(disk.faults) && (disk.faults == old(disk.faults) ==> ok)
      ensures disk.faults == old(disk.faults) ==>
                forall path | path in disk.tree :: !IsCopy(app, Some(stage), path)
    {
      ghost var before := disk.tree;
      ok := MakeNextLink(app, stage);
      LinkStates(app, stage, old(disk.trace), before);
      if !ok {
        return;
      }
      ghost var linked, seen := disk.tree, disk.trace;
      NextLinkIsApart(app);
      if IsDirectory(disk.tree, app) {
        ok := RemoveEntry(app);
        LegacyStates(app, stage, old(disk.trace), seen, linked, before);
        if !ok {
          return;
        }
      }
      ghost var ready := disk.tree;
      assert !IsDirectory(disk.tree, app) by {
        assert [app] <= [app];
      }
      ok := RenameLink(app, stage);
      if !ok {
        return;
      }
      SwapStateIsSwapped(disk.tree, ready, before, app, stage);
      ghost var swapped, seen' := disk.tree, disk.trace;
      ok := RemoveCopies(app, Some(stage));
      SwappedStates(app, stage, old(disk.trace), seen', swapped, before);
    }

    /** Every state since `from` leaves the entries of other apps as they were. */
    ghost predicate OthersUntouched(app: string, from: seq<Tree>, before: Tree)
      reads disk
    {
      && OthersKept(disk.tree, before, app)
      && from <= disk.trace
      && forall i | |from| <= i < |disk.trace| :: OthersKept(disk.trace[i], before, app)
    }

    /** Removes the published files of `app`, if any: the link first, then every copy. */
    method RemoveStatic(app: string) returns (ok: bool)
      modifies disk
      ensures OthersUntouched(app, old(disk.trace), old(disk.tree))
      ensures Step(old(disk.tree), Remove(app, ok), disk.tree)
      ensures ok ==> disk.Vacant([app])
      ensures disk.faults >= old(disk.faults) && (disk.faults == old(disk.faults) ==> ok)
      ensures disk.faults == old(disk.faults) ==>
                forall path | path in disk.tree && path != [] :: !Owns(app, path[0])
    {
      NextLinkIsApart(app);
      ghost var before := disk.tree;
      ok := RemoveEntry(app);
      assert OthersUntouched(app, old(disk.trace), before) by {
        assert forall path: Path | path == [] || !Owns(app, path[0]) :: !([app] <= path);
      }
      if !ok {
        assert KeptOrGone(disk.tree, before, app) by {
          assert forall path: Path | path == [] || path[0] != app :: !([app] <= path);
        }
        return;
      }
      ghost var unlinked, seen := disk.tree, disk.trace;
      ok := RemoveCopies(app, None);
      forall path: Path | path == [] || !Owns(app, path[0])
        ensures !IsCopy(app, None, path) && At(disk.tree, path) == At(before, path)
      {
      }
      forall i | |seen| <= i < |disk.trace|
        ensures OthersKept(disk.trace[i], before, app)
      {
        forall path: Path | path == [] || !Owns(app, path[0])
          ensures At(disk.trace[i], path) == At(before, path)
        {
          assert !IsCopy(app, None, path);
          assert At(disk.trace[i], path) == At(unlinked, path);
        }
      }
      forall path: Path | [app] <= path
        ensures path !in disk.tree
      {
        assert !IsCopy(app, None, path);
        assert At(disk.tree, path) == At(unlinked, path);
      }
      if disk.faults == old(disk.faults) {
        forall path | path in disk.tree && path != []
          ensures !Owns(app, path[0])
        {
          assert path[0] == app ==> [app] <= path;
          assert !IsCopy(app, None, path);
        }
      }
    }

    /** Every state since `from` shows the app's old files or all of its new ones. */
    ghost predicate OldOrNew(
      app: string, root: Option<Source>, sources: seq<Source>, from: seq<Tree>, before: Tree)
      requires SourcesIn(disk.graph, root, sources)
      reads disk
    {
      && (SeenAs(disk.tree, before, app) || Serves(disk.tree, app, disk.graph, root, sources))
      && forall i | |from| <= i < |disk.trace| ::
           SeenAs(disk.trace[i], before, app) || Serves(disk.trace[i], app, disk.graph, root, sources)
    }

    /**
     Publishes the given sources, or removes the app's files when it serves none.
     At every step nginx finds the old files or all of the new ones, and no other
     app's entries change. A stamp that is taken already fails the publish, and
     the clean-up then removes whatever has it.
     */
    method PublishStatic(app: string, root: Option<Source>, sources: seq<Source>, stamp: nat) returns (ok: bool)
      requires SourcesIn(disk.graph, root, sources)
      requires [Stage(app, stamp)] !in disk.tree ==> disk.Vacant([Stage(app, stamp)])
      modifies disk
      ensures OthersUntouched(app, old(disk.trace), old(disk.tree))
      ensures Step(old(disk.tree), Publish(app, disk.graph, root, sources, stamp, ok), disk.tree)
      ensures Publishes(root, sources) && !IsDirectory(old(disk.tree), app)
              && LinkApart(old(disk.tree), app, Stage(app, stamp)) ==>
                OldOrNew(app, root, sources, old(disk.trace), old(disk.tree))
      ensures Publishes(root, sources) && ok ==>
                && AllCopy(disk.graph, root, sources) && Serves(disk.tree, app, disk.graph, root, sources)
                && At(disk.tree, [app]) == Some(LinkEntry(Stage(app, stamp)))
      ensures Publishes(root, sources)
              && (!AllCopy(disk.graph, root, sources) || [Stage(app, stamp)] in old(disk.tree)) ==>
                !ok && SameOutside(disk.tree, old(disk.tree), [Stage(app, stamp)])
      ensures disk.faults >= old(disk.faults)
      ensures disk.faults == old(disk.faults) && Publishes(root, sources) ==>
                (ok <==> AllCopy(disk.graph, root, sources) && [Stage(app, stamp)] !in old(disk.tree))
      ensures disk.faults == old(disk.faults) && Publishes(root, sources)
              && At(old(disk.tree), [Stage(app, stamp)]).Some? && !old(disk.tree)[[Stage(app, stamp)]].FileEntry? ==>
                disk.Vacant([Stage(app, stamp)])
      ensures disk.faults == old(disk.faults) && ok ==>
                OnlyEntries(disk.tree, app, if Publishes(root, sources) then {app, Stage(app, stamp)} else {})
    {
      ghost var before := disk.tree;
      if !Publishes(root, sources) {
        ok := RemoveStatic(app);
        return;
      }
      ok := *;
      if !ok {
        disk.faults := disk.faults + 1;
        return;
      }
      var stage := Stage(app, stamp);
      StageNames(app, stamp);
      ok := CopySources(root, sources, stage);
      if !ok {
        ghost var copied, seen := disk.tree, disk.trace;
        CleanUp(stage);
        StageStates(app, root, sources, stage, old(disk.trace), seen, copied, before);
        return false;
      }
      StageStates(app, root, sources, stage, old(disk.trace), disk.trace, disk.tree, before);
      ghost var staged, seen := disk.tree, disk.trace;
      assert Staged(stage, root, sources, sources != []);
      ok := SwapIn(app, stage);
      PublishedStates(app, root, sources, stage, old(disk.trace), seen, staged, before);
      if ok || At(disk.tree, [app]) == Some(LinkEntry(stage)) {
        SeesTheStage(disk.tree, staged, app, root, sources, stage);
      }
      if disk.faults == old(disk.faults) {
        forall path | path in disk.tree && path != [] && Owns(app, path[0])
          ensures path[0] in {app, stage}
        {
          assert !IsCopy(app, Some(stage), path);
        }
      }
    }

    /** Removes the stage of a failed copy, unless a file has its name. */
    method CleanUp(stage: string)
      modifies disk
      ensures disk.OnlyBelow([stage], old(disk.trace), old(disk.tree))
      ensures disk.faults >= old(disk.faults)
      ensures disk.faults == old(disk.faults)
              && At(old(disk.tree), [stage]).Some? && !old(disk.tree)[[stage]].FileEntry? ==>
                disk.Vacant([stage])
    {
      if [stage] in disk.tree && disk.tree[[stage]].FileEntry? {
        return;
      }
      var _ := RemoveEntry(stage);
    }

    lemma {:induction false} LinkStates(app: string, stage: string, from: seq<Tree>, before: Tree)
      requires StartsWith(stage, app + "~") && stage != NextLink(app)
      requires disk.OnlyBelow([NextLink(app)], from, before)
      ensures SwapStates(app, stage, from, before)
    {
      LinkStateIsSwapState(disk.tree, before, app, stage);
      forall i | |from| <= i < |disk.trace|
        ensures SwapState(disk.trace[i], before, app, stage)
      {
        LinkStateIsSwapState(disk.trace[i], before, app, stage);
      }
    }

    lemma {:induction false} LegacyStates(
        app: string, stage: string, from: seq<Tree>, seen: seq<Tree>, linked: Tree, before: Tree)
      requires StartsWith(stage, app + "~") && stage != NextLink(app)
      requires SwapState(linked, before, app, stage) && SameOutside(linked, before, [NextLink(app)])
      requires IsDirectory(linked, app) && disk.OnlyBelow([app], seen, linked)
      requires from <= seen && forall i | |from| <= i < |seen| :: SwapState(seen[i], before, app, stage)
      ensures SwapStates(app, stage, from, before)
    {
      LegacyStateIsSwapState(disk.tree, linked, before, app, stage);
      forall i | |from| <= i < |disk.trace|
        ensures SwapState(disk.trace[i], before, app, stage)
      {
        if i < |seen| {
          assert disk.trace[i] == seen[i];
        } else {
          LegacyStateIsSwapState(disk.trace[i], linked, before, app, stage);
        }
      }
    }

    lemma {:induction false} SwappedStates(
        app: string, stage: string, from: seq<Tree>, seen: seq<Tree>, swapped: Tree, before: Tree)
      requires StartsWith(stage, app + "~") && stage != NextLink(app)
      requires Swapped(swapped, before, app, stage) && OnlyCopies(app, Some(stage), seen, swapped)
      requires from <= seen && forall i | |from| <= i < |seen| :: SwapState(seen[i], before, app, stage)
      ensures SwapStates(app, stage, from, before)
      ensures At(disk.tree, [app]) == Some(LinkEntry(stage))
    {
      CopiesGoneIsSwapped(disk.tree, swapped, before, app, stage);
      forall i | |from| <= i < |disk.trace|
        ensures SwapState(disk.trace[i], before, app, stage)
      {
        if i < |seen| {
          assert disk.trace[i] == seen[i];
        } else {
          CopiesGoneIsSwapped(disk.trace[i], swapped, before, app, stage);
        }
      }
    }

    lemma {:induction false} StageStates(
        app: string, root: Option<Source>, sources: seq<Source>, stage: string,
        from: seq<Tree>, seen: seq<Tree>, copied: Tree, before: Tree)
      requires SourcesIn(disk.graph, root, sources)
      requires Owns(app, stage) && stage != app
      requires SameOutside(copied, before, [stage]) && disk.OnlyBelow([stage], seen, copied)
      requires from <= seen && forall i | |from| <= i < |seen| :: SameOutside(seen[i], before, [stage])
      ensures OthersUntouched(app, from, before) && SameOutside(disk.tree, before, [stage])
      ensures OldOrNewLink(disk.tree, before, app, stage)
      ensures LinkApart(before, app, stage) ==>
                && OldOrNew(app, root, sources, from, before) && SeenAs(disk.tree, before, app)
                && At(disk.tree, [app]) == At(before, [app])
    {
      StageStateIsOld(disk.tree, copied, before, app, stage);
      forall i | |from| <= i < |disk.trace|
        ensures OthersKept(disk.trace[i], before, app)
        ensures LinkApart(before, app, stage) ==> SeenAs(disk.trace[i], before, app)
      {
        if i < |seen| {
          assert disk.trace[i] == seen[i];
          StageStateIsOld(seen[i], before, before, app, stage);
        } else {
          StageStateIsOld(disk.trace[i], copied, before, app, stage);
        }
      }
    }

    lemma {:induction false} PublishedStates(
        app: string, root: Option<Source>, sources: seq<Source>, stage: string,
        from: seq<Tree>, seen: seq<Tree>, staged: Tree, before: Tree)
      requires SourcesIn(disk.graph, root, sources)
      requires Owns(app, stage) && stage != app
      requires SameOutside(staged, before, [stage]) && HoldsStage(staged, disk.graph, root, sources, stage)
      requires SwapStates(app, stage, seen, staged)
      requires from <= seen && forall i | |from| <= i < |seen| :: SameOutside(seen[i], before, [stage])
      ensures OthersUntouched(app, from, before)
      ensures !IsDirectory(before, app) ==> OldOrNewLink(disk.tree, before, app, stage)
      ensures !IsDirectory(before, app) && LinkApart(before, app, stage) ==>
                OldOrNew(app, root, sources, from, before)
    {
      PublishedState(disk.tree, staged, before, app, disk.graph, root, sources, stage);
      forall i | |from| <= i < |disk.trace|
        ensures OthersKept(disk.trace[i], before, app)
        ensures !IsDirectory(before, app) && LinkApart(before, app, stage) ==>
                  SeenAs(disk.trace[i], before, app) || Serves(disk.trace[i], app, disk.graph, root, sources)
      {
        if i < |seen| {
          assert disk.trace[i] == seen[i];
          StageStateIsOld(seen[i], before, before, app, stage);
        } else {
          PublishedState(disk.trace[i], staged, before, app, disk.graph, root, sources, stage);
        }
      }
    }

    lemma {:induction false} SeesTheStage(
        now: Tree, staged: Tree, app: string, root: Option<Source>, sources: seq<Source>, stage: string)
      requires SourcesIn(disk.graph, root, sources)
      requires HoldsStage(staged, disk.graph, root, sources, stage)
      requires SwapState(now, staged, app, stage) && At(now, [app]) == Some(LinkEntry(stage))
      ensures Serves(now, app, disk.graph, root, sources)
    {
      forall names: Path
        ensures Seen(now, app, names) == StageImage(disk.graph, root, sources, sources != [], names)
      {
        assert [stage] <= [stage] + names && ([stage] + names)[1..] == names;
      }
    }
  }

  /** `path` lies in a copy of `app` other than `keep`. */
  predicate IsCopy(app: string, keep: Option<string>, path: Path) {
    path != [] && StartsWith(path[0], app + "~") && keep != Some(path[0])
  }

  ghost predicate CopiesDiffer(now: Tree, before: Tree, app: string, keep: Option<string>) {
    forall path: Path | !IsCopy(app, keep, path) :: At(now, path) == At(before, path)
  }

  predicate IsDirectory(tree: Tree, app: string) {
    At(tree, [app]).Some? && tree[[app]].DirEntry?
  }

  /** The link of `app` leads neither to the next copy nor to the link about to replace it. */
  predicate LinkApart(tree: Tree, app: string, stage: string) {
    match At(tree, [app])
    case Some(LinkEntry(target)) => target != stage && target != NextLink(app)
    case _ => true
  }

  /** nginx finds what `stage` held before. */
  ghost predicate SeenStage(now: Tree, before: Tree, app: string, stage: string) {
    forall names: Path :: Seen(now, app, names) == At(before, [stage] + names)
  }

  /** The entry of `app` is its old one or the link to `stage`, with nothing new below it. */
  ghost predicate OldOrNewLink(now: Tree, before: Tree, app: string, stage: string) {
    && At(now, [app]) in {At(before, [app]), Some(LinkEntry(stage))}
    && forall path: Path | [app] < path :: At(now, path) == At(before, path)
  }

  /** A state of the swap: other apps and the new copy are untouched, and the app shows its old copy or its new one. */
  ghost predicate SwapState(now: Tree, before: Tree, app: string, stage: string) {
    && OthersKept(now, before, app)
    && (!IsDirectory(before, app) ==> OldOrNewLink(now, before, app, stage))
    && (forall path: Path | [stage] <= path :: At(now, path) == At(before, path))
    && (!IsDirectory(before, app) && LinkApart(before, app, stage) ==>
          SeenAs(now, before, app) || SeenStage(now, before, app, stage))
  }

  /** After the rename: the link names the new copy, which with every other app is as it was. */
  ghost predicate Swapped(now: Tree, before: Tree, app: string, stage: string) {
    && OthersKept(now, before, app)
    && (forall path: Path | [stage] <= path :: At(now, path) == At(before, path))
    && At(now, [app]) == Some(LinkEntry(stage))
    && (!IsDirectory(before, app) ==> OldOrNewLink(now, before, app, stage))
  }

  lemma {:induction false} SwappedIsSwapState(now: Tree, before: Tree, app: string, stage: string)
    requires Swapped(now, before, app, stage)
    ensures SwapState(now, before, app, stage)
  {
    forall names: Path
      ensures Seen(now, app, names) == At(before, [stage] + names)
    {
      assert [stage] <= [stage] + names;
    }
  }

  lemma {:induction false} NextLinkIsApart(app: string)
    ensures NextLink(app) != app && StartsWith(NextLink(app), app + "~") && !StartsWith(app, app + "~")
  {
    assert NextLink(app)[..|app| + 1] == app + "~";
    assert |NextLink(app)| > |app|;
  }

  lemma {:induction false} LinkStateIsSwapState(now: Tree, before: Tree, app: string, stage: string)
    requires StartsWith(stage, app + "~") && stage != NextLink(app)
    requires SameOutside(now, before, [NextLink(app)])
    ensures SwapState(now, before, app, stage)
  {
    var next := NextLink(app);
    NextLinkIsApart(app);
    forall path: Path | path == [] || path[0] != next
      ensures At(now, path) == At(before, path)
    {
      assert !([next] <= path);
    }
    assert OldOrNewLink(now, before, app, stage) by {
      assert forall path: Path | [app] <= path :: path[0] == app;
    }
    if !IsDirectory(before, app) && LinkApart(before, app, stage) {
      forall names: Path
        ensures Seen(now, app, names) == Seen(before, app, names)
      {
        assert ([app] + names)[0] == app;
        match At(before, [app])
        case Some(LinkEntry(target)) =>
          assert ([target] + names)[0] == target;
        case _ =>
      }
    }
  }

  lemma {:induction false} LegacyStateIsSwapState(now: Tree, linked: Tree, before: Tree, app: string, stage: string)
    requires StartsWith(stage, app + "~") && stage != NextLink(app)
    requires SameOutside(linked, before, [NextLink(app)]) && SameOutside(now, linked, [app])
    requires IsDirectory(linked, app)
    ensures SwapState(now, before, app, stage)
  {
    NextLinkIsApart(app);
    forall path: Path | path == [] || (path[0] != app && path[0] != NextLink(app))
      ensures At(now, path) == At(before, path)
    {
      assert !([app] <= path) && !([NextLink(app)] <= path);
      assert At(linked, path) == At(before, path);
    }
    assert At(linked, [app]) == At(before, [app]) by {
      assert !([NextLink(app)] <= [app]);
    }
    assert stage != app;
  }

  lemma {:induction false} SwapStateIsSwapped(now: Tree, ready: Tree, before: Tree, app: string, stage: string)
    requires StartsWith(stage, app + "~") && stage != NextLink(app)
    requires SwapState(ready, before, app, stage)
    requires now == (ready - {[NextLink(app)]})[[app] := LinkEntry(stage)]
    ensures Swapped(now, before, app, stage) && SwapState(now, before, app, stage)
  {
    NextLinkIsApart(app);
    forall path: Path | path != [app] && path != [NextLink(app)]
      ensures At(now, path) == At(ready, path)
    {
    }
    SwappedIsSwapState(now, before, app, stage);
  }

  lemma {:induction false} CopiesGoneIsSwapped(now: Tree, swapped: Tree, before: Tree, app: string, stage: string)
    requires Swapped(swapped, before, app, stage) && CopiesDiffer(now, swapped, app, Some(stage))
    ensures Swapped(now, before, app, stage) && SwapState(now, before, app, stage)
  {
    NextLinkIsApart(app);
    assert !IsCopy(app, Some(stage), [app]);
    if !IsDirectory(before, app) {
      forall path: Path | [app] < path
        ensures At(now, path) == At(before, path)
      {
        assert path[0] == app && !IsCopy(app, Some(stage), path);
        assert At(now, path) == At(swapped, path);
      }
    }
    forall path: Path | path == [] || !Owns(app, path[0])
      ensures At(now, path) == At(before, path)
    {
      assert !IsCopy(app, Some(stage), path);
      assert At(now, path) == At(swapped, path);
    }
    forall path: Path | [stage] <= path
      ensures At(now, path) == At(before, path)
    {
      assert !IsCopy(app, Some(stage), path);
      assert At(now, path) == At(swapped, path);
    }
    SwappedIsSwapState(now, before, app, stage);
  }

  /** Whether the app serves anything. */
  predicate Publishes(root: Option<Source>, sources: seq<Source>) { root.Some? || sources != [] }

  /** Of the names of `app`, only `names` are left in the static root. */
  ghost predicate OnlyEntries(tree: Tree, app: string, names: set<string>) {
    forall path | path in tree && path != [] && Owns(app, path[0]) :: path[0] in names
  }

  ghost predicate HoldsStage(tree: Tree, g: Graph, root: Option<Source>, sources: seq<Source>, stage: string)
    requires SourcesIn(g, root, sources)
  {
    forall path: Path | [stage] <= path :: At(tree, path) == StageImage(g, root, sources, sources != [], path[1..])
  }

  /** A state of the copy: only the stage differs, so the app still shows its old files. */
  lemma {:induction false} StageStateIsOld(now: Tree, copied: Tree, before: Tree, app: string, stage: string)
    requires Owns(app, stage) && stage != app
    requires SameOutside(copied, before, [stage]) && SameOutside(now, copied, [stage])
    ensures SameOutside(now, before, [stage]) && OthersKept(now, before, app)
    ensures OldOrNewLink(now, before, app, stage) && At(now, [app]) == At(before, [app])
    ensures LinkApart(before, app, stage) ==> SeenAs(now, before, app)
  {
    forall path: Path | !([stage] <= path)
      ensures At(now, path) == At(before, path)
    {
      assert At(now, path) == At(copied, path);
    }
    forall path: Path | path == [] || path[0] != stage
      ensures At(now, path) == At(before, path)
    {
      assert !([stage] <= path);
    }
    if LinkApart(before, app, stage) {
      forall names: Path
        ensures Seen(now, app, names) == Seen(before, app, names)
      {
        assert ([app] + names)[0] == app;
        match At(before, [app])
        case Some(LinkEntry(target)) =>
          assert ([target] + names)[0] == target;
        case _ =>
      }
    }
  }

  lemma {:induction false} PublishedState(
      now: Tree, staged: Tree, before: Tree, app: string, g: Graph, root: Option<Source>, sources: seq<Source>,
      stage: string)
    requires SourcesIn(g, root, sources) && Owns(app, stage) && stage != app
    requires SameOutside(staged, before, [stage]) && HoldsStage(staged, g, root, sources, stage)
    requires SwapState(now, staged, app, stage)
    ensures OthersKept(now, before, app)
    ensures !IsDirectory(before, app) ==> OldOrNewLink(now, before, app, stage)
    ensures !IsDirectory(before, app) && LinkApart(before, app, stage) ==>
              SeenAs(now, before, app) || Serves(now, app, g, root, sources)
  {
    StageStateIsOld(staged, staged, before, app, stage);
    assert At(staged, [app]) == At(before, [app]) by {
      assert !([stage] <= [app]);
    }
    if !IsDirectory(before, app) && LinkApart(before, app, stage) {
      if SeenAs(now, staged, app) {
        forall names: Path
          ensures Seen(now, app, names) == Seen(before, app, names)
        {
          assert Seen(staged, app, names) == Seen(before, app, names);
        }
      } else {
        forall names: Path
          ensures Seen(now, app, names) == StageImage(g, root, sources, sources != [], names)
        {
          assert [stage] <= [stage] + names && ([stage] + names)[1..] == names;
          assert Seen(now, app, names) == At(staged, [stage] + names);
        }
      }
    }
  }

  /** The clean-up has taken nothing at or below `stage` away. */
  ghost predicate StageKept(now: Tree, before: Tree, stage: string) {
    forall path: Path | [stage] <= path :: At(now, path) == At(before, path)
  }

  /**
   Exactly when a stamp that is taken costs the app its files: its link names that
   very copy and the clean-up took some of it away. Where the clean-up emptied the
   copy, the app then shows nothing at all.
   */
  lemma {:induction false} TakenStampKeepsTheFilesIff(now: Tree, before: Tree, app: string, stage: string)
    requires stage != app && SameOutside(now, before, [stage])
    ensures SeenAs(now, before, app) <==> At(before, [app]) != Some(LinkEntry(stage)) || StageKept(now, before, stage)
    ensures !SeenAs(now, before, app) && (forall path: Path | [stage] <= path :: path !in now) ==>
              forall names: Path :: Seen(now, app, names) == None
  {
    assert [app][0] == app && [stage][0] == stage;
    assert !([stage] <= [app]);
    if At(before, [app]) == Some(LinkEntry(stage)) {
      forall names: Path
        ensures Seen(now, app, names) == At(now, [stage] + names) && [stage] <= [stage] + names
        ensures Seen(before, app, names) == At(before, [stage] + names)
      {
      }
      if SeenAs(now, before, app) {
        forall path: Path | [stage] <= path
          ensures At(now, path) == At(before, path)
        {
          assert path == [stage] + path[1..];
          assert Seen(now, app, path[1..]) == Seen(before, app, path[1..]);
        }
      }
    } else {
      forall names: Path
        ensures Seen(now, app, names) == Seen(before, app, names)
      {
        assert ([app] + names)[0] == app;
        match At(before, [app])
        case Some(LinkEntry(target)) =>
          assert ([target] + names)[0] == target;
        case _ =>
      }
    }
  }

  /** A published app whose stamp is taken again is left without any files. */
  lemma {:induction false} ATakenStampCanEmptyAnApp(app: string, stamp: nat)
    ensures var stage := Stage(app, stamp);
            var before: Tree := map[[app] := LinkEntry(stage), [stage] := DirEntry(DIR_MODE)];
            var now: Tree := map[[app] := LinkEntry(stage)];
            && SameOutside(now, before, [stage]) && (forall path: Path | [stage] <= path :: path !in now)
            && !SeenAs(now, before, app)
  {
    var stage := Stage(app, stamp);
    StageNames(app, stamp);
    var before: Tree := map[[app] := LinkEntry(stage), [stage] := DirEntry(DIR_MODE)];
    var now: Tree := map[[app] := LinkEntry(stage)];
    assert [app][0] == app && [stage][0] == stage && !([stage] <= [app]);
    assert [stage] <= [stage] && At(now, [stage]) != At(before, [stage]);
    TakenStampKeepsTheFilesIff(now, before, app, stage);
  }

  /** A published app meets the conditions of its next publish, under any other stamp. */
  lemma {:induction false} PublishedIsReadyForTheNext(tree: Tree, app: string, stamp: nat, next: nat)
    requires At(tree, [app]) == Some(LinkEntry(Stage(app, stamp))) && next != stamp
    ensures !IsDirectory(tree, app) && LinkApart(tree, app, Stage(app, next))
  {
    StageNames(app, stamp);
    if Stage(app, stamp) == Stage(app, next) {
      assert Stage(app, stamp)[|app| + 1..] == Decimal(stamp);
      assert Stage(app, next)[|app| + 1..] == Decimal(next);
      DecimalInjective(stamp, next);
    }
  }

  // ---- What a deploy publishes ----

  /** The document root to publish, if the settings ask for one: the named directory, or `public`. */
  function RootOf(env: map<string, string>, resolve: string -> Source): Option<Source> {
    if "RIKU_NGINX_STATIC" !in env then None
    else Some(resolve(if "RIKU_NGINX_DOCUMENT_ROOT" in env then env["RIKU_NGINX_DOCUMENT_ROOT"] else "public"))
  }

  /** A deploy publishes if and only if the settings ask for a document root or hold a mapping; otherwise it removes. */
  lemma {:induction false} DeployPublishesIff(env: map<string, string>, resolve: string -> Source)
    ensures Publishes(RootOf(env, resolve), SourcesOf(env, resolve)) <==>
            "RIKU_NGINX_STATIC" in env || StaticPaths(env) != []
  {
  }

  /** nginx finds the document root under `root`, and nothing there if the settings ask for none. */
  lemma {:induction false} RootIsServed(
      tree: Tree, app: string, g: Graph, env: map<string, string>, resolve: string -> Source, names: Path)
    requires SourcesIn(g, RootOf(env, resolve), SourcesOf(env, resolve))
    requires Serves(tree, app, g, RootOf(env, resolve), SourcesOf(env, resolve))
    ensures "RIKU_NGINX_STATIC" !in env ==> Seen(tree, app, ["root"] + names) == None
    ensures "RIKU_NGINX_STATIC" in env ==>
              var dir := if "RIKU_NGINX_DOCUMENT_ROOT" in env then env["RIKU_NGINX_DOCUMENT_ROOT"] else "public";
              SourceIn(g, resolve(dir)) && Seen(tree, app, ["root"] + names) == SourceImage(g, resolve(dir), names)
  {
    var under := ["root"] + names;
    assert under[0] == "root" && under[1..] == names;
  }

  // ---- The rendered aliases ----

  /** The sources of the mappings of `env`, each resolved against the checkout. */
  function SourcesOf(env: map<string, string>, resolve: string -> Source): (sources: seq<Source>)
    ensures |sources| == |StaticPaths(env)|
    ensures forall i | 0 <= i < |sources| :: sources[i] == resolve(StaticPaths(env)[i].source)
  {
    seq(|StaticPaths(env)|, i requires 0 <= i < |StaticPaths(env)| => resolve(StaticPaths(env)[i].source))
  }

  /**
   When a route carries the static locations of `env` and the sources of `env`
   are published, the n-th rendered alias is the directory that nginx finds
   holding the copy of the n-th mapping's source.
   */
  lemma {:induction false} AliasLeadsToItsSource(
      tree: Tree, app: string, g: Graph, root: Option<Source>, env: map<string, string>, resolve: string -> Source,
      roots: RouteGate.NginxRoots, n: nat, names: Path)
    requires SourcesIn(g, root, SourcesOf(env, resolve))
    requires Serves(tree, app, g, root, SourcesOf(env, resolve))
    requires n < |StaticPaths(env)|
    requires RouteGate.Aliases(roots, app, StaticLocations(env)).Some?
    ensures var alias := RouteGate.Aliases(roots, app, StaticLocations(env)).value[n];
            && alias.location == StaticPaths(env)[n].location
            && alias.dir == RouteGate.PathText(roots.staticRoot + [app, "paths", Decimal(n)])
    ensures SourceIn(g, resolve(StaticPaths(env)[n].source))
    ensures Seen(tree, app, ["paths", Decimal(n)] + names)
         == SourceImage(g, resolve(StaticPaths(env)[n].source), names)
  {
    var under := ["paths", Decimal(n)] + names;
    assert SourcesOf(env, resolve)[n] == resolve(StaticPaths(env)[n].source);
    NumberedDecimal(n, |StaticPaths(env)|);
    assert under[0] == "paths" && under[1] == Decimal(n) && under[2..] == names;
  }
}
