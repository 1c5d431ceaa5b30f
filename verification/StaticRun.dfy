/**
 Whole runs of publishing and removing static files
 (crates/riku-nginx/src/static_site.rs): operations of any apps, each of which
 may fail at any point, over checkouts that may change between them.
 */
module StaticRun {
  import opened Wrappers
  import opened Text
  import opened StaticCopy
  import opened StaticSite

  ghost predicate IsStage(app: string, name: string) { exists stamp: nat :: name == Stage(app, stamp) }

  /** `<app>` is absent or a link to one of the app's copies that is there, with nothing below it. */
  ghost predicate LinkSound(tree: Tree, app: string) {
    && (match At(tree, [app])
        case None => true
        case Some(LinkEntry(target)) => [target] in tree && IsStage(app, target)
        case Some(_) => false)
    && forall path: Path | [app] < path :: path !in tree
  }

  /** A publish takes a stamp that no entry has. */
  ghost predicate Fresh(tree: Tree, event: Event) {
    event.Publish? && Publishes(event.root, event.sources) ==> [Stage(event.app, event.stamp)] !in tree
  }

  ghost predicate Run(trees: seq<Tree>, events: seq<Event>) {
    && |trees| == |events| + 1
    && forall i | 0 <= i < |events| ::
         && WellFormed(events[i]) && '~' !in events[i].app
         && Fresh(trees[i], events[i]) && Step(trees[i], events[i], trees[i + 1])
  }

  // ---- The link stays sound ----

  /** An operation of another app leaves the entry, the copies and the view of `app` alone. */
  lemma {:induction false} OtherAppsStay(before: Tree, event: Event, after: Tree, app: string)
    requires WellFormed(event) && Step(before, event, after)
    requires '~' !in event.app && '~' !in app && event.app != app && LinkSound(before, app)
    ensures LinkSound(after, app) && SeenAs(after, before, app)
  {
    assert OthersKept(after, before, event.app);
    AppsOwnDifferentNames(event.app, app, app);
    forall path: Path | [app] <= path
      ensures At(after, path) == At(before, path)
    {
      assert path[0] == app;
    }
    if At(before, [app]).Some? {
      var target := before[[app]].target;
      var stamp: nat :| target == Stage(app, stamp);
      StageNames(app, stamp);
      AppsOwnDifferentNames(event.app, app, target);
      forall names: Path
        ensures At(after, [target] + names) == At(before, [target] + names)
      {
        assert ([target] + names)[0] == target;
      }
      assert [target] + [] == [target];
    } else {
      assert forall names: Path :: [app] <= [app] + names;
    }
  }

  lemma {:induction false} SoundLinkIsApart(tree: Tree, event: Event)
    requires LinkSound(tree, event.app) && Fresh(tree, event)
    requires event.Publish? && Publishes(event.root, event.sources)
    ensures !IsDirectory(tree, event.app) && LinkApart(tree, event.app, Stage(event.app, event.stamp))
  {
    match At(tree, [event.app])
    case Some(LinkEntry(target)) =>
      var stamp: nat :| target == Stage(event.app, stamp);
      StageNames(event.app, stamp);
    case _ =>
  }

  lemma {:induction false} PublishKeepsLinkSound(before: Tree, event: Event, after: Tree)
    requires WellFormed(event) && Step(before, event, after) && Fresh(before, event) && LinkSound(before, event.app)
    requires event.Publish? && Publishes(event.root, event.sources)
    ensures LinkSound(after, event.app)
  {
    SoundLinkIsApart(before, event);
    assert OldOrNewLink(after, before, event.app, Stage(event.app, event.stamp));
    if At(after, [event.app]).Some? {
      assert after[[event.app]].LinkEntry?;
      var target := after[[event.app]].target;
      assert IsStage(event.app, target) by {
        assert target == Stage(event.app, event.stamp) || before[[event.app]].target == target;
      }
      assert [target] + [] == [target];
      assert Seen(after, event.app, []) == At(after, [target]);
      if Serves(after, event.app, event.graph, event.root, event.sources) {
        assert Seen(after, event.app, []) == Some(DirEntry(DIR_MODE));
      } else {
        assert Seen(after, event.app, []) == Seen(before, event.app, []);
      }
      assert [target] in after;
    }
    forall path: Path | [event.app] < path
      ensures path !in after
    {
      assert At(after, path) == At(before, path);
    }
  }

  lemma {:induction false} RemoveKeepsLinkSound(before: Tree, app: string, ok: bool, after: Tree)
    requires Removed(before, app, ok, after) && LinkSound(before, app)
    ensures LinkSound(after, app)
  {
    if At(after, [app]).Some? {
      assert At(after, [app]) == At(before, [app]);
      var target := after[[app]].target;
      var stamp: nat :| target == Stage(app, stamp);
      StageNames(app, stamp);
      assert [target][0] == target != app;
    }
  }

  lemma {:induction false} StepKeepsLinkSound(before: Tree, event: Event, after: Tree, app: string)
    requires WellFormed(event) && Step(before, event, after) && Fresh(before, event)
    requires '~' !in event.app && '~' !in app && LinkSound(before, app)
    ensures LinkSound(after, app)
  {
    if event.app != app {
      OtherAppsStay(before, event, after, app);
    } else if event.Publish? && Publishes(event.root, event.sources) {
      PublishKeepsLinkSound(before, event, after);
    } else {
      RemoveKeepsLinkSound(before, app, event.ok, after);
    }
  }

  lemma {:induction false} RunKeepsLinkSound(trees: seq<Tree>, events: seq<Event>, n: nat, app: string)
    requires Run(trees, events) && n <= |events| && '~' !in app && LinkSound(trees[0], app)
    ensures LinkSound(trees[n], app)
  {
    if n > 0 {
      RunKeepsLinkSound(trees, events, n - 1, app);
      StepKeepsLinkSound(trees[n - 1], events[n - 1], trees[n], app);
    }
  }

  // ---- What nginx finds ----

  ghost predicate ShowsNothing(tree: Tree, app: string) {
    forall names: Path :: Seen(tree, app, names) == None
  }

  /** nginx finds for `app` what `event` was to leave: all of its copy, or nothing. */
  ghost predicate Shows(tree: Tree, event: Event)
    requires WellFormed(event)
  {
    if event.Publish? && Publishes(event.root, event.sources)
    then Serves(tree, event.app, event.graph, event.root, event.sources)
    else ShowsNothing(tree, event.app)
  }

  /** An operation of `app` leaves what nginx found, or what it was to leave; an Ok one the latter. */
  lemma {:induction false} StepShows(before: Tree, event: Event, after: Tree)
    requires WellFormed(event) && Step(before, event, after) && Fresh(before, event)
    requires LinkSound(before, event.app) && LinkSound(after, event.app)
    ensures Shows(after, event) || (!event.ok && SeenAs(after, before, event.app))
  {
    var app := event.app;
    if event.Publish? && Publishes(event.root, event.sources) {
      SoundLinkIsApart(before, event);
    } else if At(after, [app]) == None {
      forall names: Path
        ensures Seen(after, app, names) == None
      {
        assert names == [] ==> [app] + names == [app];
        assert names != [] ==> [app] < [app] + names;
      }
    } else {
      assert [app] <= [app];
      forall names: Path
        ensures Seen(after, app, names) == Seen(before, app, names)
      {
        var target := after[[app]].target;
        var stamp: nat :| target == Stage(app, stamp);
        StageNames(app, stamp);
        assert ([target] + names)[0] == target;
      }
    }
  }

  /** The number of events up to and with the last Ok operation of `app` among the first `n`. */
  function LastOk(events: seq<Event>, n: nat, app: string): (last: nat)
    requires n <= |events|
    ensures last <= n
  {
    if n == 0 then 0
    else if events[n - 1].app == app && events[n - 1].ok then n
    else LastOk(events, n - 1, app)
  }

  /** What nginx finds goes back to the first `i` events: to the `i`-th, or to the start. */
  ghost predicate ShowsAfter(trees: seq<Tree>, events: seq<Event>, n: nat, app: string, i: nat)
    requires Run(trees, events) && n <= |events|
  {
    if i == 0 then SeenAs(trees[n], trees[0], app)
    else i <= n && events[i - 1].app == app && Shows(trees[n], events[i - 1])
  }

  /**
   Over every run of publishes and removals of any apps, whatever failed, nginx
   finds for each app exactly what one operation of it was to leave, all of its
   copy or nothing, or what was there at the start; and that operation is the
   app's last Ok one or a later one that failed after its files were in place.
   */
  lemma {:induction false} EveryRunShowsWholeCopies(trees: seq<Tree>, events: seq<Event>, n: nat, app: string)
      returns (i: nat)
    requires Run(trees, events) && n <= |events| && '~' !in app && LinkSound(trees[0], app)
    ensures LastOk(events, n, app) <= i <= n && ShowsAfter(trees, events, n, app, i)
  {
    i := 0;
    if n > 0 {
      i := EveryRunShowsWholeCopies(trees, events, n - 1, app);
      var before, event, after := trees[n - 1], events[n - 1], trees[n];
      RunKeepsLinkSound(trees, events, n - 1, app);
      RunKeepsLinkSound(trees, events, n, app);
      if event.app != app {
        OtherAppsStay(before, event, after, app);
        StillShows(trees, events, n, app, i);
      } else {
        StepShows(before, event, after);
        if Shows(after, event) {
          i := n;
        } else {
          StillShows(trees, events, n, app, i);
        }
      }
    }
  }

  lemma {:induction false} StillShows(trees: seq<Tree>, events: seq<Event>, n: nat, app: string, i: nat)
    requires Run(trees, events) && 0 < n <= |events| && ShowsAfter(trees, events, n - 1, app, i)
    requires SeenAs(trees[n], trees[n - 1], app)
    ensures ShowsAfter(trees, events, n, app, i)
  {
    forall names: Path
      ensures Seen(trees[n], app, names) == Seen(trees[n - 1], app, names)
    {
    }
  }

  /** Without a failure in its last operation an app shows exactly what that operation was to leave. */
  lemma {:induction false} OkOperationsAreShown(trees: seq<Tree>, events: seq<Event>, n: nat, k: nat)
    requires Run(trees, events) && k < n <= |events| && events[k].ok
    requires '~' !in events[k].app && LinkSound(trees[0], events[k].app)
    requires forall j | k < j < n :: events[j].app != events[k].app
    ensures Shows(trees[n], events[k])
  {
    var app := events[k].app;
    var i := EveryRunShowsWholeCopies(trees, events, n, app);
    LastOkIs(events, n, k);
    assert events[i - 1].app == app;
  }

  lemma {:induction false} LastOkIs(events: seq<Event>, n: nat, k: nat)
    requires k < n <= |events| && events[k].ok && forall j | k < j < n :: events[j].app != events[k].app
    ensures LastOk(events, n, events[k].app) == k + 1
  {
    if n > k + 1 {
      assert events[n - 1].app != events[k].app;
      LastOkIs(events, n - 1, k);
    }
  }
}
