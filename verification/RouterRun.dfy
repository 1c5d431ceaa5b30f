/**
 What one request to the router helper may do, and what holds after every run
 of requests (crates/riku-route/src/nginx_apply.rs, caddy_apply.rs, answer.rs).

 A router is modelled by the files it last loaded. A refused check or reload
 leaves that unchanged; an accepted reload loads the files now on disk.
 */
module RouterRun {
  import opened Wrappers
  import opened SiteFiles
  import opened RouteGate
  import opened RouterPlan
  import CaddySite

  datatype World = World(files: Files, nginx: Files, caddy: Files)

  function Loaded(world: World, router: Router): Files {
    if router == Nginx then world.nginx else world.caddy
  }

  /** The paths a router reads: site files of any name, and for nginx the certificate pairs. */
  ghost predicate Served(roots: Roots, router: Router, path: Path) {
    exists name: string :: path in Managed(roots, router, name)
  }

  ghost function View(roots: Roots, router: Router, files: Files): Files {
    map path | path in files && Served(roots, router, path) :: files[path]
  }

  /** What `commit` may do to the world, reply by reply. */
  ghost predicate Committed(
    roots: Roots, router: Router, plan: seq<Planned>, before: World, reply: Reply, after: World)
  {
    var snapshot := SnapshotOf(before.files, plan);
    match reply
    case Ok(reloaded) =>
      && reloaded
      && after.files == Installed(before.files, plan)
      && Loaded(after, router) == View(roots, router, after.files)
      && (forall other | other != router :: Loaded(after, other) == Loaded(before, other))
    case Failed(_, restoreFailed) =>
      && after.nginx == before.nginx && after.caddy == before.caddy
      && (if restoreFailed then Whole(after.files, before.files, plan, snapshot)
          else after.files == before.files
               || SameBut(after.files, Installed(before.files, snapshot), StagedNames(plan)))
    case Status => false
  }

  /** What one answered request may do to the world. */
  ghost predicate Answered(
    codec: Codec, roots: Roots, request: Request, before: World, reply: Reply, after: World)
  {
    match PlanFor(codec, roots, request)
    case None =>
      && after == before
      && if request.AskStatus? then reply.Status? else reply.Failed? && !reply.restoreFailed
    case Some(plan) =>
      || (after == before && reply == Failed(Render, false))
      || if request.Remove? && IsEmpty(SnapshotOf(before.files, plan))
         then after == before && reply == Ok(false)
         else Committed(roots, request.router, plan, before, reply, after)
  }

  datatype Event = Event(request: Request, reply: Reply)

  // ---- What the replies so far promise ----

  /** What `plan` wants at `path`. */
  function PlannedAt(plan: seq<Planned>, path: Path): Option<File> {
    if plan == [] then None
    else if plan[0].path == path then Wanted(plan[0])
    else PlannedAt(plan[1..], path)
  }

  /** What `path` of `app` should hold: the plan of the app's last Ok request, or what was there at the start. */
  function Expected(
    codec: Codec, roots: Roots, initial: Files, events: seq<Event>, router: Router, app: string, path: Path)
    : Option<File>
  {
    if events == [] then At(initial, path)
    else
      var last := events[|events| - 1];
      match PlanFor(codec, roots, last.request)
      case Some(plan) =>
        if last.reply.Ok? && IsFor(last.request, router, app) then PlannedAt(plan, path)
        else Expected(codec, roots, initial, events[..|events| - 1], router, app, path)
      case None => Expected(codec, roots, initial, events[..|events| - 1], router, app, path)
  }

  /** A failed restore of `app` that no later reload of a request for it has repaired. */
  predicate Torn(events: seq<Event>, router: Router, app: string) {
    events != [] &&
    var last, earlier := events[|events| - 1], events[..|events| - 1];
    if IsFor(last.request, router, app) && last.reply.Failed? && last.reply.restoreFailed then true
    else if IsFor(last.request, router, app) && last.reply == Ok(true) then false
    else Torn(earlier, router, app)
  }

  ghost predicate ManagedModes(roots: Roots, files: Files) {
    forall router, app: string, path | path in Managed(roots, router, app) && path in files ::
      files[path].mode == ModeOf(path)
  }

  ghost predicate Foreign(roots: Roots, path: Path) {
    forall router, app: string :: path !in Managed(roots, router, app) && path !in StagedFor(roots, router, app)
  }

  /** A host the helper can start on: each router runs the files on disk, and managed files carry their modes. */
  ghost predicate Settled(roots: Roots, world: World) {
    && ManagedModes(roots, world.files)
    && forall router :: Loaded(world, router) == View(roots, router, world.files)
  }

  /** At `path` the disk holds what the replies promise and the router runs what the disk holds. */
  ghost predicate Kept(
    codec: Codec, roots: Roots, initial: World, events: seq<Event>, world: World, router: Router, app: string, path: Path)
  {
    !Torn(events, router, app) ==>
      && At(world.files, path) == Expected(codec, roots, initial.files, events, router, app, path)
      && At(Loaded(world, router), path) == At(world.files, path)
  }

  /** The run invariant of the helper. */
  ghost predicate Inv(codec: Codec, roots: Roots, initial: World, events: seq<Event>, world: World) {
    && ManagedModes(roots, world.files)
    && (forall router, path | path in Loaded(world, router) :: Served(roots, router, path))
    && (forall path | Foreign(roots, path) :: At(world.files, path) == At(initial.files, path))
    && (forall router, app: string, path | path in Managed(roots, router, app) ::
          Kept(codec, roots, initial, events, world, router, app, path))
  }

  lemma {:induction false} InvInitially(codec: Codec, roots: Roots, initial: World)
    requires Settled(roots, initial)
    ensures Inv(codec, roots, initial, [], initial)
  {
    forall router, path | path in Loaded(initial, router)
      ensures Served(roots, router, path)
    {
      assert Loaded(initial, router) == View(roots, router, initial.files);
    }
    forall router, app: string, path | path in Managed(roots, router, app)
      ensures Kept(codec, roots, initial, [], initial, router, app, path)
    {
      assert Served(roots, router, path);
      assert Loaded(initial, router) == View(roots, router, initial.files);
    }
  }

  lemma {:induction false} PlannedAtIndex(plan: seq<Planned>, i: nat)
    requires i < |plan| && forall i, j | 0 <= i < j < |plan| :: plan[i].path != plan[j].path
    ensures PlannedAt(plan, plan[i].path) == Wanted(plan[i])
  {
    if i > 0 {
      assert plan[0].path != plan[i].path;
      PlannedAtIndex(plan[1..], i - 1);
    }
  }

  /** Installing an app's plan changes its own files as planned and no other managed file. */
  lemma {:induction false} InstalledFor(
      roots: Roots, router: Router, app: string, plan: seq<Planned>, files: Files,
      router': Router, app': string, path: Path)
    requires PlanShape(roots, router, app, plan) && path in Managed(roots, router', app')
    ensures At(Installed(files, plan), path)
         == if router == router' && app == app' then PlannedAt(plan, path) else At(files, path)
  {
    ShapePaths(roots, router, app, plan);
    if router == router' && app == app' {
      var i :| 0 <= i < |plan| && plan[i].path == path;
      InstalledAt(files, plan, i);
      PlannedAtIndex(plan, i);
    } else {
      Isolation(roots, router, app, router', app');
      InstalledElsewhere(files, plan, path);
    }
  }

  lemma {:induction false} InstalledModes(roots: Roots, router: Router, app: string, plan: seq<Planned>, files: Files)
    requires PlanShape(roots, router, app, plan) && ManagedModes(roots, files)
    ensures ManagedModes(roots, Installed(files, plan))
  {
    hide RemovePlan, PlanFor, ModeOf, Installed, Staged, WellPlanned;
    var after := Installed(files, plan);
    ShapePaths(roots, router, app, plan);
    forall router', app': string, path | path in Managed(roots, router', app') && path in after
      ensures after[path].mode == ModeOf(path)
    {
      if router == router' && app == app' {
        var i :| 0 <= i < |plan| && plan[i].path == path;
        InstalledAt(files, plan, i);
        assert plan[i] in plan;
      } else {
        InstalledFor(roots, router, app, plan, files, router', app', path);
        assert At(after, path) == At(files, path);
      }
    }
  }

  lemma {:induction false} SameModes(roots: Roots, before: Files, after: Files)
    requires ManagedModes(roots, before)
    requires forall router, app: string, path | path in Managed(roots, router, app) ::
               At(after, path) == At(before, path)
    ensures ManagedModes(roots, after)
  {
    forall router, app: string, path | path in Managed(roots, router, app) && path in after
      ensures after[path].mode == ModeOf(path)
    {
      assert At(after, path) == At(before, path);
    }
  }

  /** Nothing the invariant watches has changed. */
  ghost predicate Unmoved(roots: Roots, before: World, after: World) {
    && after.nginx == before.nginx && after.caddy == before.caddy
    && (forall path | Foreign(roots, path) :: At(after.files, path) == At(before.files, path))
    && (forall router, app: string, path | path in Managed(roots, router, app) ::
          At(after.files, path) == At(before.files, path))
  }

  /** A failed request whose restore succeeded leaves every managed and foreign file as it was. */
  lemma {:induction false} FailureMovesNothing(
      roots: Roots, router: Router, app: string, plan: seq<Planned>, before: World, reply: Reply, after: World)
    requires PlanShape(roots, router, app, plan) && ManagedModes(roots, before.files)
    requires reply.Failed? && !reply.restoreFailed && Committed(roots, router, plan, before, reply, after)
    ensures Unmoved(roots, before, after)
  {
    hide RemovePlan;
    ShapePaths(roots, router, app, plan);
    RollbackIsExactIffModesArePlanned(before.files, before.files, plan);
    assert SameBut(after.files, before.files, StagedNames(plan));
    forall path | Foreign(roots, path)
      ensures At(after.files, path) == At(before.files, path)
    {
      assert path !in StagedFor(roots, router, app);
    }
    forall router', app': string, path | path in Managed(roots, router', app')
      ensures At(after.files, path) == At(before.files, path)
    {
      PathsNameTheirOwner(roots, router, app);
      PathsNameTheirOwner(roots, router', app');
    }
  }

  lemma {:induction false} SameLoaded(roots: Roots, before: World, after: World)
    requires after.nginx == before.nginx && after.caddy == before.caddy
    requires forall router, path | path in Loaded(before, router) :: Served(roots, router, path)
    ensures forall router, path | path in Loaded(after, router) :: Served(roots, router, path)
  {
    forall router, path | path in Loaded(after, router)
      ensures Served(roots, router, path)
    {
      assert path in Loaded(before, router);
    }
  }

  lemma {:induction false} UnmovedKeepsInv(
      codec: Codec, roots: Roots, initial: World, events: seq<Event>, before: World, event: Event, after: World)
    requires Inv(codec, roots, initial, events, before) && Unmoved(roots, before, after)
    requires !event.reply.Ok? && !(event.reply.Failed? && event.reply.restoreFailed)
    ensures Inv(codec, roots, initial, events + [event], after)
  {
    assert (events + [event])[..|events|] == events;
    SameModes(roots, before.files, after.files);
    SameLoaded(roots, before, after);
    forall router, app: string, path | path in Managed(roots, router, app)
      ensures Kept(codec, roots, initial, events + [event], after, router, app, path)
    {
      assert Kept(codec, roots, initial, events, before, router, app, path);
    }
  }

  lemma {:induction false} ReloadKeepsInv(
      codec: Codec, roots: Roots, initial: World, events: seq<Event>, before: World, event: Event, after: World)
    requires Inv(codec, roots, initial, events, before)
    requires PlanFor(codec, roots, event.request).Some? && event.reply == Ok(true)
    requires Committed(roots, event.request.router, PlanFor(codec, roots, event.request).value, before, event.reply, after)
    ensures Inv(codec, roots, initial, events + [event], after)
  {
    hide RemovePlan, PlanFor, ModeOf, Staged, WellPlanned, Installed;
    var plan := PlanFor(codec, roots, event.request).value;
    PlanForShape(codec, roots, event.request);
    var router, app := event.request.router, event.request.app;
    ShapePaths(roots, router, app, plan);
    InstalledModes(roots, router, app, plan, before.files);
    assert (events + [event])[..|events|] == events;
    forall other, path | path in Loaded(after, other)
      ensures Served(roots, other, path)
    {
      assert other != router ==> path in Loaded(before, other);
    }
    forall path | Foreign(roots, path)
      ensures At(after.files, path) == At(initial.files, path)
    {
      assert path !in Managed(roots, router, app) && path !in StagedFor(roots, router, app);
      InstalledElsewhere(before.files, plan, path);
    }
    forall router', app': string, path | path in Managed(roots, router', app')
      ensures Kept(codec, roots, initial, events + [event], after, router', app', path)
    {
      assert Kept(codec, roots, initial, events, before, router', app', path);
      InstalledFor(roots, router, app, plan, before.files, router', app', path);
      if router' == router {
        assert Served(roots, router, path);
        assert At(Loaded(after, router), path) == At(after.files, path);
      }
    }
  }

  lemma {:induction false} TornKeepsInv(
      codec: Codec, roots: Roots, initial: World, events: seq<Event>, before: World, event: Event, after: World)
    requires Inv(codec, roots, initial, events, before)
    requires PlanFor(codec, roots, event.request).Some? && event.reply.Failed? && event.reply.restoreFailed
    requires Committed(roots, event.request.router, PlanFor(codec, roots, event.request).value, before, event.reply, after)
    ensures Inv(codec, roots, initial, events + [event], after)
  {
    hide RemovePlan, PlanFor, ModeOf, Staged, WellPlanned, SnapshotOf;
    var plan := PlanFor(codec, roots, event.request).value;
    PlanForShape(codec, roots, event.request);
    var router, app := event.request.router, event.request.app;
    ShapePaths(roots, router, app, plan);
    TornModes(roots, router, app, plan, before.files, after.files);
    SameLoaded(roots, before, after);
    assert (events + [event])[..|events|] == events;
    forall path | Foreign(roots, path)
      ensures At(after.files, path) == At(initial.files, path)
    {
      assert path !in Managed(roots, router, app) && path !in StagedFor(roots, router, app);
      assert path !in Paths(plan) + StagedNames(plan);
    }
    forall router', app': string, path | path in Managed(roots, router', app')
      ensures Kept(codec, roots, initial, events + [event], after, router', app', path)
    {
      assert Kept(codec, roots, initial, events, before, router', app', path);
      if router' != router || app' != app {
        Isolation(roots, router, app, router', app');
        assert path !in Paths(plan) + StagedNames(plan);
        assert At(after.files, path) == At(before.files, path);
      }
    }
  }

  lemma {:induction false} TornModes(
      roots: Roots, router: Router, app: string, plan: seq<Planned>, before: Files, after: Files)
    requires PlanShape(roots, router, app, plan) && ManagedModes(roots, before)
    requires Whole(after, before, plan, SnapshotOf(before, plan))
    ensures ManagedModes(roots, after)
  {
    hide RemovePlan, PlanFor, ModeOf, Staged, WellPlanned, SnapshotOf;
    ShapePaths(roots, router, app, plan);
    forall router', app': string, path | path in Managed(roots, router', app') && path in after
      ensures after[path].mode == ModeOf(path)
    {
      if router == router' && app == app' {
        var i :| 0 <= i < |plan| && plan[i].path == path;
        assert At(after, path) in {At(before, path), Wanted(plan[i]), Wanted(SnapshotOf(before, plan)[i])};
      } else {
        Isolation(roots, router, app, router', app');
        assert At(after, path) == At(before, path);
      }
    }
  }

  lemma {:induction false} RemovePlansNothing(codec: Codec, roots: Roots, request: Request)
    requires request.Remove? && PlanFor(codec, roots, request).Some?
    ensures forall each <- PlanFor(codec, roots, request).value :: Wanted(each) == None
  {
  }

  lemma {:induction false} EmptyRemoveKeepsInv(
      codec: Codec, roots: Roots, initial: World, events: seq<Event>, world: World, event: Event)
    requires Inv(codec, roots, initial, events, world)
    requires PlanFor(codec, roots, event.request).Some? && event.request.Remove? && event.reply == Ok(false)
    requires IsEmpty(SnapshotOf(world.files, PlanFor(codec, roots, event.request).value))
    ensures Inv(codec, roots, initial, events + [event], world)
  {
    hide RemovePlan, PlanFor, ModeOf, Staged, SnapshotOf;
    var plan := PlanFor(codec, roots, event.request).value;
    PlanForShape(codec, roots, event.request);
    var router, app := event.request.router, event.request.app;
    ShapePaths(roots, router, app, plan);
    assert (events + [event])[..|events|] == events;
    forall router', app': string, path | path in Managed(roots, router', app')
      ensures Kept(codec, roots, initial, events + [event], world, router', app', path)
    {
      assert Kept(codec, roots, initial, events, world, router', app', path);
      if router' == router && app' == app {
        var i :| 0 <= i < |plan| && plan[i].path == path;
        SnapshotAt(world.files, plan, i);
        assert SnapshotOf(world.files, plan)[i] in SnapshotOf(world.files, plan);
        RemovePlansNothing(codec, roots, event.request);
        assert plan[i] in plan;
        PlannedAtIndex(plan, i);
      }
    }
  }

  /** One answered request keeps the run invariant. */
  lemma {:induction false} AnswerKeepsInv(
      codec: Codec, roots: Roots, initial: World, events: seq<Event>, before: World, event: Event, after: World)
    requires Inv(codec, roots, initial, events, before)
    requires Answered(codec, roots, event.request, before, event.reply, after)
    ensures Inv(codec, roots, initial, events + [event], after)
  {
    match PlanFor(codec, roots, event.request)
    case None =>
      UnmovedKeepsInv(codec, roots, initial, events, before, event, after);
    case Some(plan) =>
      PlanForShape(codec, roots, event.request);
      if after == before && event.reply == Failed(Render, false) {
        UnmovedKeepsInv(codec, roots, initial, events, before, event, after);
      } else if event.reply == Ok(false) {
        EmptyRemoveKeepsInv(codec, roots, initial, events, before, event);
      } else if event.reply.Ok? {
        ReloadKeepsInv(codec, roots, initial, events, before, event, after);
      } else if event.reply.restoreFailed {
        TornKeepsInv(codec, roots, initial, events, before, event, after);
      } else {
        FailureMovesNothing(roots, event.request.router, event.request.app, plan, before, event.reply, after);
        UnmovedKeepsInv(codec, roots, initial, events, before, event, after);
      }
  }

  /** A run: every world follows from the one before by an answered request. */
  ghost predicate Run(codec: Codec, roots: Roots, worlds: seq<World>, events: seq<Event>) {
    && |worlds| == |events| + 1
    && forall i | 0 <= i < |events| ::
         Answered(codec, roots, events[i].request, worlds[i], events[i].reply, worlds[i + 1])
  }

  lemma {:induction false} RunKeepsInv(codec: Codec, roots: Roots, worlds: seq<World>, events: seq<Event>)
    requires Run(codec, roots, worlds, events) && Settled(roots, worlds[0])
    ensures Inv(codec, roots, worlds[0], events, worlds[|events|])
  {
    if events == [] {
      InvInitially(codec, roots, worlds[0]);
    } else {
      hide Inv, Answered, Settled;
      var n := |events| - 1;
      RunKeepsInv(codec, roots, worlds[..n + 1], events[..n]);
      AnswerKeepsInv(codec, roots, worlds[0], events[..n], worlds[n], events[n], worlds[n + 1]);
      assert events == events[..n] + [events[n]];
    }
  }

  /**
   All or nothing, over every run of requests for any apps and both routers:
   for every app without an unrepaired failed restore, each of its files holds
   exactly what its last Ok request planned, or its initial content if there
   was none, and its router runs those same files. Files the helper does not
   manage never change.
   */
  lemma {:induction false} EveryRunIsAllOrNothing(
      codec: Codec, roots: Roots, worlds: seq<World>, events: seq<Event>, router: Router, app: string, path: Path)
    requires Run(codec, roots, worlds, events) && Settled(roots, worlds[0])
    ensures path in Managed(roots, router, app) && !Torn(events, router, app) ==>
              && At(worlds[|events|].files, path)
                 == Expected(codec, roots, worlds[0].files, events, router, app, path)
              && At(Loaded(worlds[|events|], router), path) == At(worlds[|events|].files, path)
    ensures Foreign(roots, path) ==> At(worlds[|events|].files, path) == At(worlds[0].files, path)
  {
    RunKeepsInv(codec, roots, worlds, events);
    if path in Managed(roots, router, app) {
      assert Kept(codec, roots, worlds[0], events, worlds[|events|], router, app, path);
    }
  }

  lemma {:induction false} NeverTorn(events: seq<Event>, router: Router, app: string)
    requires forall event <- events :: event.reply.Failed? ==> !event.reply.restoreFailed
    ensures !Torn(events, router, app)
  {
    if events != [] {
      assert events[|events| - 1] in events;
      NeverTorn(events[..|events| - 1], router, app);
    }
  }

  /** Without a failed restore, each router runs exactly the files on disk after every run. */
  lemma {:induction false} RoutersRunWhatIsOnDisk(
      codec: Codec, roots: Roots, worlds: seq<World>, events: seq<Event>, router: Router)
    requires Run(codec, roots, worlds, events) && Settled(roots, worlds[0])
    requires forall event <- events :: event.reply.Failed? ==> !event.reply.restoreFailed
    ensures Loaded(worlds[|events|], router) == View(roots, router, worlds[|events|].files)
  {
    var world := worlds[|events|];
    RunKeepsInv(codec, roots, worlds, events);
    forall path
      ensures At(Loaded(world, router), path) == At(View(roots, router, world.files), path)
    {
      if Served(roots, router, path) {
        var app: string :| path in Managed(roots, router, app);
        NeverTorn(events, router, app);
        assert Kept(codec, roots, worlds[0], events, world, router, app, path);
      }
    }
    SameFiles(Loaded(world, router), View(roots, router, world.files));
  }

  lemma {:induction false} SameFiles(a: Files, b: Files)
    requires forall path :: At(a, path) == At(b, path)
    ensures a == b
  {
    assert forall path :: (path in a <==> At(a, path).Some?) && (path in b <==> At(b, path).Some?);
    assert a.Keys == b.Keys;
    forall path | path in a
      ensures a[path] == b[path]
    {
      assert At(a, path) == At(b, path);
    }
  }

  // ---- Order and repetition ----

  /** At each path, installing a plan either keeps what is there or does not depend on it. */
  lemma {:induction false} KeepsOrFixes(f: Files, g: Files, plan: seq<Planned>, path: Path)
    ensures (At(Installed(f, plan), path) == At(f, path) && At(Installed(g, plan), path) == At(g, path))
         || At(Installed(f, plan), path) == At(Installed(g, plan), path)
  {
    if plan != [] {
      KeepsOrFixes(f, g, plan[..|plan| - 1], path);
    }
  }

  /** Repeating an Ok request changes nothing, staged names included. */
  lemma {:induction false} RepeatChangesNothing(files: Files, plan: seq<Planned>)
    ensures Installed(Installed(files, plan), plan) == Installed(files, plan)
  {
    var once := Installed(files, plan);
    forall path
      ensures At(Installed(once, plan), path) == At(once, path)
    {
      KeepsOrFixes(files, once, plan, path);
    }
    SameFiles(Installed(once, plan), once);
  }

  /** Two Ok requests for different apps or routers leave the same disk in either order. */
  lemma {:induction false} OkRequestsCommute(
      codec: Codec, roots: Roots, first: Request, second: Request, files: Files)
    requires PlanFor(codec, roots, first).Some? && PlanFor(codec, roots, second).Some?
    requires first.router != second.router || first.app != second.app
    ensures var a, b := PlanFor(codec, roots, first).value, PlanFor(codec, roots, second).value;
            Installed(Installed(files, a), b) == Installed(Installed(files, b), a)
  {
    var a, b := PlanFor(codec, roots, first).value, PlanFor(codec, roots, second).value;
    PlanForShape(codec, roots, first);
    PlanForShape(codec, roots, second);
    PlansCommute(roots, first.router, first.app, a, second.router, second.app, b, files);
  }

  lemma {:induction false} PlansCommute(
      roots: Roots, router: Router, app: string, a: seq<Planned>, router': Router, app': string, b: seq<Planned>,
      files: Files)
    requires PlanShape(roots, router, app, a) && PlanShape(roots, router', app', b)
    requires router != router' || app != app'
    ensures Installed(Installed(files, a), b) == Installed(Installed(files, b), a)
  {
    hide RemovePlan;
    ShapePaths(roots, router, app, a);
    ShapePaths(roots, router', app', b);
    Isolation(roots, router, app, router', app');
    var ab, ba := Installed(Installed(files, a), b), Installed(Installed(files, b), a);
    forall path
      ensures At(ab, path) == At(ba, path)
    {
      if path in Paths(a) + StagedNames(a) {
        InstalledElsewhere(Installed(files, a), b, path);
        InstalledElsewhere(files, b, path);
        KeepsOrFixes(files, Installed(files, b), a, path);
      } else {
        InstalledElsewhere(files, a, path);
        InstalledElsewhere(Installed(files, b), a, path);
        KeepsOrFixes(files, Installed(files, a), b, path);
      }
    }
    SameFiles(ab, ba);
  }

  // ---- What an Ok reply to an apply means ----

  /** On disk and among the files the router runs, `path` holds `file`. */
  ghost predicate Holds(world: World, router: Router, path: Path, file: Option<File>) {
    At(world.files, path) == file && At(Loaded(world, router), path) == file
  }

  lemma {:induction false} OkApplyHolds(
      codec: Codec, roots: Roots, app: string, router: Router, route: Route, before: World, reply: Reply, after: World,
      i: nat)
    requires Answered(codec, roots, Apply(app, router, route), before, reply, after) && reply.Ok?
    requires PlanFor(codec, roots, Apply(app, router, route)).Some?
    requires i < |PlanFor(codec, roots, Apply(app, router, route)).value|
    ensures var each := PlanFor(codec, roots, Apply(app, router, route)).value[i];
            Holds(after, router, each.path, Wanted(each))
  {
    var request := Apply(app, router, route);
    var plan := PlanFor(codec, roots, request).value;
    PlanForShape(codec, roots, request);
    hide PlanFor, RemovePlan, ModeOf, Staged;
    ShapePaths(roots, router, app, plan);
    InstalledAt(before.files, plan, i);
    assert plan[i] in plan && plan[i].path in Managed(roots, router, app);
    assert Served(roots, router, plan[i].path);
  }

  /**
   After an Ok apply to nginx its site file is the template's text. An HTTPS-only
   route has its private key in `key.pem`, readable to root alone, and its chain in
   `fullchain.pem`, as the PEM check left them; any other route has neither.
   */
  lemma {:induction false} OkNginxApplyLeaves(
      codec: Codec, roots: Roots, app: string, route: Route, before: World, reply: Reply, after: World)
    requires Answered(codec, roots, Apply(app, Nginx, route), before, reply, after) && reply.Ok?
    ensures IsAppName(app) && CheckNginxRoute(route, codec.checkTls).Some?
    ensures var built := BuildContext(roots.nginx, app, CheckNginxRoute(route, codec.checkTls).value);
            && built.Some? && codec.template(built.value).Some?
            && Holds(after, Nginx, roots.nginx.siteRoot + [app + ".conf"],
                     Some(File(0x1A4, codec.utf8(codec.template(built.value).value))))
    ensures route.https == Only ==>
              && route.tls.Some? && codec.checkTls(route.tls.value).Some?
              && var pair := codec.checkTls(route.tls.value).value;
                 && Holds(after, Nginx, roots.nginx.certRoot + [app, "key.pem"],
                          Some(File(0x180, codec.utf8(pair.keyPem))))
                 && Holds(after, Nginx, roots.nginx.certRoot + [app, "fullchain.pem"],
                          Some(File(0x1A4, codec.utf8(pair.certPem))))
    ensures route.https != Only ==>
              && Holds(after, Nginx, roots.nginx.certRoot + [app, "key.pem"], None)
              && Holds(after, Nginx, roots.nginx.certRoot + [app, "fullchain.pem"], None)
  {
    var request := Apply(app, Nginx, route);
    assert PlanFor(codec, roots, request).Some?;
    NginxPlanIs(codec, roots, app, route);
    OkApplyHolds(codec, roots, app, Nginx, route, before, reply, after, 0);
    OkApplyHolds(codec, roots, app, Nginx, route, before, reply, after, 1);
    OkApplyHolds(codec, roots, app, Nginx, route, before, reply, after, 2);
  }

  /** After an Ok apply to Caddy its site file is the rendered text of the route's plan. */
  lemma {:induction false} OkCaddyApplyLeaves(
      codec: Codec, roots: Roots, app: string, route: Route, before: World, reply: Reply, after: World)
    requires Answered(codec, roots, Apply(app, Caddy, route), before, reply, after) && reply.Ok?
    ensures IsAppName(app) && CheckCaddyRoute(route).Some?
    ensures var plan := PlanOf(CheckCaddyRoute(route).value);
            && plan.Some? && CaddySite.RenderSite(app, plan.value).Some?
            && Holds(after, Caddy, roots.caddySites + [app + ".caddy"],
                     Some(File(0x1A0, codec.utf8(CaddySite.RenderSite(app, plan.value).value))))
  {
    var request := Apply(app, Caddy, route);
    assert PlanFor(codec, roots, request).Some?;
    hide IsAppName, CheckCaddyRoute, PlanOf, CaddySite.RenderSite;
    OkApplyHolds(codec, roots, app, Caddy, route, before, reply, after, 0);
  }

  // ---- What an Ok reply to a remove means ----

  /** No file of `app` is among those the router runs. */
  ghost predicate OutOfRouter(roots: Roots, router: Router, app: string, world: World) {
    forall path <- Managed(roots, router, app) :: path !in Loaded(world, router)
  }

  /**
   An Ok reply to a remove takes the app out of its router if and only if one
   of its files was on disk or the router ran none of them: with no file on
   disk the helper answers Ok without a reload.
   */
  lemma {:induction false} OkRemoveTakesTheAppOutIff(
      codec: Codec, roots: Roots, app: string, router: Router, before: World, reply: Reply, after: World)
    requires Answered(codec, roots, Remove(app, router), before, reply, after) && reply.Ok?
    ensures OutOfRouter(roots, router, app, after) <==>
            (exists path <- Managed(roots, router, app) :: path in before.files)
            || OutOfRouter(roots, router, app, before)
  {
    var request := Remove(app, router);
    assert PlanFor(codec, roots, request).Some?;
    var plan := RemovePlan(roots, router, app);
    assert PlanFor(codec, roots, request) == Some(plan);
    PlanForShape(codec, roots, request);
    hide RemovePlan, PlanFor, ModeOf, Staged, WellPlanned, SnapshotOf, Installed;
    ShapePaths(roots, router, app, plan);
    EmptyIffNoneOnDisk(before.files, plan);
    if !IsEmpty(SnapshotOf(before.files, plan)) {
      forall path | path in Managed(roots, router, app)
        ensures path !in Loaded(after, router)
      {
        var i :| 0 <= i < |plan| && plan[i].path == path;
        InstalledAt(before.files, plan, i);
        RemovePlansNothing(codec, roots, request);
        assert plan[i] in plan;
      }
    }
  }

  lemma {:induction false} EmptyIffNoneOnDisk(files: Files, plan: seq<Planned>)
    ensures IsEmpty(SnapshotOf(files, plan)) <==> forall path <- Paths(plan) :: path !in files
  {
    var snapshot := SnapshotOf(files, plan);
    forall i | 0 <= i < |plan|
      ensures snapshot[i].contents.None? <==> plan[i].path !in files
      ensures snapshot[i] in snapshot && plan[i].path in Paths(plan)
    {
      SnapshotAt(files, plan, i);
      assert plan[i] in plan;
    }
  }

  /**
   The condition can fail: a remove whose reload and restore both fail empties
   the disk while the router keeps the old files, and the next remove is
   answered Ok without a reload.
   */
  lemma {:induction false} OkRemoveCanLeaveTheAppServed(codec: Codec, roots: Roots, app: string)
    requires IsAppName(app)
    ensures exists worlds, events ::
              && Run(codec, roots, worlds, events) && Settled(roots, worlds[0])
              && events == [Event(Remove(app, Caddy), Failed(Reload, true)), Event(Remove(app, Caddy), Ok(false))]
              && !OutOfRouter(roots, Caddy, app, worlds[2])
  {
    var path := CaddyFile(roots, app);
    var plan := RemovePlan(roots, Caddy, app);
    var files: Files := map[path := File(CADDY_SITE_FILE, [])];
    var w0 := World(files, map[], files);
    var w1 := World(map[], map[], files);
    var request := Remove(app, Caddy);
    var events := [Event(request, Failed(Reload, true)), Event(request, Ok(false))];
    assert PlanFor(codec, roots, request) == Some(plan) && plan[0].path == path && |plan| == 1;
    assert plan[0] in plan;
    PathsNameTheirOwner(roots, Caddy, app);
    OneFileIsSettled(roots, app, path, files);
    SnapshotAt(files, plan, 0);
    assert SnapshotOf(files, plan)[0] in SnapshotOf(files, plan);
    assert Whole(w1.files, w0.files, plan, SnapshotOf(files, plan)) by {
      assert path in Paths(plan);
    }
    assert Answered(codec, roots, request, w0, events[0].reply, w1);
    EmptyIffNoneOnDisk(w1.files, plan);
    assert Answered(codec, roots, request, w1, events[1].reply, w1);
    assert Run(codec, roots, [w0, w1, w1], events);
    assert path in Managed(roots, Caddy, app);
  }

  lemma {:induction false} OneFileIsSettled(roots: Roots, app: string, path: Path, files: Files)
    requires path == CaddyFile(roots, app) && files == map[path := File(CADDY_SITE_FILE, [])]
    ensures Settled(roots, World(files, map[], files))
  {
    PathsNameTheirOwner(roots, Caddy, app);
    var plan := RemovePlan(roots, Caddy, app);
    assert plan[0] in plan && plan[0].path == path;
    assert path in Managed(roots, Caddy, app);
    assert Served(roots, Caddy, path);
    ShapePaths(roots, Caddy, app, plan);
    forall name: string
      ensures path !in Managed(roots, Nginx, name)
    {
      PathsNameTheirOwner(roots, Nginx, name);
    }
    assert !Served(roots, Nginx, path);
    assert View(roots, Nginx, files) == map[];
    assert View(roots, Caddy, files) == files;
    assert plan[0].mode == ModeOf(path);
  }

  /** In every run, an Ok remove of an app without an unrepaired failed restore takes it out of its router. */
  lemma {:induction false} RemovedAppsAreNotServed(
      codec: Codec, roots: Roots, worlds: seq<World>, events: seq<Event>, app: string, router: Router)
    requires Run(codec, roots, worlds, events) && Settled(roots, worlds[0])
    requires events != [] && events[|events| - 1].request == Remove(app, router) && events[|events| - 1].reply.Ok?
    requires !Torn(events[..|events| - 1], router, app)
    ensures OutOfRouter(roots, router, app, worlds[|events|])
    ensures forall path <- Managed(roots, router, app) :: path !in worlds[|events|].files
  {
    var n := |events| - 1;
    assert Answered(codec, roots, events[n].request, worlds[n], events[n].reply, worlds[n + 1]);
    assert PlanFor(codec, roots, events[n].request) == Some(RemovePlan(roots, router, app));
    forall path | path in Managed(roots, router, app)
      ensures path !in Loaded(worlds[n + 1], router) && path !in worlds[n + 1].files
    {
      EveryRunIsAllOrNothing(codec, roots, worlds, events, router, app, path);
      var plan := RemovePlan(roots, router, app);
      ShapePaths(roots, router, app, plan);
      var i :| 0 <= i < |plan| && plan[i].path == path;
      PlannedAtIndex(plan, i);
      assert At(worlds[n + 1].files, path) == None;
    }
  }
}
