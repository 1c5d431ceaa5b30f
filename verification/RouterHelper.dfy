/**
 The router helper itself: commit, apply, remove, answer and the serving loop
 (crates/riku-route/src/nginx_apply.rs, caddy_apply.rs, answer.rs, listen.rs).
 */
module RouterHelper {
  import opened Wrappers
  import opened SiteFiles
  import opened RouteGate
  import opened RouterPlan
  import opened RouterRun
  import CaddySite

  /** What the gate and the renderer make of a route. */
  datatype Rendered = Rejected(stage: Stage) | Ready(plan: seq<Planned>)

  class Helper {
    const codec: Codec
    const roots: Roots
    const disk: Disk
    /** What each router last loaded. */
    ghost var nginx: Files
    ghost var caddy: Files
    /** How often a router refused a check or a reload, or a directory check refused to start. */
    var refusals: nat

    constructor (codec: Codec, roots: Roots, disk: Disk)
      ensures this.codec == codec && this.roots == roots && this.disk == disk
      ensures refusals == 0
      ensures ManagedModes(roots, disk.files) ==> Settled(roots, Now())
    {
      this.codec, this.roots, this.disk := codec, roots, disk;
      nginx, caddy := View(roots, Nginx, disk.files), View(roots, Caddy, disk.files);
      refusals := 0;
    }

    ghost function Now(): World
      reads this, disk
    {
      World(disk.files, nginx, caddy)
    }

    /** Runs a router's own check: its answer is the environment's. */
    method CheckConfig() returns (ok: bool)
      modifies this`refusals
      ensures refusals == old(refusals) + if ok then 0 else 1
    {
      ok := *;
      if !ok {
        refusals := refusals + 1;
      }
    }

    /** Has `router` load the files on disk; a refused reload leaves it as it was. */
    method Reload(router: Router) returns (ok: bool)
      modifies this
      ensures refusals == old(refusals) + if ok then 0 else 1
      ensures !ok ==> Now() == old(Now())
      ensures ok ==> && Loaded(Now(), router) == View(roots, router, disk.files)
                     && forall other | other != router :: Loaded(Now(), other) == Loaded(old(Now()), other)
    {
      ok := *;
      if !ok {
        refusals := refusals + 1;
        return;
      }
      if router == Nginx {
        nginx := View(roots, Nginx, disk.files);
      } else {
        caddy := View(roots, Caddy, disk.files);
      }
    }

    /** Puts the previous files back after a failure at `stage` and builds the reply. */
    method RolledBack(snapshot: seq<Planned>, stage: Stage, ghost before: Files, ghost plan: seq<Planned>)
      returns (reply: Reply)
      requires WellPlanned(plan) && snapshot == SnapshotOf(before, plan)
      requires Whole(disk.files, before, plan, snapshot)
      modifies disk
      ensures reply.Failed? && reply.stage == stage
      ensures if reply.restoreFailed then Whole(disk.files, before, plan, snapshot)
              else SameBut(disk.files, Installed(before, snapshot), StagedNames(plan))
      ensures old(disk.trace) <= disk.trace
      ensures forall i | |old(disk.trace)| <= i < |disk.trace| :: Whole(disk.trace[i], before, plan, snapshot)
      ensures disk.faults >= old(disk.faults) && (disk.faults == old(disk.faults) ==> !reply.restoreFailed)
    {
      SnapshotShape(before, plan);
      ghost var mid := disk.files;
      var failures := disk.Restore(snapshot);
      RestoreLands(before, mid, plan);
      RestoreStaysWhole(disk.files, mid, before, plan, snapshot);
      forall i | |old(disk.trace)| <= i < |disk.trace|
        ensures Whole(disk.trace[i], before, plan, snapshot)
      {
        RestoreStaysWhole(disk.trace[i], mid, before, plan, snapshot);
      }
      return Failed(stage, failures > 0);
    }

    /** One transaction of nginx: once files are written, each way out but the last goes through the snapshot. */
    method CommitNginx(plan: seq<Planned>) returns (reply: Reply)
      requires WellPlanned(plan)
      modifies this, disk
      ensures Committed(roots, Nginx, plan, old(Now()), reply, Now())
      ensures old(disk.trace) <= disk.trace
      ensures forall i | |old(disk.trace)| <= i < |disk.trace| ::
                Whole(disk.trace[i], old(disk.files), plan, SnapshotOf(old(disk.files), plan))
      ensures disk.faults == old(disk.faults) && refusals == old(refusals) ==> reply == Ok(true)
    {
      ghost var before := disk.files;
      var taken := disk.TakeSnapshot(plan);
      if taken.None? {
        return Failed(Render, false);
      }
      var snapshot := taken.value;
      var installed := disk.Install(plan);
      InstallIsWhole(disk.files, before, plan, installed);
      forall i | |old(disk.trace)| <= i < |disk.trace|
        ensures Whole(disk.trace[i], before, plan, snapshot)
      {
        InstallStateIsWhole(disk.trace[i], before, plan);
      }
      if !installed {
        reply := RolledBack(snapshot, Render, before, plan);
        return;
      }
      var accepted := CheckConfig();
      if !accepted {
        reply := RolledBack(snapshot, Check, before, plan);
        return;
      }
      var reloaded := Reload(Nginx);
      if !reloaded {
        reply := RolledBack(snapshot, Stage.Reload, before, plan);
        return;
      }
      return Ok(true);
    }

    /** One transaction of Caddy, whose reload is its only check. */
    method CommitCaddy(plan: seq<Planned>) returns (reply: Reply)
      requires WellPlanned(plan)
      modifies this, disk
      ensures Committed(roots, Caddy, plan, old(Now()), reply, Now())
      ensures old(disk.trace) <= disk.trace
      ensures forall i | |old(disk.trace)| <= i < |disk.trace| ::
                Whole(disk.trace[i], old(disk.files), plan, SnapshotOf(old(disk.files), plan))
      ensures disk.faults == old(disk.faults) && refusals == old(refusals) ==> reply == Ok(true)
    {
      ghost var before := disk.files;
      var taken := disk.TakeSnapshot(plan);
      if taken.None? {
        return Failed(Render, false);
      }
      var snapshot := taken.value;
      var installed := disk.Install(plan);
      InstallIsWhole(disk.files, before, plan, installed);
      forall i | |old(disk.trace)| <= i < |disk.trace|
        ensures Whole(disk.trace[i], before, plan, snapshot)
      {
        InstallStateIsWhole(disk.trace[i], before, plan);
      }
      if !installed {
        reply := RolledBack(snapshot, Render, before, plan);
        return;
      }
      var reloaded := Reload(Caddy);
      if !reloaded {
        reply := RolledBack(snapshot, Stage.Reload, before, plan);
        return;
      }
      return Ok(true);
    }

    /** Whether the directories of a request can be prepared or pass their owner check. */
    method DirectoriesReady() returns (ok: bool)
      modifies this`refusals
      ensures refusals == old(refusals) + if ok then 0 else 1
    {
      ok := *;
      if !ok {
        refusals := refusals + 1;
      }
    }

    /** Every disk state since `from` shows each of the request's files whole, old or new, and no other file changed. */
    ghost predicate NeverPartial(request: Request, from: nat, before: Files)
      reads disk
    {
      var plan := PlanFor(codec, roots, request);
      forall i | from <= i < |disk.trace| ::
        plan.Some? && Whole(disk.trace[i], before, plan.value, SnapshotOf(before, plan.value))
    }

    ghost predicate Undisturbed(faults: nat, refused: nat)
      reads this, disk
    {
      disk.faults == faults && refusals == refused
    }

    method PlanNginx(app: string, route: Route) returns (r: Rendered)
      requires IsAppName(app)
      ensures r.Ready? ==> NginxApplyPlan(codec, roots, app, route) == Some(r.plan)
      ensures r.Rejected? ==> NginxApplyPlan(codec, roots, app, route) == None
      ensures r == Rejected(Schema) <==> CheckNginxRoute(route, codec.checkTls).None?
    {
      var checked := CheckNginxRoute(route, codec.checkTls);
      if checked.None? {
        return Rejected(Schema);
      }
      var context := BuildContext(roots.nginx, app, checked.value);
      if context.None? {
        return Rejected(Render);
      }
      var config := codec.template(context.value);
      if config.None? {
        return Rejected(Render);
      }
      var tls := if checked.value.https == Only then checked.value.tls else None;
      return Ready(NginxPlan(roots, app, Some(codec.utf8(config.value)),
                             if tls.Some? then Some(codec.utf8(tls.value.keyPem)) else None,
                             if tls.Some? then Some(codec.utf8(tls.value.certPem)) else None));
    }

    /** The gate, the plan and the site text; only the gate can refuse, because it and the renderer agree. */
    method PlanCaddy(app: string, route: Route) returns (r: Rendered)
      requires IsAppName(app)
      ensures r.Ready? ==> CaddyApplyPlan(codec, roots, app, route) == Some(r.plan)
      ensures r.Rejected? ==> CaddyApplyPlan(codec, roots, app, route) == None
      ensures r.Rejected? <==> CheckCaddyRoute(route).None?
      ensures r.Rejected? ==> r.stage == Schema
    {
      hide IsAppName, CaddySite.RenderSite, CheckCaddyRoute, PlanOf;
      var checked := CheckCaddyRoute(route);
      if checked.None? {
        return Rejected(Schema);
      }
      GateAndCaddyPlanAgree(route);
      var routed := PlanOf(checked.value);
      CaddySite.SiteReadsBack(app, routed.value);
      var site := CaddySite.RenderSite(app, routed.value);
      return Ready(CaddyPlan(roots, app, Some(codec.utf8(site.value))));
    }

    method ApplyNginx(app: string, route: Route) returns (reply: Reply)
      requires IsAppName(app)
      modifies this, disk
      ensures Answered(codec, roots, Apply(app, Nginx, route), old(Now()), reply, Now())
      ensures old(disk.trace) <= disk.trace
      ensures NeverPartial(Apply(app, Nginx, route), |old(disk.trace)|, old(disk.files))
      ensures CheckNginxRoute(route, codec.checkTls).None? ==> reply == Failed(Schema, false)
      ensures Undisturbed(old(disk.faults), old(refusals)) && PlanFor(codec, roots, Apply(app, Nginx, route)).Some?
              ==> reply == Ok(true)
    {
      hide NginxApplyPlan, Committed, RemovePlan, CheckNginxRoute, IsAppName;
      var rendered := PlanNginx(app, route);
      if rendered.Rejected? {
        return Failed(rendered.stage, false);
      }
      var ready := DirectoriesReady();
      if !ready {
        return Failed(Render, false);
      }
      PlanForShape(codec, roots, Apply(app, Nginx, route));
      ShapePaths(roots, Nginx, app, rendered.plan);
      reply := CommitNginx(rendered.plan);
    }

    method ApplyCaddy(app: string, route: Route) returns (reply: Reply)
      requires IsAppName(app)
      modifies this, disk
      ensures Answered(codec, roots, Apply(app, Caddy, route), old(Now()), reply, Now())
      ensures old(disk.trace) <= disk.trace
      ensures NeverPartial(Apply(app, Caddy, route), |old(disk.trace)|, old(disk.files))
      ensures CheckCaddyRoute(route).None? ==> reply == Failed(Schema, false)
      ensures Undisturbed(old(disk.faults), old(refusals)) && CheckCaddyRoute(route).Some? ==> reply == Ok(true)
    {
      hide CaddyApplyPlan, Committed, RemovePlan, CheckCaddyRoute, IsAppName;
      var rendered := PlanCaddy(app, route);
      if rendered.Rejected? {
        return Failed(rendered.stage, false);
      }
      var ready := DirectoriesReady();
      if !ready {
        return Failed(Render, false);
      }
      PlanForShape(codec, roots, Apply(app, Caddy, route));
      ShapePaths(roots, Caddy, app, rendered.plan);
      reply := CommitCaddy(rendered.plan);
    }

    method RemoveNginx(app: string) returns (reply: Reply)
      requires IsAppName(app)
      modifies this, disk
      ensures Answered(codec, roots, Remove(app, Nginx), old(Now()), reply, Now())
      ensures old(disk.trace) <= disk.trace
      ensures NeverPartial(Remove(app, Nginx), |old(disk.trace)|, old(disk.files))
      ensures Undisturbed(old(disk.faults), old(refusals)) ==> reply.Ok?
    {
      var plan := NginxPlan(roots, app, None, None, None);
      PlanForShape(codec, roots, Remove(app, Nginx));
      ShapePaths(roots, Nginx, app, plan);
      var taken := disk.TakeSnapshot(plan);
      if taken.None? {
        return Failed(Render, false);
      }
      if IsEmpty(taken.value) {
        return Ok(false);
      }
      reply := CommitNginx(plan);
    }

    method RemoveCaddy(app: string) returns (reply: Reply)
      requires IsAppName(app)
      modifies this, disk
      ensures Answered(codec, roots, Remove(app, Caddy), old(Now()), reply, Now())
      ensures old(disk.trace) <= disk.trace
      ensures NeverPartial(Remove(app, Caddy), |old(disk.trace)|, old(disk.files))
      ensures Undisturbed(old(disk.faults), old(refusals)) ==> reply.Ok?
    {
      var plan := CaddyPlan(roots, app, None);
      PlanForShape(codec, roots, Remove(app, Caddy));
      ShapePaths(roots, Caddy, app, plan);
      var taken := disk.TakeSnapshot(plan);
      if taken.None? {
        return Failed(Render, false);
      }
      if IsEmpty(taken.value) {
        return Ok(false);
      }
      var ready := DirectoriesReady();
      if !ready {
        return Failed(Render, false);
      }
      reply := CommitCaddy(plan);
    }

    /** One step of the state machine, for either router and any request. */
    method Answer(request: Request) returns (reply: Reply)
      modifies this, disk
      ensures Answered(codec, roots, request, old(Now()), reply, Now())
      ensures old(disk.trace) <= disk.trace
      ensures NeverPartial(request, |old(disk.trace)|, old(disk.files))
      ensures Undisturbed(old(disk.faults), old(refusals)) && PlanFor(codec, roots, request).Some? ==> reply.Ok?
    {
      match request {
        case AskStatus => reply := Status;
        case Apply(app, router, route) =>
          if !IsAppName(app) {
            return Failed(Schema, false);
          }
          if router == Nginx {
            reply := ApplyNginx(app, route);
          } else {
            reply := ApplyCaddy(app, route);
          }
        case Remove(app, router) =>
          if !IsAppName(app) {
            return Failed(Schema, false);
          }
          if router == Nginx {
            reply := RemoveNginx(app);
          } else {
            reply := RemoveCaddy(app);
          }
      }
    }

    /** Serves requests one at a time: the run invariant holds after every reply, whatever the environment refuses. */
    method Serve(requests: seq<Request>) returns (events: seq<Event>)
      requires Settled(roots, Now())
      modifies this, disk
      ensures |events| == |requests| && forall i | 0 <= i < |events| :: events[i].request == requests[i]
      ensures Inv(codec, roots, old(Now()), events, Now())
    {
      events := [];
      InvInitially(codec, roots, Now());
      for n := 0 to |requests|
        invariant |events| == n && forall i | 0 <= i < n :: events[i].request == requests[i]
        invariant Inv(codec, roots, old(Now()), events, Now())
      {
        ghost var before := Now();
        var reply := Answer(requests[n]);
        AnswerKeepsInv(codec, roots, old(Now()), events, before, Event(requests[n], reply), Now());
        events := events + [Event(requests[n], reply)];
      }
    }
  }

  // ---- States of a commit ----

  lemma {:induction false} InstallStateIsWhole(now: Files, before: Files, plan: seq<Planned>)
    requires WellPlanned(plan) && InstallState(now, before, plan)
    ensures Whole(now, before, plan, SnapshotOf(before, plan))
  {
    var k :| 0 <= k <= |plan| && PrefixState(now, before, plan, k);
    PrefixIsNewRestIsOld(now, before, plan, k);
  }

  lemma {:induction false} InstallIsWhole(now: Files, before: Files, plan: seq<Planned>, installed: bool)
    requires WellPlanned(plan)
    requires if installed then now == Installed(before, plan)
             else exists k | 0 <= k < |plan| ::
                    SameBut(now, Installed(before, plan[..k]), {Staged(plan[k].path)})
    ensures Whole(now, before, plan, SnapshotOf(before, plan))
  {
    if installed {
      assert plan[..|plan|] == plan;
      assert PrefixState(now, before, plan, |plan|);
    } else {
      var k :| 0 <= k < |plan| && SameBut(now, Installed(before, plan[..k]), {Staged(plan[k].path)});
      assert plan[k] in plan && Staged(plan[k].path) in StagedNames(plan);
      assert PrefixState(now, before, plan, k);
    }
    InstallStateIsWhole(now, before, plan);
  }

  lemma {:induction false} RestoreStaysWhole(
      now: Files, mid: Files, before: Files, plan: seq<Planned>, snapshot: seq<Planned>)
    requires snapshot == SnapshotOf(before, plan)
    requires Whole(mid, before, plan, snapshot) && Whole(now, mid, snapshot, snapshot)
    ensures Whole(now, before, plan, snapshot)
  {
    SnapshotShape(before, plan);
    forall i | 0 <= i < |plan|
      ensures At(now, plan[i].path) in {At(before, plan[i].path), Wanted(plan[i]), Wanted(snapshot[i])}
    {
      assert At(now, snapshot[i].path) in {At(mid, snapshot[i].path), Wanted(snapshot[i]), Wanted(snapshot[i])};
    }
  }

  /** Restoring from any state of the commit lands where restoring from the start would. */
  lemma {:induction false} RestoreLands(before: Files, mid: Files, plan: seq<Planned>)
    requires WellPlanned(plan) && Whole(mid, before, plan, SnapshotOf(before, plan))
    ensures SameBut(Installed(mid, SnapshotOf(before, plan)), Installed(before, SnapshotOf(before, plan)),
                    StagedNames(plan))
  {
    var snapshot := SnapshotOf(before, plan);
    SnapshotShape(before, plan);
    forall path | path !in StagedNames(plan)
      ensures At(Installed(mid, snapshot), path) == At(Installed(before, snapshot), path)
    {
      if path in Paths(snapshot) {
        var i :| 0 <= i < |snapshot| && snapshot[i].path == path;
        InstalledAt(mid, snapshot, i);
        InstalledAt(before, snapshot, i);
      } else {
        InstalledElsewhere(mid, snapshot, path);
        InstalledElsewhere(before, snapshot, path);
      }
    }
  }
}
