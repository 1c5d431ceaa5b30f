/**
 The requests of the router helper, the files each of them plans, and why the
 plans of different apps cannot meet (crates/riku-route/src/nginx_apply.rs,
 caddy_apply.rs, nginx_roots.rs).
 */
module RouterPlan {
  import opened Wrappers
  import opened SiteFiles
  import opened RouteGate
  import CaddySite
  import Text

  datatype Router = Nginx | Caddy

  datatype Stage = Schema | Render | Check | Reload

  /** `restoreFailed` is the "restoring the previous files also failed" part of the error text. */
  datatype Reply = Ok(reloaded: bool) | Failed(stage: Stage, restoreFailed: bool) | Status

  datatype Request =
    | Apply(app: string, router: Router, route: Route)
    | Remove(app: string, router: Router)
    | AskStatus

  datatype Roots = Roots(nginx: NginxRoots, caddySites: Path)

  /** The parts of the helper outside this model: the PEM check, the Tera templates and UTF-8. */
  datatype Codec = Codec(checkTls: Tls -> Option<Tls>, template: Context -> Option<string>, utf8: string -> Bytes)

  const CADDY_SITE_FILE: nat := 0x1A0  // 0o640

  // ---- Plans ----

  function SiteFile(roots: Roots, app: string): Path { roots.nginx.siteRoot + [app + ".conf"] }

  function CaddyFile(roots: Roots, app: string): Path { roots.caddySites + [app + ".caddy"] }

  function NginxPlan(roots: Roots, app: string, config: Option<Bytes>, key: Option<Bytes>, cert: Option<Bytes>)
    : seq<Planned>
  {
    [ Planned(CertDir(roots.nginx, app) + [KEY_FILE], PRIVATE_FILE, key),
      Planned(CertDir(roots.nginx, app) + [CERTIFICATE_FILE], PUBLIC_FILE, cert),
      Planned(SiteFile(roots, app), PUBLIC_FILE, config) ]
  }

  function CaddyPlan(roots: Roots, app: string, site: Option<Bytes>): seq<Planned> {
    [Planned(CaddyFile(roots, app), CADDY_SITE_FILE, site)]
  }

  function RemovePlan(roots: Roots, router: Router, app: string): seq<Planned> {
    match router
    case Nginx => NginxPlan(roots, app, None, None, None)
    case Caddy => CaddyPlan(roots, app, None)
  }

  function NginxApplyPlan(codec: Codec, roots: Roots, app: string, route: Route): Option<seq<Planned>> {
    match CheckNginxRoute(route, codec.checkTls)
    case None => None
    case Some(checked) =>
      match BuildContext(roots.nginx, app, checked)
      case None => None
      case Some(context) =>
        match codec.template(context)
        case None => None
        case Some(config) =>
          if checked.https == Only && checked.tls.Some?
          then Some(NginxPlan(roots, app, Some(codec.utf8(config)), Some(codec.utf8(checked.tls.value.keyPem)),
                              Some(codec.utf8(checked.tls.value.certPem))))
          else Some(NginxPlan(roots, app, Some(codec.utf8(config)), None, None))
  }

  function CaddyApplyPlan(codec: Codec, roots: Roots, app: string, route: Route): Option<seq<Planned>> {
    match CheckCaddyRoute(route)
    case None => None
    case Some(checked) =>
      match PlanOf(checked)
      case None => None
      case Some(plan) =>
        match CaddySite.RenderSite(app, plan)
        case None => None
        case Some(site) => Some(CaddyPlan(roots, app, Some(codec.utf8(site))))
  }

  /** The one mode a managed file ever has. */
  function ModeOf(path: Path): nat {
    var name := if path == [] then "" else path[|path| - 1];
    if name == KEY_FILE then PRIVATE_FILE else if Text.EndsWith(name, ".caddy") then CADDY_SITE_FILE else PUBLIC_FILE
  }

  /** What a request commits once its app name, gate and renderer have accepted it. */
  function PlanFor(codec: Codec, roots: Roots, request: Request): Option<seq<Planned>> {
    match request
    case Apply(app, router, route) =>
      if !IsAppName(app) then None
      else if router == Nginx then NginxApplyPlan(codec, roots, app, route)
      else CaddyApplyPlan(codec, roots, app, route)
    case Remove(app, router) => if IsAppName(app) then Some(RemovePlan(roots, router, app)) else None
    case AskStatus => None
  }

  predicate IsFor(request: Request, router: Router, app: string) {
    !request.AskStatus? && request.router == router && request.app == app
  }

  ghost function Managed(roots: Roots, router: Router, app: string): set<Path> {
    Paths(RemovePlan(roots, router, app))
  }

  ghost function StagedFor(roots: Roots, router: Router, app: string): set<Path> {
    StagedNames(RemovePlan(roots, router, app))
  }

  /** What an accepted nginx route plans, file by file. */
  lemma {:induction false} NginxPlanIs(codec: Codec, roots: Roots, app: string, route: Route)
    requires NginxApplyPlan(codec, roots, app, route).Some?
    ensures CheckNginxRoute(route, codec.checkTls).Some?
    ensures var checked := CheckNginxRoute(route, codec.checkTls).value;
            var plan := NginxApplyPlan(codec, roots, app, route).value;
            && BuildContext(roots.nginx, app, checked).Some?
            && codec.template(BuildContext(roots.nginx, app, checked).value).Some?
            && |plan| == 3
            && plan[0].path == roots.nginx.certRoot + [app, "key.pem"]
            && plan[1].path == roots.nginx.certRoot + [app, "fullchain.pem"]
            && plan[2] == Planned(roots.nginx.siteRoot + [app + ".conf"], 0x1A4,
                 Some(codec.utf8(codec.template(BuildContext(roots.nginx, app, checked).value).value)))
            && plan[0].mode == 0x180 && plan[1].mode == 0x1A4
    ensures var plan := NginxApplyPlan(codec, roots, app, route).value;
            if route.https == Only
            then && route.tls.Some? && codec.checkTls(route.tls.value).Some?
                 && plan[0].contents == Some(codec.utf8(codec.checkTls(route.tls.value).value.keyPem))
                 && plan[1].contents == Some(codec.utf8(codec.checkTls(route.tls.value).value.certPem))
            else plan[0].contents == None && plan[1].contents == None
  {
    hide CommonOk, BuildContext;
    assert CertDir(roots.nginx, app) + [KEY_FILE] == roots.nginx.certRoot + [app, "key.pem"];
    assert CertDir(roots.nginx, app) + [CERTIFICATE_FILE] == roots.nginx.certRoot + [app, "fullchain.pem"];
  }

  /** Every nginx route the gate accepts is planned, once the template renders it. */
  lemma {:induction false} AcceptedNginxRouteIsPlanned(codec: Codec, roots: Roots, app: string, route: Route)
    requires IsAppName(app) && CleanRoots(roots.nginx) && CheckNginxRoute(route, codec.checkTls).Some?
    ensures var built := BuildContext(roots.nginx, app, CheckNginxRoute(route, codec.checkTls).value);
            && built.Some?
            && (NginxApplyPlan(codec, roots, app, route).Some? <==> codec.template(built.value).Some?)
  {
    GateAndNginxRendererAgree(roots.nginx, app, route, codec.checkTls);
    hide BuildContext, CheckNginxRoute, IsAppName;
  }

  /** Every Caddy route the gate accepts is planned, as one file whose text reads back as the app and its route. */
  lemma {:induction false} AcceptedCaddyRouteIsPlanned(codec: Codec, roots: Roots, app: string, route: Route)
    requires IsAppName(app) && CheckCaddyRoute(route).Some?
    ensures var plan := PlanOf(CheckCaddyRoute(route).value);
            && plan.Some?
            && exists site: string ::
                 && CaddySite.ParseSite(site) == Some((app, plan.value))
                 && CaddyApplyPlan(codec, roots, app, route) ==
                    Some([Planned(roots.caddySites + [app + ".caddy"], 0x1A0, Some(codec.utf8(site)))])
  {
    GateAndCaddyPlanAgree(route);
    var plan := PlanOf(CheckCaddyRoute(route).value);
    CaddySite.SiteReadsBack(app, plan.value);
    hide CaddySite.RenderSite, CaddySite.ParseSite, PlanOf, CheckCaddyRoute, IsAppName;
    var site := CaddySite.RenderSite(app, plan.value).value;
    assert CaddySite.ParseSite(site) == Some((app, plan.value));
  }

  // ---- Every path says whose it is ----

  datatype Owner = Owner(router: Router, app: string, staged: bool)

  /** Reads the router, app and role of a path off its last two components alone. */
  function OwnerOf(path: Path): Option<Owner> {
    if |path| < 2 then
      if |path| == 1 then SiteOwner(path[0]) else None
    else
      var last, dir := path[|path| - 1], path[|path| - 2];
      if last == KEY_FILE || last == CERTIFICATE_FILE then Some(Owner(Nginx, dir, false))
      else if last == KEY_FILE + ".new" || last == CERTIFICATE_FILE + ".new" then Some(Owner(Nginx, dir, true))
      else SiteOwner(last)
  }

  function SiteOwner(name: string): Option<Owner> {
    if Text.EndsWith(name, ".conf") then Some(Owner(Nginx, name[..|name| - 5], false))
    else if Text.EndsWith(name, ".caddy") then Some(Owner(Caddy, name[..|name| - 6], false))
    else if Text.EndsWith(name, ".conf.new") then Some(Owner(Nginx, name[..|name| - 9], true))
    else if Text.EndsWith(name, ".caddy.new") then Some(Owner(Caddy, name[..|name| - 10], true))
    else None
  }

  lemma {:induction false} SiteOwnerOf(app: string)
    ensures SiteOwner(app + ".conf") == Some(Owner(Nginx, app, false))
    ensures SiteOwner(app + ".caddy") == Some(Owner(Caddy, app, false))
    ensures SiteOwner(app + ".conf" + ".new") == Some(Owner(Nginx, app, true))
    ensures SiteOwner(app + ".caddy" + ".new") == Some(Owner(Caddy, app, true))
  {
    var conf, caddy, conf', caddy' := app + ".conf", app + ".caddy", app + ".conf" + ".new", app + ".caddy" + ".new";
    assert conf[|app|..] == ".conf" && conf[..|app|] == app;
    assert caddy[|app|..] == ".caddy" && caddy[..|app|] == app;
    assert conf'[|app|..] == ".conf.new" && conf'[..|app|] == app;
    assert caddy'[|app|..] == ".caddy.new" && caddy'[..|app|] == app;
    assert conf[|conf| - 1] == 'f' && caddy[|caddy| - 1] == 'y';
    assert conf'[|conf'| - 1] == 'w' && caddy'[|caddy'| - 1] == 'w';
    assert conf'[|conf'| - 5] == 'f' && caddy'[|caddy'| - 5] == 'y';
  }

  lemma {:induction false} SitePathOwner(root: Path, name: string, app: string)
    requires SiteOwner(name).Some? && SiteOwner(name).value.app == app
    requires name[|name| - 1] != 'm' && (|name| >= 5 && name[|name| - 1] == 'w' ==> name[|name| - 5] != 'm')
    ensures OwnerOf(root + [name]) == SiteOwner(name)
  {
    var path := root + [name];
    assert path[|path| - 1] == name;
    assert KEY_FILE[6] == 'm' && CERTIFICATE_FILE[12] == 'm';
    assert (KEY_FILE + ".new")[6] == 'm' && (CERTIFICATE_FILE + ".new")[12] == 'm';
  }

  lemma {:induction false} CertPathOwner(root: Path, app: string, name: string, staged: bool)
    requires name in (if staged then {KEY_FILE + ".new", CERTIFICATE_FILE + ".new"} else {KEY_FILE, CERTIFICATE_FILE})
    ensures OwnerOf(root + [app, name]) == Some(Owner(Nginx, app, staged))
  {
    var path := root + [app, name];
    assert path[|path| - 1] == name && path[|path| - 2] == app;
    assert KEY_FILE[6] == 'm' && CERTIFICATE_FILE[12] == 'm';
    assert |KEY_FILE + ".new"| == 11 && |CERTIFICATE_FILE + ".new"| == 17;
  }

  lemma {:induction false} StagedOf(root: Path, name: string)
    ensures Staged(root + [name]) == root + [name + ".new"]
  {
    var path := root + [name];
    assert path[..|path| - 1] == root && path[|path| - 1] == name;
  }

  lemma {:induction false} PlannedOwner(roots: Roots, router: Router, app: string, i: nat)
    requires i < |RemovePlan(roots, router, app)|
    ensures var path := RemovePlan(roots, router, app)[i].path;
            && OwnerOf(path) == Some(Owner(router, app, false))
            && OwnerOf(Staged(path)) == Some(Owner(router, app, true))
  {
    SiteOwnerOf(app);
    match router {
      case Caddy =>
        StagedOf(roots.caddySites, app + ".caddy");
        SitePathOwner(roots.caddySites, app + ".caddy", app);
        SitePathOwner(roots.caddySites, app + ".caddy" + ".new", app);
      case Nginx =>
        if i == 2 {
          StagedOf(roots.nginx.siteRoot, app + ".conf");
          SitePathOwner(roots.nginx.siteRoot, app + ".conf", app);
          SitePathOwner(roots.nginx.siteRoot, app + ".conf" + ".new", app);
        } else {
          var name := if i == 0 then KEY_FILE else CERTIFICATE_FILE;
          StagedOf(CertDir(roots.nginx, app), name);
          assert CertDir(roots.nginx, app) + [name] == roots.nginx.certRoot + [app, name];
          assert CertDir(roots.nginx, app) + [name + ".new"] == roots.nginx.certRoot + [app, name + ".new"];
          CertPathOwner(roots.nginx.certRoot, app, name, false);
          CertPathOwner(roots.nginx.certRoot, app, name + ".new", true);
        }
    }
  }

  /** Every file a request may touch names its router and app, for all roots: the helper's requests cannot collide. */
  lemma {:induction false} PathsNameTheirOwner(roots: Roots, router: Router, app: string)
    ensures forall path <- Managed(roots, router, app) :: OwnerOf(path) == Some(Owner(router, app, false))
    ensures forall path <- StagedFor(roots, router, app) :: OwnerOf(path) == Some(Owner(router, app, true))
  {
    var plan := RemovePlan(roots, router, app);
    forall path | path in Managed(roots, router, app)
      ensures OwnerOf(path) == Some(Owner(router, app, false))
    {
      var i :| 0 <= i < |plan| && plan[i].path == path;
      PlannedOwner(roots, router, app, i);
    }
    forall path | path in StagedFor(roots, router, app)
      ensures OwnerOf(path) == Some(Owner(router, app, true))
    {
      var i :| 0 <= i < |plan| && Staged(plan[i].path) == path;
      PlannedOwner(roots, router, app, i);
    }
  }

  /** Requests for different apps or routers touch disjoint paths, staged names included. */
  lemma {:induction false} Isolation(roots: Roots, router: Router, app: string, router': Router, app': string)
    requires router != router' || app != app'
    ensures Managed(roots, router, app) + StagedFor(roots, router, app)
         !! Managed(roots, router', app') + StagedFor(roots, router', app')
  {
    PathsNameTheirOwner(roots, router, app);
    PathsNameTheirOwner(roots, router', app');
  }

  /** `plan` covers exactly the app's files, each with its fixed mode. */
  ghost predicate PlanShape(roots: Roots, router: Router, app: string, plan: seq<Planned>) {
    var blank := RemovePlan(roots, router, app);
    |plan| == |blank| && forall i | 0 <= i < |plan| :: plan[i].path == blank[i].path && plan[i].mode == blank[i].mode
  }

  lemma {:induction false} PathsWithin(plan: seq<Planned>, blank: seq<Planned>)
    requires |plan| == |blank| && forall i | 0 <= i < |plan| :: plan[i].path == blank[i].path
    ensures Paths(plan) <= Paths(blank)
  {
    forall path | path in Paths(plan)
      ensures path in Paths(blank)
    {
      var i :| 0 <= i < |plan| && plan[i].path == path;
      assert blank[i] in blank;
    }
  }

  lemma {:induction false} StagedWithin(plan: seq<Planned>, blank: seq<Planned>)
    requires |plan| == |blank| && forall i | 0 <= i < |plan| :: plan[i].path == blank[i].path
    ensures StagedNames(plan) <= StagedNames(blank)
  {
    hide Staged;
    forall path | path in StagedNames(plan)
      ensures path in StagedNames(blank)
    {
      var i :| 0 <= i < |plan| && Staged(plan[i].path) == path;
      assert blank[i] in blank;
    }
  }

  /** Plans with the same paths, in the same places, cover the same set of them. */
  lemma {:induction false} SamePaths(plan: seq<Planned>, blank: seq<Planned>)
    requires |plan| == |blank| && forall i | 0 <= i < |plan| :: plan[i].path == blank[i].path
    ensures Paths(plan) == Paths(blank) && StagedNames(plan) == StagedNames(blank)
  {
    hide Paths, StagedNames;
    PathsWithin(plan, blank);
    PathsWithin(blank, plan);
    StagedWithin(plan, blank);
    StagedWithin(blank, plan);
  }

  lemma {:induction false} ShapeHasNoClash(roots: Roots, router: Router, app: string, plan: seq<Planned>)
    requires PlanShape(roots, router, app, plan)
    ensures WellPlanned(plan)
  {
    hide RemovePlan, OwnerOf;
    DistinctPaths(roots, router, app);
    forall i, j | 0 <= i < |plan| && 0 <= j < |plan|
      ensures plan[i].path != Staged(plan[j].path)
    {
      PlannedOwner(roots, router, app, i);
      PlannedOwner(roots, router, app, j);
    }
  }

  lemma {:induction false} ShapeModes(roots: Roots, router: Router, app: string, plan: seq<Planned>)
    requires PlanShape(roots, router, app, plan)
    ensures forall each <- plan :: each.mode == ModeOf(each.path)
  {
    hide RemovePlan, ModeOf;
    PlannedModes(roots, router, app);
    forall each | each in plan
      ensures each.mode == ModeOf(each.path)
    {
      var i :| 0 <= i < |plan| && plan[i] == each;
      assert RemovePlan(roots, router, app)[i] in RemovePlan(roots, router, app);
    }
  }

  lemma {:induction false} ShapePaths(roots: Roots, router: Router, app: string, plan: seq<Planned>)
    requires PlanShape(roots, router, app, plan)
    ensures Paths(plan) == Managed(roots, router, app) && StagedNames(plan) == StagedFor(roots, router, app)
    ensures WellPlanned(plan)
    ensures forall each <- plan :: each.mode == ModeOf(each.path)
  {
    hide RemovePlan, Paths, StagedNames, WellPlanned, ModeOf;
    SamePaths(plan, RemovePlan(roots, router, app));
    ShapeHasNoClash(roots, router, app, plan);
    ShapeModes(roots, router, app, plan);
  }

  lemma {:induction false} PlannedModes(roots: Roots, router: Router, app: string)
    ensures forall each <- RemovePlan(roots, router, app) :: each.mode == ModeOf(each.path)
  {
    ModesOfNames(roots.nginx.siteRoot, app);
    ModesOfNames(roots.caddySites, app);
    ModesOfNames(CertDir(roots.nginx, app), app);
    hide ModeOf;
  }

  lemma {:induction false} OtherEnd(name: string, suffix: string)
    requires name != "" && suffix != "" && name[|name| - 1] != suffix[|suffix| - 1]
    ensures !Text.EndsWith(name, suffix) && name != suffix
  {
    if |suffix| <= |name| {
      assert name[|name| - |suffix|..][|suffix| - 1] == name[|name| - 1];
    }
  }

  lemma {:induction false} ModesOfNames(dir: Path, app: string)
    ensures ModeOf(dir + [KEY_FILE]) == PRIVATE_FILE && ModeOf(dir + [CERTIFICATE_FILE]) == PUBLIC_FILE
    ensures ModeOf(dir + [app + ".conf"]) == PUBLIC_FILE && ModeOf(dir + [app + ".caddy"]) == CADDY_SITE_FILE
  {
    var conf, caddy, suffix := app + ".conf", app + ".caddy", ".caddy";
    assert conf[|conf| - 1] == 'f' && caddy[|caddy| - 1] == 'y' && suffix[|suffix| - 1] == 'y';
    assert KEY_FILE[|KEY_FILE| - 1] == 'm' && CERTIFICATE_FILE[|CERTIFICATE_FILE| - 1] == 'm';
    assert |KEY_FILE| != |CERTIFICATE_FILE|;
    OtherEnd(conf, suffix);
    OtherEnd(conf, KEY_FILE);
    OtherEnd(caddy, KEY_FILE);
    OtherEnd(CERTIFICATE_FILE, suffix);
    assert Text.EndsWith(caddy, suffix) by {
      assert caddy[|app|..] == suffix;
    }
    hide Text.EndsWith;
  }

  lemma {:induction false} DistinctPaths(roots: Roots, router: Router, app: string)
    ensures var plan := RemovePlan(roots, router, app);
            forall i, j | 0 <= i < j < |plan| :: plan[i].path != plan[j].path
  {
    var plan := RemovePlan(roots, router, app);
    if router == Nginx {
      var key, cert, site := plan[0].path, plan[1].path, plan[2].path;
      assert key[|key| - 1] == KEY_FILE && cert[|cert| - 1] == CERTIFICATE_FILE && site[|site| - 1] == app + ".conf";
      assert |KEY_FILE| == 7 && |CERTIFICATE_FILE| == 13;
      assert KEY_FILE[6] == 'm' && CERTIFICATE_FILE[12] == 'm' && (app + ".conf")[|app| + 4] == 'f';
    }
  }

  lemma {:induction false} PlanForShape(codec: Codec, roots: Roots, request: Request)
    requires PlanFor(codec, roots, request).Some?
    ensures !request.AskStatus? && IsAppName(request.app)
    ensures PlanShape(roots, request.router, request.app, PlanFor(codec, roots, request).value)
  {
  }
}
