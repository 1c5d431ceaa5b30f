/**
 Which routes are accepted, and why neither renderer refuses one that is: the
 nginx template context and the Caddy route plan
 (crates/riku-route/src/check.rs, crates/riku-nginx/src/route_site.rs,
 crates/riku-util/src/domain.rs).
 */
module RouteGate {
  import opened Wrappers
  import opened Text

  // ---- Names ----

  predicate EngineSafe(name: string) {
    && name != "" && IsAlnum(name[0])
    && forall c <- name :: IsAlnum(c) || c in "_.-"
  }

  /** The strings `AppName::try_from` accepts. */
  predicate IsAppName(app: string) {
    EngineSafe(app) && !Contains(app, "..") && !EndsWith(app, ".git")
  }

  // ---- Domains ----

  const MAX_DOMAIN_LEN: nat := 253
  const MAX_LABEL_LEN: nat := 63

  function ToAsciiLower(s: string): (t: string)
    ensures |t| == |s|
    ensures forall i | 0 <= i < |s| :: t[i] == if 'A' <= s[i] <= 'Z' then s[i] - 'A' + 'a' else s[i]
  {
    if s == "" then ""
    else [if 'A' <= s[0] <= 'Z' then s[0] - 'A' + 'a' else s[0]] + ToAsciiLower(s[1..])
  }

  predicate LabelChar(c: char) { IsLower(c) || IsDigit(c) || c == '-' }

  predicate ValidLabel(part: string) {
    && 1 <= |part| <= MAX_LABEL_LEN
    && (forall c <- part :: LabelChar(c))
    && part[0] != '-' && part[|part| - 1] != '-'
  }

  /** `Domain::try_from`: the lowercase hostname, or nothing. */
  function ParseDomain(raw: string): Option<string> {
    var host := ToAsciiLower(raw);
    if host == "" || |host| > MAX_DOMAIN_LEN then None
    else
      var labels := Split(host, ".");
      if forall i | 0 <= i < |labels| :: (i == 0 && labels[i] == "*") || ValidLabel(labels[i])
      then Some(host)
      else None
  }

  predicate DomainChar(c: char) { LabelChar(c) || c == '.' || c == '*' }

  lemma {:induction false} SplitChars(s: string, c: char)
    requires c in s
    ensures c == '.' || exists part <- Split(s, ".") :: c in part
  {
    match Find(s, ".")
    case None =>
      assert s in Split(s, ".");
    case Some(i) =>
      assert s == s[..i] + [s[i]] + s[i + 1..];
      FindHits(s, ".");
      var labels := Split(s, ".");
      assert s[..i] == labels[0];
      if c in s[i + 1..] && c != '.' {
        SplitChars(s[i + 1..], c);
        var part :| part in Split(s[i + 1..], ".") && c in part;
        assert labels == [s[..i]] + Split(s[i + 1..], ".");
        assert part in labels;
      }
  }

  /** A parsed domain holds nothing but lowercase letters, digits, `-`, `.` and `*`. */
  lemma {:induction false} DomainChars(raw: string)
    requires ParseDomain(raw).Some?
    ensures ParseDomain(raw).value != "" && forall c <- ParseDomain(raw).value :: DomainChar(c)
  {
    var host := ParseDomain(raw).value;
    forall c | c in host
      ensures DomainChar(c)
    {
      SplitChars(host, c);
    }
  }

  /** Parsing a parsed domain changes nothing. */
  lemma {:induction false} ParseDomainIdempotent(raw: string)
    requires ParseDomain(raw).Some?
    ensures ParseDomain(ParseDomain(raw).value) == ParseDomain(raw)
  {
    var host := ParseDomain(raw).value;
    DomainChars(raw);
    assert ToAsciiLower(host) == host by {
      forall i | 0 <= i < |host|
        ensures ToAsciiLower(host)[i] == host[i]
      {
        assert host[i] in host;
      }
    }
  }

  // ---- Routes ----

  datatype HttpsPolicy = Only | AlsoPlainHttp

  datatype SiteKind = Plain | Portmap | Wsgi | Static

  type U8 = n: nat | n < 256

  /** An IP address. An IPv6 address other than `::1` is kept as its text. */
  datatype Ip = V4(a: U8, b: U8, c: U8, d: U8) | Loopback6 | Other6(text: string)

  predicate IsLoopback(host: Ip) {
    match host
    case V4(a, _, _, _) => a == 127
    case Loopback6 => true
    case Other6(_) => false
  }

  type U16 = n: nat | n <= U16_MAX
  type U32 = n: nat | n <= U32_MAX

  datatype RouteBackend = Tcp(host: Ip, port: U16) | UnixCopy(copy: U32) | UnixDefault

  datatype Tls = Tls(certPem: string, keyPem: string)

  datatype Route = Route(
    domains: seq<string>, https: HttpsPolicy, backends: seq<RouteBackend>, listenPort: U16,
    tls: Option<Tls>, staticPaths: seq<string>, kind: SiteKind, allowGitFolders: bool)

  const HTTP_PORT: U16 := 80
  const FIRST_UNPRIVILEGED_PORT: U16 := 1024
  const CATCH_ALL_NAME := "_"

  /** What has a meaning of its own in an nginx config, so that a value may not hold it. */
  predicate BreaksDirective(c: char) {
    IsControl(c) || c in ";{}#\"'$`\\"
  }

  predicate Clean(s: string) { forall c <- s :: !BreaksDirective(c) }

  // ---- The gate ----

  predicate DomainsOk(route: Route) {
    && route.domains != []
    && forall raw <- route.domains :: raw == CATCH_ALL_NAME || ParseDomain(raw) == Some(raw)
  }

  predicate BackendOk(backend: RouteBackend) {
    match backend
    case Tcp(host, port) => IsLoopback(host) && port != 0
    case UnixCopy(copy) => copy != 0
    case UnixDefault => true
  }

  predicate BackendsOk(route: Route) {
    && (route.backends == [] ==> route.kind == Static && route.https != Only)
    && forall each <- route.backends :: BackendOk(each)
  }

  predicate ListenOk(route: Route) {
    route.listenPort == HTTP_PORT || route.listenPort >= FIRST_UNPRIVILEGED_PORT
  }

  predicate LocationOk(prefix: string) {
    StartsWith(prefix, "/") && forall c <- prefix :: !IsWhite(c) && !BreaksDirective(c)
  }

  predicate CommonOk(route: Route) {
    DomainsOk(route) && BackendsOk(route) && ListenOk(route) && forall prefix <- route.staticPaths :: LocationOk(prefix)
  }

  /** `checkTls` stands for the PEM check, which re-encodes a valid pair. */
  function CheckNginxRoute(route: Route, checkTls: Tls -> Option<Tls>): Option<Route> {
    if !CommonOk(route) then None
    else
      match route.tls
      case Some(pair) =>
        (match checkTls(pair)
         case Some(normal) => Some(route.(tls := Some(normal)))
         case None => None)
      case None => if route.https == Only then None else Some(route)
  }

  predicate CaddyCannotTake(route: Route) {
    || route.tls.Some?
    || route.allowGitFolders
    || route.listenPort != HTTP_PORT
    || route.kind == Wsgi
    || (exists each <- route.backends :: !each.Tcp?)
    || route.kind == Portmap
    || route.kind == Static || route.staticPaths != []
    || CATCH_ALL_NAME in route.domains
  }

  function CheckCaddyRoute(route: Route): Option<Route> {
    if CaddyCannotTake(route) || !CommonOk(route) then None else Some(route.(tls := None))
  }

  // ---- Backends as text ----

  datatype Backend = TcpBackend(host: Ip, port: U16) | UnixBackend(path: string)

  function ShowIp(host: Ip): string {
    match host
    case V4(a, b, c, d) => Decimal(a) + "." + Decimal(b) + "." + Decimal(c) + "." + Decimal(d)
    case Loopback6 => "::1"
    case Other6(text) => text
  }

  function ShowBackend(backend: Backend): string {
    match backend
    case TcpBackend(host, port) =>
      if host.V4? then ShowIp(host) + ":" + Decimal(port) else "[" + ShowIp(host) + "]:" + Decimal(port)
    case UnixBackend(path) => "unix:" + path
  }

  predicate AddressChar(c: char) { IsDigit(c) || c in ".:[]" }

  lemma {:induction false} LoopbackAddressChars(host: Ip, port: U16)
    requires IsLoopback(host)
    ensures forall c <- ShowBackend(TcpBackend(host, port)) :: AddressChar(c)
  {
    forall c | c in ShowBackend(TcpBackend(host, port))
      ensures AddressChar(c)
    {
      match host
      case V4(a, b, x, d) =>
        assert c in Decimal(a) || c in Decimal(b) || c in Decimal(x) || c in Decimal(d) || c in Decimal(port)
            || c == '.' || c == ':';
      case Loopback6 =>
        assert c in Decimal(port) || c in "[::1]:";
    }
  }

  // ---- The nginx renderer ----

  datatype NginxRoots = NginxRoots(
    siteRoot: seq<string>, certRoot: seq<string>, socketRoot: seq<string>, staticRoot: seq<string>,
    acmeRoot: seq<string>, ipv6: bool)

  /** An absolute path as text. */
  function PathText(path: seq<string>): string {
    if path == [] then "" else "/" + path[0] + PathText(path[1..])
  }

  datatype Alias = Alias(location: string, dir: string)

  datatype Context = Context(
    template: string, ipv6: bool, app: string, domains: string, addresses: seq<string>, port: string,
    allowGitFolders: bool, certificate: string, certificateKey: string, acme: string, wsgi: bool,
    aliases: seq<Alias>, documentRoot: string)

  function Sanitize(value: string): Option<string> {
    if Clean(value) then Some(value) else None
  }

  function NginxBackend(roots: NginxRoots, app: string, backend: RouteBackend): Backend {
    match backend
    case Tcp(host, port) => TcpBackend(host, port)
    case UnixCopy(copy) => UnixBackend(PathText(roots.socketRoot + [app + "@" + Decimal(copy) + ".sock"]))
    case UnixDefault => UnixBackend(PathText(roots.socketRoot + [app + ".sock"]))
  }

  predicate IsAsciiWhite(c: char) { c in " \t\n\r" || c as int == 0xC }

  function BackendAddress(backend: Backend): Option<string> {
    var address := ShowBackend(backend);
    if backend.UnixBackend? && exists c <- address :: IsAsciiWhite(c) then None else Sanitize(address)
  }

  function Addresses(backends: seq<Backend>): Option<seq<string>> {
    if backends == [] then Some([])
    else
      match (BackendAddress(backends[0]), Addresses(backends[1..]))
      case (Some(first), Some(rest)) => Some([first] + rest)
      case _ => None
  }

  function NginxBackends(roots: NginxRoots, app: string, backends: seq<RouteBackend>): (out: seq<Backend>)
    ensures |out| == |backends|
    ensures forall i | 0 <= i < |out| :: out[i] == NginxBackend(roots, app, backends[i])
  {
    seq(|backends|, i requires 0 <= i < |backends| => NginxBackend(roots, app, backends[i]))
  }

  /** The directory that the location numbered `index` is an alias for. */
  function StaticPathDir(staticRoot: seq<string>, app: string, index: nat): seq<string> {
    staticRoot + [app, "paths", Decimal(index)]
  }

  function DocumentRoot(staticRoot: seq<string>, app: string): seq<string> {
    staticRoot + [app, "root"]
  }

  function AliasOf(roots: NginxRoots, app: string, locations: seq<string>, index: nat): Alias
    requires index < |locations|
  {
    Alias(locations[index], PathText(StaticPathDir(roots.staticRoot, app, index)))
  }

  /** The aliases of a site, in the order its static paths are numbered. */
  function Aliases(roots: NginxRoots, app: string, locations: seq<string>): Option<seq<Alias>> {
    if forall location <- locations :: Clean(location)
    then Some(seq(|locations|, i requires 0 <= i < |locations| => AliasOf(roots, app, locations, i)))
    else None
  }

  /** `insert_static`: the alias list, filled one location at a time; the first unclean location refuses the site. */
  method InsertStatic(roots: NginxRoots, app: string, locations: seq<string>) returns (aliases: Option<seq<Alias>>)
    ensures aliases == Aliases(roots, app, locations)
    ensures aliases.Some? <==> forall location <- locations :: Clean(location)
  {
    var filled: seq<Alias> := [];
    for i := 0 to |locations|
      invariant forall location <- locations[..i] :: Clean(location)
      invariant |filled| == i && forall k | 0 <= k < i :: filled[k] == AliasOf(roots, app, locations, k)
    {
      var clean := Sanitize(locations[i]);
      if clean.None? {
        assert locations[i] in locations;
        return None;
      }
      filled := filled + [Alias(clean.value, PathText(StaticPathDir(roots.staticRoot, app, i)))];
    }
    assert locations[..|locations|] == locations;
    assert filled == Aliases(roots, app, locations).value;
    return Some(filled);
  }

  function TemplateName(https: HttpsPolicy, kind: SiteKind): string {
    if https == Only then "nginx_https_only.conf.tera"
    else
      match kind
      case Wsgi => "nginx_wsgi.conf.tera"
      case Portmap => "nginx_portmap.conf.tera"
      case Static => "nginx_static.conf.tera"
      case Plain => "nginx.conf.tera"
  }

  const KEY_FILE := "key.pem"
  const CERTIFICATE_FILE := "fullchain.pem"

  function CertDir(roots: NginxRoots, app: string): seq<string> { roots.certRoot + [app] }

  function BuildContext(roots: NginxRoots, app: string, route: Route): Option<Context> {
    match (Sanitize(Join(route.domains, " ")),
           Addresses(NginxBackends(roots, app, route.backends)),
           Aliases(roots, app, route.staticPaths))
    case (Some(domains), Some(addresses), Some(aliases)) =>
      Some(Context(
             TemplateName(route.https, route.kind), roots.ipv6, app, domains, addresses,
             Decimal(route.listenPort), route.allowGitFolders,
             PathText(CertDir(roots, app) + [CERTIFICATE_FILE]), PathText(CertDir(roots, app) + [KEY_FILE]),
             PathText(roots.acmeRoot), route.kind == Wsgi, aliases,
             PathText(DocumentRoot(roots.staticRoot, app))))
    case _ => None
  }

  /** Text that may stand inside a socket path: nothing nginx or the whitespace check would refuse. */
  predicate PathSafe(s: string) { forall c <- s :: !BreaksDirective(c) && !IsAsciiWhite(c) }

  ghost predicate CleanRoots(roots: NginxRoots) {
    forall part <- roots.socketRoot :: PathSafe(part)
  }

  lemma {:induction false} PathTextSafe(path: seq<string>)
    requires forall part <- path :: PathSafe(part)
    ensures PathSafe(PathText(path))
  {
    if path != [] {
      assert path[0] in path;
      PathTextSafe(path[1..]);
    }
  }

  lemma {:induction false} AppNameSafe(app: string)
    requires IsAppName(app)
    ensures PathSafe(app) && '/' !in app && '~' !in app && '@' !in app
  {
  }

  lemma {:induction false} AcceptedBackendRenders(roots: NginxRoots, app: string, backend: RouteBackend)
    requires CleanRoots(roots) && IsAppName(app) && BackendOk(backend)
    ensures BackendAddress(NginxBackend(roots, app, backend)).Some?
  {
    hide PathText, Decimal, IsAppName;
    AppNameSafe(app);
    match backend
    case Tcp(host, port) =>
      LoopbackAddressChars(host, port);
    case UnixCopy(copy) =>
      SocketRenders(roots.socketRoot + [app + "@" + Decimal(copy) + ".sock"]);
    case UnixDefault =>
      SocketRenders(roots.socketRoot + [app + ".sock"]);
  }

  lemma {:induction false} SocketRenders(path: seq<string>)
    requires forall part <- path :: PathSafe(part)
    ensures BackendAddress(UnixBackend(PathText(path))).Some?
  {
    PathTextSafe(path);
    hide PathText;
  }

  lemma {:induction false} AddressesBuild(backends: seq<Backend>)
    requires forall each <- backends :: BackendAddress(each).Some?
    ensures Addresses(backends).Some? && |Addresses(backends).value| == |backends|
    ensures forall i | 0 <= i < |backends| :: BackendAddress(backends[i]) == Some(Addresses(backends).value[i])
  {
    hide BackendAddress;
    if backends != [] {
      assert backends[0] in backends;
      AddressesBuild(backends[1..]);
    }
  }

  lemma {:induction false} AcceptedDomainsClean(route: Route)
    requires DomainsOk(route)
    ensures forall raw <- route.domains :: raw != "" && Clean(raw) && ' ' !in raw
    ensures Clean(Join(route.domains, " "))
    ensures Split(Join(route.domains, " "), " ") == route.domains
  {
    hide Join, Split, ParseDomain;
    forall raw | raw in route.domains
      ensures raw != "" && Clean(raw) && ' ' !in raw
    {
      if raw != CATCH_ALL_NAME {
        DomainChars(raw);
      }
    }
    forall c | c in Join(route.domains, " ")
      ensures !BreaksDirective(c)
    {
      JoinChars(route.domains, " ", c);
    }
    SplitJoin(route.domains, " ");
  }

  /**
   The gate and the nginx renderer never disagree: a route the gate accepts
   always builds a template context. The context lists exactly the route's domains,
   in order the text of each backend's address, and in order each location with
   the numbered directory its files are published in.
   */
  lemma {:induction false} GateAndNginxRendererAgree(
      roots: NginxRoots, app: string, sent: Route, checkTls: Tls -> Option<Tls>)
    requires CleanRoots(roots) && IsAppName(app)
    requires CheckNginxRoute(sent, checkTls).Some?
    ensures var route := CheckNginxRoute(sent, checkTls).value;
            var context := BuildContext(roots, app, route);
            && context.Some?
            && Split(context.value.domains, " ") == sent.domains
            && |context.value.addresses| == |sent.backends|
            && (forall i | 0 <= i < |sent.backends| ::
                  context.value.addresses[i] == ShowBackend(NginxBackend(roots, app, sent.backends[i])))
            && |context.value.aliases| == |sent.staticPaths|
            && (forall i | 0 <= i < |sent.staticPaths| ::
                  context.value.aliases[i] ==
                  Alias(sent.staticPaths[i], PathText(StaticPathDir(roots.staticRoot, app, i))))
  {
    hide Join, Split, PathText, NginxBackend, BackendOk, Decimal;
    var route := CheckNginxRoute(sent, checkTls).value;
    AcceptedDomainsClean(route);
    var backends := NginxBackends(roots, app, route.backends);
    forall each | each in backends
      ensures BackendAddress(each).Some?
    {
      var i :| 0 <= i < |backends| && backends[i] == each;
      assert route.backends[i] in route.backends;
      AcceptedBackendRenders(roots, app, route.backends[i]);
    }
    AddressesBuild(backends);
  }

  lemma {:induction false} AcceptedAddressIsClean(roots: NginxRoots, app: string, backend: RouteBackend)
    requires BackendOk(backend) && BackendAddress(NginxBackend(roots, app, backend)).Some?
    ensures var address := BackendAddress(NginxBackend(roots, app, backend)).value;
            Clean(address) && ' ' !in address
  {
    hide PathText, Decimal;
    if backend.Tcp? {
      LoopbackAddressChars(backend.host, backend.port);
    }
  }

  /**
   No value a route puts into the nginx config unquoted can end its directive,
   and no address, location or single domain holds a space that would start a
   second word. Roots and templates are not request text.
   */
  lemma {:induction false} AcceptedRouteInjectsNothing(
      roots: NginxRoots, app: string, sent: Route, checkTls: Tls -> Option<Tls>)
    requires CleanRoots(roots) && IsAppName(app)
    requires CheckNginxRoute(sent, checkTls).Some?
    ensures var built := BuildContext(roots, app, CheckNginxRoute(sent, checkTls).value);
            && built.Some?
            && Clean(built.value.domains)
            && (forall address <- built.value.addresses :: Clean(address) && ' ' !in address)
            && (forall each <- built.value.aliases ::
                  Clean(each.location) && ' ' !in each.location && StartsWith(each.location, "/"))
            && built.value.certificateKey == PathText(roots.certRoot + [app, KEY_FILE])
  {
    hide BackendAddress, NginxBackend, BackendOk, Addresses;
    var route := CheckNginxRoute(sent, checkTls).value;
    GateAndNginxRendererAgree(roots, app, sent, checkTls);
    var context := BuildContext(roots, app, route).value;
    var backends := NginxBackends(roots, app, route.backends);
    forall each | each in backends
      ensures BackendAddress(each).Some?
    {
      var i :| 0 <= i < |backends| && backends[i] == each;
      assert route.backends[i] in route.backends;
      AcceptedBackendRenders(roots, app, route.backends[i]);
    }
    AddressesBuild(backends);
    forall address | address in context.addresses
      ensures Clean(address) && ' ' !in address
    {
      var i :| 0 <= i < |backends| && context.addresses[i] == address;
      assert route.backends[i] in route.backends;
      AcceptedAddressIsClean(roots, app, route.backends[i]);
    }
    forall each | each in context.aliases
      ensures each.location in route.staticPaths
    {
      var i :| 0 <= i < |context.aliases| && context.aliases[i] == each;
      assert route.staticPaths[i] in route.staticPaths;
    }
    assert CertDir(roots, app) + [KEY_FILE] == roots.certRoot + [app, KEY_FILE];
  }

  // ---- The Caddy plan ----

  datatype RoutePlan = RoutePlan(domains: seq<string>, https: HttpsPolicy, backends: seq<Backend>)

  function CaddyBackend(backend: RouteBackend): Option<Backend> {
    match backend
    case Tcp(host, port) => Some(TcpBackend(host, port))
    case _ => None
  }

  function CaddyBackends(backends: seq<RouteBackend>): Option<seq<Backend>> {
    if backends == [] then Some([])
    else
      match (CaddyBackend(backends[0]), CaddyBackends(backends[1..]))
      case (Some(first), Some(rest)) => Some([first] + rest)
      case _ => None
  }

  function ParseDomainList(raw: seq<string>): Option<seq<string>> {
    if raw == [] then Some([])
    else
      match (ParseDomain(raw[0]), ParseDomainList(raw[1..]))
      case (Some(first), Some(rest)) => Some([first] + rest)
      case _ => None
  }

  function PlanOf(route: Route): Option<RoutePlan> {
    match (ParseDomainList(route.domains), CaddyBackends(route.backends))
    case (Some(domains), Some(backends)) => Some(RoutePlan(domains, route.https, backends))
    case _ => None
  }

  /** What every plan the Caddy gate lets through looks like. */
  ghost predicate CaddyReady(plan: RoutePlan) {
    && plan.domains != [] && (forall domain <- plan.domains :: ParseDomain(domain) == Some(domain))
    && plan.backends != []
    && (forall each <- plan.backends :: each.TcpBackend? && IsLoopback(each.host) && each.port != 0)
  }

  lemma {:induction false} DomainListStays(raw: seq<string>)
    requires forall each <- raw :: ParseDomain(each) == Some(each)
    ensures ParseDomainList(raw) == Some(raw)
  {
    if raw != [] {
      assert raw[0] in raw;
      DomainListStays(raw[1..]);
      assert raw == [raw[0]] + raw[1..];
    }
  }

  lemma {:induction false} TcpBackendsStay(backends: seq<RouteBackend>)
    requires forall each <- backends :: each.Tcp?
    ensures CaddyBackends(backends).Some? && |CaddyBackends(backends).value| == |backends|
    ensures forall i | 0 <= i < |backends| ::
              CaddyBackends(backends).value[i] == TcpBackend(backends[i].host, backends[i].port)
  {
    if backends != [] {
      assert backends[0] in backends;
      TcpBackendsStay(backends[1..]);
    }
  }

  /** A route the Caddy gate accepts always has a plan, with the route's own domains, policy and backends. */
  lemma {:induction false} GateAndCaddyPlanAgree(sent: Route)
    requires CheckCaddyRoute(sent).Some?
    ensures var plan := PlanOf(CheckCaddyRoute(sent).value);
            && plan.Some? && CaddyReady(plan.value)
            && plan.value.domains == sent.domains && plan.value.https == sent.https
            && |plan.value.backends| == |sent.backends|
            && forall i | 0 <= i < |sent.backends| ::
                 sent.backends[i].Tcp?
                 && plan.value.backends[i] == TcpBackend(sent.backends[i].host, sent.backends[i].port)
  {
    DomainListStays(sent.domains);
    TcpBackendsStay(sent.backends);
    var backends := CaddyBackends(sent.backends).value;
    forall each | each in backends
      ensures each.TcpBackend? && IsLoopback(each.host) && each.port != 0
    {
      var i :| 0 <= i < |backends| && backends[i] == each;
      assert sent.backends[i] in sent.backends;
    }
  }
}
