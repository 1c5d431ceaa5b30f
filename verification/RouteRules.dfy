/**
 Which routes the helper accepts, said field by field, and what the nginx
 templates are given for one (crates/riku-route/src/check.rs, check_text.rs,
 crates/riku-util/src/domain.rs, crates/riku-nginx/src/route_site.rs).
 */
module RouteRules {
  import opened Wrappers
  import opened Text
  import opened RouteGate

  // ---- Names ----

  /** A label of section 2.3.4 of RFC 1035 under the letters of section 2.1 of RFC 1123, in lowercase. */
  predicate IsLabel(part: string) {
    && 1 <= |part| <= 63
    && (forall c <- part :: 'a' <= c <= 'z' || '0' <= c <= '9' || c == '-')
    && part[0] != '-' && part[|part| - 1] != '-'
  }

  /** At most 253 characters: labels with dots between them, the first of which may be a star. */
  ghost predicate IsHostname(host: string) {
    && 1 <= |host| <= 253
    && exists labels: seq<string> :: labels != [] && HasLabels(host, labels)
  }

  ghost predicate HasLabels(host: string, labels: seq<string>) {
    && host == Join(labels, ".")
    && forall i | 0 <= i < |labels| :: (i == 0 && labels[i] == "*") || IsLabel(labels[i])
  }

  lemma {:induction false} LabelsAreSplit(host: string, labels: seq<string>)
    requires labels != [] && HasLabels(host, labels)
    ensures Split(host, ".") == labels
  {
    forall part | part in labels
      ensures '.' !in part
    {
      var i :| 0 <= i < |labels| && labels[i] == part;
    }
    SplitJoin(labels, ".");
  }

  /** A domain parses if and only if it is a hostname but for upper case, and then to its lowercase form. */
  lemma {:induction false} DomainParsesIff(raw: string)
    ensures ParseDomain(raw) == if IsHostname(ToAsciiLower(raw)) then Some(ToAsciiLower(raw)) else None
  {
    var host := ToAsciiLower(raw);
    if ParseDomain(raw).Some? {
      JoinSplit(host, ".");
      assert HasLabels(host, Split(host, "."));
    }
    if IsHostname(host) {
      var labels: seq<string> :| labels != [] && HasLabels(host, labels);
      LabelsAreSplit(host, labels);
    }
  }

  lemma {:induction false} ExactDomainIff(raw: string)
    ensures ParseDomain(raw) == Some(raw) <==> IsHostname(raw)
  {
    DomainParsesIff(raw);
    if IsHostname(raw) {
      HostnamesAreLower(raw);
    }
  }

  lemma {:induction false} HostnamesAreLower(host: string)
    requires IsHostname(host)
    ensures ToAsciiLower(host) == host
  {
    var labels: seq<string> :| labels != [] && HasLabels(host, labels);
    forall c | c in host
      ensures !('A' <= c <= 'Z')
    {
      JoinChars(labels, ".", c);
      if c != '.' {
        var part :| part in labels && c in part;
        var i :| 0 <= i < |labels| && labels[i] == part;
      }
    }
    forall i | 0 <= i < |host|
      ensures ToAsciiLower(host)[i] == host[i]
    {
      assert host[i] in host;
    }
  }

  /** An accepted app name is one plain path component; every name of letters, digits, `_` and `-` that starts with a letter or digit is accepted. */
  lemma {:induction false} AppNamesArePlain(app: string)
    ensures IsAppName(app) ==>
              && app != "" && '/' !in app && app != "." && app != ".." && app[0] != '-' && app[0] != '.'
              && !Contains(app, "..") && !EndsWith(app, ".git")
    ensures app != "" && IsAlnum(app[0]) && (forall c <- app :: IsAlnum(c) || c == '_' || c == '-') ==> IsAppName(app)
  {
    if app != "" && forall c <- app :: IsAlnum(c) || c == '_' || c == '-' {
      NotContained(app, "..");
      assert |app| >= 4 ==> app[|app| - 4..][0] == app[|app| - 4] && app[|app| - 4] in app;
    }
  }

  lemma {:induction false} NotContained(s: string, part: string)
    requires part != "" && part[0] !in s
    ensures !Contains(s, part)
  {
    FindNothing(s, part);
  }

  // ---- What the gates accept ----

  /** A copy of this host: a loopback address with a port, or a numbered or the default socket. */
  predicate IsLocal(backend: RouteBackend) {
    match backend
    case Tcp(V4(a, _, _, _), port) => a == 127 && port >= 1
    case Tcp(Loopback6, port) => port >= 1
    case Tcp(Other6(_), _) => false
    case UnixCopy(copy) => copy >= 1
    case UnixDefault => true
  }

  predicate IsLocation(prefix: string) {
    && |prefix| >= 1 && prefix[0] == '/'
    && forall c <- prefix :: !IsWhite(c) && !IsControl(c) && c !in ";{}#\"'$`\\"
  }

  ghost predicate CommonRules(route: Route) {
    && |route.domains| >= 1 && (forall name <- route.domains :: name == "_" || IsHostname(name))
    && (|route.backends| == 0 ==> route.kind == Static && route.https == AlsoPlainHttp)
    && (forall each <- route.backends :: IsLocal(each))
    && (route.listenPort == 80 || route.listenPort >= 1024)
    && (forall prefix <- route.staticPaths :: IsLocation(prefix))
  }

  lemma {:induction false} CommonOkIff(route: Route)
    ensures CommonOk(route) <==> CommonRules(route)
  {
    forall name | name in route.domains
      ensures ParseDomain(name) == Some(name) <==> IsHostname(name)
    {
      ExactDomainIff(name);
    }
    hide ParseDomain, IsHostname;
    forall each | each in route.backends
      ensures BackendOk(each) <==> IsLocal(each)
    {
    }
    forall prefix | prefix in route.staticPaths
      ensures LocationOk(prefix) <==> IsLocation(prefix)
    {
    }
  }

  ghost predicate NginxRules(route: Route, checkTls: Tls -> Option<Tls>) {
    && CommonRules(route)
    && (route.https == Only ==> route.tls.Some?)
    && (route.tls.Some? ==> checkTls(route.tls.value).Some?)
  }

  /**
   nginx is given a route if and only if it keeps these rules: an HTTPS-only route
   has a pair, and a pair passes the PEM check. The route is then the one that was
   sent, with the pair as that check left it.
   */
  lemma {:induction false} NginxGateIs(route: Route, checkTls: Tls -> Option<Tls>)
    ensures CheckNginxRoute(route, checkTls).Some? <==> NginxRules(route, checkTls)
    ensures NginxRules(route, checkTls) && route.tls.None? ==> CheckNginxRoute(route, checkTls) == Some(route)
    ensures NginxRules(route, checkTls) && route.tls.Some? ==>
              CheckNginxRoute(route, checkTls) == Some(route.(tls := checkTls(route.tls.value)))
  {
    CommonOkIff(route);
    hide CommonOk, CommonRules;
  }

  ghost predicate CaddyRules(route: Route) {
    && CommonRules(route)
    && route.tls == None && !route.allowGitFolders && route.listenPort == 80
    && route.kind == Plain && route.staticPaths == []
    && (forall each <- route.backends :: each.Tcp?)
    && (forall name <- route.domains :: name != "_")
  }

  /** Caddy is given a route if and only if it keeps these rules, and then the one that was sent. */
  lemma {:induction false} CaddyGateIs(route: Route)
    ensures CheckCaddyRoute(route) == if CaddyRules(route) then Some(route) else None
  {
    CommonOkIff(route);
    hide CommonOk, CommonRules;
    assert CATCH_ALL_NAME in route.domains <==> !(forall name <- route.domains :: name != "_");
  }

  // ---- What the templates are given ----

  /**
   The rest of what the nginx template of an accepted route is given: the template
   of its kind, its port as text, the files its own directories are to hold, and
   its flags.
   */
  lemma {:induction false} ContextIs(roots: NginxRoots, app: string, route: Route)
    requires BuildContext(roots, app, route).Some?
    ensures var context := BuildContext(roots, app, route).value;
            && context.app == app && context.ipv6 == roots.ipv6
            && context.template ==
               (if route.https == Only then "nginx_https_only.conf.tera"
                else if route.kind == Wsgi then "nginx_wsgi.conf.tera"
                else if route.kind == Portmap then "nginx_portmap.conf.tera"
                else if route.kind == Static then "nginx_static.conf.tera"
                else "nginx.conf.tera")
            && ParseUnsigned(context.port, U16_MAX) == Some(route.listenPort)
            && context.certificate == PathText(roots.certRoot + [app, "fullchain.pem"])
            && context.certificateKey == PathText(roots.certRoot + [app, "key.pem"])
            && context.documentRoot == PathText(roots.staticRoot + [app, "root"])
            && context.acme == PathText(roots.acmeRoot)
            && context.allowGitFolders == route.allowGitFolders && (context.wsgi <==> route.kind == Wsgi)
  {
    hide Join, PathText, Addresses, NginxBackends, Decimal, ParseUnsigned;
    ParseDecimal(route.listenPort, U16_MAX);
    assert CertDir(roots, app) + [CERTIFICATE_FILE] == roots.certRoot + [app, "fullchain.pem"];
    assert CertDir(roots, app) + [KEY_FILE] == roots.certRoot + [app, "key.pem"];
  }
}
