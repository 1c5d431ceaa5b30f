/**
 The Caddy site file (crates/riku-caddy/src/site.rs) and a reader for it that
 shows the rendered text is unambiguous.
 */
module CaddySite {
  import opened Wrappers
  import opened Text
  import opened RouteGate

  const HEADER := "# riku app: "
  const PLAIN_HTTP_SCHEME := "http://"
  const OPEN := " {"
  const PROXY := "\treverse_proxy "

  function Prefixed(domains: seq<string>): (out: seq<string>)
    ensures |out| == |domains| && forall i | 0 <= i < |out| :: out[i] == PLAIN_HTTP_SCHEME + domains[i]
  {
    seq(|domains|, i requires 0 <= i < |domains| => PLAIN_HTTP_SCHEME + domains[i])
  }

  function SiteAddresses(plan: RoutePlan): seq<string> {
    match plan.https
    case Only => plan.domains
    case AlsoPlainHttp => plan.domains + Prefixed(plan.domains)
  }

  function ShowBackends(backends: seq<Backend>): (out: seq<string>)
    ensures |out| == |backends| && forall i | 0 <= i < |out| :: out[i] == ShowBackend(backends[i])
  {
    seq(|backends|, i requires 0 <= i < |backends| => ShowBackend(backends[i]))
  }

  function Upstreams(plan: RoutePlan): Option<string> {
    if plan.backends == [] || exists each <- plan.backends :: each.UnixBackend? then None
    else Some(Join(ShowBackends(plan.backends), " "))
  }

  function RenderSite(app: string, plan: RoutePlan): Option<string> {
    match Upstreams(plan)
    case None => None
    case Some(upstreams) =>
      Some(Unlines([HEADER + app, Join(SiteAddresses(plan), ", ") + OPEN, PROXY + upstreams, "}"]))
  }

  /** A plan has no site text if and only if it has no backend or one on a unix socket. */
  lemma {:induction false} NoSiteIff(app: string, plan: RoutePlan)
    ensures RenderSite(app, plan).None? <==>
            |plan.backends| == 0 || exists i | 0 <= i < |plan.backends| :: plan.backends[i].UnixBackend?
  {
    forall i | 0 <= i < |plan.backends|
      ensures plan.backends[i] in plan.backends
    {
    }
  }

  /** The text of a site, line by line as Caddy reads it, and the addresses it is for. */
  lemma {:induction false} SiteTextIs(app: string, plan: RoutePlan)
    requires RenderSite(app, plan).Some?
    ensures RenderSite(app, plan).value ==
            "# riku app: " + app + "\n" + (Join(SiteAddresses(plan), ", ") + " {") + "\n"
            + ("\treverse_proxy " + Join(ShowBackends(plan.backends), " ")) + "\n" + "}" + "\n"
    ensures var n := |plan.domains|;
            && |SiteAddresses(plan)| == (if plan.https == Only then n else 2 * n)
            && (forall i | 0 <= i < n :: SiteAddresses(plan)[i] == plan.domains[i])
            && (plan.https == AlsoPlainHttp ==>
                  forall i | 0 <= i < n :: SiteAddresses(plan)[n + i] == "http://" + plan.domains[i])
  {
    FourLines("# riku app: " + app, Join(SiteAddresses(plan), ", ") + " {",
              "\treverse_proxy " + Join(ShowBackends(plan.backends), " "), "}");
  }

  lemma {:induction false} FourLines(a: string, b: string, c: string, d: string)
    ensures Unlines([a, b, c, d]) == a + "\n" + b + "\n" + c + "\n" + d + "\n"
  {
    assert [a, b, c, d][1..] == [b, c, d] && [b, c, d][1..] == [c, d] && [c, d][1..] == [d] && [d][1..] == [];
    assert Unlines([d]) == d + "\n";
    assert Unlines([c, d]) == c + "\n" + (d + "\n");
    assert Unlines([b, c, d]) == b + "\n" + (c + "\n" + (d + "\n"));
  }

  // ---- A reader ----

  function ParseV4(parts: seq<string>): Option<Ip> {
    if |parts| != 4 then None
    else
      match (ParseUnsigned(parts[0], 255), ParseUnsigned(parts[1], 255),
             ParseUnsigned(parts[2], 255), ParseUnsigned(parts[3], 255))
      case (Some(a), Some(b), Some(c), Some(d)) =>
        if a < 256 && b < 256 && c < 256 && d < 256 then Some(V4(a, b, c, d)) else None
      case _ => None
  }

  function ParseBackend(text: string): Option<Backend> {
    var v6 := "[::1]:";
    var (host, port) :=
      if StartsWith(text, v6) then (Some(Loopback6), text[|v6|..])
      else
        match SplitOnce(text, ":")
        case Some((host, port)) => (ParseV4(Split(host, ".")), port)
        case None => (None, "");
    match (host, ParseUnsigned(port, U16_MAX))
    case (Some(ip), Some(n)) => if n <= U16_MAX then Some(TcpBackend(ip, n)) else None
    case _ => None
  }

  function ParseBackends(texts: seq<string>): Option<seq<Backend>> {
    if texts == [] then Some([])
    else
      match (ParseBackend(texts[0]), ParseBackends(texts[1..]))
      case (Some(first), Some(rest)) => Some([first] + rest)
      case _ => None
  }

  /** The address list says its HTTPS policy: its last entry names the plain scheme or it does not. */
  function ParseAddresses(line: string): (seq<string>, HttpsPolicy) {
    var addresses := Split(line, ", ");
    if StartsWith(addresses[|addresses| - 1], PLAIN_HTTP_SCHEME)
    then (addresses[..|addresses| / 2], AlsoPlainHttp)
    else (addresses, Only)
  }

  function ParseLines(lines: seq<string>): Option<(string, RoutePlan)> {
    if |lines| == 4 && StartsWith(lines[0], HEADER) && EndsWith(lines[1], OPEN) && StartsWith(lines[2], PROXY)
    then
      var (domains, https) := ParseAddresses(lines[1][..|lines[1]| - |OPEN|]);
      match ParseBackends(Split(lines[2][|PROXY|..], " "))
      case Some(backends) => Some((lines[0][|HEADER|..], RoutePlan(domains, https, backends)))
      case None => None
    else None
  }

  function ParseSite(text: string): Option<(string, RoutePlan)> { ParseLines(Lines(text)) }

  // ---- Reading back what was rendered ----

  lemma {:induction false} JoinFour(a: string, b: string, c: string, d: string, sep: string)
    ensures Join([a, b, c, d], sep) == a + sep + b + sep + c + sep + d
  {
    assert [a, b, c, d][1..] == [b, c, d] && [b, c, d][1..] == [c, d] && [c, d][1..] == [d];
    assert Join([c, d], sep) == c + sep + d by { assert Join([d], sep) == d; }
    assert Join([b, c, d], sep) == b + sep + (c + sep + d);
    assert Join([a, b, c, d], sep) == a + sep + (b + sep + (c + sep + d));
  }

  lemma {:induction false} ReadV4(a: U8, b: U8, c: U8, d: U8)
    ensures ParseV4(Split(ShowIp(V4(a, b, c, d)), ".")) == Some(V4(a, b, c, d))
    ensures ':' !in ShowIp(V4(a, b, c, d)) && '[' !in ShowIp(V4(a, b, c, d))
  {
    var parts := [Decimal(a), Decimal(b), Decimal(c), Decimal(d)];
    hide Join, Split, Find, Decimal, ParseUnsigned;
    JoinFour(parts[0], parts[1], parts[2], parts[3], ".");
    SplitJoin(parts, ".");
    ParseDecimal(a, 255);
    ParseDecimal(b, 255);
    ParseDecimal(c, 255);
    ParseDecimal(d, 255);
  }

  lemma {:induction false} ReadBackend(backend: Backend)
    requires backend.TcpBackend? && IsLoopback(backend.host)
    ensures ParseBackend(ShowBackend(backend)) == Some(backend)
    ensures ' ' !in ShowBackend(backend) && '\n' !in ShowBackend(backend)
    ensures ShowBackend(backend) != "" && !EndsWith(ShowBackend(backend), "\r")
  {
    BackendChars(backend);
    ParseDecimal(backend.port, U16_MAX);
    match backend.host
    case V4(a, b, c, d) =>
      hide ParseBackend, ParseV4, ParseUnsigned, Split, Decimal, ShowIp;
      ReadV4(a, b, c, d);
      ReadHostPort(ShowIp(backend.host), Decimal(backend.port));
    case Loopback6 =>
      hide ParseUnsigned, Decimal;
      assert ShowBackend(backend) == "[::1]:" + Decimal(backend.port) by {
        assert "[" + "::1" + "]:" == "[::1]:";
      }
  }

  lemma {:induction false} ReadHostPort(host: string, port: string)
    requires ':' !in host && '[' !in host
    ensures ParseBackend(host + ":" + port) ==
            match (ParseV4(Split(host, ".")), ParseUnsigned(port, U16_MAX))
            case (Some(ip), Some(n)) => if n <= U16_MAX then Some(TcpBackend(ip, n)) else None
            case _ => None
  {
    hide ParseV4, ParseUnsigned, Split;
    var text := host + ":" + port;
    FindAfter(host, ":", port);
    assert text[0] == if host == "" then ':' else host[0];
    assert host != "" ==> host[0] in host;
    assert !StartsWith(text, "[::1]:");
  }

  lemma {:induction false} BackendChars(backend: Backend)
    requires backend.TcpBackend? && IsLoopback(backend.host)
    ensures ' ' !in ShowBackend(backend) && '\n' !in ShowBackend(backend)
    ensures ShowBackend(backend) != "" && !EndsWith(ShowBackend(backend), "\r")
  {
    hide ShowIp, Decimal;
    var text := ShowBackend(backend);
    LoopbackAddressChars(backend.host, backend.port);
    assert text[|text| - 1] in text;
  }

  lemma {:induction false} ReadBackends(backends: seq<Backend>)
    requires forall each <- backends :: each.TcpBackend? && IsLoopback(each.host)
    ensures ParseBackends(ShowBackends(backends)) == Some(backends)
  {
    hide ParseBackend, ShowBackend;
    if backends != [] {
      assert backends[0] in backends;
      ReadBackend(backends[0]);
      assert ShowBackends(backends)[1..] == ShowBackends(backends[1..]);
      ReadBackends(backends[1..]);
      assert backends == [backends[0]] + backends[1..];
    }
  }

  lemma {:induction false} DomainHasNoSeparator(domain: string)
    requires ParseDomain(domain) == Some(domain)
    ensures domain != "" && ',' !in domain && ':' !in domain && '\n' !in domain
  {
    DomainChars(domain);
  }

  lemma {:induction false} AddressesHaveNoSeparator(plan: RoutePlan)
    requires CaddyReady(plan)
    ensures forall each <- SiteAddresses(plan) :: ',' !in each && '\n' !in each
  {
    forall each | each in SiteAddresses(plan)
      ensures ',' !in each && '\n' !in each
    {
      if each in plan.domains {
        DomainHasNoSeparator(each);
      } else {
        var i :| 0 <= i < |plan.domains| && each == PLAIN_HTTP_SCHEME + plan.domains[i];
        DomainHasNoSeparator(plan.domains[i]);
      }
    }
  }

  lemma {:induction false} SchemeHasColon(address: string)
    requires StartsWith(address, PLAIN_HTTP_SCHEME)
    ensures ':' in address
  {
    assert address[4] == ':';
  }

  lemma {:induction false} ReadAddresses(plan: RoutePlan)
    requires CaddyReady(plan)
    ensures ParseAddresses(Join(SiteAddresses(plan), ", ")) == (plan.domains, plan.https)
  {
    var addresses := SiteAddresses(plan);
    AddressesHaveNoSeparator(plan);
    SplitJoin(addresses, ", ");
    var last := addresses[|addresses| - 1];
    if plan.https == Only {
      DomainHasNoSeparator(last);
      if StartsWith(last, PLAIN_HTTP_SCHEME) {
        SchemeHasColon(last);
      }
    } else {
      assert last == PLAIN_HTTP_SCHEME + plan.domains[|plan.domains| - 1];
      assert addresses[..|addresses| / 2] == plan.domains;
    }
  }

  lemma {:induction false} ReadUpstreams(backends: seq<Backend>)
    requires backends != [] && forall each <- backends :: each.TcpBackend? && IsLoopback(each.host)
    ensures var line := Join(ShowBackends(backends), " ");
            && ParseBackends(Split(line, " ")) == Some(backends)
            && '\n' !in line && line != "" && !EndsWith(line, "\r")
  {
    hide ParseBackend, ParseBackends, ShowBackend, Split, Join;
    var shown := ShowBackends(backends);
    forall text | text in shown
      ensures text != "" && ' ' !in text && '\n' !in text && !EndsWith(text, "\r")
    {
      var i :| 0 <= i < |shown| && shown[i] == text;
      ReadBackend(backends[i]);
    }
    ReadBackends(backends);
    SplitJoin(shown, " ");
    NoNewline(shown, " ");
    JoinEnd(shown, " ");
  }

  lemma {:induction false} Parts(head: string, tail: string)
    ensures StartsWith(head + tail, head) && (head + tail)[|head|..] == tail
    ensures EndsWith(head + tail, tail) && (head + tail)[..|head + tail| - |tail|] == head
    ensures tail != "" && !EndsWith(tail, "\r") ==> !EndsWith(head + tail, "\r")
  {
    assert tail != "" ==> (head + tail)[|head + tail| - 1..] == tail[|tail| - 1..];
  }

  lemma {:induction false} SiteLines(app: string, addresses: string, upstreams: string)
    requires app != "" && '\n' !in app && !EndsWith(app, "\r")
    requires '\n' !in addresses
    requires upstreams != "" && '\n' !in upstreams && !EndsWith(upstreams, "\r")
    ensures var lines := [HEADER + app, addresses + OPEN, PROXY + upstreams, "}"];
            Lines(Unlines(lines)) == lines
  {
    Parts(HEADER, app);
    Parts(addresses, OPEN);
    Parts(PROXY, upstreams);
    LinesUnlines([HEADER + app, addresses + OPEN, PROXY + upstreams, "}"]);
  }

  lemma {:induction false} ReadLines(app: string, addresses: string, upstreams: string, backends: seq<Backend>)
    requires ParseBackends(Split(upstreams, " ")) == Some(backends)
    ensures ParseLines([HEADER + app, addresses + OPEN, PROXY + upstreams, "}"])
         == Some((app, RoutePlan(ParseAddresses(addresses).0, ParseAddresses(addresses).1, backends)))
  {
    Parts(HEADER, app);
    Parts(addresses, OPEN);
    Parts(PROXY, upstreams);
  }

  /** Every plan the gate lets through renders, and the reader recovers app, domains, policy and backends from the text. */
  lemma {:induction false} SiteReadsBack(app: string, plan: RoutePlan)
    requires IsAppName(app) && CaddyReady(plan)
    ensures RenderSite(app, plan).Some?
    ensures ParseSite(RenderSite(app, plan).value) == Some((app, plan))
  {
    AppNameSafe(app);
    assert app[|app| - 1] in app;
    ReadAddresses(plan);
    AddressesHaveNoSeparator(plan);
    NoNewline(SiteAddresses(plan), ", ");
    ReadUpstreams(plan.backends);
    SiteLines(app, Join(SiteAddresses(plan), ", "), Join(ShowBackends(plan.backends), " "));
    ReadLines(app, Join(SiteAddresses(plan), ", "), Join(ShowBackends(plan.backends), " "), plan.backends);
  }

  lemma {:induction false} NoNewline(parts: seq<string>, sep: string)
    requires forall part <- parts :: '\n' !in part
    requires '\n' !in sep
    ensures '\n' !in Join(parts, sep)
  {
    if '\n' in Join(parts, sep) {
      JoinChars(parts, sep, '\n');
    }
  }

  lemma {:induction false} JoinEnd(parts: seq<string>, sep: string)
    requires parts != [] && forall part <- parts :: part != "" ==> !EndsWith(part, "\r")
    requires parts[|parts| - 1] != ""
    ensures Join(parts, sep) != "" && !EndsWith(Join(parts, sep), "\r")
  {
    assert parts[|parts| - 1] in parts;
    if |parts| > 1 {
      JoinEnd(parts[1..], sep);
      var tail := Join(parts[1..], sep);
      assert Join(parts, sep)[|Join(parts, sep)| - 1] == tail[|tail| - 1];
    }
  }

  /**
   For every pair of routes the Caddy gate accepts, the site files are equal
   exactly when app, domains, policy and backends are equal.
   */
  lemma {:induction false} SitesAreEqualIffRoutesAre(app: string, sent: Route, app': string, sent': Route)
    requires IsAppName(app) && CheckCaddyRoute(sent).Some?
    requires IsAppName(app') && CheckCaddyRoute(sent').Some?
    ensures var plan, plan' := PlanOf(CheckCaddyRoute(sent).value), PlanOf(CheckCaddyRoute(sent').value);
            && plan.Some? && plan'.Some?
            && RenderSite(app, plan.value).Some? && RenderSite(app', plan'.value).Some?
            && (RenderSite(app, plan.value) == RenderSite(app', plan'.value) <==>
                (app, sent.domains, sent.https, sent.backends) == (app', sent'.domains, sent'.https, sent'.backends))
  {
    GateAndCaddyPlanAgree(sent);
    GateAndCaddyPlanAgree(sent');
    var plan, plan' := PlanOf(CheckCaddyRoute(sent).value).value, PlanOf(CheckCaddyRoute(sent').value).value;
    SiteReadsBack(app, plan);
    SiteReadsBack(app', plan');
    if plan == plan' {
      assert |sent.backends| == |sent'.backends|;
      forall i | 0 <= i < |sent.backends|
        ensures sent.backends[i] == sent'.backends[i]
      {
        assert plan.backends[i] == plan'.backends[i];
      }
    }
    if sent.backends == sent'.backends {
      assert plan.backends == plan'.backends;
    }
  }
}
