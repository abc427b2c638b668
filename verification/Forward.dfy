/**
  `resolve_forward` (`src/proxy/forward.rs`): from a request to the plan the proxy follows. The
  Consul pick and the upstream TLS probe touch the network and are parameters.
*/
module Forward {
  import opened Prelude
  import opened Text
  import opened Routing
  import opened HostLookup
  import opened SiteConfig
  import EdgeAgreement
  import GeoPolicy
  import Security

  datatype MiddlewareAction = MiddlewareAction(
    stripPrefix: Option<string>, requestHeaders: seq<(string, string)>, responseHeaders: seq<(string, string)>,
    forwardClientIp: bool, geoip: GeoPolicy.GeoIpPolicy, security: Security.SecurityPolicy, edge: EdgePolicy,
    fileRoot: Option<string>)

  datatype ForwardPlan = ForwardPlan(
    peerHost: string, peerPort: nat, upstreamUrl: string, useTls: bool, middleware: MiddlewareAction)

  datatype PlanError = NoRoute | NoConsulEndpoint(service: string) | InvalidPort(address: string)

  datatype PlanResult = Planned(plan: ForwardPlan) | Refused(error: PlanError)

  type ConsulPick = string -> Option<(string, nat)>
  type TlsProbe = (string, nat) -> bool

  // ------------------------------------------------------------- middlewares

  /** The last `StripPrefix`, if any. */
  function LastStrip(mws: seq<Middleware>): Option<string> {
    if mws == [] then None
    else if mws[|mws| - 1].StripPrefix? then Some(mws[|mws| - 1].prefix)
    else LastStrip(mws[..|mws| - 1])
  }

  /** `apply_middlewares`, for the prefix it leaves to strip. */
  method StripOf(mws: seq<Middleware>) returns (strip: Option<string>)
    ensures strip == LastStrip(mws)
  {
    strip := None;
    for i := 0 to |mws|
      invariant strip == LastStrip(mws[..i])
    {
      assert mws[..i + 1][..i] == mws[..i];
      match mws[i] {
        case StripPrefix(prefix) => strip := Some(prefix);
        case _ =>
      }
    }
    assert mws[..|mws|] == mws;
  }

  // -------------------------------------------------------------------- paths

  function PathPart(pathAndQuery: string): string { pathAndQuery[..IndexOf(pathAndQuery, {'?'})] }

  /** The query with its question mark, or nothing. */
  function QueryPart(pathAndQuery: string): string { pathAndQuery[IndexOf(pathAndQuery, {'?'})..] }

  function StripPath(path: string, prefix: string): string {
    var stripped := if StartsWith(path, prefix) then path[|prefix|..] else path;
    if stripped == "" then "/" else stripped
  }

  /** `strip_path_prefix`: the path without the prefix, never empty, the query as it was. */
  function StripPathPrefix(pathAndQuery: string, prefix: string): string {
    StripPath(PathPart(pathAndQuery), prefix) + QueryPart(pathAndQuery)
  }

  function UpstreamPath(route: Route, pathAndQuery: string): string {
    var strip := LastStrip(route.middlewares);
    if strip.Some? then StripPathPrefix(pathAndQuery, strip.value) else pathAndQuery
  }

  function Url(useTls: bool, address: string, path: string): string {
    (if useTls then "https" else "http") + "://" + address + path
  }

  // --------------------------------------------------------------------- plan

  /** Position after the last colon. */
  function LastColon(s: string): (i: Option<nat>)
    ensures i.Some? ==> i.value < |s| && s[i.value] == ':' && Free(s[i.value + 1..], {':'})
    ensures i.None? ==> Free(s, {':'})
  {
    if s == "" then None
    else if s[|s| - 1] == ':' then Some(|s| - 1)
    else LastColon(s[..|s| - 1])
  }

  /** `parse_backend_peer`. */
  function Peer(address: string, fallback: nat): Option<(string, nat)> {
    var i := LastColon(address);
    if i.None? then Some((address, fallback)) else
      var port := ParseUnsigned(address[i.value + 1..], 65535);
      if port.None? then None else Some((address[..i.value], port.value))
  }

  function HostPort(host: string, port: nat): string { host + ":" + Print(port) }

  datatype Target =
    | Target(host: string, port: nat, url: string, useTls: bool, fileRoot: Option<string>)
    | NoTarget(error: PlanError)

  /** Where a backend sends the request, or why it cannot. */
  function Destination(backend: Backend, path: string, consul: ConsulPick, probe: TlsProbe): (t: Target)
    ensures t.NoTarget? ==> t.error != NoRoute
  {
    if StartsWith(backend.address, "file:") then
      var root := backend.address[5..];
      Target("127.0.0.1", 9, "file:" + root + path, false, Some(root))
    else if StartsWith(backend.address, "consul:") then
      var service := backend.address[7..];
      var peer := consul(service);
      if peer.None? then NoTarget(NoConsulEndpoint(service)) else
        var (host, port) := peer.value;
        Target(host, port, Url(backend.useTls, HostPort(host, port), path), backend.useTls, None)
    else if StartsWith(backend.address, "auto:") then
      var rest := backend.address[5..];
      var peer := Peer(rest, backend.port);
      if peer.None? then NoTarget(InvalidPort(rest)) else
        var (host, port) := peer.value;
        var tls := probe(host, port);
        Target(host, port, Url(tls, HostPort(host, port), path), tls, None)
    else
      var peer := Peer(backend.address, backend.port);
      if peer.None? then NoTarget(InvalidPort(backend.address)) else
        Target(peer.value.0, peer.value.1, Url(backend.useTls, backend.address, path), backend.useTls, None)
  }

  /** `r` is the plan for the matched route and its edge policy: refused without a route or a target. */
  ghost predicate Follows(route: Option<Route>, edge: EdgePolicy, pathAndQuery: string,
                          consul: ConsulPick, probe: TlsProbe, r: PlanResult)
  {
    match route
    case None => r == Refused(NoRoute)
    case Some(route) =>
      var d := Destination(route.backend, UpstreamPath(route, pathAndQuery), consul, probe);
      match r
      case Refused(error) => d == NoTarget(error)
      case Planned(plan) =>
        && d == Target(plan.peerHost, plan.peerPort, plan.upstreamUrl, plan.useTls, plan.middleware.fileRoot)
        && plan.middleware.requestHeaders == Headers(route.middlewares, true)
        && plan.middleware.responseHeaders == Headers(route.middlewares, false)
        && plan.middleware.stripPrefix == LastStrip(route.middlewares)
        && plan.middleware.edge == edge
        && plan.middleware.geoip == route.geoip && plan.middleware.security == route.security
        && plan.middleware.forwardClientIp == route.forwardClientIp
  }

  function PolicyAt(table: RouteTable, key: string, route: Option<Route>): EdgePolicy {
    if route.None? then NO_EDGE else EdgeAt(table, key, route.value.path)
  }

  /** `r` is the plan for the request, through keys the two lookups may settle on. */
  ghost predicate IsPlan(table: RouteTable, host: string, pathAndQuery: string,
                         consul: ConsulPick, probe: TlsProbe, r: PlanResult)
  {
    exists key, edgeKey ::
      && MayServe(table.routes.Keys, host, key)
      && MayName(table.routes.Keys, table.edge.Keys, host, edgeKey)
      && PlanThrough(table, key, edgeKey, pathAndQuery, consul, probe, r)
  }

  ghost predicate PlanThrough(table: RouteTable, key: Option<string>, edgeKey: string, pathAndQuery: string,
                              consul: ConsulPick, probe: TlsProbe, r: PlanResult)
    requires key.Some? ==> key.value in table.routes
  {
    var route := RouteAt(table, key, PathPart(pathAndQuery));
    Follows(route, PolicyAt(table, edgeKey, route), pathAndQuery, consul, probe, r)
  }

  /** `resolve_forward`. */
  method ResolveForward(table: RouteTable, host: string, pathAndQuery: string, consul: ConsulPick, probe: TlsProbe)
    returns (r: PlanResult)
    ensures IsPlan(table, host, pathAndQuery, consul, probe, r)
  {
    hide MatchEntry, HostKey, Peer, Url, Print, StripPathPrefix, MayName, RouteAt, MayServe, Follows;
    var path := PathPart(pathAndQuery);
    var route := MatchRouteEntry(table, host, path);
    ghost var key :| MayServe(table.routes.Keys, host, key) && route == RouteAt(table, key, path);
    var edgeKey := MatchedHostKey(table, host);
    if route.None? {
      r := Refused(NoRoute);
      NoRouteNoPlan(pathAndQuery, consul, probe);
    } else {
      r := PlanRoute(route.value, EdgeAt(table, edgeKey, route.value.path), pathAndQuery, consul, probe);
    }
    assert PlanThrough(table, key, edgeKey, pathAndQuery, consul, probe, r);
  }

  lemma NoRouteNoPlan(pathAndQuery: string, consul: ConsulPick, probe: TlsProbe)
    ensures forall r :: Follows(None, NO_EDGE, pathAndQuery, consul, probe, r) <==> r == Refused(NoRoute)
  {
  }

  /** The plan for a matched route. */
  method PlanRoute(route: Route, edge: EdgePolicy, pathAndQuery: string, consul: ConsulPick, probe: TlsProbe)
    returns (r: PlanResult)
    ensures Follows(Some(route), edge, pathAndQuery, consul, probe, r)
  {
    hide Peer, Url, Print, StripPathPrefix;
    var strip := StripOf(route.middlewares);
    var upstreamPath := if strip.Some? then StripPathPrefix(pathAndQuery, strip.value) else pathAndQuery;
    var target := Destination(route.backend, upstreamPath, consul, probe);
    if target.NoTarget? {
      return Refused(target.error);
    }
    var action := MiddlewareAction(strip, Headers(route.middlewares, true), Headers(route.middlewares, false),
                                   route.forwardClientIp, route.geoip, route.security, edge, target.fileRoot);
    return Planned(ForwardPlan(target.host, target.port, target.url, target.useTls, action));
  }

  /** The header pairs of all middlewares of one direction, in order. */
  function Headers(mws: seq<Middleware>, request: bool): seq<(string, string)> {
    if mws == [] then [] else
      (match mws[0]
       case RequestHeaders(h) => if request then h else []
       case ResponseHeaders(h) => if request then [] else h
       case StripPrefix(_) => []) + Headers(mws[1..], request)
  }

  // -------------------------------------------------------------- main results

  /**
    The plan follows the configured route a direct scan picks, to its destination and with its
    policies. Its edge policy is the last one configured for its host and path: its own, when paths
    are unique per host.
  */
  ghost predicate FollowsConfig(entries: seq<Entry>, host: string, pathAndQuery: string,
                                consul: ConsulPick, probe: TlsProbe, r: PlanResult)
  {
    match Pick(entries, host, PathPart(pathAndQuery))
    case None => r == Refused(NoRoute)
    case Some(e) =>
      && Follows(Some(e.route), LastPolicy(entries, e.key, e.route.path), pathAndQuery, consul, probe, r)
      && (EdgeAgreement.UniquePaths(entries) ==> LastPolicy(entries, e.key, e.route.path) == e.edge)
  }

  /**
    From configuration to plan: a configuration that does not compile gives its first error; one
    without colons in its hosts gives plans that follow the route a direct scan picks.
  */
  method PlanFromConfig(lib: Library, config: Config, host: string, pathAndQuery: string,
                        consul: ConsulPick, probe: TlsProbe) returns (r: Result<PlanResult>)
    ensures var entries := Entries(lib, config, config.sites);
            match r
            case Err(error) => entries == Err(error)
            case Ok(result) =>
              && entries.Ok?
              && (LowerCases(lib) && (forall s :: s in config.sites ==> Free(SiteKey(lib, s), {':'})) ==>
                    FollowsConfig(entries.value, host, pathAndQuery, consul, probe, result))
  {
    hide Entries, FollowsConfig, IsPlan, IsTable, SiteKey, LowerCases;
    var table := Compile(lib, config);
    if table.Err? {
      return Err(table.error);
    }
    var result := ResolveForward(table.value, host, pathAndQuery, consul, probe);
    if LowerCases(lib) && forall s :: s in config.sites ==> Free(SiteKey(lib, s), {':'}) {
      ghost var entries := Entries(lib, config, config.sites).value;
      ColonFreeEntries(lib, config, entries);
      EntryKeysTrimmed(lib, config, config.sites);
      PlanFollowsConfig(entries, table.value, host, pathAndQuery, consul, probe, result);
    }
    return Ok(result);
  }

  lemma PlanFollowsConfig(entries: seq<Entry>, table: RouteTable, host: string, pathAndQuery: string,
                          consul: ConsulPick, probe: TlsProbe, r: PlanResult)
    requires IsTable(entries, table) && EdgeAgreement.PlainKeys(entries)
    requires IsPlan(table, host, pathAndQuery, consul, probe, r)
    ensures FollowsConfig(entries, host, pathAndQuery, consul, probe, r)
  {
    hide Pick, LastPolicy, IsTable, SelectKey, HostKey, Destination, UpstreamPath, Headers, LastStrip, EdgeAt, FindRoute,
         MayName, MayServe, Follows;
    var path := PathPart(pathAndQuery);
    var key, edgeKey :|
      && MayServe(table.routes.Keys, host, key)
      && MayName(table.routes.Keys, table.edge.Keys, host, edgeKey)
      && PlanThrough(table, key, edgeKey, pathAndQuery, consul, probe, r);
    EdgeAgreement.NoColonNoShadow(entries);
    TableKeys(entries, table);
    assert table.routes.Keys + table.edge.Keys == table.edge.Keys;
    TrimmedKeysDecide(table.routes.Keys, host, key);
    TrimmedKeysName(table.routes.Keys, table.edge.Keys, host, edgeKey);
    assert RouteAt(table, key, path) == MatchEntry(table, host, path);
    TableServesPick(entries, table, host, path);
    if Pick(entries, host, path).Some? {
      EdgeAgreement.ServedRouteHasItsPolicy(entries, table, host, path);
    } else {
      NoRouteNoPlan(pathAndQuery, consul, probe);
    }
  }

  lemma TableKeys(entries: seq<Entry>, table: RouteTable)
    requires IsTable(entries, table)
    ensures table.edge.Keys == EdgeKeys(entries) && HasRoutes(entries, table)
  {
  }

  lemma ColonFreeEntries(lib: Library, config: Config, entries: seq<Entry>)
    requires Entries(lib, config, config.sites) == Ok(entries)
    requires forall s :: s in config.sites ==> Free(SiteKey(lib, s), {':'})
    ensures forall e :: e in entries ==> Free(e.key, {':'})
  {
    hide Entries, SiteKey;
    forall e | e in entries ensures Free(e.key, {':'}) {
      var k :| 0 <= k < |entries| && entries[k] == e;
      var site, r := EntryOrigin(lib, config, config.sites, k);
    }
  }

  lemma {:induction false} SlashesTrimmed(s: string)
    ensures StartsWith(s, TrimEndSlashes(s))
    ensures EndsWith(s, "/") ==> |TrimEndSlashes(s)| < |s|
    ensures !EndsWith(s, "/") ==> TrimEndSlashes(s) == s
    ensures forall k :: |TrimEndSlashes(s)| <= k < |s| ==> s[k] == '/'
  {
    if s != "" && s[|s| - 1] == '/' {
      SlashesTrimmed(s[..|s| - 1]);
      assert s[|s| - 1..] == "/";
    } else if s != "" {
      assert s[|s| - 1..] == [s[|s| - 1]];
    }
  }

  /**
    Where a route rewritten to `/` sends the request: the rest of the path is rooted for every
    `Exact` and `Prefix` route, and for an `ImplementationSpecific` one exactly when the matched
    text ends at a path boundary.
  */
  lemma RewriteToRoot(route: Route, path: string)
    requires Matches(route, path)
    ensures var rest := StripPath(path, TrimEndSlashes(route.path));
            StartsWith(rest, "/") <==>
              || !route.pathType.ImplementationSpecific? || EndsWith(route.path, "/")
              || |path| == |route.path| || path[|route.path|] == '/'
  {
    var rule := route.path;
    MatchIsPrefix(route, path);
    SlashesTrimmed(rule);
    var prefix := TrimEndSlashes(rule);
    assert path[..|prefix|] == rule[..|prefix|] == prefix;
    if |prefix| < |path| {
      assert path[|prefix|..][..1] == [path[|prefix|]];
      if |prefix| < |rule| {
        assert path[|prefix|] == rule[|prefix|] == '/';
      } else if route.pathType.Prefix? && path != rule {
        assert path[|rule|] == path[..|rule| + 1][|rule|] == '/';
      }
    }
  }
}
