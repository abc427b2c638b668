/**
  Sites and named backends compiled into a route table (`src/proxy/apply.rs`, with the policy
  resolution of `src/proxy_config.rs`). `parse_upstream` depends on a URL library, `str::to_lowercase`
  on the Unicode tables; both are parameters.
*/
module SiteConfig {
  import opened Prelude
  import opened Text
  import opened Hosts
  import opened Routing
  import opened HostLookup
  import GeoPolicy
  import Security

  datatype NamedBackend = NamedBackend(name: string, upstreams: seq<string>)

  datatype PathRewrite = PathRewrite(
    pathType: PathMatchType, path: string, rewrite: Option<string>, upstream: Option<string>, edge: EdgePolicy)

  datatype Site = Site(
    host: string, routes: seq<PathRewrite>, backend: string, forwardClientIp: bool,
    accessListId: Option<string>, wafPolicyId: Option<string>,
    geoip: GeoPolicy.GeoIpPolicy, security: Security.SecurityPolicy)

  datatype AccessList = AccessList(id: string, geoip: GeoPolicy.GeoIpPolicy)
  datatype NamedWafPolicy = NamedWafPolicy(id: string, security: Security.SecurityPolicy)

  datatype Config = Config(
    backends: seq<NamedBackend>, sites: seq<Site>, accessLists: seq<AccessList>, wafPolicies: seq<NamedWafPolicy>,
    globals: EdgeGlobals)

  datatype Error =
    | UnknownBackend(host: string, name: string)
    | NoUpstreams(name: string)
    | InvalidUpstream(addr: string, name: string)
    | InvalidRouteUpstream(raw: string, host: string, path: string)

  datatype Result<+T> = Ok(value: T) | Err(error: Error)

  /** Foreign functions: `parse_upstream` and `str::to_lowercase`. */
  datatype Library = Library(parse: string -> Option<Backend>, lower: string -> string)

  /** What every Unicode lower-casing does: no white space appears at the ends, no ASCII capital is left. */
  ghost predicate LowerCases(lib: Library) {
    forall s :: Lower(lib.lower(s)) == lib.lower(s) && (IsTrimmed(s) ==> IsTrimmed(lib.lower(s)))
  }

  // ---------------------------------------------------------- policy resolution

  /** A reference that is set: trimmed and not blank. */
  function Reference(id: Option<string>): Option<string> {
    if id.Some? && Trim(id.value) != "" then Some(Trim(id.value)) else None
  }

  function FindList(lists: seq<AccessList>, id: string): Option<AccessList> {
    if lists == [] then None else if lists[0].id == id then Some(lists[0]) else FindList(lists[1..], id)
  }

  function FindWaf(policies: seq<NamedWafPolicy>, id: string): Option<NamedWafPolicy> {
    if policies == [] then None else if policies[0].id == id then Some(policies[0]) else FindWaf(policies[1..], id)
  }

  /** The named access list when the reference resolves, else the site's own policy. */
  function EffectiveGeoip(config: Config, site: Site): GeoPolicy.GeoIpPolicy {
    var id := Reference(site.accessListId);
    var list := if id.Some? then FindList(config.accessLists, id.value) else None;
    if list.Some? then list.value.geoip else site.geoip
  }

  function EffectiveSecurity(config: Config, site: Site): Security.SecurityPolicy {
    var id := Reference(site.wafPolicyId);
    var policy := if id.Some? then FindWaf(config.wafPolicies, id.value) else None;
    if policy.Some? then policy.value.security else site.security
  }

  // ------------------------------------------------------------------- targets

  predicate LooksLikeUpstreamUrl(value: string) {
    var lower := Lower(value);
    || StartsWith(lower, "http://") || StartsWith(lower, "https://") || StartsWith(lower, "localhost:")
    || StartsWith(lower, "127.0.0.1:") || StartsWith(lower, "[::1]:")
  }

  /** The upstream a route names: its own, else a rewrite that is really a URL, else none. */
  function NamedUpstream(r: PathRewrite): Option<string> {
    if r.upstream.Some? && Trim(r.upstream.value) != "" then Some(Trim(r.upstream.value))
    else if r.rewrite.Some? && LooksLikeUpstreamUrl(Trim(r.rewrite.value)) then Some(Trim(r.rewrite.value))
    else None
  }

  function ResolveTarget(lib: Library, r: PathRewrite, fallback: Backend, host: string): Result<Backend> {
    var raw := NamedUpstream(r);
    if raw.None? then Ok(fallback)
    else if lib.parse(raw.value).Some? then Ok(lib.parse(raw.value).value)
    else Err(InvalidRouteUpstream(raw.value, host, r.path))
  }

  function PathOnlyRewrite(rewrite: Option<string>): Option<string> {
    if rewrite.Some? && !LooksLikeUpstreamUrl(Trim(rewrite.value)) then rewrite else None
  }

  function TrimEndSlashes(s: string): string {
    if s != "" && s[|s| - 1] == '/' then TrimEndSlashes(s[..|s| - 1]) else s
  }

  /** A rewrite to `/` strips the matched path; every other rewrite leaves the path alone. */
  function RewriteMiddlewares(path: string, rewrite: Option<string>): seq<Middleware> {
    if rewrite.Some? && Trim(rewrite.value) == "/" && path != "/" then [StripPrefix(TrimEndSlashes(path))] else []
  }

  function SiteRoute(path: string, pathType: PathMatchType, rewrite: Option<string>, target: Backend,
                     forwardClientIp: bool, geoip: GeoPolicy.GeoIpPolicy, security: Security.SecurityPolicy): Route
  {
    Route(path, pathType, target, RewriteMiddlewares(path, rewrite), forwardClientIp,
          GeoPolicy.Normalized(geoip), Security.Normalized(security))
  }

  // ------------------------------------------------------------------- entries

  /** One configured route, under the host key of its site and with its edge policy. */
  datatype Entry = Entry(key: string, route: Route, edge: EdgePolicy)

  function SiteKey(lib: Library, site: Site): string { lib.lower(Trim(site.host)) }

  /** A site without routes serves everything under `/`. */
  function SiteRoutes(site: Site): (routes: seq<PathRewrite>)
    ensures routes != []
  {
    if site.routes == [] then [PathRewrite(Prefix, "/", None, None, NO_EDGE)] else site.routes
  }

  function FindBackend(backends: seq<NamedBackend>, name: string): Option<NamedBackend> {
    if backends == [] then None
    else if backends[|backends| - 1].name == name then Some(backends[|backends| - 1])
    else FindBackend(backends[..|backends| - 1], name)
  }

  function DefaultTarget(lib: Library, config: Config, site: Site): Result<Backend> {
    var backend := FindBackend(config.backends, site.backend);
    if backend.None? then Err(UnknownBackend(SiteKey(lib, site), site.backend))
    else if backend.value.upstreams == [] then Err(NoUpstreams(site.backend))
    else
      var addr := backend.value.upstreams[0];
      if lib.parse(addr).None? then Err(InvalidUpstream(addr, site.backend)) else Ok(lib.parse(addr).value)
  }

  function RouteEntry(lib: Library, config: Config, site: Site, r: PathRewrite, target: Backend): Entry {
    Entry(SiteKey(lib, site),
          SiteRoute(r.path, r.pathType, PathOnlyRewrite(r.rewrite), target, site.forwardClientIp,
                    GeoPolicy.Normalized(EffectiveGeoip(config, site)), Security.Normalized(EffectiveSecurity(config, site))),
          r.edge)
  }

  function RouteEntries(lib: Library, config: Config, site: Site, fallback: Backend, routes: seq<PathRewrite>)
    : (e: Result<seq<Entry>>)
    ensures e.Ok? ==> |e.value| == |routes|
  {
    if routes == [] then Ok([]) else
      var r := routes[|routes| - 1];
      var before := RouteEntries(lib, config, site, fallback, routes[..|routes| - 1]);
      if before.Err? then before else
        var target := ResolveTarget(lib, r, fallback, SiteKey(lib, site));
        if target.Err? then Err(target.error) else Ok(before.value + [RouteEntry(lib, config, site, r, target.value)])
  }

  function SiteEntries(lib: Library, config: Config, site: Site): Result<seq<Entry>> {
    if SiteKey(lib, site) == "" then Ok([]) else
      var target := DefaultTarget(lib, config, site);
      if target.Err? then Err(target.error) else RouteEntries(lib, config, site, target.value, SiteRoutes(site))
  }

  /** All configured routes in configuration order, or the first error. */
  function Entries(lib: Library, config: Config, sites: seq<Site>): Result<seq<Entry>> {
    if sites == [] then Ok([]) else
      var before := Entries(lib, config, sites[..|sites| - 1]);
      if before.Err? then before else
        var last := SiteEntries(lib, config, sites[|sites| - 1]);
        if last.Err? then last else Ok(before.value + last.value)
  }

  // ----------------------------------------------------------------- the table

  function RoutesAt(entries: seq<Entry>, key: string): seq<Route> {
    if entries == [] then [] else
      (if entries[0].key == key then [entries[0].route] else []) + RoutesAt(entries[1..], key)
  }

  function RouteKeys(entries: seq<Entry>): set<string> { set e | e in entries :: e.key }

  /** Edge policies are stored under the key cut at a colon. */
  function EdgeKeys(entries: seq<Entry>): set<string> { set e | e in entries :: NormalizeHost(e.key) }

  /** The policy of the last entry under an edge key with that path. */
  function LastPolicy(entries: seq<Entry>, key: string, path: string): EdgePolicy {
    if entries == [] then NO_EDGE else
      var e := entries[|entries| - 1];
      if NormalizeHost(e.key) == key && e.route.path == path then e.edge
      else LastPolicy(entries[..|entries| - 1], key, path)
  }

  /** The routes of a table, its edge policies aside. */
  ghost predicate HasRoutes(entries: seq<Entry>, table: RouteTable) {
    && table.routes.Keys == RouteKeys(entries)
    && (forall key :: key in table.routes ==> table.routes[key] == SortRoutes(RoutesAt(entries, key)))
  }

  /** The table that stands for a list of entries. */
  ghost predicate IsTable(entries: seq<Entry>, table: RouteTable) {
    && HasRoutes(entries, table)
    && table.edge.Keys == EdgeKeys(entries)
    && (forall key, path :: EdgeAt(table, key, path) == LastPolicy(entries, key, path))
  }

  // --------------------------------------------------------------- compilation

  lemma {:induction false} RoutesAtConcat(a: seq<Entry>, b: seq<Entry>, key: string)
    ensures RoutesAt(a + b, key) == RoutesAt(a, key) + RoutesAt(b, key)
  {
    if a == [] {
      assert a + b == b;
    } else {
      assert (a + b)[1..] == a[1..] + b && (a + b)[0] == a[0];
      RoutesAtConcat(a[1..], b, key);
      var head := if a[0].key == key then [a[0].route] else [];
      assert head + RoutesAt(a[1..], key) + RoutesAt(b, key) == head + (RoutesAt(a[1..], key) + RoutesAt(b, key));
    }
  }

  method IndexBackends(backends: seq<NamedBackend>) returns (index: map<string, NamedBackend>)
    ensures forall name :: FindBackend(backends, name) == if name in index then Some(index[name]) else None
  {
    index := map[];
    for i := 0 to |backends|
      invariant forall name :: FindBackend(backends[..i], name) == if name in index then Some(index[name]) else None
    {
      assert backends[..i + 1][..i] == backends[..i];
      index := index[backends[i].name := backends[i]];
    }
    assert backends[..|backends|] == backends;
  }

  /** The inner loop: the routes of one site. */
  method BuildRoutes(lib: Library, config: Config, site: Site, fallback: Backend, routes: seq<PathRewrite>)
    returns (r: Result<seq<Route>>)
    ensures var e := RouteEntries(lib, config, site, fallback, routes);
            match r
            case Err(error) => e == Err(error)
            case Ok(built) => e.Ok? && built == RoutesAt(e.value, SiteKey(lib, site))
  {
    var built: seq<Route> := [];
    for i := 0 to |routes|
      invariant var e := RouteEntries(lib, config, site, fallback, routes[..i]);
                e.Ok? && built == RoutesAt(e.value, SiteKey(lib, site))
    {
      var x := routes[i];
      assert routes[..i + 1][..i] == routes[..i];
      var target := ResolveTarget(lib, x, fallback, SiteKey(lib, site));
      if target.Err? {
        FirstErrorWins(lib, config, site, fallback, routes, i + 1);
        return Err(target.error);
      }
      ghost var e := RouteEntries(lib, config, site, fallback, routes[..i]).value;
      RoutesAtConcat(e, [RouteEntry(lib, config, site, x, target.value)], SiteKey(lib, site));
      built := built + [RouteEntry(lib, config, site, x, target.value).route];
    }
    assert routes[..|routes|] == routes;
    return Ok(built);
  }

  lemma {:induction false} FirstErrorWins(
      lib: Library, config: Config, site: Site, fallback: Backend, routes: seq<PathRewrite>, i: nat)
    requires i <= |routes| && RouteEntries(lib, config, site, fallback, routes[..i]).Err?
    ensures RouteEntries(lib, config, site, fallback, routes)
            == RouteEntries(lib, config, site, fallback, routes[..i])
  {
    if i < |routes| {
      var init := routes[..|routes| - 1];
      assert init[..i] == routes[..i];
      FirstErrorWins(lib, config, site, fallback, init, i);
    } else {
      assert routes[..i] == routes;
    }
  }

  lemma {:induction false} FirstSiteErrorWins(lib: Library, config: Config, sites: seq<Site>, i: nat)
    requires i <= |sites| && Entries(lib, config, sites[..i]).Err?
    ensures Entries(lib, config, sites) == Entries(lib, config, sites[..i])
  {
    if i < |sites| {
      var init := sites[..|sites| - 1];
      assert init[..i] == sites[..i];
      FirstSiteErrorWins(lib, config, init, i);
    } else {
      assert sites[..i] == sites;
    }
  }

  ghost predicate Grouped(entries: seq<Entry>, byHost: map<string, seq<Route>>) {
    && byHost.Keys == RouteKeys(entries)
    && forall key :: key in byHost ==> byHost[key] == RoutesAt(entries, key)
  }

  lemma {:induction false} NoEntryNoRoute(entries: seq<Entry>, key: string)
    requires key !in RouteKeys(entries)
    ensures RoutesAt(entries, key) == []
  {
    if entries != [] {
      assert entries[0] in entries;
      assert RouteKeys(entries[1..]) <= RouteKeys(entries);
      NoEntryNoRoute(entries[1..], key);
    }
  }

  lemma {:induction false} SiteEntriesKeyed(
      lib: Library, config: Config, site: Site, fallback: Backend, routes: seq<PathRewrite>)
    requires RouteEntries(lib, config, site, fallback, routes).Ok?
    ensures forall e :: e in RouteEntries(lib, config, site, fallback, routes).value ==> e.key == SiteKey(lib, site)
  {
    if routes != [] { SiteEntriesKeyed(lib, config, site, fallback, routes[..|routes| - 1]); }
  }

  /** Adding one site's routes to its bucket keeps the grouping. */
  lemma GroupSite(entries: seq<Entry>, more: seq<Entry>, byHost: map<string, seq<Route>>, key: string)
    requires Grouped(entries, byHost) && more != [] && forall e :: e in more ==> e.key == key
    ensures Grouped(entries + more,
                    byHost[key := (if key in byHost then byHost[key] else []) + RoutesAt(more, key)])
  {
    hide RoutesAt;
    var all := entries + more;
    var byHost' := byHost[key := (if key in byHost then byHost[key] else []) + RoutesAt(more, key)];
    assert more[0] in all && forall e :: e in all <==> e in entries || e in more;
    assert RouteKeys(all) == RouteKeys(entries) + {key};
    if key !in byHost { NoEntryNoRoute(entries, key); }
    forall k | k in byHost' ensures byHost'[k] == RoutesAt(all, k) {
      RoutesAtConcat(entries, more, k);
      if k != key { NoEntryNoRoute(more, k); }
    }
  }

  method ResolveDefault(lib: Library, config: Config, backends: map<string, NamedBackend>, site: Site)
    returns (r: Result<Backend>)
    requires forall name :: FindBackend(config.backends, name) == if name in backends then Some(backends[name]) else None
    ensures r == DefaultTarget(lib, config, site)
  {
    if site.backend !in backends {
      return Err(UnknownBackend(SiteKey(lib, site), site.backend));
    }
    var backend := backends[site.backend];
    if backend.upstreams == [] {
      return Err(NoUpstreams(site.backend));
    }
    var target := lib.parse(backend.upstreams[0]);
    if target.None? {
      return Err(InvalidUpstream(backend.upstreams[0], site.backend));
    }
    return Ok(target.value);
  }

  /** The first loop of `config_to_route_table`. */
  method BuildBuckets(lib: Library, config: Config) returns (r: Result<map<string, seq<Route>>>)
    ensures var e := Entries(lib, config, config.sites);
            match r
            case Err(error) => e == Err(error)
            case Ok(byHost) => e.Ok? && Grouped(e.value, byHost)
  {
    hide RoutesAt, Grouped, RouteEntries, DefaultTarget, SiteKey, SiteRoutes;
    var backends := IndexBackends(config.backends);
    var byHost: map<string, seq<Route>> := map[];
    var sites := config.sites;
    assert Grouped([], byHost) by { EmptyGrouped(); }
    for i := 0 to |sites|
      invariant var e := Entries(lib, config, sites[..i]);
                e.Ok? && Grouped(e.value, byHost)
    {
      var site := sites[i];
      assert sites[..i + 1][..i] == sites[..i];
      ghost var before := Entries(lib, config, sites[..i]).value;
      var host := SiteKey(lib, site);
      if host == "" {
        assert before + [] == before;
        continue;
      }
      var target := ResolveDefault(lib, config, backends, site);
      if target.Err? {
        FirstSiteErrorWins(lib, config, sites, i + 1);
        return Err(target.error);
      }
      var built := BuildRoutes(lib, config, site, target.value, SiteRoutes(site));
      if built.Err? {
        FirstSiteErrorWins(lib, config, sites, i + 1);
        return Err(built.error);
      }
      ghost var more := RouteEntries(lib, config, site, target.value, SiteRoutes(site)).value;
      SiteEntriesKeyed(lib, config, site, target.value, SiteRoutes(site));
      GroupSite(before, more, byHost, host);
      byHost := byHost[host := (if host in byHost then byHost[host] else []) + built.value];
    }
    assert sites[..|sites|] == sites;
    return Ok(byHost);
  }

  lemma EmptyGrouped()
    ensures Grouped([], map[])
  {
  }

  /** `RouteTable::from_routes`: every bucket sorted, in whatever order the map iterates. */
  method FromRoutes(byHost: map<string, seq<Route>>) returns (routes: map<string, seq<Route>>)
    ensures routes.Keys == byHost.Keys
    ensures forall key :: key in routes ==> routes[key] == SortRoutes(byHost[key])
  {
    hide SortRoutes;
    routes := byHost;
    var left := byHost.Keys;
    while left != {}
      invariant left <= byHost.Keys == routes.Keys
      invariant forall key :: key in routes ==> routes[key] == if key in left then byHost[key] else SortRoutes(byHost[key])
      decreases |left|
    {
      var key :| key in left;
      left := left - {key};
      routes := routes[key := SortRoutes(routes[key])];
    }
  }

  // ---------------------------------------------------------------- edge policies

  type EdgeMap = map<string, map<string, EdgePolicy>>

  ghost predicate EdgesUpTo(entries: seq<Entry>, edge: EdgeMap) {
    && edge.Keys == EdgeKeys(entries)
    && forall key, path :: LastPolicy(entries, key, path)
         == if key in edge && path in edge[key] then edge[key][path] else NO_EDGE
  }

  function InsertEdge(edge: EdgeMap, host: string, path: string, policy: EdgePolicy): EdgeMap {
    var key := NormalizeHost(host);
    edge[key := (if key in edge then edge[key] else map[])[path := policy]]
  }

  lemma InsertEdgeStep(entries: seq<Entry>, edge: EdgeMap, e: Entry)
    requires EdgesUpTo(entries, edge)
    ensures EdgesUpTo(entries + [e], InsertEdge(edge, e.key, e.route.path, e.edge))
  {
    hide NormalizeHost;
    var all := entries + [e];
    assert all[..|all| - 1] == entries;
    assert EdgeKeys(all) == EdgeKeys(entries) + {NormalizeHost(e.key)} by {
      assert e in all;
      assert forall x :: x in all <==> x in entries || x == e;
    }
    var edge' := InsertEdge(edge, e.key, e.route.path, e.edge);
    forall key, path
      ensures LastPolicy(all, key, path) == if key in edge' && path in edge'[key] then edge'[key][path] else NO_EDGE
    {
      assert LastPolicy(entries, key, path) == if key in edge && path in edge[key] then edge[key][path] else NO_EDGE;
      assert all[|all| - 1] == e;
    }
  }

  /** The entries of a site carry its routes' paths and policies, in order. */
  lemma {:induction false} EntriesMirrorRoutes(
      lib: Library, config: Config, site: Site, fallback: Backend, routes: seq<PathRewrite>, j: nat)
    requires RouteEntries(lib, config, site, fallback, routes).Ok? && j < |routes|
    ensures var e := RouteEntries(lib, config, site, fallback, routes).value[j];
            var target := ResolveTarget(lib, routes[j], fallback, SiteKey(lib, site));
            target.Ok? && e == RouteEntry(lib, config, site, routes[j], target.value)
  {
    if j < |routes| - 1 { EntriesMirrorRoutes(lib, config, site, fallback, routes[..|routes| - 1], j); }
  }

  /** The second loop's body: one site's policies. */
  method InsertSiteEdges(lib: Library, config: Config, site: Site, edge: EdgeMap, ghost before: seq<Entry>)
    returns (out: EdgeMap)
    requires SiteKey(lib, site) != "" && SiteEntries(lib, config, site).Ok? && EdgesUpTo(before, edge)
    ensures EdgesUpTo(before + SiteEntries(lib, config, site).value, out)
  {
    hide EdgesUpTo, InsertEdge, RouteEntries;
    out := edge;
    var routes := SiteRoutes(site);
    ghost var fallback := DefaultTarget(lib, config, site).value;
    ghost var more := SiteEntries(lib, config, site).value;
    assert before + more[..0] == before;
    for j := 0 to |routes|
      invariant EdgesUpTo(before + more[..j], out)
    {
      EntriesMirrorRoutes(lib, config, site, fallback, routes, j);
      InsertEdgeStep(before + more[..j], out, more[j]);
      assert before + more[..j] + [more[j]] == before + more[..j + 1];
      out := InsertEdge(out, SiteKey(lib, site), routes[j].path, routes[j].edge);
    }
    assert more[..|routes|] == more;
  }

  lemma {:induction false} EntriesPrefixOk(lib: Library, config: Config, sites: seq<Site>, i: nat)
    requires Entries(lib, config, sites).Ok? && i <= |sites|
    ensures Entries(lib, config, sites[..i]).Ok?
  {
    if i < |sites| {
      var init := sites[..|sites| - 1];
      assert init[..i] == sites[..i];
      EntriesPrefixOk(lib, config, init, i);
    } else {
      assert sites[..i] == sites;
    }
  }

  /** `config_to_route_table`. */
  method Compile(lib: Library, config: Config) returns (r: Result<RouteTable>)
    ensures var e := Entries(lib, config, config.sites);
            match r
            case Err(error) => e == Err(error)
            case Ok(table) => e.Ok? && IsTable(e.value, table) && table.globals == config.globals
  {
    hide RoutesAt, SiteEntries, LastPolicy, EdgesUpTo;
    var byHost := BuildBuckets(lib, config);
    if byHost.Err? {
      return Err(byHost.error);
    }
    var routes := FromRoutes(byHost.value);
    var edge: EdgeMap := map[];
    assert EdgesUpTo([], edge) by { NoEdges(); }
    var sites := config.sites;
    for i := 0 to |sites|
      invariant var e := Entries(lib, config, sites[..i]); e.Ok? && EdgesUpTo(e.value, edge)
    {
      var site := sites[i];
      EntriesPrefixOk(lib, config, sites, i + 1);
      assert sites[..i + 1][..i] == sites[..i];
      ghost var before := Entries(lib, config, sites[..i]).value;
      if SiteKey(lib, site) == "" {
        BlankSite(lib, config, site, before);
        continue;
      }
      edge := InsertSiteEdges(lib, config, site, edge, before);
    }
    assert sites[..|sites|] == sites;
    TableOf(Entries(lib, config, sites).value, byHost.value, RouteTable(routes, edge, config.globals));
    return Ok(RouteTable(routes, edge, config.globals));
  }

  lemma NoEdges()
    ensures EdgesUpTo([], map[])
  {
  }

  lemma BlankSite(lib: Library, config: Config, site: Site, before: seq<Entry>)
    requires SiteKey(lib, site) == ""
    ensures SiteEntries(lib, config, site) == Ok([]) && before + [] == before
  {
  }

  lemma TableOf(entries: seq<Entry>, byHost: map<string, seq<Route>>, table: RouteTable)
    requires Grouped(entries, byHost) && EdgesUpTo(entries, table.edge)
    requires table.routes.Keys == byHost.Keys
    requires forall key :: key in table.routes ==> table.routes[key] == SortRoutes(byHost[key])
    ensures IsTable(entries, table)
  {
    hide SortRoutes, RoutesAt, LastPolicy;
  }

  // -------------------------------------------------------- meaning preservation

  /** A direct scan of the configuration: the longest matching path under `key`, earliest on ties. */
  function BestEntry(entries: seq<Entry>, key: string, path: string): (e: Option<Entry>)
    ensures e.Some? ==> e.value in entries && e.value.key == key && Matches(e.value.route, path)
    ensures e.None? ==> forall x :: x in entries && x.key == key ==> !Matches(x.route, path)
  {
    if entries == [] then None else
      var rest := BestEntry(entries[1..], key, path);
      if entries[0].key == key && Matches(entries[0].route, path)
         && (rest.None? || |rest.value.route.path| <= |entries[0].route.path|)
      then Some(entries[0]) else rest
  }

  /** The entry a request is served by, read off the configuration alone. */
  function Pick(entries: seq<Entry>, host: string, path: string): Option<Entry> {
    var key := SelectKey(RouteKeys(entries), host);
    if key.None? then None else BestEntry(entries, key.value, path)
  }

  lemma {:induction false} BestEntryIsBestMatch(entries: seq<Entry>, key: string, path: string)
    ensures BestMatch(RoutesAt(entries, key), path) ==
            var e := BestEntry(entries, key, path);
            if e.None? then None else Some(e.value.route)
  {
    hide Matches;
    if entries != [] {
      BestEntryIsBestMatch(entries[1..], key, path);
      var rest := RoutesAt(entries[1..], key);
      if entries[0].key == key {
        assert RoutesAt(entries, key)[1..] == rest;
      } else {
        assert RoutesAt(entries, key) == rest;
      }
    }
  }

  /** By position: nothing under the key that matches is longer, or as long and earlier. */
  lemma {:induction false} BestEntryPosition(entries: seq<Entry>, key: string, path: string) returns (k: nat)
    requires BestEntry(entries, key, path).Some?
    ensures k < |entries| && entries[k] == BestEntry(entries, key, path).value
    ensures forall i :: 0 <= i < |entries| && entries[i].key == key && Matches(entries[i].route, path) ==>
              || |entries[i].route.path| < |entries[k].route.path|
              || (|entries[i].route.path| == |entries[k].route.path| && k <= i)
  {
    hide Matches;
    var rest := BestEntry(entries[1..], key, path);
    assert forall i :: 1 <= i < |entries| ==> entries[i] == entries[1..][i - 1] && entries[i] in entries[1..];
    if rest.None? {
      k := 0;
    } else {
      k := BestEntryPosition(entries[1..], key, path);
      if BestEntry(entries, key, path) == Some(entries[0])
         && entries[0].key == key && Matches(entries[0].route, path) && |rest.value.route.path| <= |entries[0].route.path| {
        k := 0;
      } else {
        k := k + 1;
      }
    }
  }

  lemma {:induction false} EntryKeysTrimmed(lib: Library, config: Config, sites: seq<Site>)
    requires LowerCases(lib) && Entries(lib, config, sites).Ok?
    ensures forall e :: e in Entries(lib, config, sites).value ==> IsTrimmed(e.key) && Lower(e.key) == e.key && e.key != ""
  {
    hide RouteEntries;
    if sites != [] {
      var site := sites[|sites| - 1];
      EntryKeysTrimmed(lib, config, sites[..|sites| - 1]);
      if SiteKey(lib, site) != "" {
        SiteEntriesKeyed(lib, config, site, DefaultTarget(lib, config, site).value, SiteRoutes(site));
        TrimTrims(site.host);
      }
    }
  }

  lemma TableServesPick(entries: seq<Entry>, table: RouteTable, host: string, path: string)
    requires HasRoutes(entries, table)
    ensures MatchEntry(table, host, path) ==
            var e := Pick(entries, host, path);
            if e.None? then None else Some(e.value.route)
  {
    hide SortRoutes, RoutesAt, BestMatch, FindRoute, BestEntry, SelectKey;
    var key := SelectKey(table.routes.Keys, host);
    if key.Some? {
      FirstOfSortedIsBest(RoutesAt(entries, key.value), path);
      BestEntryIsBestMatch(entries, key.value, path);
    }
  }

  /**
    Compilation preserves meaning: for every configuration that compiles, every host and every path,
    the table serves exactly the route a direct scan of the configuration picks. Its keys never tie.
  */
  lemma CompiledTableServesConfig(
      lib: Library, config: Config, entries: seq<Entry>, table: RouteTable, host: string, path: string)
    requires LowerCases(lib) && Entries(lib, config, config.sites) == Ok(entries) && IsTable(entries, table)
    ensures TrimmedKeys(table.routes.Keys)
    ensures MatchEntry(table, host, path) ==
            var e := Pick(entries, host, path);
            if e.None? then None else Some(e.value.route)
  {
    hide Entries, SortRoutes, RoutesAt, MatchEntry, Pick, LastPolicy, LowerCases;
    EntryKeysTrimmed(lib, config, config.sites);
    TableServesPick(entries, table, host, path);
  }

  /** Mapping the ASCII letters alone is such a lower-casing. */
  lemma AsciiLowerCases(parse: string -> Option<Backend>)
    ensures LowerCases(Library(parse, s => Lower(s)))
  {
    forall s: string ensures Lower(Lower(s)) == Lower(s) && (IsTrimmed(s) ==> IsTrimmed(Lower(s))) {
      LowerIdempotent(s);
      if IsTrimmed(s) { CaseKeepsTrimmed(s); }
    }
  }

  /** The rewrites that have an effect: to `/`, of a path other than `/`. */
  predicate RewritesToRoot(r: PathRewrite) {
    r.rewrite.Some? && Trim(r.rewrite.value) == "/" && r.path != "/"
  }

  /** The filter that takes URLs out of rewrites never takes out the root. */
  lemma RewriteIsPathOnly(r: PathRewrite)
    ensures RewriteMiddlewares(r.path, PathOnlyRewrite(r.rewrite))
            == if RewritesToRoot(r) then [StripPrefix(TrimEndSlashes(r.path))] else []
  {
    hide Trim, TrimEndSlashes;
    if r.rewrite.Some? && Trim(r.rewrite.value) == "/" {
      assert Lower("/") == "/";
      assert !LooksLikeUpstreamUrl("/");
    }
  }

  /**
    Every entry is one configured route of one site: its target is the upstream it names, else the
    first upstream of the site's backend, its policies are the effective ones, normalised, and it
    strips its path exactly when it is rewritten to the root.
  */
  lemma {:induction false} EntryOrigin(lib: Library, config: Config, sites: seq<Site>, k: nat)
    returns (site: Site, r: PathRewrite)
    requires Entries(lib, config, sites).Ok? && k < |Entries(lib, config, sites).value|
    ensures site in sites && r in SiteRoutes(site)
    ensures var e := Entries(lib, config, sites).value[k];
            && e.key == SiteKey(lib, site) && e.route.path == r.path && e.route.pathType == r.pathType && e.edge == r.edge
            && e.route.forwardClientIp == site.forwardClientIp
            && e.route.middlewares == (if RewritesToRoot(r) then [StripPrefix(TrimEndSlashes(r.path))] else [])
            && e.route.geoip == GeoPolicy.Normalized(EffectiveGeoip(config, site))
            && e.route.security == Security.Normalized(EffectiveSecurity(config, site))
            && match NamedUpstream(r)
               case Some(raw) => lib.parse(raw) == Some(e.route.backend)
               case None =>
                 var b := FindBackend(config.backends, site.backend);
                 b.Some? && b.value.upstreams != [] && lib.parse(b.value.upstreams[0]) == Some(e.route.backend)
  {
    hide RouteEntries, SiteRoutes, EffectiveGeoip, EffectiveSecurity, NamedUpstream, SiteKey,
         GeoPolicy.Normalized, Security.Normalized, FindBackend, RewritesToRoot, RewriteMiddlewares, PathOnlyRewrite;
    var n := |sites| - 1;
    var before := Entries(lib, config, sites[..n]).value;
    if k < |before| {
      site, r := EntryOrigin(lib, config, sites[..n], k);
    } else {
      site := sites[n];
      var fallback := DefaultTarget(lib, config, site).value;
      r := SiteRoutes(site)[k - |before|];
      EntriesMirrorRoutes(lib, config, site, fallback, SiteRoutes(site), k - |before|);
      RewriteIsPathOnly(r);
      GeoPolicy.NormalizedIdempotent(EffectiveGeoip(config, site));
      Security.NormalizedIdempotent(EffectiveSecurity(config, site));
    }
  }
}
