/**
  The order in which routes are fed to a table builder never decides which path is matched: over
  any rearrangement of routes or Ingress objects the matched path is the longest one that matches.
*/
module OrderFree {
  import opened Prelude
  import opened Text
  import opened Hosts
  import opened Routing
  import opened HostLookup
  import opened SiteConfig
  import opened SortedLists
  import GeoPolicy
  import Security

  lemma PermutationHasSameElements<T>(a: seq<T>, b: seq<T>)
    requires multiset(a) == multiset(b)
    ensures SameElements(a, b)
  {
    assert forall x :: x in a <==> x in multiset(a);
  }

  /** A matched route and the path it must have: the longest prefix of the request any route matches with. */
  ghost predicate LongestMatch(entries: seq<Entry>, key: string, path: string, matched: string) {
    && (exists e :: e in entries && e.key == key && Matches(e.route, path) && e.route.path == matched)
    && (forall e :: e in entries && e.key == key && Matches(e.route, path) ==> |e.route.path| <= |matched|)
  }

  lemma PickedPathIsLongest(entries: seq<Entry>, key: string, path: string)
    requires BestEntry(entries, key, path).Some?
    ensures LongestMatch(entries, key, path, BestEntry(entries, key, path).value.route.path)
  {
    var k := BestEntryPosition(entries, key, path);
  }

  /** There is only one such path. */
  lemma LongestMatchUnique(entries: seq<Entry>, key: string, path: string, p: string, q: string)
    requires LongestMatch(entries, key, path, p) && LongestMatch(entries, key, path, q)
    ensures p == q
  {
    var e :| e in entries && e.key == key && Matches(e.route, path) && e.route.path == p;
    var f :| f in entries && f.key == key && Matches(f.route, path) && f.route.path == q;
    MatchIsPrefix(e.route, path);
    MatchIsPrefix(f.route, path);
  }

  /** Routes under one key are told apart by their paths. */
  ghost predicate DistinctPaths(entries: seq<Entry>) {
    forall e, f :: e in entries && f in entries && e.key == f.key && e.route.path == f.route.path ==> e == f
  }

  lemma PickIsOrderFree(a: seq<Entry>, b: seq<Entry>, host: string, path: string)
    requires SameElements(a, b)
    ensures RouteKeys(a) == RouteKeys(b)
    ensures Pick(a, host, path).Some? <==> Pick(b, host, path).Some?
    ensures Pick(a, host, path).Some? ==>
              && Pick(a, host, path).value.route.path == Pick(b, host, path).value.route.path
              && (DistinctPaths(a) ==> Pick(a, host, path) == Pick(b, host, path))
  {
    hide SelectKey, Matches, BestEntry;
    assert RouteKeys(a) == RouteKeys(b);
    var key := SelectKey(RouteKeys(a), host);
    if key.Some? {
      var x, y := BestEntry(a, key.value, path), BestEntry(b, key.value, path);
      if x.Some? && y.Some? {
        PickedPathIsLongest(a, key.value, path);
        PickedPathIsLongest(b, key.value, path);
        assert LongestMatch(a, key.value, path, y.value.route.path);
        LongestMatchUnique(a, key.value, path, x.value.route.path, y.value.route.path);
      }
    }
  }

  /**
    Two tables built from the same routes in any two orders match the same path on every request,
    the longest that matches; with distinct paths per host they serve the same route.
  */
  lemma TablesOfSameRoutesAgree(
      a: seq<Entry>, b: seq<Entry>, tableA: RouteTable, tableB: RouteTable, host: string, path: string)
    requires SameElements(a, b) && HasRoutes(a, tableA) && HasRoutes(b, tableB)
    ensures var x, y := MatchEntry(tableA, host, path), MatchEntry(tableB, host, path);
            && (x.Some? <==> y.Some?)
            && (x.Some? ==>
                  && x.value.path == y.value.path
                  && (DistinctPaths(a) ==> x == y)
                  && LongestMatch(a, SelectKey(RouteKeys(a), host).value, path, x.value.path))
  {
    hide BestEntry, SelectKey, MatchEntry, LongestMatch;
    PickIsOrderFree(a, b, host, path);
    TableServesPick(a, tableA, host, path);
    TableServesPick(b, tableB, host, path);
    var key := SelectKey(RouteKeys(a), host);
    if key.Some? && BestEntry(a, key.value, path).Some? { PickedPathIsLongest(a, key.value, path); }
  }

  // ----------------------------------------------------------------- ingresses

  datatype ServiceBackend = ServiceBackend(name: string, port: Option<Option<int>>)
  datatype HttpPath = HttpPath(path: Option<string>, pathType: string, service: Option<ServiceBackend>)
  datatype Rule = Rule(host: Option<string>, http: Option<seq<HttpPath>>)
  datatype IngressSpec = IngressSpec(defaultBackend: Option<Option<ServiceBackend>>, rules: seq<Rule>)
  datatype Ingress = Ingress(namespace: Option<string>, spec: Option<IngressSpec>)

  function PlainRoute(path: string, pathType: PathMatchType, backend: Backend): Route {
    Route(path, pathType, backend, [], false, GeoPolicy.DEFAULT, Security.DEFAULT)
  }

  /** `resolve_backend`: a port number is truncated to 16 bits by the cast. */
  function ResolveBackend(service: Option<ServiceBackend>, namespace: string): Option<Backend> {
    if service.None? || service.value.port.None? || service.value.port.value.None? then None else
      var port := service.value.port.value.value % 65536;
      Some(Backend(service.value.name + "." + namespace + ".svc.cluster.local:" + Print(port), port, false))
  }

  function PathTypeOf(name: string): PathMatchType {
    if name == "Exact" then Exact else if name == "ImplementationSpecific" then ImplementationSpecific else Prefix
  }

  function PathEntries(host: string, paths: seq<HttpPath>, namespace: string): seq<Entry> {
    if paths == [] then [] else
      var p := paths[|paths| - 1];
      var backend := ResolveBackend(p.service, namespace);
      PathEntries(host, paths[..|paths| - 1], namespace) +
        if backend.None? then [] else
          [Entry(host, PlainRoute(if p.path.Some? then p.path.value else "/", PathTypeOf(p.pathType), backend.value), NO_EDGE)]
  }

  function RuleHost(rule: Rule): string {
    if rule.host.Some? then NormalizeHost(rule.host.value) else "*"
  }

  function RuleEntries(rules: seq<Rule>, namespace: string): seq<Entry> {
    if rules == [] then [] else
      var rule := rules[|rules| - 1];
      RuleEntries(rules[..|rules| - 1], namespace) +
        if rule.http.None? then [] else PathEntries(RuleHost(rule), rule.http.value, namespace)
  }

  function Namespace(ingress: Ingress): string {
    if ingress.namespace.Some? then ingress.namespace.value else "default"
  }

  function DefaultEntries(ingress: Ingress): seq<Entry> {
    if ingress.spec.None? || ingress.spec.value.defaultBackend.None? then [] else
      var backend := ResolveBackend(ingress.spec.value.defaultBackend.value, Namespace(ingress));
      if backend.None? then [] else [Entry("*", PlainRoute("/", Prefix, backend.value), NO_EDGE)]
  }

  /** What one Ingress contributes, in order. */
  function IngressEntries(ingress: Ingress): seq<Entry> {
    DefaultEntries(ingress) +
      if ingress.spec.None? then [] else RuleEntries(ingress.spec.value.rules, Namespace(ingress))
  }

  function AllIngressEntries(ingresses: seq<Ingress>): seq<Entry> {
    if ingresses == [] then [] else
      AllIngressEntries(ingresses[..|ingresses| - 1]) + IngressEntries(ingresses[|ingresses| - 1])
  }

  /** Pushing one route onto its bucket keeps the grouping. */
  lemma GroupOne(entries: seq<Entry>, byHost: map<string, seq<Route>>, e: Entry)
    requires Grouped(entries, byHost)
    ensures Grouped(entries + [e], Push(byHost, e))
  {
    GroupSite(entries, [e], byHost, e.key);
    assert RoutesAt([e], e.key) == [e.route];
  }

  function Push(byHost: map<string, seq<Route>>, e: Entry): map<string, seq<Route>> {
    byHost[e.key := (if e.key in byHost then byHost[e.key] else []) + [e.route]]
  }

  method PushPaths(host: string, paths: seq<HttpPath>, namespace: string,
                   byHost: map<string, seq<Route>>, ghost before: seq<Entry>) returns (out: map<string, seq<Route>>)
    requires Grouped(before, byHost)
    ensures Grouped(before + PathEntries(host, paths, namespace), out)
  {
    hide Grouped, ResolveBackend, PlainRoute;
    out := byHost;
    assert before + [] == before;
    for i := 0 to |paths|
      invariant Grouped(before + PathEntries(host, paths[..i], namespace), out)
    {
      var p := paths[i];
      assert paths[..i + 1][..i] == paths[..i];
      var backend := ResolveBackend(p.service, namespace);
      ghost var done := PathEntries(host, paths[..i], namespace);
      if backend.None? {
        assert done + [] == done;
        continue;
      }
      var e := Entry(host, PlainRoute(if p.path.Some? then p.path.value else "/", PathTypeOf(p.pathType), backend.value), NO_EDGE);
      GroupOne(before + done, out, e);
      assert before + done + [e] == before + (done + [e]);
      out := Push(out, e);
    }
    assert paths[..|paths|] == paths;
  }

  method PushRules(rules: seq<Rule>, namespace: string, byHost: map<string, seq<Route>>, ghost before: seq<Entry>)
    returns (out: map<string, seq<Route>>)
    requires Grouped(before, byHost)
    ensures Grouped(before + RuleEntries(rules, namespace), out)
  {
    hide Grouped, PathEntries;
    out := byHost;
    assert before + [] == before;
    for i := 0 to |rules|
      invariant Grouped(before + RuleEntries(rules[..i], namespace), out)
    {
      var rule := rules[i];
      assert rules[..i + 1][..i] == rules[..i];
      ghost var done := RuleEntries(rules[..i], namespace);
      if rule.http.None? {
        assert done + [] == done;
        continue;
      }
      out := PushPaths(RuleHost(rule), rule.http.value, namespace, out, before + done);
      ghost var more := PathEntries(RuleHost(rule), rule.http.value, namespace);
      assert before + done + more == before + (done + more);
    }
    assert rules[..|rules|] == rules;
  }

  /** `build_route_table_from_ingresses`. */
  method BuildFromIngresses(ingresses: seq<Ingress>) returns (table: RouteTable)
    ensures HasRoutes(AllIngressEntries(ingresses), table) && table.edge == map[]
  {
    hide Grouped, RuleEntries, DefaultEntries, SortRoutes;
    var byHost: map<string, seq<Route>> := map[];
    assert Grouped([], byHost) by { EmptyGrouped(); }
    for i := 0 to |ingresses|
      invariant Grouped(AllIngressEntries(ingresses[..i]), byHost)
    {
      var ingress := ingresses[i];
      assert ingresses[..i + 1][..i] == ingresses[..i];
      ghost var done := AllIngressEntries(ingresses[..i]);
      byHost := PushDefault(ingress, byHost, done);
      ghost var first := DefaultEntries(ingress);
      if ingress.spec.None? {
        assert done + first == done + (first + []);
        continue;
      }
      byHost := PushRules(ingress.spec.value.rules, Namespace(ingress), byHost, done + first);
      ghost var more := RuleEntries(ingress.spec.value.rules, Namespace(ingress));
      assert done + first + more == done + (first + more);
    }
    assert ingresses[..|ingresses|] == ingresses;
    var routes := FromRoutes(byHost);
    GroupedHasRoutes(AllIngressEntries(ingresses), byHost, routes);
    table := RouteTable(routes, map[], DEFAULT_GLOBALS);
  }

  method PushDefault(ingress: Ingress, byHost: map<string, seq<Route>>, ghost before: seq<Entry>)
    returns (out: map<string, seq<Route>>)
    requires Grouped(before, byHost)
    ensures Grouped(before + DefaultEntries(ingress), out)
  {
    hide Grouped;
    assert before + [] == before;
    out := byHost;
    if ingress.spec.Some? && ingress.spec.value.defaultBackend.Some? {
      var backend := ResolveBackend(ingress.spec.value.defaultBackend.value, Namespace(ingress));
      if backend.Some? {
        var e := Entry("*", PlainRoute("/", Prefix, backend.value), NO_EDGE);
        GroupOne(before, byHost, e);
        out := Push(byHost, e);
      }
    }
  }

  lemma GroupedHasRoutes(entries: seq<Entry>, byHost: map<string, seq<Route>>, routes: map<string, seq<Route>>)
    requires Grouped(entries, byHost) && routes.Keys == byHost.Keys
    requires forall key :: key in routes ==> routes[key] == SortRoutes(byHost[key])
    ensures HasRoutes(entries, RouteTable(routes, map[], DEFAULT_GLOBALS))
  {
    hide SortRoutes, RoutesAt;
  }

  lemma {:induction false} InSomeIngress(ingresses: seq<Ingress>, e: Entry)
    ensures e in AllIngressEntries(ingresses) <==> exists g :: g in ingresses && e in IngressEntries(g)
  {
    hide IngressEntries;
    if ingresses != [] {
      var n := |ingresses| - 1;
      InSomeIngress(ingresses[..n], e);
      assert forall g :: g in ingresses <==> g in ingresses[..n] || g == ingresses[n];
    }
  }

  /** The order in which Ingress objects are listed does not change the matched path of any request. */
  lemma IngressOrderDoesNotMatter(
      a: seq<Ingress>, b: seq<Ingress>, tableA: RouteTable, tableB: RouteTable, host: string, path: string)
    requires multiset(a) == multiset(b)
    requires HasRoutes(AllIngressEntries(a), tableA) && HasRoutes(AllIngressEntries(b), tableB)
    ensures var x, y := MatchEntry(tableA, host, path), MatchEntry(tableB, host, path);
            && (x.Some? <==> y.Some?)
            && (x.Some? ==> x.value.path == y.value.path
                            && (DistinctPaths(AllIngressEntries(a)) ==> x == y))
  {
    hide IngressEntries, AllIngressEntries, HasRoutes, MatchEntry;
    PermutationHasSameElements(a, b);
    forall e ensures e in AllIngressEntries(a) <==> e in AllIngressEntries(b) {
      InSomeIngress(a, e);
      InSomeIngress(b, e);
    }
    TablesOfSameRoutesAgree(AllIngressEntries(a), AllIngressEntries(b), tableA, tableB, host, path);
  }
}
