/**
  The route table and its matcher (`src/router.rs`): hosts map to buckets of routes sorted by path
  length, longest first, and the first route of a bucket whose path matches is taken.
*/
module Routing {
  import opened Prelude
  import opened Text
  import GeoPolicy
  import Security

  datatype PathMatchType = Exact | Prefix | ImplementationSpecific

  datatype Backend = Backend(address: string, port: nat, useTls: bool)

  datatype Middleware =
    | StripPrefix(prefix: string)
    | RequestHeaders(headers: seq<(string, string)>)
    | ResponseHeaders(headers: seq<(string, string)>)

  datatype Route = Route(
    path: string, pathType: PathMatchType, backend: Backend, middlewares: seq<Middleware>,
    forwardClientIp: bool, geoip: GeoPolicy.GeoIpPolicy, security: Security.SecurityPolicy)

  datatype RouteAuth =
    | Basic(username: string, password: string)
    | ApiKey(key: string)
    | JwtAuth(secret: string)
    | ForwardAuth(url: string)

  datatype EdgePolicy = EdgePolicy(auth: Option<RouteAuth>, rateLimitRps: nat, x4xxLimitRps: nat, cache: Option<bool>)

  const NO_EDGE := EdgePolicy(None, 0, 0, None)

  datatype TlsGrade = High | Medium | Unsafe

  datatype ConsulConfig = ConsulConfig(address: string, token: Option<string>, datacenter: Option<string>)

  datatype EdgeGlobals = EdgeGlobals(
    tlsGrade: TlsGrade, cacheSizeMb: nat, cacheTtlSecs: nat, consul: Option<ConsulConfig>, jwtSecret: Option<string>)

  const DEFAULT_GLOBALS := EdgeGlobals(Medium, 0, 60, None, None)

  datatype RouteTable = RouteTable(
    routes: map<string, seq<Route>>, edge: map<string, map<string, EdgePolicy>>, globals: EdgeGlobals)

  // -------------------------------------------------------------------- paths

  predicate PathMatches(pathType: PathMatchType, rule: string, path: string) {
    match pathType
    case Exact => rule == path
    case Prefix =>
      || path == rule
      || (EndsWith(rule, "/") && StartsWith(path, rule))
      || (!EndsWith(rule, "/") && (StartsWith(path, rule + "/") || path == rule))
    case ImplementationSpecific => StartsWith(path, rule)
  }

  predicate Matches(r: Route, path: string) { PathMatches(r.pathType, r.path, path) }

  /** A path that matches is a prefix of the request path, so two of equal length are equal. */
  lemma MatchIsPrefix(r: Route, path: string)
    requires Matches(r, path)
    ensures |r.path| <= |path| && r.path == path[..|r.path|]
  {
    if r.pathType.Prefix? && !EndsWith(r.path, "/") && path != r.path {
      assert path[..|r.path|] == path[..|r.path| + 1][..|r.path|];
    }
  }

  /** A `Prefix` rule matches whole path segments only. */
  lemma PrefixMatchesSegments(rule: string, path: string)
    ensures PathMatches(Prefix, rule, path) <==>
              StartsWith(path, rule) && (|path| == |rule| || EndsWith(rule, "/") || path[|rule|] == '/')
  {
    if |rule| < |path| {
      assert path[..|rule| + 1] == path[..|rule|] + [path[|rule|]];
      assert StartsWith(path, rule + "/") <==> path[..|rule|] == rule && path[|rule|] == '/' by {
        if StartsWith(path, rule + "/") {
          assert (rule + "/")[..|rule|] == rule && (rule + "/")[|rule|] == '/';
        }
      }
    }
  }

  function FindRoute(routes: seq<Route>, path: string): Option<Route> {
    if routes == [] then None
    else if Matches(routes[0], path) then Some(routes[0])
    else FindRoute(routes[1..], path)
  }

  /** The longest matching path, the earliest route on ties: what the bucket stands for, unsorted. */
  function BestMatch(routes: seq<Route>, path: string): (r: Option<Route>)
    ensures r.Some? ==> r.value in routes && Matches(r.value, path)
    ensures r.None? ==> forall x :: x in routes ==> !Matches(x, path)
  {
    if routes == [] then None else
      var rest := BestMatch(routes[1..], path);
      if Matches(routes[0], path) && (rest.None? || |rest.value.path| <= |routes[0].path|)
      then Some(routes[0]) else rest
  }

  /** `BestMatch` by position: no match is longer, and none as long stands before it. */
  lemma {:induction false} BestMatchIsBest(routes: seq<Route>, path: string) returns (k: nat)
    requires BestMatch(routes, path).Some?
    ensures k < |routes| && routes[k] == BestMatch(routes, path).value
    ensures forall i :: 0 <= i < |routes| && Matches(routes[i], path) ==>
              |routes[i].path| < |routes[k].path| || (|routes[i].path| == |routes[k].path| && k <= i)
  {
    var rest := BestMatch(routes[1..], path);
    if Matches(routes[0], path) && (rest.None? || |rest.value.path| <= |routes[0].path|) {
      k := 0;
      if rest.Some? {
        var j := BestMatchIsBest(routes[1..], path);
        assert forall i :: 1 <= i < |routes| ==> routes[i] == routes[1..][i - 1];
      } else {
        assert forall i :: 1 <= i < |routes| ==> routes[i] in routes[1..];
      }
    } else {
      var j := BestMatchIsBest(routes[1..], path);
      assert forall i :: 1 <= i < |routes| ==> routes[i] == routes[1..][i - 1];
      k := j + 1;
    }
  }

  // ------------------------------------------------------------------ sorting

  /** `sort_by(|a, b| b.path.len().cmp(&a.path.len()))`, a stable sort. */
  function SortRoutes(routes: seq<Route>): seq<Route> {
    if routes == [] then [] else InsertRoute(routes[0], SortRoutes(routes[1..]))
  }

  function InsertRoute(r: Route, sorted: seq<Route>): seq<Route> {
    if sorted == [] || |sorted[0].path| <= |r.path| then [r] + sorted
    else [sorted[0]] + InsertRoute(r, sorted[1..])
  }

  ghost predicate LongestFirst(s: seq<Route>) {
    forall i, j :: 0 <= i < j < |s| ==> |s[i].path| >= |s[j].path|
  }

  /** The routes whose path has length `n`, in order. */
  function OfLength(s: seq<Route>, n: nat): seq<Route> {
    if s == [] then [] else (if |s[0].path| == n then [s[0]] else []) + OfLength(s[1..], n)
  }

  ghost predicate IsStableSort(s: seq<Route>, out: seq<Route>) {
    LongestFirst(out) && forall n :: OfLength(out, n) == OfLength(s, n)
  }

  lemma {:induction false} InsertRouteSorted(r: Route, s: seq<Route>)
    requires LongestFirst(s)
    ensures LongestFirst(InsertRoute(r, s))
    ensures forall x :: x in InsertRoute(r, s) ==> x == r || x in s
  {
    if s != [] && |s[0].path| > |r.path| {
      InsertRouteSorted(r, s[1..]);
      var rest := InsertRoute(r, s[1..]);
      assert forall k :: 0 <= k < |rest| ==> rest[k] in rest;
      assert forall x :: x in s[1..] ==> |x.path| <= |s[0].path|;
    }
  }

  lemma {:induction false} InsertRouteStable(r: Route, s: seq<Route>, n: nat)
    ensures OfLength(InsertRoute(r, s), n) == OfLength([r] + s, n)
  {
    assert ([r] + s)[1..] == s;
    if s != [] && |s[0].path| > |r.path| {
      InsertRouteStable(r, s[1..], n);
      var rest := InsertRoute(r, s[1..]);
      assert ([s[0]] + rest)[1..] == rest && ([r] + s[1..])[1..] == s[1..];
      var mine := if |r.path| == n then [r] else [];
      var head := if |s[0].path| == n then [s[0]] else [];
      assert OfLength(s, n) == head + OfLength(s[1..], n);
      assert mine == [] || head == [];
      assert head + (mine + OfLength(s[1..], n)) == mine + (head + OfLength(s[1..], n));
    }
  }

  lemma {:induction false} SortRoutesStable(s: seq<Route>)
    ensures IsStableSort(s, SortRoutes(s))
  {
    if s != [] {
      hide InsertRoute;
      SortRoutesStable(s[1..]);
      var rest := SortRoutes(s[1..]);
      InsertRouteSorted(s[0], rest);
      forall n ensures OfLength(SortRoutes(s), n) == OfLength(s, n) {
        InsertRouteStable(s[0], rest, n);
        assert ([s[0]] + rest)[1..] == rest;
        assert OfLength(rest, n) == OfLength(s[1..], n);
      }
    }
  }

  lemma {:induction false} OfLengthIn(s: seq<Route>, n: nat)
    ensures OfLength(s, n) != [] ==> OfLength(s, n)[0] in s && |OfLength(s, n)[0].path| == n
    ensures forall x :: x in s && |x.path| == n ==> OfLength(s, n) != []
  {
    if s != [] { OfLengthIn(s[1..], n); }
  }

  /** Every stable sort gives the same bucket, so the model's choice of algorithm is no choice. */
  lemma {:induction false} StableSortUnique(a: seq<Route>, b: seq<Route>)
    requires LongestFirst(a) && LongestFirst(b)
    requires forall n :: OfLength(a, n) == OfLength(b, n)
    ensures a == b
  {
    if a != [] { OfLengthIn(a, |a[0].path|); OfLengthIn(b, |a[0].path|); }
    if b != [] { OfLengthIn(b, |b[0].path|); OfLengthIn(a, |b[0].path|); }
    if a != [] && b != [] {
      var n, m := |a[0].path|, |b[0].path|;
      assert a[0] in a && b[0] in b;
      assert n == m;
      assert OfLength(a, n)[0] == a[0] && OfLength(b, n)[0] == b[0];
      forall k ensures OfLength(a[1..], k) == OfLength(b[1..], k) {
        assert OfLength(a, k) == OfLength(b, k);
        if k == n {
          assert OfLength(a, n)[1..] == OfLength(a[1..], n) && OfLength(b, n)[1..] == OfLength(b[1..], n);
        } else {
          assert OfLength(a, k) == OfLength(a[1..], k) && OfLength(b, k) == OfLength(b[1..], k);
        }
      }
      StableSortUnique(a[1..], b[1..]);
      assert a == [a[0]] + a[1..] && b == [b[0]] + b[1..];
    }
  }

  lemma {:induction false} FindInInserted(r: Route, s: seq<Route>, path: string)
    requires LongestFirst(s)
    ensures FindRoute(InsertRoute(r, s), path) ==
            var rest := FindRoute(s, path);
            if Matches(r, path) && (rest.None? || |rest.value.path| <= |r.path|) then Some(r) else rest
  {
    hide Matches;
    FindFound(s, path);
    if s == [] || |s[0].path| <= |r.path| {
      assert ([r] + s)[1..] == s;
    } else {
      FindInInserted(r, s[1..], path);
      var rest := InsertRoute(r, s[1..]);
      assert ([s[0]] + rest)[1..] == rest;
    }
  }

  lemma {:induction false} FindFound(s: seq<Route>, path: string)
    ensures FindRoute(s, path).Some? ==> FindRoute(s, path).value in s
  {
    if s != [] { FindFound(s[1..], path); }
  }

  /** The first match of the sorted bucket is the best match of the unsorted one. */
  lemma {:induction false} FirstOfSortedIsBest(routes: seq<Route>, path: string)
    ensures FindRoute(SortRoutes(routes), path) == BestMatch(routes, path)
  {
    if routes != [] {
      FirstOfSortedIsBest(routes[1..], path);
      SortRoutesStable(routes[1..]);
      FindInInserted(routes[0], SortRoutes(routes[1..]), path);
    }
  }
}
