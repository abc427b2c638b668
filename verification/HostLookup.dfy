/**
  Finding the bucket of a host (`RouteTable`, `src/router.rs`). The route lookup and the edge lookup
  are two differently written scans over hash maps, in whatever order those iterate.
*/
module HostLookup {
  import opened Prelude
  import opened Text
  import opened Hosts
  import opened Routing
  import opened Utf8

  /** The key under which a host is served: itself, else its one wildcard, else the catch-all. */
  function SelectKey(keys: set<string>, host: string): (key: Option<string>)
    ensures key.Some? ==> key.value in keys
  {
    var h := NormalizeHost(host);
    var w := WildcardFor(Trim(h));
    if h == "" then None
    else if h in keys then Some(h)
    else if w.Some? && w.value in keys then w
    else if "*" in keys then Some("*")
    else None
  }

  function Bucket(table: RouteTable, host: string): Option<seq<Route>> {
    var key := SelectKey(table.routes.Keys, host);
    if key.None? then None else Some(table.routes[key.value])
  }

  function MatchEntry(table: RouteTable, host: string, path: string): Option<Route> {
    var bucket := Bucket(table, host);
    if bucket.None? then None else FindRoute(bucket.value, path)
  }

  ghost predicate TrimmedKeys(keys: set<string>) {
    forall k :: k in keys ==> IsTrimmed(k)
  }

  /** Among trimmed keys, only the host's own wildcard passes the test of the scan. */
  lemma CoveringKey(key: string, h: string)
    requires Lower(h) == h && IsTrimmed(key)
    ensures StartsWith(key, "*.") && WildcardCovers(key, h) <==> WildcardFor(Trim(h)) == Some(key)
  {
    hide Trim, Lower;
    TrimOfLower(h);
    TrimOfTrimmed(key);
    if StartsWith(key, "*.") { OneWildcardCovers(key, h); }
    var i := IndexOf(Trim(h), {'.'});
    if WildcardFor(Trim(h)) == Some(key) { assert key[..2] == "*."; }
  }

  /** The wildcard keys the scans accept for `h`. */
  function CoveringKeys(keys: set<string>, h: string): set<string> {
    set k | k in keys && StartsWith(k, "*.") && WildcardCovers(k, h)
  }

  ghost predicate Longest(keys: set<string>, key: string) {
    key in keys && forall k :: k in keys ==> ByteLength(k) <= ByteLength(key)
  }

  /**
    The keys the route lookup may settle on, whatever order the map iterates in: the host, else a
    longest covering wildcard, else the catch-all. Two keys can tie if they differ in white space.
  */
  ghost predicate MayServe(keys: set<string>, host: string, key: Option<string>): (ok: bool)
    ensures ok && key.Some? ==> key.value in keys
  {
    var h := NormalizeHost(host);
    if h == "" then key == None
    else if h in keys then key == Some(h)
    else if CoveringKeys(keys, h) != {} then key.Some? && Longest(CoveringKeys(keys, h), key.value)
    else key == if "*" in keys then Some("*") else None
  }

  lemma TrimmedCovering(keys: set<string>, h: string)
    requires Lower(h) == h && TrimmedKeys(keys)
    ensures var w := WildcardFor(Trim(h));
            CoveringKeys(keys, h) == if w.Some? && w.value in keys then {w.value} else {}
  {
    hide Trim, Lower, WildcardCovers, IsTrimmed;
    forall k | k in keys
      ensures k in CoveringKeys(keys, h) <==> WildcardFor(Trim(h)) == Some(k)
    {
      CoveringKey(k, h);
    }
  }

  /** Among trimmed keys nothing ties: the iteration order does not show. */
  lemma TrimmedKeysDecide(keys: set<string>, host: string, key: Option<string>)
    requires TrimmedKeys(keys)
    ensures MayServe(keys, host, key) <==> key == SelectKey(keys, host)
  {
    hide Trim, WildcardCovers, NormalizeHost, WildcardFor, CoveringKeys;
    NormalizedHostIsLower(host);
    TrimmedCovering(keys, NormalizeHost(host));
  }

  function BucketAt(table: RouteTable, key: Option<string>): Option<seq<Route>>
    requires key.Some? ==> key.value in table.routes
  {
    if key.None? then None else Some(table.routes[key.value])
  }

  function RouteAt(table: RouteTable, key: Option<string>, path: string): Option<Route>
    requires key.Some? ==> key.value in table.routes
  {
    if key.None? then None else FindRoute(table.routes[key.value], path)
  }

  ghost predicate BestOf(best: Option<(nat, string)>, covering: set<string>) {
    match best
    case None => covering == {}
    case Some((score, key)) => score == ByteLength(key) >= 2 && Longest(covering, key)
  }

  predicate Accepts(key: string, h: string) { StartsWith(key, "*.") && WildcardCovers(key, h) }

  /** The better of the best key so far and `key`. */
  function Better(best: Option<(nat, string)>, key: string, h: string): Option<(nat, string)> {
    if Accepts(key, h) && (best.None? || best.value.0 < ByteLength(key)) then Some((ByteLength(key), key)) else best
  }

  lemma CoveringWith(keys: set<string>, key: string, h: string)
    ensures CoveringKeys(keys + {key}, h) == CoveringKeys(keys, h) + if Accepts(key, h) then {key} else {}
  {
    hide WildcardCovers, StartsWith;
  }

  lemma BetterIsBest(best: Option<(nat, string)>, done: set<string>, key: string, h: string)
    requires BestOf(best, CoveringKeys(done, h))
    ensures BestOf(Better(best, key, h), CoveringKeys(done + {key}, h))
  {
    hide CoveringKeys, Accepts, ByteLength;
    CoveringWith(done, key, h);
    if Accepts(key, h) { AcceptedLength(key, h); }
  }

  lemma AcceptedLength(key: string, h: string)
    requires Accepts(key, h)
    ensures ByteLength(key) >= 2
  {
    hide ByteLength, WildcardCovers;
    LengthInBytes(key);
  }

  /** The scan of `matched_host_key` over `keys`, starting from the best key of those already seen. */
  method ScanKeys(keys: set<string>, h: string, before: Option<(nat, string)>, ghost seen: set<string>)
    returns (best: Option<(nat, string)>)
    requires BestOf(before, CoveringKeys(seen, h))
    ensures BestOf(best, CoveringKeys(seen + keys, h))
  {
    hide WildcardCovers, ByteLength, CoveringKeys, BestOf, StartsWith;
    best := before;
    var left := keys;
    assert seen + (keys - left) == seen;
    while left != {}
      invariant left <= keys
      invariant BestOf(best, CoveringKeys(seen + (keys - left), h))
      decreases |left|
    {
      var key :| key in left;
      ghost var done := seen + (keys - left);
      left := left - {key};
      assert seen + (keys - left) == done + {key};
      BetterIsBest(best, done, key, h);
      if StartsWith(key, "*.") && WildcardCovers(key, h) {
        AcceptedLength(key, h);
        var score := ByteLength(key);
        if (if best.None? then 0 else best.value.0) < score {
          best := Some((score, key));
        }
      }
    }
    assert seen + (keys - left) == seen + keys;
  }

  ghost predicate IsBucketOf(routes: map<string, seq<Route>>, key: Option<(nat, string)>, best: Option<(nat, seq<Route>)>) {
    match key
    case None => best == None
    case Some((score, k)) => score >= 2 && k in routes && best == Some((score - 1, routes[k]))
  }

  /** The scan of `routes_for_host`: it scores by the length after the star. */
  method ScanBuckets(routes: map<string, seq<Route>>, h: string) returns (best: Option<(nat, seq<Route>)>)
    ensures exists key :: BestOf(key, CoveringKeys(routes.Keys, h)) && IsBucketOf(routes, key, best)
  {
    hide WildcardCovers, ByteLength, CoveringKeys, BestOf, StartsWith;
    best := None;
    ghost var key: Option<(nat, string)> := None;
    var left := routes.Keys;
    ghost var done := {};
    NothingCovers(h);
    while left != {}
      invariant left <= routes.Keys && done == routes.Keys - left
      invariant BestOf(key, CoveringKeys(done, h))
      invariant IsBucketOf(routes, key, best)
      decreases |left|
    {
      var k :| k in left;
      left := left - {k};
      BetterIsBest(key, done, k, h);
      done := done + {k};
      if StartsWith(k, "*.") && WildcardCovers(k, h) {
        AcceptedLength(k, h);
        var score := ByteLength(k) - 1;
        if (if best.None? then 0 else best.value.0) < score {
          best, key := Some((score, routes[k])), Some((score + 1, k));
        }
      }
    }
    assert done == routes.Keys;
  }

  lemma NothingCovers(h: string)
    ensures CoveringKeys({}, h) == {} && BestOf(None, CoveringKeys({}, h))
  {
  }

  /** `routes_for_host`. */
  method RoutesForHost(table: RouteTable, host: string) returns (r: Option<seq<Route>>)
    ensures exists key :: MayServe(table.routes.Keys, host, key) && r == BucketAt(table, key)
    ensures TrimmedKeys(table.routes.Keys) ==> r == Bucket(table, host)
  {
    hide CoveringKeys, ByteLength, NormalizeHost, SelectKey;
    var h := NormalizeHost(host);
    ghost var key: Option<string>;
    if h == "" {
      r, key := None, None;
    } else if h in table.routes {
      r, key := Some(table.routes[h]), Some(h);
    } else {
      var best := ScanBuckets(table.routes, h);
      ghost var bestKey :| BestOf(bestKey, CoveringKeys(table.routes.Keys, h)) && IsBucketOf(table.routes, bestKey, best);
      if best.Some? {
        r, key := Some(best.value.1), Some(bestKey.value.1);
      } else if "*" in table.routes {
        r, key := Some(table.routes["*"]), Some("*");
      } else {
        r, key := None, None;
      }
    }
    assert MayServe(table.routes.Keys, host, key) && r == BucketAt(table, key);
    if TrimmedKeys(table.routes.Keys) { TrimmedKeysDecide(table.routes.Keys, host, key); }
  }

  method MatchRouteEntry(table: RouteTable, host: string, path: string) returns (r: Option<Route>)
    ensures exists key :: MayServe(table.routes.Keys, host, key) && r == RouteAt(table, key, path)
    ensures TrimmedKeys(table.routes.Keys) ==> r == MatchEntry(table, host, path)
  {
    hide FindRoute, MayServe, SelectKey;
    var routes := RoutesForHost(table, host);
    ghost var key :| MayServe(table.routes.Keys, host, key) && routes == BucketAt(table, key);
    r := if routes.None? then None else FindRoute(routes.value, path);
    assert r == RouteAt(table, key, path);
  }

  // --------------------------------------------------------------------- edge

  /** The key the edge lookup settles on, over both maps' trimmed keys. */
  function HostKey(routeKeys: set<string>, edgeKeys: set<string>, host: string): string {
    var h := NormalizeHost(host);
    var w := WildcardFor(Trim(h));
    if h in routeKeys + edgeKeys then h
    else if w.Some? && w.value in routeKeys + edgeKeys then w.value
    else if "*" in routeKeys then "*"
    else h
  }

  /** The keys the edge lookup may settle on. */
  ghost predicate MayName(routeKeys: set<string>, edgeKeys: set<string>, host: string, key: string) {
    var h := NormalizeHost(host);
    var covering := CoveringKeys(routeKeys + edgeKeys, h);
    if h in routeKeys + edgeKeys then key == h
    else if covering != {} then Longest(covering, key)
    else key == if "*" in routeKeys then "*" else h
  }

  lemma TrimmedKeysName(routeKeys: set<string>, edgeKeys: set<string>, host: string, key: string)
    requires TrimmedKeys(routeKeys + edgeKeys)
    ensures MayName(routeKeys, edgeKeys, host, key) <==> key == HostKey(routeKeys, edgeKeys, host)
  {
    hide Trim, WildcardCovers, NormalizeHost, WildcardFor, CoveringKeys;
    NormalizedHostIsLower(host);
    TrimmedCovering(routeKeys + edgeKeys, NormalizeHost(host));
  }

  /** `matched_host_key`. */
  method MatchedHostKey(table: RouteTable, host: string) returns (key: string)
    ensures MayName(table.routes.Keys, table.edge.Keys, host, key)
    ensures TrimmedKeys(table.routes.Keys + table.edge.Keys) ==>
              key == HostKey(table.routes.Keys, table.edge.Keys, host)
  {
    hide Trim, WildcardCovers, ByteLength, WildcardFor, NormalizeHost;
    var h := NormalizeHost(host);
    if h in table.routes || h in table.edge {
      key := h;
    } else {
      assert CoveringKeys({}, h) == {} && {} + table.routes.Keys == table.routes.Keys;
      var best := ScanKeys(table.routes.Keys, h, None, {});
      best := ScanKeys(table.edge.Keys, h, best, {} + table.routes.Keys);
      if best.Some? {
        key := best.value.1;
      } else if "*" in table.routes {
        key := "*";
      } else {
        key := h;
      }
    }
    if TrimmedKeys(table.routes.Keys + table.edge.Keys) {
      TrimmedKeysName(table.routes.Keys, table.edge.Keys, host, key);
    }
  }

  function EdgeAt(table: RouteTable, key: string, path: string): EdgePolicy {
    if key in table.edge && path in table.edge[key] then table.edge[key][path] else NO_EDGE
  }

  /** `edge_for`: the policy stored for the host's key and the matched route's path. */
  function EdgeFor(table: RouteTable, host: string, path: string): EdgePolicy {
    EdgeAt(table, HostKey(table.routes.Keys, table.edge.Keys, host), path)
  }
}
