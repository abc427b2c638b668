/**
  Routes and edge policies are stored in two maps with differently written keys and found by two
  different functions. This module says when the two lookups meet.
*/
module EdgeAgreement {
  import opened Prelude
  import opened Text
  import opened Hosts
  import opened Routing
  import opened HostLookup
  import opened SiteConfig

  /**
    No edge key without routes of its own hides a bucket that would serve its host. Such a key comes
    from a site host with a colon, which the edge map cuts off and the route map does not.
  */
  predicate NoShadow(routeKeys: set<string>, edgeKeys: set<string>) {
    forall e :: e in edgeKeys && e !in routeKeys && e != "" ==>
      && "*" !in routeKeys
      && var w := WildcardFor(Trim(e)); (w.None? || w.value !in routeKeys)
  }

  /** For every host that is served, the edge lookup names the bucket the route lookup selected. */
  ghost predicate LookupsAgree(routeKeys: set<string>, edgeKeys: set<string>) {
    forall host :: SelectKey(routeKeys, host).Some? ==>
      HostKey(routeKeys, edgeKeys, host) == SelectKey(routeKeys, host).value
  }

  lemma NormalizeHostIdempotent(host: string)
    ensures NormalizeHost(NormalizeHost(host)) == NormalizeHost(host)
  {
    NormalizedHostIsLower(host);
    var h := NormalizeHost(host);
    assert IndexOf(h, {':'}) == |h|;
    assert h[..|h|] == h;
  }

  /** The lookups agree on every host exactly when no edge key shadows a bucket. */
  lemma LookupsAgreeIffNoShadow(entries: seq<Entry>)
    ensures LookupsAgree(RouteKeys(entries), EdgeKeys(entries)) <==> NoShadow(RouteKeys(entries), EdgeKeys(entries))
  {
    hide NormalizeHost, Trim;
    var routeKeys, edgeKeys := RouteKeys(entries), EdgeKeys(entries);
    if !NoShadow(routeKeys, edgeKeys) {
      var e :| e in edgeKeys && e !in routeKeys && e != ""
               && ("*" in routeKeys || (WildcardFor(Trim(e)).Some? && WildcardFor(Trim(e)).value in routeKeys));
      var x :| x in entries && e == NormalizeHost(x.key);
      NormalizeHostIdempotent(x.key);
      assert SelectKey(routeKeys, e).Some? && HostKey(routeKeys, edgeKeys, e) == e;
    }
  }

  /** Keys as the compiler makes them from site hosts without a colon: trimmed and lower-case. */
  ghost predicate PlainKeys(entries: seq<Entry>) {
    forall e :: e in entries ==> IsTrimmed(e.key) && Lower(e.key) == e.key && Free(e.key, {':'})
  }

  /** Hosts without a colon never shadow, and are stored under the same keys in both maps. */
  lemma NoColonNoShadow(entries: seq<Entry>)
    requires PlainKeys(entries)
    ensures EdgeKeys(entries) == RouteKeys(entries)
    ensures NoShadow(RouteKeys(entries), EdgeKeys(entries)) && TrimmedKeys(EdgeKeys(entries))
  {
    forall e | e in entries ensures NormalizeHost(e.key) == e.key {
      assert IndexOf(e.key, {':'}) == |e.key|;
      assert e.key[..|e.key|] == e.key;
    }
  }

  /** Cutting changes nothing in a lower-case text without a colon. */
  lemma CutOfPlain(key: string)
    requires forall k :: 0 <= k < |key| ==> key[k] != ':' && LowerChar(key[k]) == key[k]
    ensures NormalizeHost(key) == key
  {
    assert IndexOf(key, {':'}) == |key| && key[..|key|] == key;
    assert Lower(key) == key;
  }

  lemma NormalizedIsPlain(host: string)
    ensures var h := NormalizeHost(host);
            forall k :: 0 <= k < |h| ==> h[k] != ':' && LowerChar(h[k]) == h[k]
  {
  }

  lemma WildcardIsPlain(h: string)
    requires forall k :: 0 <= k < |h| ==> h[k] != ':' && LowerChar(h[k]) == h[k]
    requires WildcardFor(Trim(h)).Some?
    ensures var w := WildcardFor(Trim(h)).value;
            forall k :: 0 <= k < |w| ==> w[k] != ':' && LowerChar(w[k]) == w[k]
  {
    hide LowerChar, Trim;
    var i, j := TrimSlice(h);
    var t := Trim(h);
    var d := IndexOf(t, {'.'});
    var w := WildcardFor(t).value;
    assert LowerChar('*') == '*' by { StarIsLower(); }
    forall k | 1 <= k < |w| ensures w[k] == h[i + d + k - 1] { assert w[k] == t[d..][k - 1] == t[d + k - 1]; }
  }

  lemma StarIsLower()
    ensures LowerChar('*') == '*'
  {
  }

  /** A selected key has no colon and is lower-case, so cutting it changes nothing. */
  lemma SelectedKeyIsCut(keys: set<string>, host: string)
    requires SelectKey(keys, host).Some?
    ensures NormalizeHost(SelectKey(keys, host).value) == SelectKey(keys, host).value
  {
    hide NormalizeHost, Trim, WildcardFor, LowerChar;
    var h := NormalizeHost(host);
    NormalizedIsPlain(host);
    if WildcardFor(Trim(h)).Some? { WildcardIsPlain(h); }
    StarIsLower();
    CutOfPlain(SelectKey(keys, host).value);
  }

  /** No two entries share an edge key and a path. */
  ghost predicate UniquePaths(entries: seq<Entry>) {
    forall i, j :: 0 <= i < j < |entries| ==>
      NormalizeHost(entries[i].key) != NormalizeHost(entries[j].key) || entries[i].route.path != entries[j].route.path
  }

  lemma {:induction false} LastPolicyOfUnique(entries: seq<Entry>, k: nat)
    requires UniquePaths(entries) && k < |entries|
    ensures LastPolicy(entries, NormalizeHost(entries[k].key), entries[k].route.path) == entries[k].edge
  {
    hide NormalizeHost;
    if k < |entries| - 1 { LastPolicyOfUnique(entries[..|entries| - 1], k); }
  }

  /**
    The policy looked up for a served route is the one configured last for its host key and path;
    with unique paths it is the policy configured on that very route.
  */
  lemma ServedRouteHasItsPolicy(entries: seq<Entry>, table: RouteTable, host: string, path: string)
    requires IsTable(entries, table)
    requires NoShadow(RouteKeys(entries), EdgeKeys(entries))
    requires Pick(entries, host, path).Some?
    ensures var e := Pick(entries, host, path).value;
            && MatchEntry(table, host, path) == Some(e.route)
            && EdgeFor(table, host, e.route.path) == LastPolicy(entries, e.key, e.route.path)
            && (UniquePaths(entries) ==> EdgeFor(table, host, e.route.path) == e.edge)
  {
    hide SelectKey, HostKey, BestEntry, LastPolicy, MatchEntry, NormalizeHost, NoShadow, SortRoutes, RoutesAt;
    var e := Pick(entries, host, path).value;
    TableServesPick(entries, table, host, path);
    LookupsAgreeIffNoShadow(entries);
    SelectedKeyIsCut(RouteKeys(entries), host);
    if UniquePaths(entries) {
      var k :| 0 <= k < |entries| && entries[k] == e;
      LastPolicyOfUnique(entries, k);
    }
  }
}
