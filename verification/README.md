# Verified models of pertisk-proxy

pertisk-proxy is a reverse proxy and Kubernetes Ingress controller. These Dafny files model the parts of it
that carry protocol state, concurrency, translation or coding, and prove what those parts promise.

| file | what it models |
|---|---|
| `LeaderElection.dfy` | replicas competing for a versioned Lease, with late writes, lost replies, restarts and free clocks |
| `Routing.dfy`, `Hosts.dfy`, `HostLookup.dfy` | path matching, buckets sorted by path length, the two host lookups over hash maps |
| `SiteConfig.dfy`, `EdgeAgreement.dfy`, `Forward.dfy` | sites and backends compiled to a table, its parallel edge-policy map, and the forward plan |
| `OrderFree.dfy` | the Ingress table builder, and independence of any input order |
| `Base64Url.dfy`, `Utf8.dfy`, `Jwt.dfy` | base64url, and HS256 tokens issued and checked through it |
| `ResponseCache.dfy`, `RateWindows.dfy`, `BotRate.dfy`, `LiveSlots.dfy` | the byte-budgeted cache, the per-second windows, the pruned per-client map, the connection slots |
| `TlsRows.dfy`, `AcmeSweep.dfy` | the merging of TLS rows, and certificate sweeps running beside obtain jobs |
| `GeoPolicy.dfy`, `AsnIndex.dfy`, `Security.dfy` | GeoIP policies and their annotation codec, the ASN range index, security policies |
| `Prelude.dfy`, `Text.dfy`, `SortedLists.dfy` | shared definitions |

How the source is rendered:

- A string is its sequence of Unicode scalar values. Path lengths count characters, which orders matching paths
  exactly as their byte lengths do, since all of them are prefixes of one request path. Cache sizes and the
  scores of wildcard keys are UTF-8 lengths.
- Clocks, HMAC, `parse_upstream`, `str::to_lowercase`, the Consul pick and the TLS probe are parameters: the
  results hold for any. Where site hosts must stay trimmed and lower-case, that is asked of the lower-casing
  (`SiteConfig.LowerCases`); every Unicode lower-casing does it.
- Iteration over a hash map is an arbitrary choice of the next key.
- Annotation keys are an enumeration of the names the code uses, with one case for all others.
- Protocols are step systems; a theorem about a run holds in every state of every finite sequence of steps.
- Objects the source changes in place are classes. Vectors and maps it rewrites locally are `seq` and `map`
  variables in methods with loops; each such method is proved equal to a specification function, and the
  results are about those functions.
- Bit operations of base64 and UTF-8 are written as division and remainder by powers of two; 32-bit and
  64-bit saturation and wrap-around are written out.

Some obvious claims are false of the code. Each has a failing input and its exact condition:

- A lease only guarantees one leader among the flags that are still within their lease
  (`TwoLeadersMeansOneIsOverdue`); `ExpiredLeaderCanBeJoined` shows that a late replica does get company.
- An issued token keeps its expiry for exactly the owners in which the text `"exp":` cannot be found, counting
  the quote that opens them (`IssuedTokenLivesToExpiry`, `UnsafeOwnerBreaksExpiry`).
- The request limiter keeps its rate exactly while the wall clock does not bring a client's calls back to a
  second they have left (`RateKeptIffNeverReturns`). A limit of zero switches it off; such calls are not counted.
- One pass of TLS normalisation is not idempotent (`OnePassIsNotEnough`); it is exactly on the inputs without a
  bridging row (`OnePassSufficesIffNoBridge`).
- The lock key of a certificate order tells sets of names apart exactly for orders without repeated names
  (`KeyIdentifiesNameSets`, `RepeatedNameChangesKey`); `RepeatedHostIsOrderedTwice` is a run with a repeated one.
- A sweep can order names the table already covers (`FinishedOrderIsRepeated`), exactly when the certificate came
  after its last listing (`RepeatsIffPutSinceListing`).

## Model

| member | source | states |
|---|---|---|
| LeaderElection.TwoLeadersMeansOneIsOverdue | src/ingress/leader_election.rs:98-172 | in every state of every run of any number of replicas with distinct ids, of two replicas holding the leader flag one is past the end of the lease it wrote, on its own clock plus the clock skew; no assumption on delays, lost replies or restarts |
| LeaderElection.AtMostOneLeader | src/ingress/leader_election.rs:98-119 | with a common clock, and every leader storing its next result within its lease, at most one flag is true |
| LeaderElection.ExpiredLeaderCanBeJoined | src/ingress/leader_election.rs:124-172 | the timing condition is needed: whenever a leader's lease has expired on a sleeping replica's clock, the run extends to one with two leaders |
| LeaderElection.RunKeepsInv | src/ingress/leader_election.rs:98-172 | the inductive invariant: every accepted write is still backed by the stored lease or has run out on some clock |
| LeaderElection.RenewalNeverGoesBack | src/ingress/leader_election.rs:146-157 | with unsynchronised clocks the stored renewal time never decreases over any stretch of a run, and acquisition never follows it |
| LeaderElection.HolderChangesOnlyAfterExpiry | src/ingress/leader_election.rs:139-144 | the holder changes only by a write whose sender's own clock was strictly past the old renewal plus its recorded duration |
| LeaderElection.AcceptedWriteFitsTheLease | src/ingress/leader_election.rs:146-169 | a write, however late, is accepted only if its sender would decide the same on the lease it replaces; a renewal moves the old renewal time into the acquisition time |
| Routing.MatchIsPrefix | src/router.rs:296-309 | every matching rule path is a prefix of the request path |
| Routing.PrefixMatchesSegments | src/router.rs:299-306 | a Prefix rule matches whole path segments and nothing else |
| Routing.StableSortUnique | src/router.rs:111-114 | the sorted bucket does not depend on the stable sort that made it |
| Routing.FirstOfSortedIsBest | src/router.rs:287-294 | the first match of the sorted bucket is the longest match of the unsorted one, the earliest on ties |
| Routing.BestMatchIsBest | src/router.rs:111-120 | that route by position: nothing longer matches, nothing as long stands before it |
| Hosts.OneWildcardCovers | src/proxy_config.rs:314-329 | at most one wildcard name covers a host, namely a star in place of its first label |
| HostLookup.RoutesForHost | src/router.rs:74-99 | for any keys the scan over the hash map finds the host, else a longest covering wildcard, else the catch-all; with trimmed keys there is one such wildcard, in whatever order it iterates |
| HostLookup.TrimmedKeysDecide | src/router.rs:74-99 | trimmed keys never tie: the keys the scan may settle on are exactly the one selected by rule |
| HostLookup.MatchRouteEntry | src/router.rs:63-66 | the matched route is the first match in the bucket so selected |
| HostLookup.MatchedHostKey | src/router.rs:171-192 | the second scan, over both maps' keys, names the host, else a longest covering wildcard of either map, else the catch-all or the host; with trimmed keys that does not depend on iteration order |
| SiteConfig.Compile | src/proxy/apply.rs:21-117 | compilation returns the first configuration error, or the table of all configured routes grouped by host, sorted, with edge policies stored by cut host and path and the global settings copied |
| SiteConfig.BuildBuckets | src/proxy/apply.rs:22-80 | the first loop: buckets hold exactly the configured routes of their host, in configuration order, and errors stop it in source order |
| SiteConfig.FromRoutes | src/router.rs:111-120 | every bucket is sorted, none is lost, in any iteration order |
| SiteConfig.CompiledTableServesConfig | src/proxy/apply.rs:21-117 | meaning preservation: for every configuration that compiles, every host and path, the table serves the route a direct scan of the configuration picks |
| SiteConfig.BestEntryPosition | src/router.rs:63-66 | what the direct scan picks, by position: the longest matching path under the selected key, earliest in the configuration on ties |
| SiteConfig.EntryOrigin | src/proxy/apply.rs:49-76 | every compiled route is one configured route with its own upstream, else a rewrite that is a URL, else the first upstream of its backend, and with the effective, normalised GeoIP and security policies |
| SiteConfig.RewriteIsPathOnly | src/proxy/apply.rs:165-187 | a route strips its path exactly when it is rewritten to the root, whatever the URL filter does |
| EdgeAgreement.LookupsAgreeIffNoShadow | src/router.rs:130-192 | the edge lookup names the bucket the route lookup selected, for every host, if and only if no edge key cut at a colon shadows a bucket |
| EdgeAgreement.NoColonNoShadow | src/proxy/apply.rs:82-108 | site hosts without a colon satisfy that condition |
| EdgeAgreement.ServedRouteHasItsPolicy | src/router.rs:137-144 | the policy found for a served route is the last one configured for its host and path; with unique paths, the one configured on that very route |
| Forward.ResolveForward | src/proxy/forward.rs:201-283 | the plan for any table: refused as unrouted exactly when no route matches, else the matched route's policies, its edge policy and its destination, through keys the two lookups may settle on |
| Forward.StripOf | src/proxy/forward.rs:181-199 | the last StripPrefix middleware decides |
| Forward.PlanFromConfig | src/proxy/forward.rs:201-283 | from configuration to plan: with colon-free hosts a request goes to the destination of the configured route a direct scan picks, with its stripped path, client-address flag, headers and policies, and with unique paths its own edge policy |
| Forward.RewriteToRoot | src/proxy/forward.rs:285-298 | a path rewritten to the root stays rooted for every Exact and Prefix route, and for an ImplementationSpecific one if and only if the match ends at a path boundary |
| OrderFree.TablesOfSameRoutesAgree | src/router.rs:111-120 | tables of the same routes in any order match the same path on every request, the longest that matches; with distinct paths the same route |
| OrderFree.BuildFromIngresses | src/router.rs:375-470 | the Ingress builder's loops give the grouped, sorted routes of all Ingress objects |
| OrderFree.IngressOrderDoesNotMatter | src/router.rs:375-392 | permuting the Ingress objects changes no matched path |
| Base64Url.EncodeBytes | src/edge/mod.rs:259-284 | the encoding loop computes the specified encoding |
| Base64Url.DecodeString | src/edge/mod.rs:286-315 | the decoding loop computes the specified decoding; its accumulator stays below two to its bit count, which is 0, 2, 4 or 6 after each character |
| Base64Url.EncodeNumber | src/edge/mod.rs:259-284 | read as base-64, the encoding is the base-256 number of the bytes, scaled by the padding bits |
| Base64Url.EncodeShape | src/edge/mod.rs:259-284 | only URL-safe symbols, no padding, and the length of section 5 of RFC 4648 |
| Base64Url.DecodeNumber | src/edge/mod.rs:297-314 | the decoded bytes are the leading octets of the symbols' number |
| Base64Url.DecodeAccepts | src/edge/mod.rs:286-305 | decoding succeeds exactly when every character before the first equals sign is a symbol, and ignores the rest |
| Base64Url.DecodeEncoded | src/edge/mod.rs:259-315 | decoding undoes encoding for every byte string |
| Utf8.FromBytesOfBytes | src/edge/mod.rs:321-341 | every string reads back from its UTF-8 bytes |
| Jwt.VerifyIssued | src/edge/mod.rs:327-368 | the envelope of an issued token always splits, decodes and authenticates, under another secret exactly when the codes agree |
| Jwt.IssuedTokenLivesToExpiry | src/edge/mod.rs:317-351 | for every secret, every safe owner and every validity an issued token verifies exactly up to its saturated expiry, inclusive |
| Jwt.NoQuoteIsSafe | src/edge/mod.rs:320-346 | an owner without a double quote is safe |
| Jwt.UnsafeOwnerBreaksExpiry | src/edge/mod.rs:342-350 | the condition on the owner is exact: every other owner breaks the expiry for some validity and issue time |
| ResponseCache.Cache.CacheGet | src/edge/mod.rs:135-149 | a hit leaves the cache alone, an expired entry is removed and its bytes given back |
| ResponseCache.Cache.CachePut | src/edge/mod.rs:151-189 | a storing put ends within the budget, evicts nothing when everything fits and never one entry more than needed, as long as the counter is a megabyte away from 64 bits; sizes are UTF-8 lengths |
| ResponseCache.Cache.Evict | src/edge/mod.rs:171-179 | eviction ends, in any order, with room for the new entry |
| ResponseCache.EveryHitIsTheLastPut | src/edge/mod.rs:135-189 | over every sequence of gets and puts the byte counter is the sum of stored sizes and every hit is the unexpired response of the last accepted put for its key |
| ResponseCache.CounterNeverWraps | src/edge/mod.rs:151-189 | in every run whose budgets leave room for one entry below 64 bits, the counter never comes near wrapping |
| RateWindows.EdgeWindows.RateLimited | src/edge/mod.rs:216-237 | one call's effect on the shared windows |
| RateWindows.EdgeWindows.LimitRequest | src/proxy/mod.rs:375-382 | the limiter as the proxy calls it: rejected exactly when the let-through requests of this client to this host in this second reach the limit; the call is added to the history the windows stand for |
| RateWindows.EdgeWindows.Note4xx | src/edge/mod.rs:239-242 | one more error is noted for this client, host and second, and for no other; the windows keep standing for the history |
| RateWindows.EdgeWindows.X4xxBlocked | src/edge/mod.rs:244-257 | blocked exactly when at least limit errors were noted for this client and host in this second; changes nothing |
| RateWindows.RejectsExactlyOverLimit | src/edge/mod.rs:216-237 | after any history in which the pair's calls never return to a second they have left, a request is rejected exactly when the let-through requests of its client and host this second reach its limit |
| RateWindows.PassedRate | src/edge/mod.rs:216-237 | under that condition the limiter lets at most n times the limit through in n consecutive seconds |
| RateWindows.RateKeptIffNeverReturns | src/edge/mod.rs:209-237 | the condition is exact: the rate is kept for every limit if and only if the pair's calls never return to a second they have left; the wall clock does not promise that |
| RateWindows.MonotoneFits | src/edge/mod.rs:209-214 | every clock that never goes back satisfies it |
| RateWindows.BlockedExactlyAtLimit | src/edge/mod.rs:239-257 | under the same condition a client is blocked on a host exactly when at least limit errors were noted for the pair this second, despite the shared map and the saturating counter |
| BotRate.RateMap.RecordRate | src/security/bot.rs:115-136 | one call's effect on the pruned map and the excess it returns |
| BotRate.PruningIsUnobservable | src/security/bot.rs:115-136 | in every run with a monotone clock the pruned map answers as a reference that keeps the client's own calls: calls in its current minute beyond the limit |
| LiveSlots.SlotsAreSafe | src/api/ws.rs:143-161 | in every interleaving at most 64 slots are granted, and the counter is granted slots plus pending undos, so it never underflows |
| LiveSlots.RefusedExactlyWhenFull | src/api/ws.rs:143-150 | with no undo pending a caller is refused exactly when all slots are taken |
| TlsRows.MergeRows | src/proxy_config.rs:278-299 | the drain loop merges each row into the first row that takes it, or appends it |
| TlsRows.CleanInPlace | src/proxy_config.rs:300-308 | the second loop cleans every row in its place, whichever rows came before |
| TlsRows.NormalizeTls | src/proxy_config.rs:277-311 | the drain, merge and retain loops compute the specified pass |
| TlsRows.PassShrinksOrIsDone | src/proxy_config.rs:277-311 | a pass is the identity exactly on rows in normal form, and otherwise lowers rows plus host strings |
| TlsRows.Converge | src/proxy_config.rs:277-311 | iterating the pass ends in normal form after at most that many passes |
| TlsRows.ConvergedRowsApart | src/proxy_config.rs:242-258 | at the fixed point no two rows, in either order, would merge |
| TlsRows.OnePassIsNotEnough | src/proxy_config.rs:279-299 | one pass is not idempotent: for any two plain hosts, rows {x}, {y}, {x,y} need two |
| TlsRows.OnePassSufficesIffNoBridge | src/proxy_config.rs:277-311 | one pass is enough if and only if, reading the rows in order, none shares an acceptable name with a row behind the one that takes it |
| TlsRows.NamesConserved | src/proxy_config.rs:277-311 | for every ACME or File source the set of acceptable host names is the same before and after, and no row is left empty or with an unacceptable ACME host |
| TlsRows.ConvergeConserves | src/proxy_config.rs:277-311 | so is it at the fixed point |
| TlsRows.KubernetesRowsKept | src/proxy_config.rs:217-258 | rows served from Kubernetes secrets pass through unchanged, in order |
| TlsRows.ExpiryOnlyOnUntouchedRows | src/proxy_config.rs:295-306 | a row keeps its recorded expiry only if it comes through untouched |
| AcmeSweep.IssuanceIsSafe | src/api/acme.rs:374-394 | in every interleaving of sweeps, obtain jobs and other writers no two running jobs order the same names, repetitions counted, and each was committed for names no valid row covered in the table as its sweep had last listed it |
| AcmeSweep.ListingIsATable | src/api/acme.rs:246-252 | the listing a sweep decides by is the table of the run at that sweep's last successful listing |
| AcmeSweep.JobStartsIff | src/api/acme.rs:374-394 | a commit starts a job exactly when no row of that table covers the names and no running job holds their key |
| AcmeSweep.DistinctRowsOrderApart | src/api/acme.rs:385-394 | when no swept row repeats a host, no two running jobs order the same set of names |
| AcmeSweep.KeysAreReleased | src/api/acme.rs:388-516 | a key without a running job is never held |
| AcmeSweep.KeyIdentifiesNames | src/api/acme.rs:385-388 | two orders of comma-free names share a lock key if and only if they ask for the same names equally often, in any order |
| AcmeSweep.KeyIdentifiesNameSets | src/api/acme.rs:385-388 | without repeated names, if and only if they ask for the same set of names |
| AcmeSweep.RepeatedNameChangesKey | src/api/acme.rs:385-388 | the condition is exact: an order shares the key of the same names without repetition if and only if it repeats none |
| AcmeSweep.RepeatedHostIsOrderedTwice | src/api/acme.rs:258-394 | a run in which a host listed twice in one row and once in another is ordered by two jobs at once |
| AcmeSweep.NewNamesKeepOrder | src/api/acme.rs:152-176 | under DNS-01 names without a star, put anywhere into a row with a wildcard, leave its order alone |
| AcmeSweep.NewNamesCauseNoOrder | src/api/acme.rs:283-383 | so with the wildcard's certificate listed, a sweep over the extended row starts nothing |
| AcmeSweep.CoverageSurvivesNewNames | src/api/acme.rs:63-79 | a certificate that covers a row still covers it after a name under one of its wildcards is added |
| AcmeSweep.FinishedOrderIsRepeated | src/api/acme.rs:374-516 | for every order the table does not cover, a run from the start in which one sweep starts it again although its certificate is in the table |
| AcmeSweep.RepeatsIffPutSinceListing | src/api/acme.rs:374-394 | in every run a job is started for names the table covers if and only if a row valid for them was put there after the sweep's last listing, and has stayed |
| GeoPolicy.ApplyAnnotations | src/geoip.rs:511-562 | the edits rewrite exactly the five GeoIP keys and leave every other annotation as it was |
| GeoPolicy.AnnotationRoundTrip | src/geoip.rs:462-562 | storing a policy in a map without exemption flags and reading it back gives the normalised policy if and only if it is enabled or empty and no country code holds a separator |
| GeoPolicy.ReadingIsStable | src/geoip.rs:462-562 | writing back what was read changes no reading |
| GeoPolicy.NormalizedIdempotent | src/geoip.rs:45-53 | normalising twice is normalising once |
| GeoPolicy.ParsedCountriesFree | src/geoip.rs:565-571 | parsed country lists are in normal form and hold no separator |
| Security.NormalizedIdempotent | src/security/mod.rs:37-42 | normalising a security policy twice is normalising it once |
| AsnIndex.Load | src/geoip.rs:88-124 | loading keeps exactly the numbered, single-family ranges, sorted by start |
| AsnIndex.PartitionPoint | src/geoip.rs:130-130 | the binary search splits the ranges at the key |
| AsnIndex.LastStartDecides | src/geoip.rs:126-155 | over non-overlapping ranges, in any sorted arrangement, the last range that starts at or before an address decides as a scan of all ranges does |
| AsnIndex.LoadAndLookup | src/geoip.rs:88-155 | load and lookup together agree with a scan of the file, for both address widths |

## Left out

- ResponseCache.Cache.CachePut: promises nothing once the byte counter is within a megabyte of 64 bits, where the eviction guard's sum wraps; `CounterNeverWraps` says no run with smaller budgets gets there.
- Two host keys that differ only in white space at their ends can tie in a lookup; the model then allows either, as the hash map does.
- Rounding of the wall clock to the microseconds a Lease stores: the clocks of `LeaderElection.dfy` tick in microseconds.
- The debug-build panic of `is_expired` on a negative duration without renewal time; the release-build result is modelled.
- Reading the ASN file and parsing its addresses; `AsnIndex.dfy` starts from parsed lines.
- MaxMind lookups, `evaluate`, bot scoring, WAF matching and captcha: decisions over foreign data or single expressions.
- `CertStore` reloads and the ACME exchange itself inside a sweep; deletions by a sweep are steps of other writers.
- Ingress and Gateway reconciliation, HTTP servers, storage, e-mail, admin API and terraform provider: input and output.
- `migrate_from_routes_yaml`: it appends a port to an address that already has one, so routing is not preserved.
