/**
  Per-second windows (`rate_limited`, `note_4xx`, `x4xx_blocked`, `src/edge/mod.rs`). The request
  limiter and the 4xx counter share one map; `src/proxy/mod.rs` keys the former with `rps|ip|host`,
  the latter with `4xx|ip|host`. The clock is a parameter, in seconds.
*/
module RateWindows {
  import opened Prelude
  import opened Text

  datatype Window = Window(second: nat, count: U32)

  type Windows = map<string, Window>

  /** One call of `rate_limited`: the windows afterwards, and whether the caller is rejected. */
  function Limit(w: Windows, key: string, limit: U32, now: nat): (Windows, bool) {
    if limit == 0 then (w, false) else
      var entry := if key in w && w[key].second == now then w[key] else Window(now, 0);
      if entry.count >= limit then (w[key := entry], true)
      else (w[key := entry.(count := entry.count + 1)], false)
  }

  function Blocked(w: Windows, key: string, limit: U32, now: nat): bool {
    limit != 0 && key in w && w[key].second == now && w[key].count >= limit
  }

  function RateKey(ip: string, host: string): string { "rps|" + ip + "|" + host }

  function NoteKey(ip: string, host: string): string { "4xx|" + ip + "|" + host }

  function SaturatingInc(n: U32): U32 { if n == U32_MAX then U32_MAX else n + 1 }

  // ------------------------------------------------------------------- history

  datatype Event =
    | Request(ip: string, host: string, limit: U32, now: nat)
    | Error4xx(ip: string, host: string, now: nat)

  function KeyOf(e: Event): string { if e.Request? then RateKey(e.ip, e.host) else NoteKey(e.ip, e.host) }

  function LimitOf(e: Event): U32 { if e.Request? then e.limit else U32_MAX }

  /** The windows after a history. */
  function After(events: seq<Event>): Windows {
    if events == [] then map[] else
      var e := events[|events| - 1];
      Limit(After(events[..|events| - 1]), KeyOf(e), LimitOf(e), e.now).0
  }

  /** The limiter's answer to `e` after a history. */
  predicate Rejected(events: seq<Event>, e: Event) {
    Limit(After(events), KeyOf(e), LimitOf(e), e.now).1
  }

  /** The calls that touch the window of `key`: a limit of zero switches the limiter off. */
  predicate Counts(e: Event, key: string) { KeyOf(e) == key && LimitOf(e) > 0 }

  /** How many limited calls on `key` the limiter let through in `second`. */
  function Passed(events: seq<Event>, key: string, second: nat): nat {
    if events == [] then 0 else
      var init, e := events[..|events| - 1], events[|events| - 1];
      Passed(init, key, second) + if Counts(e, key) && e.now == second && !Rejected(init, e) then 1 else 0
  }

  predicate Seen(events: seq<Event>, key: string, second: nat) {
    exists e :: e in events && Counts(e, key) && e.now == second
  }

  /** The second of the last limited call on `key`. */
  function Last(events: seq<Event>, key: string): Option<nat> {
    if events == [] then None
    else if Counts(events[|events| - 1], key) then Some(events[|events| - 1].now)
    else Last(events[..|events| - 1], key)
  }

  /** The clock never brings the limited calls on `key` back to a second they have left. */
  predicate NeverReturns(events: seq<Event>, key: string) {
    events == [] ||
    var init, e := events[..|events| - 1], events[|events| - 1];
    NeverReturns(init, key) && (Counts(e, key) && Seen(init, key, e.now) ==> Last(init, key) == Some(e.now))
  }

  predicate ClockNeverGoesBack(events: seq<Event>) {
    forall i, j :: 0 <= i < j < |events| ==> events[i].now <= events[j].now
  }

  lemma LastStep(init: seq<Event>, e: Event, key: string)
    ensures Last(init + [e], key) == if Counts(e, key) then Some(e.now) else Last(init, key)
    ensures NeverReturns(init + [e], key) <==>
              NeverReturns(init, key) && (Counts(e, key) && Seen(init, key, e.now) ==> Last(init, key) == Some(e.now))
    ensures After(init + [e]) == Limit(After(init), KeyOf(e), LimitOf(e), e.now).0
    ensures forall s :: Seen(init + [e], key, s) <==> Seen(init, key, s) || (Counts(e, key) && e.now == s)
    ensures forall s :: Passed(init + [e], key, s) ==
              Passed(init, key, s) + if Counts(e, key) && e.now == s && !Rejected(init, e) then 1 else 0
  {
    hide Counts, Limit, Rejected;
    var all := init + [e];
    assert all[..|init|] == init && all[|init|] == e;
    assert forall x :: x in all <==> x in init || x == e;
  }

  /** What holds of the windows under any clock. */
  lemma {:induction false} WindowOfLast(events: seq<Event>, key: string)
    ensures key in After(events) <==> Last(events, key).Some?
    ensures key in After(events) ==> After(events)[key].second == Last(events, key).value
    ensures Last(events, key).Some? ==> Seen(events, key, Last(events, key).value)
  {
    hide KeyOf, LimitOf;
    if events != [] {
      var init, e := events[..|events| - 1], events[|events| - 1];
      WindowOfLast(init, key);
      assert events == init + [e];
      hide After, Last, Seen, NeverReturns, Passed, Rejected;
      LastStep(init, e, key);
    }
  }

  lemma {:induction false} UnseenPassed(events: seq<Event>, key: string, second: nat)
    requires !Seen(events, key, second)
    ensures Passed(events, key, second) == 0
  {
    hide Counts, Rejected;
    if events != [] {
      var init, e := events[..|events| - 1], events[|events| - 1];
      assert e in events && forall x :: x in init ==> x in events;
      UnseenPassed(init, key, second);
    }
  }

  /** The first call on `key` in a second passes, and so does one that returns to that second. */
  lemma NewSecondPasses(events: seq<Event>, e: Event)
    requires LimitOf(e) > 0 && Last(events, KeyOf(e)) != Some(e.now)
    ensures !Rejected(events, e)
  {
    hide KeyOf, LimitOf, After, Last;
    WindowOfLast(events, KeyOf(e));
  }

  lemma {:induction false} CountIsPassed(events: seq<Event>, key: string)
    requires NeverReturns(events, key)
    ensures key in After(events) ==> After(events)[key].count == Passed(events, key, After(events)[key].second)
  {
    hide KeyOf, LimitOf;
    if events != [] {
      var init, e := events[..|events| - 1], events[|events| - 1];
      CountIsPassed(init, key);
      assert events == init + [e];
      hide After, Last, Seen, NeverReturns, Passed;
      LastStep(init, e, key);
      WindowOfLast(init, key);
      if Counts(e, key) && !Seen(init, key, e.now) { UnseenPassed(init, key, e.now); }
    }
  }

  /** Up to the next call on `key`, the count this second is what the window says. */
  lemma CountNow(events: seq<Event>, e: Event)
    requires LimitOf(e) > 0 && NeverReturns(events + [e], KeyOf(e))
    ensures var w, key := After(events), KeyOf(e);
            Passed(events, key, e.now) == if key in w && w[key].second == e.now then w[key].count else 0
  {
    hide After, Last, Seen, NeverReturns, Passed, KeyOf, LimitOf;
    LastStep(events, e, KeyOf(e));
    WindowOfLast(events, KeyOf(e));
    CountIsPassed(events, KeyOf(e));
    if !Seen(events, KeyOf(e), e.now) { UnseenPassed(events, KeyOf(e), e.now); }
  }

  lemma RejectedIffFull(events: seq<Event>, e: Event)
    requires NeverReturns(events + [e], KeyOf(e))
    ensures Rejected(events, e) <==> LimitOf(e) > 0 && Passed(events, KeyOf(e), e.now) >= LimitOf(e)
  {
    hide After, NeverReturns, Passed, KeyOf, LimitOf;
    if LimitOf(e) > 0 { CountNow(events, e); }
  }

  // ---------------------------------------------------------------------- rate

  /** No second lets more through than the largest limit in force. */
  lemma {:induction false} NeverOverLimit(events: seq<Event>, key: string, second: nat, limit: nat)
    requires NeverReturns(events, key) && forall e :: e in events && KeyOf(e) == key ==> LimitOf(e) <= limit
    ensures Passed(events, key, second) <= limit
  {
    hide KeyOf, LimitOf;
    if events != [] {
      var init, e := events[..|events| - 1], events[|events| - 1];
      assert e in events && forall x :: x in init ==> x in events;
      NeverOverLimit(init, key, second, limit);
      hide Rejected, After;
      assert events == init + [e];
      if Counts(e, key) { RejectedIffFull(init, e); }
    }
  }

  function PassedWithin(events: seq<Event>, key: string, from: nat, n: nat): nat {
    if n == 0 then 0 else PassedWithin(events, key, from, n - 1) + Passed(events, key, from + n - 1)
  }

  /** The limiter lets at most `n * limit` calls through in `n` consecutive seconds. */
  lemma {:induction false} PassedRate(events: seq<Event>, key: string, from: nat, n: nat, limit: nat)
    requires NeverReturns(events, key) && forall e :: e in events && KeyOf(e) == key ==> LimitOf(e) <= limit
    ensures PassedWithin(events, key, from, n) <= n * limit
  {
    hide KeyOf, LimitOf, Passed, NeverReturns;
    if n > 0 {
      PassedRate(events, key, from, n - 1, limit);
      NeverOverLimit(events, key, from + n - 1, limit);
      assert (n - 1) * limit + limit == n * limit;
    }
  }

  /** A clock that never goes back returns nowhere. */
  lemma {:induction false} MonotoneNeverReturns(events: seq<Event>, key: string)
    requires ClockNeverGoesBack(events)
    ensures NeverReturns(events, key)
  {
    hide Counts;
    if events != [] {
      var init, e := events[..|events| - 1], events[|events| - 1];
      MonotoneNeverReturns(init, key);
      LastIsLatest(init, key);
    }
  }

  lemma {:induction false} LastIsLatest(events: seq<Event>, key: string)
    requires ClockNeverGoesBack(events)
    ensures forall e :: e in events && Counts(e, key) ==> Last(events, key).Some? && e.now <= Last(events, key).value
    ensures Last(events, key).Some? ==> exists e :: e in events && e.now == Last(events, key).value
  {
    hide Counts;
    if events != [] {
      var init, e := events[..|events| - 1], events[|events| - 1];
      LastIsLatest(init, key);
      assert events == init + [e] && e in events;
      assert forall x :: x in init ==> x in events && x.now <= e.now;
    }
  }

  lemma {:induction false} SeenPassed(events: seq<Event>, key: string, second: nat)
    requires Seen(events, key, second)
    ensures Passed(events, key, second) >= 1
  {
    hide Rejected, Counts;
    var init, e := events[..|events| - 1], events[|events| - 1];
    assert events == init + [e];
    if Seen(init, key, second) {
      SeenPassed(init, key, second);
    } else {
      WindowOfLast(init, key);
      assert Counts(e, key) && e.now == second;
      assert KeyOf(e) == key && LimitOf(e) > 0 by { CountsMeans(e, key); }
      NewSecondPasses(init, e);
    }
  }

  lemma CountsMeans(e: Event, key: string)
    requires Counts(e, key)
    ensures KeyOf(e) == key && LimitOf(e) > 0
  {
  }

  /** A clock that comes back to a second lets at least two calls through in it, whatever their limits. */
  lemma {:induction false} ReturnPassesTwice(events: seq<Event>, key: string) returns (second: nat)
    requires !NeverReturns(events, key)
    ensures Passed(events, key, second) >= 2
  {
    hide Rejected, Counts;
    var init, e := events[..|events| - 1], events[|events| - 1];
    if !NeverReturns(init, key) {
      second := ReturnPassesTwice(init, key);
    } else {
      second := e.now;
      SeenPassed(init, key, second);
      CountsMeans(e, key);
      NewSecondPasses(init, e);
    }
  }

  function Relimit(e: Event, limit: U32): Event {
    if e.Request? && e.limit > 0 then e.(limit := limit) else e
  }

  /** The same calls at the same times, with `limit` wherever there is one. */
  function WithLimit(events: seq<Event>, limit: U32): (out: seq<Event>)
    ensures |out| == |events|
  {
    seq(|events|, i requires 0 <= i < |events| => Relimit(events[i], limit))
  }

  lemma RelimitedCounts(e: Event, limit: U32, key: string)
    requires limit > 0
    ensures Counts(Relimit(e, limit), key) == Counts(e, key) && Relimit(e, limit).now == e.now
  {
  }

  lemma WithLimitLast(events: seq<Event>, e: Event, limit: U32)
    ensures WithLimit(events + [e], limit) == WithLimit(events, limit) + [Relimit(e, limit)]
  {
    hide Relimit;
  }

  lemma {:induction false} LimitsDoNotMoveCalls(events: seq<Event>, limit: U32, key: string)
    requires limit > 0
    ensures NeverReturns(WithLimit(events, limit), key) <==> NeverReturns(events, key)
    ensures Last(WithLimit(events, limit), key) == Last(events, key)
    ensures forall s :: Seen(WithLimit(events, limit), key, s) <==> Seen(events, key, s)
  {
    hide Counts, NeverReturns, Last, Seen, WithLimit, Relimit;
    if events == [] {
      assert WithLimit(events, limit) == events;
    } else {
      var init, e := events[..|events| - 1], events[|events| - 1];
      LimitsDoNotMoveCalls(init, limit, key);
      assert events == init + [e];
      WithLimitLast(init, e, limit);
      RelimitedCounts(e, limit, key);
      LastStep(init, e, key);
      LastStep(WithLimit(init, limit), Relimit(e, limit), key);
    }
  }

  /** However the limit is set, no second lets more than the limit through. */
  ghost predicate RateIsKept(events: seq<Event>, key: string) {
    forall limit: U32, second: nat :: limit > 0 ==> Passed(WithLimit(events, limit), key, second) <= limit
  }

  /** The clock condition is exact: the limiter keeps every rate if and only if the pair's calls never return to a second. */
  lemma RateKeptIffNeverReturns(events: seq<Event>, ip: string, host: string)
    ensures RateIsKept(events, RateKey(ip, host)) <==> NeverReturns(events, RateKey(ip, host))
  {
    hide NeverReturns, Passed, RateKey, NoteKey;
    var key := RateKey(ip, host);
    if NeverReturns(events, key) {
      forall limit: U32, second: nat | limit > 0 ensures Passed(WithLimit(events, limit), key, second) <= limit {
        LimitsDoNotMoveCalls(events, limit, key);
        LimitsOnKey(events, limit, ip, host);
        NeverOverLimit(WithLimit(events, limit), key, second, limit);
      }
    } else {
      LimitsDoNotMoveCalls(events, 1, key);
      var second := ReturnPassesTwice(WithLimit(events, 1), key);
      assert !(Passed(WithLimit(events, 1), key, second) <= 1);
    }
  }

  lemma LimitsOnKey(events: seq<Event>, limit: U32, ip: string, host: string)
    ensures forall e :: e in WithLimit(events, limit) && KeyOf(e) == RateKey(ip, host) ==> LimitOf(e) <= limit
  {
    hide RateKey, NoteKey;
    forall e | e in WithLimit(events, limit) && KeyOf(e) == RateKey(ip, host) ensures LimitOf(e) <= limit {
      if e.Error4xx? { KeysApart(ip, host, e.ip, e.host); }
    }
  }

  // ------------------------------------------------------------ clients and hosts

  /** How many limited requests of this client to this host the limiter let through in this second. */
  function PassedFor(events: seq<Event>, ip: string, host: string, second: nat): nat {
    if events == [] then 0 else
      var init, e := events[..|events| - 1], events[|events| - 1];
      PassedFor(init, ip, host, second) +
        if e.Request? && e.ip == ip && e.host == host && e.limit > 0 && e.now == second && !Rejected(init, e) then 1 else 0
  }

  /** How many 4xx responses were noted for this client and host in this second. */
  function Noted(events: seq<Event>, ip: string, host: string, second: nat): nat {
    if events == [] then 0 else
      var e := events[|events| - 1];
      Noted(events[..|events| - 1], ip, host, second) +
        if e.Error4xx? && e.ip == ip && e.host == host && e.now == second then 1 else 0
  }

  /** Client addresses hold no `|`, so a key tells clients and hosts apart. */
  lemma KeyInjective(tag: string, ip: string, host: string, ip': string, host': string)
    requires Free(ip, {'|'}) && Free(ip', {'|'})
    requires tag + ip + "|" + host == tag + ip' + "|" + host'
    ensures ip == ip' && host == host'
  {
    var s := tag + ip + "|" + host;
    var n := |tag|;
    assert s[n..] == ip + "|" + host && s[n..] == ip' + "|" + host';
    FirstBar(ip, host);
    FirstBar(ip', host');
    assert s[n..][..|ip|] == ip && s[n..][..|ip'|] == ip';
    assert s[n..][|ip| + 1..] == host && s[n..][|ip'| + 1..] == host';
  }

  lemma FirstBar(ip: string, host: string)
    requires Free(ip, {'|'})
    ensures IndexOf(ip + "|" + host, {'|'}) == |ip|
  {
    var s := ip + "|" + host;
    assert s[|ip|] == '|' && forall k :: 0 <= k < |ip| ==> s[k] == ip[k];
  }

  lemma KeysApart(ip: string, host: string, ip': string, host': string)
    ensures RateKey(ip, host) != NoteKey(ip', host')
  {
    assert RateKey(ip, host)[0] == 'r' && NoteKey(ip', host')[0] == '4';
  }

  ghost predicate BarFree(events: seq<Event>) { forall e :: e in events ==> Free(e.ip, {'|'}) }

  /** Whose window a call touches. */
  lemma KeyTellsPair(e: Event, ip: string, host: string)
    requires Free(e.ip, {'|'}) && Free(ip, {'|'})
    ensures KeyOf(e) == RateKey(ip, host) <==> e.Request? && e.ip == ip && e.host == host
    ensures KeyOf(e) == NoteKey(ip, host) <==> e.Error4xx? && e.ip == ip && e.host == host
  {
    KeysApart(e.ip, e.host, ip, host);
    KeysApart(ip, host, e.ip, e.host);
    if e.Request? && KeyOf(e) == RateKey(ip, host) { KeyInjective("rps|", e.ip, e.host, ip, host); }
    if e.Error4xx? && KeyOf(e) == NoteKey(ip, host) { KeyInjective("4xx|", e.ip, e.host, ip, host); }
  }

  lemma {:induction false} PassedOfPair(events: seq<Event>, ip: string, host: string, second: nat)
    requires BarFree(events) && Free(ip, {'|'})
    ensures Passed(events, RateKey(ip, host), second) == PassedFor(events, ip, host, second)
  {
    hide KeyOf, RateKey, NoteKey, Rejected;
    if events != [] {
      var init, e := events[..|events| - 1], events[|events| - 1];
      assert e in events && forall x :: x in init ==> x in events;
      PassedOfPair(init, ip, host, second);
      KeyTellsPair(e, ip, host);
    }
  }

  lemma {:induction false} PassedIsNoted(events: seq<Event>, ip: string, host: string, second: nat)
    requires BarFree(events) && Free(ip, {'|'}) && NeverReturns(events, NoteKey(ip, host))
    ensures var noted := Noted(events, ip, host, second);
            Passed(events, NoteKey(ip, host), second) == if noted <= U32_MAX then noted else U32_MAX
  {
    hide KeyOf, RateKey, NoteKey, Rejected;
    if events != [] {
      var init, e := events[..|events| - 1], events[|events| - 1];
      assert e in events && forall x :: x in init ==> x in events;
      PassedIsNoted(init, ip, host, second);
      KeyTellsPair(e, ip, host);
      assert events == init + [e];
      if Counts(e, NoteKey(ip, host)) { RejectedIffFull(init, e); }
    }
  }

  /** `e` fits a history: it does not return to a second its window has left, and no address holds a bar. */
  ghost predicate Fits(events: seq<Event>, e: Event) {
    BarFree(events + [e]) && NeverReturns(events + [e], KeyOf(e))
  }

  lemma FitsMeans(events: seq<Event>, e: Event)
    requires Fits(events, e)
    ensures BarFree(events) && Free(e.ip, {'|'}) && NeverReturns(events, KeyOf(e))
  {
    hide NeverReturns, KeyOf;
    LastStep(events, e, KeyOf(e));
    assert e in events + [e] && forall x :: x in events ==> x in events + [e];
  }

  /** Every clock that never goes back fits. */
  lemma MonotoneFits(events: seq<Event>, e: Event)
    requires ClockNeverGoesBack(events + [e]) && BarFree(events + [e])
    ensures Fits(events, e)
  {
    MonotoneNeverReturns(events + [e], KeyOf(e));
  }

  /**
    A request is rejected exactly when the requests of its client to its host that were let through
    in this second already reach its limit.
  */
  lemma RejectsExactlyOverLimit(events: seq<Event>, ip: string, host: string, limit: U32, now: nat)
    requires Fits(events, Request(ip, host, limit, now))
    ensures Rejected(events, Request(ip, host, limit, now)) <==> limit > 0 && PassedFor(events, ip, host, now) >= limit
  {
    hide Rejected, Passed, PassedFor, NeverReturns, RateKey, NoteKey, Fits;
    var e := Request(ip, host, limit, now);
    FitsMeans(events, e);
    assert NeverReturns(events + [e], KeyOf(e)) by { FitsClock(events, e); }
    RejectedIffFull(events, e);
    PassedOfPair(events, ip, host, now);
  }

  lemma FitsClock(events: seq<Event>, e: Event)
    requires Fits(events, e)
    ensures NeverReturns(events + [e], KeyOf(e))
  {
  }

  /**
    A client is blocked on a host exactly when at least `limit` 4xx responses were noted for that
    pair in this second: neither the requests in the same map nor the 32-bit counter show.
  */
  lemma BlockedExactlyAtLimit(events: seq<Event>, ip: string, host: string, limit: U32, now: nat)
    requires Fits(events, Error4xx(ip, host, now))
    ensures Blocked(After(events), NoteKey(ip, host), limit, now) <==> limit > 0 && Noted(events, ip, host, now) >= limit
  {
    hide Passed, Noted, NeverReturns, RateKey, NoteKey, Fits, After;
    var e := Error4xx(ip, host, now);
    FitsMeans(events, e);
    FitsClock(events, e);
    CountNow(events, e);
    PassedIsNoted(events, ip, host, now);
  }

  // ------------------------------------------------------------------ the object

  class EdgeWindows {
    var windows: Windows
    ghost var history: seq<Event>

    ghost predicate Valid()
      reads this
    {
      windows == After(history)
    }

    constructor ()
      ensures Valid() && history == []
    {
      windows, history := map[], [];
    }

    method RateLimited(key: string, limit: U32, now: nat) returns (rejected: bool)
      modifies this`windows
      ensures (windows, rejected) == Limit(old(windows), key, limit, now)
    {
      if limit == 0 {
        return false;
      }
      if key !in windows {
        windows := windows[key := Window(now, 0)];
      }
      var entry := windows[key];
      if entry.second != now {
        entry := Window(now, 0);
        windows := windows[key := entry];
      }
      assert windows == old(windows)[key := entry];
      if entry.count >= limit {
        return true;
      }
      entry := entry.(count := SaturatingInc(entry.count));
      windows := windows[key := entry];
      assert windows == old(windows)[key := entry];
      return false;
    }

    /** `rate_limited` as the proxy calls it, with the request key. */
    method LimitRequest(ip: string, host: string, limit: U32, now: nat) returns (rejected: bool)
      requires Valid()
      modifies this
      ensures Valid() && history == old(history) + [Request(ip, host, limit, now)]
      ensures Fits(old(history), Request(ip, host, limit, now)) ==>
                (rejected <==> limit > 0 && PassedFor(old(history), ip, host, now) >= limit)
    {
      hide Fits, PassedFor, RateKey, NoteKey;
      ghost var e := Request(ip, host, limit, now);
      LastStep(history, e, KeyOf(e));
      if Fits(history, e) { RejectsExactlyOverLimit(history, ip, host, limit, now); }
      rejected := RateLimited(RateKey(ip, host), limit, now);
      history := history + [e];
    }

    method Note4xx(ip: string, host: string, now: nat)
      requires Valid()
      modifies this
      ensures Valid() && history == old(history) + [Error4xx(ip, host, now)]
      ensures forall i, h, s :: Noted(history, i, h, s)
                == Noted(old(history), i, h, s) + if i == ip && h == host && s == now then 1 else 0
    {
      hide RateKey, NoteKey;
      ghost var e := Error4xx(ip, host, now);
      LastStep(history, e, KeyOf(e));
      var _ := RateLimited(NoteKey(ip, host), U32_MAX, now);
      history := history + [e];
      assert history[..|history| - 1] == old(history);
    }

    method X4xxBlocked(ip: string, host: string, limit: U32, now: nat) returns (blocked: bool)
      requires Valid()
      ensures Fits(history, Error4xx(ip, host, now)) ==>
                (blocked <==> limit > 0 && Noted(history, ip, host, now) >= limit)
    {
      hide Fits, Noted, NoteKey, After;
      if Fits(history, Error4xx(ip, host, now)) { BlockedExactlyAtLimit(history, ip, host, limit, now); }
      if limit == 0 {
        return false;
      }
      var key := NoteKey(ip, host);
      return key in windows && windows[key].second == now && windows[key].count >= limit;
    }
  }
}
