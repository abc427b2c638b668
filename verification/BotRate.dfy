/**
  `record_rate` (`src/security/bot.rs`): one minute-long window per client, in a map that is pruned
  of old windows whenever it has grown past ten thousand clients. Time is in nanoseconds.
*/
module BotRate {
  import opened Prelude

  const SECOND := 1_000_000_000
  const WINDOW := 60 * SECOND
  const PRUNE_AGE := 120 * SECOND
  const PRUNE_ABOVE := 10_000
  datatype Bucket = Bucket(start: nat, count: U32)

  type Buckets = map<string, Bucket>

  datatype Call = Call(ip: string, limit: U32, now: nat)

  function Saturated(n: nat): U32 { if n <= U32_MAX then n else U32_MAX }

  /** `now.duration_since(start)` saturates at zero. */
  function Age(b: Bucket, now: nat): nat { if now < b.start then 0 else now - b.start }

  function Over(count: U32, limit: U32): nat { if count > limit then count - limit else 0 }

  /** The client's window after one more call. */
  function Bump(m: Buckets, c: Call): Bucket {
    if c.ip in m && Age(m[c.ip], c.now) < WINDOW then Bucket(m[c.ip].start, Saturated(m[c.ip].count + 1))
    else Bucket(c.now, 1)
  }

  function Prune(m: Buckets, now: nat): Buckets {
    if |m| > PRUNE_ABOVE then map ip | ip in m && Age(m[ip], now) < PRUNE_AGE :: m[ip] else m
  }

  class RateMap {
    var buckets: Buckets

    constructor ()
      ensures buckets == map[]
    {
      buckets := map[];
    }

    method RecordRate(ip: string, limit: U32, now: nat) returns (over: nat)
      modifies this
      ensures buckets == RecordPruned(old(buckets), Call(ip, limit, now))
      ensures over == Over(buckets[ip].count, limit)
    {
      if |buckets| > PRUNE_ABOVE {
        buckets := map k | k in buckets && Age(buckets[k], now) < PRUNE_AGE :: buckets[k];
      }
      if ip !in buckets {
        buckets := buckets[ip := Bucket(now, 0)];
      }
      var entry := buckets[ip];
      if Age(entry, now) >= WINDOW {
        entry := Bucket(now, 0);
      }
      entry := entry.(count := Saturated(entry.count + 1));
      buckets := buckets[ip := entry];
      over := if entry.count > limit then entry.count - limit else 0;
    }
  }

  function RecordPruned(m: Buckets, c: Call): (m': Buckets)
    ensures c.ip in m'
  {
    var pruned := Prune(m, c.now);
    pruned[c.ip := Bump(pruned, c)]
  }

  // --------------------------------------------------------------------- runs

  function Run(calls: seq<Call>): Buckets {
    if calls == [] then map[] else RecordPruned(Run(calls[..|calls| - 1]), calls[|calls| - 1])
  }

  predicate ClockNeverGoesBack(calls: seq<Call>) {
    forall i, j :: 0 <= i < j < |calls| ==> calls[i].now <= calls[j].now
  }

  /** A window of the reference: its start and the calls in it, unbounded. */
  datatype Tally = Tally(start: nat, calls: nat)

  /**
    The reference, read off the client's own calls alone: a call falls into the current window when
    that began less than a minute ago, and opens a new one otherwise.
  */
  function CurrentWindow(calls: seq<Call>, ip: string): Option<Tally> {
    if calls == [] then None else
      var c := calls[|calls| - 1];
      var before := CurrentWindow(calls[..|calls| - 1], ip);
      if c.ip != ip then before
      else if before.Some? && c.now < before.value.start + WINDOW then Some(Tally(before.value.start, before.value.calls + 1))
      else Some(Tally(c.now, 1))
  }

  /** A stored bucket is the reference window; a window that is not stored is over. */
  ghost predicate Faithful(m: Buckets, calls: seq<Call>, ip: string, now: nat) {
    var w := CurrentWindow(calls, ip);
    if ip in m then w.Some? && m[ip] == Bucket(w.value.start, Saturated(w.value.calls)) && w.value.start <= now
    else w.None? || w.value.start + WINDOW <= now
  }

  lemma PruneKeepsFaith(m: Buckets, calls: seq<Call>, ip: string, now: nat, later: nat)
    requires Faithful(m, calls, ip, now) && now <= later
    ensures Faithful(Prune(m, later), calls, ip, later)
  {
  }

  lemma {:induction false} MapIsFaithful(calls: seq<Call>, ip: string)
    requires ClockNeverGoesBack(calls)
    ensures Faithful(Run(calls), calls, ip, if calls == [] then 0 else calls[|calls| - 1].now)
  {
    hide Prune;
    if calls != [] {
      var n := |calls| - 1;
      var init, c := calls[..n], calls[n];
      MapIsFaithful(init, ip);
      var was := if init == [] then 0 else init[n - 1].now;
      PruneKeepsFaith(Run(init), init, ip, was, c.now);
    }
  }

  /**
    In every run with a monotone clock the pruned map answers every call as the reference does: the
    calls in the client's current minute, beyond the limit. Pruning cannot be observed.
  */
  lemma PruningIsUnobservable(calls: seq<Call>, c: Call)
    requires ClockNeverGoesBack(calls + [c])
    ensures var w := CurrentWindow(calls + [c], c.ip).value;
            && w.start <= c.now < w.start + WINDOW
            && Over(RecordPruned(Run(calls), c)[c.ip].count, c.limit) == Over(Saturated(w.calls), c.limit)
  {
    hide Prune;
    var all := calls + [c];
    assert all[..|calls|] == calls && all[|calls|] == c;
    MapIsFaithful(all, c.ip);
    WindowIsCurrent(calls, c);
  }

  lemma WindowIsCurrent(calls: seq<Call>, c: Call)
    requires ClockNeverGoesBack(calls + [c])
    ensures var w := CurrentWindow(calls + [c], c.ip);
            w.Some? && w.value.start <= c.now < w.value.start + WINDOW
  {
    var all := calls + [c];
    assert all[..|calls|] == calls && all[|calls|] == c;
    assert ClockNeverGoesBack(calls) by {
      forall i, j | 0 <= i < j < |calls| ensures calls[i].now <= calls[j].now {
        assert all[i] == calls[i] && all[j] == calls[j];
      }
    }
    StartIsPast(calls, c.ip, c.now);
  }

  lemma {:induction false} StartIsPast(calls: seq<Call>, ip: string, now: nat)
    requires forall i :: 0 <= i < |calls| ==> calls[i].now <= now
    ensures CurrentWindow(calls, ip).Some? ==> CurrentWindow(calls, ip).value.start <= now
  {
    if calls != [] { StartIsPast(calls[..|calls| - 1], ip, now); }
  }
}
