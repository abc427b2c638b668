/**
  The response cache (`cache_get`, `cache_put`, `src/edge/mod.rs`): a byte budget, a time to live per
  entry, and eviction in whatever order the hash map iterates. The clock is a parameter.
*/
module ResponseCache {
  import opened Prelude
  import opened Utf8

  const USIZE_MAX := 0xFFFF_FFFF_FFFF_FFFF
  const ENTRY_LIMIT := 1024 * 1024

  datatype Response = Response(status: nat, headers: seq<(string, string)>, body: seq<int>)
  datatype Entry = Entry(response: Response, expires: int, bytes: nat)
  datatype State = State(entries: map<string, Entry>, bytes: nat)

  datatype Event =
    | Get(key: string, now: int)
    | Put(key: string, response: Response, ttl: nat, maxBytes: nat, now: int)

  function HeaderBytes(headers: seq<(string, string)>): nat {
    if headers == [] then 0 else ByteLength(headers[0].0) + ByteLength(headers[0].1) + HeaderBytes(headers[1..])
  }

  function Size(key: string, r: Response): nat { |r.body| + HeaderBytes(r.headers) + ByteLength(key) }

  /** The puts that store: the budget and the time to live are not zero, and the entry fits. */
  predicate Accepted(e: Event) {
    e.Put? && e.maxBytes != 0 && e.ttl != 0 && Size(e.key, e.response) <= e.maxBytes
    && Size(e.key, e.response) <= ENTRY_LIMIT
  }

  function EntryOf(e: Event): Entry
    requires e.Put?
  {
    Entry(e.response, e.now + e.ttl, Size(e.key, e.response))
  }

  // -------------------------------------------------------------- byte account

  ghost function Total(entries: map<string, Entry>): nat {
    if entries == map[] then 0 else
      var k :| k in entries;
      entries[k].bytes + Total(entries - {k})
  }

  lemma {:induction false} TotalWithout(entries: map<string, Entry>, k: string)
    requires k in entries
    ensures Total(entries) == entries[k].bytes + Total(entries - {k})
    decreases entries
  {
    var j :| j in entries && Total(entries) == entries[j].bytes + Total(entries - {j});
    if j != k {
      TotalWithout(entries - {j}, k);
      TotalWithout(entries - {k}, j);
      assert entries - {j} - {k} == entries - {k} - {j};
    }
  }

  lemma TotalWith(entries: map<string, Entry>, k: string, e: Entry)
    requires k !in entries
    ensures Total(entries[k := e]) == Total(entries) + e.bytes
  {
    TotalWithout(entries[k := e], k);
    assert entries[k := e] - {k} == entries;
  }

  /** The counter is the sum of the stored sizes. */
  ghost predicate Balanced(s: State) { s.bytes == Total(s.entries) }

  function SatSub(a: nat, b: nat): nat { if a < b then 0 else a - b }

  function SatAdd(a: nat, b: nat): nat { if a + b <= USIZE_MAX then a + b else USIZE_MAX }

  /** The plain `+` of a release build. */
  function WrapAdd(a: nat, b: nat): nat { (a + b) % (USIZE_MAX + 1) }

  function Remove(s: State, key: string): State {
    if key in s.entries then State(s.entries - {key}, SatSub(s.bytes, s.entries[key].bytes)) else s
  }

  /** Removing never saturates. */
  lemma RemoveBalanced(s: State, key: string)
    requires Balanced(s)
    ensures Balanced(Remove(s, key))
    ensures key in s.entries ==> s.entries[key].bytes <= s.bytes
  {
    if key in s.entries { TotalWithout(s.entries, key); }
  }

  /** No entry that may be stored takes the counter past 64 bits. */
  ghost predicate NoWrap(s: State) { s.bytes + ENTRY_LIMIT <= USIZE_MAX }

  // -------------------------------------------------------------------- steps

  ghost predicate GetStep(s: State, key: string, now: int, s': State, out: Option<Response>) {
    if key !in s.entries then s' == s && out == None
    else if s.entries[key].expires <= now then s' == Remove(s, key) && out == None
    else s' == s && out == Some(s.entries[key].response)
  }

  ghost predicate Submap(a: map<string, Entry>, b: map<string, Entry>) {
    forall k :: k in a ==> k in b && a[k] == b[k]
  }

  /**
    A storing put replaces the entry of its key and ends within the budget. It evicts nothing when
    everything fits, and never one entry more than needed.
  */
  ghost predicate PutStep(s: State, e: Event, s': State)
    requires e.Put?
  {
    if !Accepted(e) then s' == s else
      var others := Remove(s, e.key);
      var kept := s'.entries - {e.key};
      && e.key in s'.entries && s'.entries[e.key] == EntryOf(e)
      && Submap(kept, others.entries)
      && Balanced(s') && s'.bytes <= e.maxBytes
      && (others.bytes + EntryOf(e).bytes <= e.maxBytes ==> kept == others.entries)
      && (kept == others.entries || NoneTooMany(others.entries, kept, s'.bytes, e.maxBytes))
  }

  ghost predicate Step(s: State, e: Event, s': State, out: Option<Response>) {
    match e
    case Get(key, now) => GetStep(s, key, now, s', out)
    case Put(_, _, _, _, _) => PutStep(s, e, s') && out == None
  }

  class Cache {
    var entries: map<string, Entry>
    var bytes: nat

    ghost function Contents(): State
      reads this
    {
      State(entries, bytes)
    }

    constructor ()
      ensures Contents() == State(map[], 0) && Balanced(Contents())
    {
      entries, bytes := map[], 0;
      new;
      assert Total(map[]) == 0;
    }

    method RemoveKey(key: string)
      requires Balanced(Contents())
      modifies this
      ensures Contents() == Remove(old(Contents()), key) && Balanced(Contents())
    {
      RemoveBalanced(Contents(), key);
      if key in entries {
        bytes := SatSub(bytes, entries[key].bytes);
        entries := entries - {key};
      }
    }

    method CacheGet(key: string, now: int) returns (out: Option<Response>)
      requires Balanced(Contents())
      modifies this
      ensures Balanced(Contents()) && Step(old(Contents()), Get(key, now), Contents(), out)
    {
      if key in entries && entries[key].expires <= now {
        RemoveKey(key);
        return None;
      }
      if key in entries {
        return Some(entries[key].response);
      }
      return None;
    }

    method CachePut(key: string, response: Response, ttl: nat, maxBytes: nat, now: int)
      requires Balanced(Contents()) && maxBytes <= USIZE_MAX
      modifies this
      ensures NoWrap(old(Contents())) ==>
                Balanced(Contents()) && Step(old(Contents()), Put(key, response, ttl, maxBytes, now), Contents(), None)
    {
      hide Size, Total;
      if maxBytes == 0 || ttl == 0 {
        return;
      }
      var size := Size(key, response);
      if size > maxBytes || size > ENTRY_LIMIT {
        return;
      }
      RemoveKey(key);
      ghost var others := Contents();
      Evict(size, maxBytes);
      ghost var kept := entries;
      TotalWith(entries, key, Entry(response, now + ttl, size));
      bytes := SatAdd(bytes, size);
      entries := entries[key := Entry(response, now + ttl, size)];
      assert entries - {key} == kept;
    }

    /** The eviction loop: entries go, in an arbitrary order, until `size` more bytes fit. */
    method Evict(size: nat, maxBytes: nat)
      requires Balanced(Contents()) && size <= maxBytes
      modifies this
      ensures Balanced(Contents()) && Submap(entries, old(entries))
      ensures old(bytes) + size <= USIZE_MAX ==>
                && bytes + size <= maxBytes
                && (entries == old(entries) || NoneTooMany(old(entries), entries, bytes + size, maxBytes))
                && (old(bytes) + size <= maxBytes ==> entries == old(entries))
    {
      hide Evicting, WrapAdd, Total;
      ghost var before := Contents();
      EvictionStarts(before, size, maxBytes);
      while WrapAdd(bytes, size) > maxBytes && entries != map[]
        invariant Balanced(Contents()) && Evicting(before, Contents(), size, maxBytes)
        decreases |entries|
      {
        var key :| key in entries;
        EvictionGoesOn(before, Contents(), size, maxBytes, key);
        RemoveKey(key);
      }
      EvictionEnds(before, Contents(), size, maxBytes);
    }
  }

  // ----------------------------------------------------------------- eviction

  /** What the eviction loop keeps: while the sum does not wrap, an entry goes only for want of room. */
  ghost predicate Evicting(before: State, s: State, size: nat, maxBytes: nat) {
    && Submap(s.entries, before.entries) && s.bytes <= before.bytes
    && (before.bytes + size <= USIZE_MAX ==>
          && (s.entries == before.entries || NoneTooMany(before.entries, s.entries, s.bytes + size, maxBytes))
          && (before.bytes + size <= maxBytes ==> s.entries == before.entries))
  }

  lemma EvictionStarts(s: State, size: nat, maxBytes: nat)
    ensures Evicting(s, s, size, maxBytes)
  {
  }

  lemma EvictionGoesOn(before: State, s: State, size: nat, maxBytes: nat, key: string)
    requires Balanced(s) && Evicting(before, s, size, maxBytes) && key in s.entries && WrapAdd(s.bytes, size) > maxBytes
    ensures Evicting(before, Remove(s, key), size, maxBytes)
  {
    hide Total, NoneTooMany;
    RemoveBalanced(s, key);
    var s' := Remove(s, key);
    if before.bytes + size <= USIZE_MAX {
      assert WrapAdd(s.bytes, size) == s.bytes + size;
      LastEvicted(before.entries, s'.entries, s'.bytes + size, maxBytes, key);
    }
  }

  lemma EvictionEnds(before: State, s: State, size: nat, maxBytes: nat)
    requires Balanced(s) && Evicting(before, s, size, maxBytes) && size <= maxBytes
    requires WrapAdd(s.bytes, size) <= maxBytes || s.entries == map[]
    ensures Submap(s.entries, before.entries)
    ensures before.bytes + size <= USIZE_MAX ==>
              && s.bytes + size <= maxBytes
              && (s.entries == before.entries || NoneTooMany(before.entries, s.entries, s.bytes + size, maxBytes))
              && (before.bytes + size <= maxBytes ==> s.entries == before.entries)
  {
    hide NoneTooMany, Submap, Total;
    if s.entries == map[] { NothingStored(); }
  }

  /** Of the entries gone from `before` to `after`, one would not have fitted with the `used` bytes. */
  ghost predicate NoneTooMany(before: map<string, Entry>, after: map<string, Entry>, used: nat, maxBytes: nat) {
    exists k :: k in before && k !in after && used + before[k].bytes > maxBytes
  }

  lemma LastEvicted(before: map<string, Entry>, after: map<string, Entry>, used: nat, maxBytes: nat, k: string)
    requires k in before && k !in after && used + before[k].bytes > maxBytes
    ensures NoneTooMany(before, after, used, maxBytes)
  {
  }

  lemma NothingStored()
    ensures Total(map[]) == 0
  {
  }

  // --------------------------------------------------------------------- runs

  /** Every behaviour of the cache from its empty start. */
  ghost predicate IsRun(states: seq<State>, events: seq<Event>, outs: seq<Option<Response>>) {
    && |states| == |events| + 1 && |outs| == |events|
    && states[0] == State(map[], 0)
    && forall i :: 0 <= i < |events| ==> Step(states[i], events[i], states[i + 1], outs[i])
  }

  /** The last put for `key` that stored. */
  function LastAccepted(events: seq<Event>, key: string): (e: Option<Event>)
    ensures e.Some? ==> Accepted(e.value) && e.value.key == key
  {
    if events == [] then None
    else if Accepted(events[|events| - 1]) && events[|events| - 1].key == key then Some(events[|events| - 1])
    else LastAccepted(events[..|events| - 1], key)
  }

  /** Every stored entry is that of the last accepted put for its key. */
  ghost predicate Traced(s: State, events: seq<Event>) {
    forall k :: k in s.entries ==>
      LastAccepted(events, k).Some? && s.entries[k] == EntryOf(LastAccepted(events, k).value)
  }

  lemma StepKeepsTrace(s: State, events: seq<Event>, e: Event, s': State, out: Option<Response>)
    requires Traced(s, events) && Step(s, e, s', out) && Balanced(s)
    ensures Traced(s', events + [e]) && Balanced(s')
  {
    var all := events + [e];
    assert all[..|events|] == events && all[|events|] == e;
    if e.Get? { RemoveBalanced(s, e.key); }
    forall k | k in s'.entries
      ensures LastAccepted(all, k).Some? && s'.entries[k] == EntryOf(LastAccepted(all, k).value)
    {
      if e.Put? && Accepted(e) && k != e.key {
        assert k in s'.entries - {e.key};
      }
    }
  }

  lemma {:induction false} RunIsTraced(states: seq<State>, events: seq<Event>, outs: seq<Option<Response>>, i: nat)
    requires IsRun(states, events, outs) && i <= |events|
    ensures Traced(states[i], events[..i]) && Balanced(states[i])
  {
    hide LastAccepted, Step;
    if i > 0 {
      RunIsTraced(states, events, outs, i - 1);
      StepKeepsTrace(states[i - 1], events[..i - 1], events[i - 1], states[i], outs[i - 1]);
      assert events[..i] == events[..i - 1] + [events[i - 1]];
    } else {
      assert Total(map[]) == 0;
    }
  }

  /**
    Over every sequence of gets and puts, whatever was evicted: the counter is the sum of the stored
    sizes, a storing put ends within its budget, and every hit is the response of the last
    accepted put for that key, not yet expired.
  */
  lemma EveryHitIsTheLastPut(states: seq<State>, events: seq<Event>, outs: seq<Option<Response>>, i: nat)
    requires IsRun(states, events, outs) && i < |events|
    ensures states[i + 1].bytes == Total(states[i + 1].entries)
    ensures Accepted(events[i]) ==> states[i + 1].bytes <= events[i].maxBytes
    ensures events[i].Get? && outs[i].Some? ==>
              var put := LastAccepted(events[..i], events[i].key);
              && put.Some? && outs[i] == Some(put.value.response)
              && events[i].now < put.value.now + put.value.ttl
  {
    hide Total, Size, LastAccepted, ByteLength, Remove, Submap;
    RunIsTraced(states, events, outs, i);
    RunIsTraced(states, events, outs, i + 1);
    assert Step(states[i], events[i], states[i + 1], outs[i]);
  }

  /** With budgets that leave room for one entry below 64 bits, the counter never comes near. */
  lemma {:induction false} CounterNeverWraps(
      states: seq<State>, events: seq<Event>, outs: seq<Option<Response>>, i: nat)
    requires IsRun(states, events, outs) && i <= |events|
    requires forall k :: 0 <= k < |events| && events[k].Put? ==> events[k].maxBytes + ENTRY_LIMIT <= USIZE_MAX
    ensures NoWrap(states[i])
  {
    if i > 0 {
      CounterNeverWraps(states, events, outs, i - 1);
      assert Step(states[i - 1], events[i - 1], states[i - 1 + 1], outs[i - 1]);
    }
  }

  /** A get straight after a storing put hits exactly while the entry lives. */
  lemma PutThenGet(states: seq<State>, events: seq<Event>, outs: seq<Option<Response>>, i: nat)
    requires IsRun(states, events, outs) && i + 1 < |events|
    requires Accepted(events[i]) && events[i + 1].Get? && events[i + 1].key == events[i].key
    ensures outs[i + 1] == if events[i + 1].now < events[i].now + events[i].ttl then Some(events[i].response) else None
  {
    assert Step(states[i], events[i], states[i + 1], outs[i]);
    assert Step(states[i + 1], events[i + 1], states[i + 1 + 1], outs[i + 1]);
  }
}
