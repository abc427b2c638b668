/**
  Lease-based leader election (`src/ingress/leader_election.rs`) as a step system.

  Any number of replicas run the election loop against one Lease object. A replica captures
  `now` from its own clock, reads the lease, and, when the lease is free to take, sends a write
  that the API server accepts only if the lease still has the version the replica read. Writes
  and replies travel separately: a write may be served late, its reply may be lost, and the
  replica may give up on it and start over while the write is still on its way.

  Time is counted in microseconds, the resolution of the stored `MicroTime`.
*/
module LeaderElection {
  import opened Prelude

  const SECOND := 1_000_000
  const DEFAULT_LEASE_DURATION := 15
  const MIN_TIMESTAMP := -377_705_023_201_000_000
  const MAX_TIMESTAMP := 253_402_207_200_999_999

  datatype LeaseSpec = LeaseSpec(
    holder: Option<string>, duration: Option<int>, acquire: Option<int>, renew: Option<int>)
  datatype Lease = Lease(version: nat, spec: Option<LeaseSpec>)

  /** The part of `LeaderElectionConfig` the protocol reads. */
  datatype Config = Config(holder: string, duration: int)

  // ---------------------------------------------------------------- decision

  function Holder(lease: Lease): Option<string> {
    if lease.spec.Some? then lease.spec.value.holder else None
  }

  function Renew(lease: Lease): Option<int> {
    if lease.spec.Some? then lease.spec.value.renew else None
  }

  function Duration(lease: Lease): int {
    if lease.spec.Some? && lease.spec.value.duration.Some?
    then lease.spec.value.duration.value else DEFAULT_LEASE_DURATION
  }

  /**
    A negative duration becomes an enormous unsigned one in the cast to `u64`, so the addition
    overflows and the lease counts as live; so does an expiry past the largest timestamp.
  */
  predicate IsExpired(renew: Option<int>, duration: int, now: int) {
    var start :=
      if renew.Some? then renew.value
      else if duration < 0 || now - 2 * duration * SECOND < MIN_TIMESTAMP then now
      else now - 2 * duration * SECOND;
    var expiry :=
      if duration < 0 || start + duration * SECOND > MAX_TIMESTAMP then now
      else start + duration * SECOND;
    expiry < now
  }

  /** The spec `try_acquire_or_renew` writes after reading `lease`, or None when it must not write. */
  function Decide(config: Config, lease: Option<Lease>, now: int): Option<LeaseSpec> {
    match lease
    case None =>
      Some(LeaseSpec(Some(config.holder), Some(config.duration), Some(now), Some(now)))
    case Some(current) =>
      var owner := Holder(current) == Some(config.holder);
      if !IsExpired(Renew(current), Duration(current), now) && !owner then
        None
      else
        Some(LeaseSpec(Some(config.holder), Some(config.duration),
                       if owner then Renew(current) else Some(now), Some(now)))
  }

  /** Within the range of timestamps a lease is expired strictly after its renewal plus its duration. */
  lemma ExpiryMeaning(renew: int, duration: nat, now: int)
    requires renew + duration * SECOND <= MAX_TIMESTAMP && MIN_TIMESTAMP <= now - 2 * duration * SECOND
    requires now - duration * SECOND <= MAX_TIMESTAMP
    ensures IsExpired(Some(renew), duration, now) <==> renew + duration * SECOND < now
    ensures IsExpired(None, duration, now) <==> duration > 0
  {
  }

  // ------------------------------------------------------------- step system

  datatype Phase = Sleeping | Started | Waiting | Answered(ok: bool)

  /** `now` is the time captured by the latest attempt; `leaderNow` by the one last stored. */
  datatype Replica = Replica(
    clock: int, attempt: nat, now: int, phase: Phase, leader: bool, leaderNow: int)

  datatype Request = Request(replica: nat, attempt: nat, now: int, base: Option<nat>, spec: LeaseSpec)
  datatype Reply = Reply(replica: nat, attempt: nat, ok: bool)

  /** `lastWriter` records which replica wrote the stored lease; None for one that predates the run. */
  datatype State = State(
    lease: Option<Lease>,
    replicas: seq<Replica>,
    requests: set<Request>,
    replies: set<Reply>,
    lastWriter: Option<nat>)

  datatype Step =
    | Tick(clocks: seq<int>)
    | Begin(i: nat)
    | Fetch(i: nat)
    | FetchFails(i: nat)
    | Serve(request: Request)
    | Hear(i: nat, ok: bool)
    | GiveUp(i: nat)
    | Store(i: nat)
    | Restart(i: nat)

  predicate Init(configs: seq<Config>, s: State) {
    && |s.replicas| == |configs|
    && s.requests == {} && s.replies == {} && s.lastWriter == None
    && forall i :: 0 <= i < |s.replicas| ==>
         s.replicas[i].phase == Sleeping && !s.replicas[i].leader
         && s.replicas[i].now <= s.replicas[i].clock
  }

  function Version(lease: Option<Lease>): Option<nat> {
    if lease.Some? then Some(lease.value.version) else None
  }

  predicate Enabled(s: State, step: Step) {
    match step
    case Tick(clocks) =>
      |clocks| == |s.replicas|
      && forall i :: 0 <= i < |clocks| ==> s.replicas[i].clock <= clocks[i]
    case Begin(i) => i < |s.replicas| && s.replicas[i].phase == Sleeping
    case Fetch(i) => i < |s.replicas| && s.replicas[i].phase == Started
    case FetchFails(i) => i < |s.replicas| && s.replicas[i].phase == Started
    case Serve(q) => q in s.requests
    case Hear(i, ok) =>
      i < |s.replicas| && s.replicas[i].phase == Waiting
      && Reply(i, s.replicas[i].attempt, ok) in s.replies
    case GiveUp(i) => i < |s.replicas| && s.replicas[i].phase == Waiting
    case Store(i) => i < |s.replicas| && s.replicas[i].phase.Answered?
    case Restart(i) => i < |s.replicas|
  }

  function WithReplica(s: State, i: nat, r: Replica): State
    requires i < |s.replicas|
  {
    s.(replicas := s.replicas[i := r])
  }

  function ServeRequest(s: State, q: Request): State {
    var rest := s.(requests := s.requests - {q});
    if Version(s.lease) == q.base then
      var version := if s.lease.Some? then s.lease.value.version + 1 else 0;
      rest.(lease := Some(Lease(version, Some(q.spec))), lastWriter := Some(q.replica),
            replies := s.replies + {Reply(q.replica, q.attempt, true)})
    else
      rest.(replies := s.replies + {Reply(q.replica, q.attempt, false)})
  }

  /**
    One step. `Fetch` reads the lease and puts the write, if any, on the wire at once: a pause
    between the two is the same as a write that travels longer.
  */
  function Next(configs: seq<Config>, s: State, step: Step): (s': State)
    requires |configs| == |s.replicas|
    requires Enabled(s, step)
    ensures |s'.replicas| == |s.replicas|
  {
    match step
    case Tick(clocks) =>
      s.(replicas := seq(|s.replicas|, i requires 0 <= i < |s.replicas| => s.replicas[i].(clock := clocks[i])))
    case Begin(i) =>
      var r := s.replicas[i];
      WithReplica(s, i, r.(attempt := r.attempt + 1, now := r.clock, phase := Started))
    case Fetch(i) =>
      var r := s.replicas[i];
      var spec := Decide(configs[i], s.lease, r.now);
      if spec.None? then
        WithReplica(s, i, r.(phase := Answered(false)))
      else
        var q := Request(i, r.attempt, r.now, Version(s.lease), spec.value);
        WithReplica(s, i, r.(phase := Waiting)).(requests := s.requests + {q})
    case FetchFails(i) => WithReplica(s, i, s.replicas[i].(phase := Answered(false)))
    case Serve(q) => ServeRequest(s, q)
    case Hear(i, ok) => WithReplica(s, i, s.replicas[i].(phase := Answered(ok)))
    case GiveUp(i) => WithReplica(s, i, s.replicas[i].(phase := Answered(false)))
    case Store(i) =>
      var r := s.replicas[i];
      WithReplica(s, i, r.(phase := Sleeping, leader := r.phase.ok, leaderNow := r.now))
    case Restart(i) =>
      var r := s.replicas[i];
      WithReplica(s, i, r.(attempt := r.attempt + 1, phase := Sleeping, leader := false))
  }

  /** The states of a run, oldest first. */
  predicate IsRun(configs: seq<Config>, run: seq<State>, steps: seq<Step>) {
    && |run| == |steps| + 1
    && Init(configs, run[0])
    && (forall k :: 0 <= k < |run| ==> |run[k].replicas| == |configs|)
    && (forall k :: 0 <= k < |steps| ==> Enabled(run[k], steps[k]))
    && (forall k :: 0 <= k < |steps| ==> run[k + 1] == Next(configs, run[k], steps[k]))
  }

  ghost predicate DistinctHolders(configs: seq<Config>) {
    forall i, j :: 0 <= i < j < |configs| ==> configs[i].holder != configs[j].holder
  }

  // ------------------------------------------------------- inductive invariant

  ghost predicate SomeClockPast(s: State, t: int) {
    exists c :: 0 <= c < |s.replicas| && t < s.replicas[c].clock
  }

  /** End of the lease that replica `i` wrote with an attempt started at `t`. */
  function Deadline(configs: seq<Config>, i: nat, t: int): int
    requires i < |configs|
  {
    t + configs[i].duration * SECOND
  }

  /** What a write accepted at `t` is still worth: the lease is its writer's, or it has run out. */
  ghost predicate Backed(configs: seq<Config>, s: State, i: nat, t: int)
    requires i < |configs|
  {
    || (s.lastWriter == Some(i) && s.lease.Some? && Renew(s.lease.value).Some? && t <= Renew(s.lease.value).value)
    || SomeClockPast(s, Deadline(configs, i, t))
  }

  ghost predicate ReplicaOk(configs: seq<Config>, s: State, i: nat)
    requires i < |configs| == |s.replicas|
  {
    var r := s.replicas[i];
    && r.now <= r.clock
    && (r.phase == Answered(true) ==> Backed(configs, s, i, r.now))
    && (r.leader ==> Backed(configs, s, i, r.leaderNow))
  }

  ghost predicate RequestOk(configs: seq<Config>, s: State, q: Request)
    requires |configs| == |s.replicas|
  {
    && q.replica < |configs|
    && q.attempt <= s.replicas[q.replica].attempt
    && q.now <= s.replicas[q.replica].now
    && (q.attempt == s.replicas[q.replica].attempt ==> q.now == s.replicas[q.replica].now)
    && q.spec.holder == Some(configs[q.replica].holder)
    && q.spec.duration == Some(configs[q.replica].duration)
    && q.spec.renew == Some(q.now)
    && (q.base.Some? ==> s.lease.Some? && q.base.value <= s.lease.value.version)
    && (Version(s.lease) == q.base ==> Decide(configs[q.replica], s.lease, q.now) == Some(q.spec))
    && (Version(s.lease) == q.base && s.lastWriter == Some(q.replica) ==>
          s.lease.Some? && Renew(s.lease.value).Some? && Renew(s.lease.value).value <= q.now)
  }

  ghost predicate ReplyOk(configs: seq<Config>, s: State, p: Reply)
    requires |configs| == |s.replicas|
  {
    && p.replica < |configs|
    && p.attempt <= s.replicas[p.replica].attempt
    && (p.ok && p.attempt == s.replicas[p.replica].attempt ==>
          Backed(configs, s, p.replica, s.replicas[p.replica].now))
  }

  ghost predicate WriterOk(configs: seq<Config>, s: State)
    requires |configs| == |s.replicas|
  {
    s.lastWriter.Some? ==>
      var w := s.lastWriter.value;
      && w < |configs| && s.lease.Some?
      && Holder(s.lease.value) == Some(configs[w].holder)
      && Duration(s.lease.value) == configs[w].duration
      && Renew(s.lease.value).Some?
      && Renew(s.lease.value).value <= s.replicas[w].now
  }

  ghost predicate Inv(configs: seq<Config>, s: State) {
    && |configs| == |s.replicas|
    && WriterOk(configs, s)
    && (forall i :: 0 <= i < |configs| ==> ReplicaOk(configs, s, i))
    && (forall q :: q in s.requests ==> RequestOk(configs, s, q))
    && (forall p :: p in s.replies ==> ReplyOk(configs, s, p))
  }

  /** A replica may only take over a lease another replica wrote after that lease's deadline. */
  lemma TakerIsLate(configs: seq<Config>, s: State, q: Request)
    requires DistinctHolders(configs)
    requires |configs| == |s.replicas| && WriterOk(configs, s) && RequestOk(configs, s, q)
    requires Version(s.lease) == q.base
    requires s.lastWriter.Some? && s.lastWriter.value != q.replica
    ensures Deadline(configs, s.lastWriter.value, Renew(s.lease.value).value) < q.now
  {
    var w := s.lastWriter.value;
    assert configs[w].holder != configs[q.replica].holder;
  }

  /** Every accepted write keeps every earlier accepted write backed. */
  lemma BackedAfterServe(configs: seq<Config>, s: State, q: Request, i: nat, t: int)
    requires DistinctHolders(configs)
    requires |configs| == |s.replicas| && WriterOk(configs, s) && RequestOk(configs, s, q)
    requires s.replicas[q.replica].now <= s.replicas[q.replica].clock
    requires i < |configs| && Backed(configs, s, i, t)
    ensures Backed(configs, ServeRequest(s, q), i, t)
  {
    var s' := ServeRequest(s, q);
    if Version(s.lease) == q.base && s.lastWriter == Some(i) && q.replica != i {
      TakerIsLate(configs, s, q);
      assert t <= Renew(s.lease.value).value ==> Deadline(configs, i, t) < s.replicas[q.replica].clock;
    }
    assert SomeClockPast(s, Deadline(configs, i, t)) ==> SomeClockPast(s', Deadline(configs, i, t));
  }

  lemma ServeKeepsInv(configs: seq<Config>, s: State, q: Request)
    requires DistinctHolders(configs) && Inv(configs, s) && q in s.requests
    ensures Inv(configs, ServeRequest(s, q))
  {
    var s' := ServeRequest(s, q);
    assert RequestOk(configs, s, q) && ReplicaOk(configs, s, q.replica);
    forall i | 0 <= i < |configs| ensures ReplicaOk(configs, s', i) {
      assert ReplicaOk(configs, s, i);
      var r := s.replicas[i];
      if r.phase == Answered(true) { BackedAfterServe(configs, s, q, i, r.now); }
      if r.leader { BackedAfterServe(configs, s, q, i, r.leaderNow); }
    }
    forall p | p in s'.replies ensures ReplyOk(configs, s', p) {
      if p in s.replies {
        assert ReplyOk(configs, s, p);
        if p.ok && p.attempt == s.replicas[p.replica].attempt {
          BackedAfterServe(configs, s, q, p.replica, s.replicas[p.replica].now);
        }
      }
    }
    forall q' | q' in s'.requests ensures RequestOk(configs, s', q') {
      assert RequestOk(configs, s, q');
    }
  }

  /** Steps that leave the lease alone: clocks and attempts only move forward. */
  ghost predicate Quiet(s: State, s': State) {
    && |s'.replicas| == |s.replicas|
    && s'.lease == s.lease && s'.lastWriter == s.lastWriter && s'.replies == s.replies
    && forall i :: 0 <= i < |s.replicas| ==>
         && s.replicas[i].clock <= s'.replicas[i].clock
         && s.replicas[i].now <= s'.replicas[i].now <= s'.replicas[i].clock
         && s.replicas[i].attempt <= s'.replicas[i].attempt
         && (s.replicas[i].attempt == s'.replicas[i].attempt ==> s.replicas[i].now == s'.replicas[i].now)
  }

  lemma BackedQuiet(configs: seq<Config>, s: State, s': State, i: nat, t: int)
    requires |configs| == |s.replicas| && Quiet(s, s') && i < |configs|
    requires Backed(configs, s, i, t)
    ensures Backed(configs, s', i, t)
  {
    var deadline := Deadline(configs, i, t);
    if SomeClockPast(s, deadline) {
      var c :| 0 <= c < |s.replicas| && deadline < s.replicas[c].clock;
      assert deadline < s'.replicas[c].clock;
    }
  }

  /** The part of the invariant that no quiet step can break. */
  lemma QuietKeepsShared(configs: seq<Config>, s: State, s': State)
    requires Inv(configs, s) && Quiet(s, s')
    ensures WriterOk(configs, s')
    ensures forall q :: q in s.requests ==> RequestOk(configs, s', q)
    ensures forall p :: p in s'.replies ==> ReplyOk(configs, s', p)
  {
    forall q | q in s.requests ensures RequestOk(configs, s', q) {
      assert RequestOk(configs, s, q);
    }
    forall p | p in s'.replies ensures ReplyOk(configs, s', p) {
      assert ReplyOk(configs, s, p);
      if p.ok && p.attempt == s'.replicas[p.replica].attempt {
        BackedQuiet(configs, s, s', p.replica, s.replicas[p.replica].now);
      }
    }
  }

  lemma QuietKeepsReplica(configs: seq<Config>, s: State, s': State, i: nat)
    requires Inv(configs, s) && Quiet(s, s') && i < |configs|
    requires s'.replicas[i].phase == Answered(true) ==>
               && s'.replicas[i].now == s.replicas[i].now
               && (s.replicas[i].phase == Answered(true)
                   || Reply(i, s.replicas[i].attempt, true) in s.replies)
    requires s'.replicas[i].leader ==>
               || (s.replicas[i].leader && s'.replicas[i].leaderNow == s.replicas[i].leaderNow)
               || (s.replicas[i].phase == Answered(true) && s'.replicas[i].leaderNow == s.replicas[i].now)
    ensures ReplicaOk(configs, s', i)
  {
    var r := s.replicas[i];
    assert ReplicaOk(configs, s, i);
    if s'.replicas[i].phase == Answered(true) {
      if Reply(i, r.attempt, true) in s.replies { assert ReplyOk(configs, s, Reply(i, r.attempt, true)); }
      BackedQuiet(configs, s, s', i, r.now);
    }
    if s'.replicas[i].leader { BackedQuiet(configs, s, s', i, s'.replicas[i].leaderNow); }
  }

  lemma NowWithinClock(configs: seq<Config>, s: State)
    requires Inv(configs, s)
    ensures forall i :: 0 <= i < |configs| ==> s.replicas[i].now <= s.replicas[i].clock
  {
    forall i | 0 <= i < |configs| ensures s.replicas[i].now <= s.replicas[i].clock {
      assert ReplicaOk(configs, s, i);
    }
  }

  lemma NextKeepsInv(configs: seq<Config>, s: State, step: Step)
    requires DistinctHolders(configs) && Inv(configs, s) && Enabled(s, step)
    ensures Inv(configs, Next(configs, s, step))
  {
    var s' := Next(configs, s, step);
    if step.Serve? {
      ServeKeepsInv(configs, s, step.request);
    } else {
      NowWithinClock(configs, s);
      assert Quiet(s, s');
      QuietKeepsShared(configs, s, s');
      forall i | 0 <= i < |configs| ensures ReplicaOk(configs, s', i) {
        QuietKeepsReplica(configs, s, s', i);
      }
      if step.Fetch? { FetchedRequestOk(configs, s, step.i); }
    }
  }

  lemma FetchedRequestOk(configs: seq<Config>, s: State, i: nat)
    requires DistinctHolders(configs) && Inv(configs, s) && Enabled(s, Fetch(i))
    ensures var s' := Next(configs, s, Fetch(i));
            forall q :: q in s'.requests && q !in s.requests ==> RequestOk(configs, s', q)
  {
  }

  lemma {:induction false} RunKeepsInv(configs: seq<Config>, run: seq<State>, steps: seq<Step>, k: nat)
    requires DistinctHolders(configs) && IsRun(configs, run, steps) && k < |run|
    ensures Inv(configs, run[k])
  {
    if k > 0 {
      RunKeepsInv(configs, run, steps, k - 1);
      NextKeepsInv(configs, run[k - 1], steps[k - 1]);
    }
  }

  // ------------------------------------------------------------------- safety

  /** The stored flag of replica `i` has outlived the lease it rests on, on its own clock plus `skew`. */
  predicate Overdue(configs: seq<Config>, s: State, i: nat, skew: nat)
    requires i < |configs| == |s.replicas|
  {
    Deadline(configs, i, s.replicas[i].leaderNow) < s.replicas[i].clock + skew
  }

  ghost predicate SkewWithin(s: State, skew: nat) {
    forall i, j :: 0 <= i < |s.replicas| && 0 <= j < |s.replicas| ==>
      s.replicas[i].clock <= s.replicas[j].clock + skew
  }

  /**
    In every state of every run, of two replicas that both hold the flag at least one is overdue.
    Nothing is assumed about delays: whatever the network did, the flags that are still within
    their lease belong to one replica. `skew` bounds how far the clocks disagree in that state.
  */
  lemma TwoLeadersMeansOneIsOverdue(
      configs: seq<Config>, run: seq<State>, steps: seq<Step>, k: nat, i: nat, j: nat, skew: nat)
    requires DistinctHolders(configs) && IsRun(configs, run, steps) && k < |run|
    requires i < |configs| && j < |configs| && i != j
    requires run[k].replicas[i].leader && run[k].replicas[j].leader
    requires SkewWithin(run[k], skew)
    ensures Overdue(configs, run[k], i, skew) || Overdue(configs, run[k], j, skew)
  {
    RunKeepsInv(configs, run, steps, k);
    var s := run[k];
    assert ReplicaOk(configs, s, i) && ReplicaOk(configs, s, j);
    if SomeClockPast(s, Deadline(configs, i, s.replicas[i].leaderNow)) {
      var c :| 0 <= c < |s.replicas| && Deadline(configs, i, s.replicas[i].leaderNow) < s.replicas[c].clock;
      assert s.replicas[c].clock <= s.replicas[i].clock + skew;
    } else {
      var c :| 0 <= c < |s.replicas| && Deadline(configs, j, s.replicas[j].leaderNow) < s.replicas[c].clock;
      assert s.replicas[c].clock <= s.replicas[j].clock + skew;
    }
  }

  /** With a common clock and every leader storing its next result within its lease, one leader at most. */
  lemma AtMostOneLeader(configs: seq<Config>, run: seq<State>, steps: seq<Step>, k: nat, i: nat, j: nat)
    requires DistinctHolders(configs) && IsRun(configs, run, steps) && k < |run|
    requires SkewWithin(run[k], 0)
    requires forall c :: 0 <= c < |configs| && run[k].replicas[c].leader ==> !Overdue(configs, run[k], c, 0)
    requires i < |configs| && j < |configs| && run[k].replicas[i].leader && run[k].replicas[j].leader
    ensures i == j
  {
    if i != j { TwoLeadersMeansOneIsOverdue(configs, run, steps, k, i, j, 0); }
  }

  /** Appending one enabled step to a run gives a run. */
  lemma Extend(configs: seq<Config>, run: seq<State>, steps: seq<Step>, step: Step)
    returns (run': seq<State>, steps': seq<Step>)
    requires |run| == |steps| + 1 && IsRun(configs, run, steps) && Enabled(run[|steps|], step)
    ensures |run'| == |steps'| + 1 && IsRun(configs, run', steps') && run <= run'
    ensures |run[|steps|].replicas| == |configs| && run'[|steps'|] == Next(configs, run[|steps|], step)
  {
    hide Enabled, Next;
    run', steps' := run + [Next(configs, run[|steps|], step)], steps + [step];
  }

  /** One undisturbed attempt on an expired lease: begin, read, write, hear, store. */
  lemma TakeOver(configs: seq<Config>, s: State, j: nat) returns (q: Request)
    requires |configs| == |s.replicas| && j < |configs| && s.replicas[j].phase == Sleeping
    requires s.lease.Some? && IsExpired(Renew(s.lease.value), Duration(s.lease.value), s.replicas[j].clock)
    ensures Enabled(s, Begin(j))
    ensures var s1 := Next(configs, s, Begin(j));
            && Enabled(s1, Fetch(j))
            && var s2 := Next(configs, s1, Fetch(j));
               && Enabled(s2, Serve(q))
               && var s3 := Next(configs, s2, Serve(q));
                  && Enabled(s3, Hear(j, true))
                  && var s4 := Next(configs, s3, Hear(j, true));
                     && Enabled(s4, Store(j))
                     && var s5 := Next(configs, s4, Store(j));
                        && |s5.replicas| == |s.replicas| && s5.replicas[j].leader
                        && (forall c :: 0 <= c < |configs| ==> s5.replicas[c].clock == s.replicas[c].clock)
                        && (forall c :: 0 <= c < |configs| && c != j ==> s5.replicas[c] == s.replicas[c])
  {
    var s1 := Next(configs, s, Begin(j));
    q := Request(j, s1.replicas[j].attempt, s1.replicas[j].now, Version(s1.lease),
                 Decide(configs[j], s1.lease, s1.replicas[j].now).value);
  }

  /**
    The timing condition cannot be dropped: once the lease behind a stored flag has expired on the
    clock of a sleeping replica, that replica's next attempt, undisturbed, gives a second leader.
  */
  lemma ExpiredLeaderCanBeJoined(configs: seq<Config>, run: seq<State>, steps: seq<Step>, i: nat, j: nat)
    returns (run': seq<State>, steps': seq<Step>)
    requires |run| == |steps| + 1 && IsRun(configs, run, steps) && i < |configs| && j < |configs| && i != j
    requires var s := run[|steps|];
             && |s.replicas| == |configs| && s.replicas[i].leader && s.replicas[j].phase == Sleeping
             && s.lease.Some?
             && IsExpired(Renew(s.lease.value), Duration(s.lease.value), s.replicas[j].clock)
    ensures |run'| == |steps'| + 1 && IsRun(configs, run', steps') && run <= run'
    ensures |run'[|steps'|].replicas| == |configs|
    ensures run'[|steps'|].replicas[i].leader && run'[|steps'|].replicas[j].leader
    ensures forall c :: 0 <= c < |configs| ==>
              run'[|steps'|].replicas[c].clock == run[|steps|].replicas[c].clock
  {
    hide IsRun, Enabled, Next, IsExpired;
    var q := TakeOver(configs, run[|steps|], j);
    run', steps' := Extend(configs, run, steps, Begin(j));
    run', steps' := Extend(configs, run', steps', Fetch(j));
    run', steps' := Extend(configs, run', steps', Serve(q));
    run', steps' := Extend(configs, run', steps', Hear(j, true));
    run', steps' := Extend(configs, run', steps', Store(j));
  }

  // ------------------------------------------------------------ lease history

  /** A lease is in order when it was acquired no later than renewed, and not in its holder's future. */
  ghost predicate LeaseInOrder(configs: seq<Config>, s: State)
    requires |configs| == |s.replicas|
  {
    s.lease.Some? && s.lease.value.spec.Some? ==>
      var spec := s.lease.value.spec.value;
      && (spec.acquire.Some? ==> spec.renew.Some? && spec.acquire.value <= spec.renew.value)
      && (forall i :: 0 <= i < |configs| && spec.holder == Some(configs[i].holder) && spec.renew.Some? ==>
            spec.renew.value <= s.replicas[i].now)
  }

  /** Every request that could still be accepted renews at or after the stored renewal. */
  ghost predicate NoRequestBackdates(s: State) {
    forall q :: q in s.requests && Version(s.lease) == q.base && s.lease.Some? && Renew(s.lease.value).Some? ==>
      Renew(s.lease.value).value <= q.now
  }

  lemma NextKeepsLeaseOrder(configs: seq<Config>, s: State, step: Step)
    requires DistinctHolders(configs) && Inv(configs, s) && Enabled(s, step)
    requires LeaseInOrder(configs, s) && NoRequestBackdates(s)
    ensures LeaseInOrder(configs, Next(configs, s, step))
  {
    NowWithinClock(configs, s);
    if step.Serve? {
      var q := step.request;
      assert RequestOk(configs, s, q);
      assert forall i :: 0 <= i < |configs| && i != q.replica ==> configs[i].holder != configs[q.replica].holder;
    }
  }

  lemma NextKeepsRequests(configs: seq<Config>, s: State, step: Step)
    requires DistinctHolders(configs) && Inv(configs, s) && Enabled(s, step)
    requires LeaseInOrder(configs, s) && NoRequestBackdates(s)
    ensures NoRequestBackdates(Next(configs, s, step))
  {
    NowWithinClock(configs, s);
    assert forall q :: q in s.requests ==> RequestOk(configs, s, q);
  }

  lemma NextKeepsOrder(configs: seq<Config>, s: State, step: Step)
    requires DistinctHolders(configs) && Inv(configs, s) && Enabled(s, step)
    requires LeaseInOrder(configs, s) && NoRequestBackdates(s)
    ensures var s' := Next(configs, s, step);
            LeaseInOrder(configs, s') && NoRequestBackdates(s')
  {
    hide Inv, Next, Enabled, LeaseInOrder, NoRequestBackdates;
    NextKeepsLeaseOrder(configs, s, step);
    NextKeepsRequests(configs, s, step);
  }

  lemma {:induction false} RunKeepsOrder(configs: seq<Config>, run: seq<State>, steps: seq<Step>, k: nat)
    requires DistinctHolders(configs) && IsRun(configs, run, steps) && k < |run|
    requires LeaseInOrder(configs, run[0])
    ensures LeaseInOrder(configs, run[k]) && NoRequestBackdates(run[k])
  {
    if k > 0 {
      RunKeepsOrder(configs, run, steps, k - 1);
      RunKeepsInv(configs, run, steps, k - 1);
      NextKeepsOrder(configs, run[k - 1], steps[k - 1]);
    }
  }

  lemma StepKeepsRenewal(configs: seq<Config>, s: State, step: Step)
    requires Inv(configs, s) && NoRequestBackdates(s) && Enabled(s, step)
    requires s.lease.Some? && Renew(s.lease.value).Some?
    ensures var s' := Next(configs, s, step);
            s'.lease.Some? && Renew(s'.lease.value).Some?
            && Renew(s.lease.value).value <= Renew(s'.lease.value).value
  {
    if step.Serve? { assert RequestOk(configs, s, step.request); }
  }

  /**
    Clocks may disagree freely. From any point of a run to any later one the stored renewal never
    goes back, and the acquisition never comes after it.
  */
  lemma {:induction false} RenewalNeverGoesBack(
      configs: seq<Config>, run: seq<State>, steps: seq<Step>, k: nat, m: nat)
    requires DistinctHolders(configs) && IsRun(configs, run, steps) && k <= m < |run|
    requires LeaseInOrder(configs, run[0])
    requires run[k].lease.Some? && Renew(run[k].lease.value).Some?
    ensures run[m].lease.Some? && Renew(run[m].lease.value).Some?
    ensures Renew(run[k].lease.value).value <= Renew(run[m].lease.value).value
    ensures var spec := run[m].lease.value.spec.value;
            spec.acquire.Some? ==> spec.acquire.value <= spec.renew.value
  {
    hide Next, Inv, Enabled, NoRequestBackdates;
    RunKeepsOrder(configs, run, steps, m);
    if k < m {
      RenewalNeverGoesBack(configs, run, steps, k, m - 1);
      RunKeepsOrder(configs, run, steps, m - 1);
      RunKeepsInv(configs, run, steps, m - 1);
      StepKeepsRenewal(configs, run[m - 1], steps[m - 1]);
    }
  }

  /**
    The holder changes only by a write whose sender, on its own clock, found the old renewal plus
    the duration recorded with it strictly in the past.
  */
  lemma HolderChangesOnlyAfterExpiry(configs: seq<Config>, run: seq<State>, steps: seq<Step>, k: nat)
    requires DistinctHolders(configs) && IsRun(configs, run, steps) && k < |steps|
    requires run[k].lease.Some?
    requires run[k + 1].lease.Some? ==> Holder(run[k + 1].lease.value) != Holder(run[k].lease.value)
    ensures steps[k].Serve? && steps[k].request.replica < |configs|
    ensures var q := steps[k].request; var before := run[k].lease.value;
            && q.now <= run[k].replicas[q.replica].clock
            && IsExpired(Renew(before), Duration(before), q.now)
            && (Renew(before).Some? ==> Renew(before).value + Duration(before) * SECOND < q.now)
            && run[k + 1].lease == Some(Lease(before.version + 1, Some(q.spec)))
  {
    RunKeepsInv(configs, run, steps, k);
    assert steps[k].Serve?;
    var q := steps[k].request;
    assert RequestOk(configs, run[k], q) && ReplicaOk(configs, run[k], q.replica);
  }

  /**
    A write may travel as long as it likes: when it is accepted it is what its sender would decide on
    the lease it replaces. A renewal takes over the old renewal time as acquisition time; a new
    holder acquires at its own `now`.
  */
  lemma AcceptedWriteFitsTheLease(configs: seq<Config>, run: seq<State>, steps: seq<Step>, k: nat)
    requires DistinctHolders(configs) && IsRun(configs, run, steps) && k < |steps|
    requires run[k + 1].lease != run[k].lease
    ensures steps[k].Serve? && steps[k].request.replica < |configs|
    ensures var q := steps[k].request;
            && Decide(configs[q.replica], run[k].lease, q.now) == Some(q.spec)
            && run[k + 1].lease.Some? && run[k + 1].lease.value.spec == Some(q.spec)
            && q.spec.holder == Some(configs[q.replica].holder)
            && q.spec.duration == Some(configs[q.replica].duration)
            && q.spec.renew == Some(q.now)
            && q.spec.acquire ==
                 if run[k].lease.Some? && Holder(run[k].lease.value) == q.spec.holder then Renew(run[k].lease.value)
                 else Some(q.now)
  {
    RunKeepsInv(configs, run, steps, k);
    var q := steps[k].request;
    assert RequestOk(configs, run[k], q);
  }
}
