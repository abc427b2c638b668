/**
  Automatic certificates (`src/api/acme.rs`). Sweeps walk the TLS rows and start background obtain
  jobs; sweeps, jobs and other writers of the certificate table interleave freely. The in-flight
  set keeps two jobs from holding the same lock key, the sorted list of names, at once.
*/
module AcmeSweep {
  import opened Prelude
  import opened Text
  import opened Hosts
  import opened SortedLists
  import TlsRows

  datatype Expiry = Blank | Unreadable | At(second: int)

  datatype CertificateRow = CertificateRow(id: string, hosts: seq<string>, sourceType: string, expires: Option<Expiry>)

  // ------------------------------------------------------------------ coverage

  /** Trimmed, not blank. */
  function Trimmed(hosts: seq<string>): seq<string> {
    if hosts == [] then [] else (if Trim(hosts[0]) == "" then [] else [Trim(hosts[0])]) + Trimmed(hosts[1..])
  }

  predicate HostCovered(certHosts: seq<string>, host: string) {
    var h := Trim(host);
    var have := Trimmed(certHosts);
    && h != ""
    && (h in have || (h[0] != '*' && exists w :: w in have && WildcardCovers(w, h)))
  }

  predicate CoversHosts(certHosts: seq<string>, tlsHosts: seq<string>) {
    Trimmed(tlsHosts) != [] && forall h :: h in Trimmed(tlsHosts) ==> HostCovered(certHosts, h)
  }

  /** Whole days left, rounded toward zero. */
  function DaysLeft(expiry: int, now: int): int {
    if now <= expiry then (expiry - now) / 86_400 else -((now - expiry) / 86_400)
  }

  predicate ExpiresWithin(row: CertificateRow, days: nat, now: int) {
    row.expires.Some? && row.expires.value.At? && DaysLeft(row.expires.value.second, now) <= days
  }

  /** `acme_cert_is_valid`: an unreadable expiry date counts as not expiring. */
  predicate IsValid(row: CertificateRow, hosts: seq<string>, now: int) {
    && Lower(row.sourceType) == "acme"
    && row.expires.Some? && !row.expires.value.Blank?
    && !ExpiresWithin(row, 0, now)
    && CoversHosts(row.hosts, hosts)
  }

  /** A valid row with a readable expiry has a full day left. */
  lemma ValidHasADayLeft(row: CertificateRow, hosts: seq<string>, now: int)
    requires IsValid(row, hosts, now) && row.expires.value.At?
    ensures now + 86_400 <= row.expires.value.second
  {
    hide CoversHosts, Lower;
    var left := row.expires.value.second - now;
    if 0 <= left { assert left / 86_400 >= 1; }
  }

  predicate HasValid(rows: set<CertificateRow>, hosts: seq<string>, now: int) {
    exists row :: row in rows && IsValid(row, hosts, now)
  }

  // -------------------------------------------------------------------- orders

  predicate IsDns01(challenge: string) { Lower(challenge) in {"dns01", "dns-01"} }

  function Stars(hosts: seq<string>, star: bool): seq<string> {
    if hosts == [] then [] else
      (if StartsWith(hosts[0], "*") == star then [hosts[0]] else []) + Stars(hosts[1..], star)
  }

  /** The names an order asks for: under DNS-01 the wildcards if there are any, under HTTP-01 no wildcard. */
  function OrderHosts(hosts: seq<string>, challenge: string): seq<string> {
    var eligible :=
      if IsDns01(challenge) then if Stars(hosts, true) != [] then Stars(hosts, true) else hosts
      else Stars(hosts, false);
    TlsRows.ValidHosts(eligible)
  }

  predicate AtMost(a: string, b: string) { a == b || LessString(a, b) }

  function InsertSorted(x: string, s: seq<string>): (out: seq<string>)
    ensures out != []
  {
    if s == [] || AtMost(x, s[0]) then [x] + s else [s[0]] + InsertSorted(x, s[1..])
  }

  function Sorted(s: seq<string>): seq<string> {
    if s == [] then [] else InsertSorted(s[0], Sorted(s[1..]))
  }

  /** The lock key: the names sorted and joined. */
  function OrderKey(hosts: seq<string>): string { Join(Sorted(hosts), ",") }

  // --------------------------------------------------------------- step system

  datatype TlsRow = TlsRow(hosts: seq<string>, challenge: string)

  /** A sweep: the rows it has still to look at, its latest listing, and whether it has just listed again for the first of them. */
  datatype Sweep = Sweep(todo: seq<TlsRow>, listing: set<CertificateRow>, relisted: bool)

  /** A running obtain job and the names it orders. */
  datatype Job = Job(hosts: seq<string>)

  datatype State = State(
    table: set<CertificateRow>, inflight: set<string>, sweeps: map<nat, Sweep>, jobs: map<nat, Job>)

  datatype Step =
    | OtherWriters(table: set<CertificateRow>)                // deletions and uploads, by sweeps or the admin
    | StartSweep(sweep: nat, todo: seq<TlsRow>)               // list the table
    | SkipRow(sweep: nat, now: int)                           // nothing eligible, or a valid row in the listing
    | Relist(sweep: nat, ok: bool)                            // list again; on an error keep the old listing
    | Commit(sweep: nat, job: nat, now: int)                 // decide and, if needed, start a job
    | Save(job: nat, row: CertificateRow)                    // store the obtained certificate
    | Finish(job: nat)                                       // release the key

  function HostsOf(row: TlsRow): seq<string> { Trimmed(row.hosts) }

  function OrderOf(row: TlsRow): seq<string> { OrderHosts(HostsOf(row), row.challenge) }

  predicate Enabled(s: State, step: Step) {
    match step
    case OtherWriters(_) => true
    case StartSweep(w, _) => w !in s.sweeps
    case SkipRow(w, now) =>
      w in s.sweeps && s.sweeps[w].todo != [] && !s.sweeps[w].relisted
      && (OrderOf(s.sweeps[w].todo[0]) == [] || HasValid(s.sweeps[w].listing, OrderOf(s.sweeps[w].todo[0]), now))
    case Relist(w, _) =>
      w in s.sweeps && s.sweeps[w].todo != [] && OrderOf(s.sweeps[w].todo[0]) != []
    case Commit(w, t, _) => w in s.sweeps && s.sweeps[w].todo != [] && s.sweeps[w].relisted && t !in s.jobs
    case Save(t, _) => t in s.jobs
    case Finish(t) => t in s.jobs
  }

  function NextRow(s: State, w: nat): State
    requires w in s.sweeps && s.sweeps[w].todo != []
  {
    s.(sweeps := s.sweeps[w := s.sweeps[w].(todo := s.sweeps[w].todo[1..], relisted := false)])
  }

  function Next(s: State, step: Step): State
    requires Enabled(s, step)
  {
    match step
    case OtherWriters(table) => s.(table := table)
    case StartSweep(w, todo) => s.(sweeps := s.sweeps[w := Sweep(todo, s.table, false)])
    case SkipRow(w, _) => NextRow(s, w)
    case Relist(w, ok) =>
      var sweep := s.sweeps[w];
      s.(sweeps := s.sweeps[w := sweep.(listing := if ok then s.table else sweep.listing, relisted := true)])
    case Commit(w, t, now) =>
      var sweep := s.sweeps[w];
      var hosts := OrderOf(sweep.todo[0]);
      var after := NextRow(s, w);
      if HasValid(sweep.listing, hosts, now) || OrderKey(hosts) in s.inflight then after
      else after.(inflight := s.inflight + {OrderKey(hosts)}, jobs := s.jobs[t := Job(hosts)])
    case Save(_, row) => s.(table := s.table + {row})
    case Finish(t) => s.(inflight := s.inflight - {OrderKey(s.jobs[t].hosts)}, jobs := s.jobs - {t})
  }

  ghost predicate IsRun(run: seq<State>, steps: seq<Step>): (ok: bool)
    ensures ok ==> |run| == |steps| + 1
  {
    && |run| == |steps| + 1
    && run[0].inflight == {} && run[0].sweeps == map[] && run[0].jobs == map[]
    && forall k :: 0 <= k < |steps| ==> Enabled(run[k], steps[k]) && run[k + 1] == Next(run[k], steps[k])
  }

  ghost predicate Inv(s: State) {
    && s.inflight == (set t | t in s.jobs :: OrderKey(s.jobs[t].hosts))
    && (forall t, u :: t in s.jobs && u in s.jobs && OrderKey(s.jobs[t].hosts) == OrderKey(s.jobs[u].hosts) ==> t == u)
  }

  lemma NextKeepsInv(s: State, step: Step)
    requires Inv(s) && Enabled(s, step)
    ensures Inv(Next(s, step))
  {
    hide OrderKey, HasValid, OrderHosts;
    var s' := Next(s, step);
    if step.Finish? {
      var key := OrderKey(s.jobs[step.job].hosts);
      assert forall t :: t in s'.jobs ==> t in s.jobs && s'.jobs[t] == s.jobs[t] && OrderKey(s.jobs[t].hosts) != key;
    } else if s'.jobs != s.jobs {
      assert s'.jobs[step.job] == Job(OrderOf(s.sweeps[step.sweep].todo[0]));
      assert forall t :: t in s.jobs ==> t in s'.jobs && s'.jobs[t] == s.jobs[t];
    }
    assert s'.inflight == (set t | t in s'.jobs :: OrderKey(s'.jobs[t].hosts));
  }

  lemma {:induction false} RunKeepsInv(run: seq<State>, steps: seq<Step>, k: nat)
    requires IsRun(run, steps) && k < |run|
    ensures Inv(run[k])
  {
    if k > 0 {
      RunKeepsInv(run, steps, k - 1);
      NextKeepsInv(run[k - 1], steps[k - 1]);
    }
  }

  // ------------------------------------------------------------------ lock keys

  ghost predicate InOrder(s: seq<string>) { forall i, j :: 0 <= i < j < |s| ==> AtMost(s[i], s[j]) }

  lemma {:induction false} InsertSortedKeeps(x: string, s: seq<string>)
    ensures multiset(InsertSorted(x, s)) == multiset(s) + multiset{x}
  {
    hide AtMost;
    if s != [] && !AtMost(x, s[0]) {
      InsertSortedKeeps(x, s[1..]);
      assert s == [s[0]] + s[1..];
    }
  }

  lemma {:induction false} InsertSortedSorts(x: string, s: seq<string>)
    requires InOrder(s)
    ensures InOrder(InsertSorted(x, s))
    ensures InsertSorted(x, s)[0] == if s == [] || AtMost(x, s[0]) then x else s[0]
  {
    hide AtMost;
    if s != [] {
      AtMostOrder(x, s[0], s[0]);
      if AtMost(x, s[0]) {
        forall k | 0 < k < |s| ensures AtMost(x, s[k]) { AtMostOrder(x, s[0], s[k]); }
      } else {
        InsertSortedSorts(x, s[1..]);
        var rest := InsertSorted(x, s[1..]);
        assert AtMost(s[0], rest[0]);
        forall k | 0 < k < |rest| ensures AtMost(s[0], rest[k]) { AtMostOrder(s[0], rest[0], rest[k]); }
      }
    }
  }

  lemma AtMostOrder(a: string, b: string, c: string)
    ensures AtMost(a, b) || AtMost(b, a)
    ensures AtMost(a, b) && AtMost(b, c) ==> AtMost(a, c)
  {
    LessStringTotal(a, b);
    if LessString(a, b) && LessString(b, c) { LessStringTransitive(a, b, c); }
  }

  lemma {:induction false} SortedSorts(s: seq<string>)
    ensures InOrder(Sorted(s)) && multiset(Sorted(s)) == multiset(s)
  {
    hide AtMost, InsertSorted;
    if s != [] {
      SortedSorts(s[1..]);
      InsertSortedSorts(s[0], Sorted(s[1..]));
      InsertSortedKeeps(s[0], Sorted(s[1..]));
      assert s == [s[0]] + s[1..];
    }
  }

  lemma TailOf(a: seq<string>)
    requires a != []
    ensures multiset(a[1..]) == multiset(a) - multiset{a[0]}
  {
    assert a == [a[0]] + a[1..];
  }

  lemma {:induction false} InOrderUnique(a: seq<string>, b: seq<string>)
    requires InOrder(a) && InOrder(b) && multiset(a) == multiset(b)
    ensures a == b
  {
    assert |a| == |multiset(a)| == |multiset(b)| == |b|;
    if a != [] {
      SameHead(a, b);
      TailOf(a);
      TailOf(b);
      TailInOrder(a);
      TailInOrder(b);
      hide InOrder;
      InOrderUnique(a[1..], b[1..]);
      assert a == [a[0]] + a[1..] && b == [b[0]] + b[1..];
    }
  }

  lemma TailInOrder(a: seq<string>)
    requires InOrder(a) && a != []
    ensures InOrder(a[1..])
  {
    hide AtMost;
  }

  lemma SameHead(a: seq<string>, b: seq<string>)
    requires InOrder(a) && InOrder(b) && multiset(a) == multiset(b) && a != [] && b != []
    ensures a[0] == b[0]
  {
    hide LessString;
    assert a[0] in multiset(b) && b[0] in multiset(a);
    var i :| 0 <= i < |b| && b[i] == a[0];
    var j :| 0 <= j < |a| && a[j] == b[0];
    LessStringTotal(a[0], b[0]);
    if LessString(a[0], b[0]) && LessString(b[0], a[0]) { LessStringTransitive(a[0], b[0], a[0]); }
  }

  /** Two orders of comma-free names share a key exactly when they ask for the same names, in any order. */
  lemma KeyIdentifiesNames(a: seq<string>, b: seq<string>)
    requires a != [] && b != []
    requires (forall h :: h in a ==> Free(h, {','})) && (forall h :: h in b ==> Free(h, {','}))
    ensures OrderKey(a) == OrderKey(b) <==> multiset(a) == multiset(b)
  {
    hide Sorted, Split, Join;
    SortedSorts(a);
    SortedSorts(b);
    if multiset(a) == multiset(b) { InOrderUnique(Sorted(a), Sorted(b)); }
    SortedParts(a);
    SortedParts(b);
  }

  lemma SortedParts(a: seq<string>)
    requires a != [] && forall h :: h in a ==> Free(h, {','})
    ensures Split(OrderKey(a), {','}) == Sorted(a)
  {
    hide Sorted, Split, Join;
    SortedSorts(a);
    assert |multiset(Sorted(a))| == |multiset(a)|;
    forall k | 0 <= k < |Sorted(a)| ensures Free(Sorted(a)[k], {','}) { assert Sorted(a)[k] in multiset(Sorted(a)); }
    SplitJoined(Sorted(a), ',', {','});
  }

  /** The names of an order, however often it asks for them. */
  function NameSet(hosts: seq<string>): set<string> { set h | h in hosts }

  ghost predicate Distinct(hosts: seq<string>) { forall i, j :: 0 <= i < j < |hosts| ==> hosts[i] != hosts[j] }

  lemma {:induction false} DistinctIffSingle(hosts: seq<string>)
    ensures Distinct(hosts) <==> multiset(hosts) == multiset(NameSet(hosts))
  {
    if hosts != [] {
      var init, h := hosts[..|hosts| - 1], hosts[|hosts| - 1];
      assert hosts == init + [h];
      DistinctIffSingle(init);
      DistinctLast(init, h);
      assert NameSet(hosts) == NameSet(init) + {h};
      if h in init {
        assert multiset(hosts)[h] == multiset(init)[h] + 1 >= 2;
      } else {
        assert multiset(NameSet(hosts)) == multiset(NameSet(init)) + multiset{h};
        assert multiset(hosts) == multiset(init) + multiset{h};
        assert multiset(init) == multiset(hosts) - multiset{h};
      }
    }
  }

  lemma DistinctLast(hosts: seq<string>, h: string)
    ensures Distinct(hosts + [h]) <==> Distinct(hosts) && h !in hosts
  {
    var all := hosts + [h];
    assert forall k :: 0 <= k < |hosts| ==> all[k] == hosts[k];
    assert all[|hosts|] == h;
  }

  /** Orders without repeated names share a key exactly when they ask for the same set of names. */
  lemma KeyIdentifiesNameSets(a: seq<string>, b: seq<string>)
    requires a != [] && b != [] && Distinct(a) && Distinct(b)
    requires (forall h :: h in a ==> Free(h, {','})) && (forall h :: h in b ==> Free(h, {','}))
    ensures OrderKey(a) == OrderKey(b) <==> NameSet(a) == NameSet(b)
  {
    hide OrderKey, Distinct;
    KeyIdentifiesNames(a, b);
    SameMembers(a, b);
    DistinctIffSingle(a);
    DistinctIffSingle(b);
  }

  /** The condition is exact: an order that repeats a name misses the key of the same names without repetition. */
  lemma RepeatedNameChangesKey(a: seq<string>, b: seq<string>)
    requires a != [] && Distinct(b) && NameSet(a) == NameSet(b) && forall h :: h in a ==> Free(h, {','})
    ensures OrderKey(a) == OrderKey(b) <==> Distinct(a)
  {
    hide OrderKey, Distinct;
    assert a[0] in NameSet(b);
    forall h | h in b ensures Free(h, {','}) { assert h in NameSet(a); }
    KeyIdentifiesNames(a, b);
    SameMembers(a, b);
    DistinctIffSingle(a);
    DistinctIffSingle(b);
  }

  lemma SameMembers(a: seq<string>, b: seq<string>)
    ensures multiset(a) == multiset(b) ==> NameSet(a) == NameSet(b)
  {
    if multiset(a) == multiset(b) {
      assert forall h :: h in a <==> h in multiset(a);
      assert forall h :: h in b <==> h in multiset(b);
    }
  }

  // -------------------------------------------------------------------- listings

  /** The steps at which sweep `w` successfully lists the table. */
  predicate Lists(step: Step, w: nat) {
    (step.StartSweep? && step.sweep == w) || (step.Relist? && step.sweep == w && step.ok)
  }

  /** The last of them before step `k`. */
  function LastListing(steps: seq<Step>, w: nat, k: nat): (j: Option<nat>)
    requires k <= |steps|
    ensures j.Some? ==> j.value < k && Lists(steps[j.value], w) && forall i :: j.value < i < k ==> !Lists(steps[i], w)
    ensures j.None? ==> forall i :: 0 <= i < k ==> !Lists(steps[i], w)
  {
    if k == 0 then None else if Lists(steps[k - 1], w) then Some(k - 1) else LastListing(steps, w, k - 1)
  }

  lemma StepKeepsListing(s: State, step: Step, w: nat)
    requires Enabled(s, step) && w in Next(s, step).sweeps
    ensures Lists(step, w) ==> Next(s, step).sweeps[w].listing == s.table
    ensures !Lists(step, w) ==> w in s.sweeps && Next(s, step).sweeps[w].listing == s.sweeps[w].listing
  {
    hide OrderKey, HasValid, OrderOf;
  }

  /** What a sweep decides by is the table as it was at its last listing. */
  lemma {:induction false} ListingIsATable(run: seq<State>, steps: seq<Step>, k: nat, w: nat)
    requires IsRun(run, steps) && k < |run| && w in run[k].sweeps
    ensures var j := LastListing(steps, w, k); j.Some? && run[k].sweeps[w].listing == run[j.value].table
  {
    hide Next, Enabled, Lists;
    if k > 0 {
      StepKeepsListing(run[k - 1], steps[k - 1], w);
      if !Lists(steps[k - 1], w) { ListingIsATable(run, steps, k - 1, w); }
    }
  }

  /** The order the sweep of a `Commit` step has come to. */
  function Committed(s: State, step: Step): seq<string>
    requires step.Commit? && Enabled(s, step)
  {
    OrderOf(s.sweeps[step.sweep].todo[0])
  }

  /** A job starts exactly when no row listed last covered the names and no running job holds their key. */
  lemma JobStartsIff(run: seq<State>, steps: seq<Step>, k: nat)
    requires IsRun(run, steps) && k < |steps| && steps[k].Commit?
    ensures LastListing(steps, steps[k].sweep, k).Some?
    ensures var listed := run[LastListing(steps, steps[k].sweep, k).value].table;
            var hosts := Committed(run[k], steps[k]);
            (steps[k].job in run[k + 1].jobs <==>
               && !HasValid(listed, hosts, steps[k].now)
               && forall t :: t in run[k].jobs ==> OrderKey(run[k].jobs[t].hosts) != OrderKey(hosts))
    ensures steps[k].job in run[k + 1].jobs ==> run[k + 1].jobs[steps[k].job].hosts == Committed(run[k], steps[k])
  {
    hide OrderKey, HasValid, OrderOf;
    RunKeepsInv(run, steps, k);
    ListingIsATable(run, steps, k, steps[k].sweep);
  }

  /** Every running job was started by one `Commit` and has kept its names. */
  lemma {:induction false} JobOrigin(run: seq<State>, steps: seq<Step>, k: nat, t: nat) returns (c: nat)
    requires IsRun(run, steps) && k < |run| && t in run[k].jobs
    ensures c < k && steps[c].Commit? && steps[c].job == t
    ensures t in run[c + 1].jobs && run[c + 1].jobs[t] == run[k].jobs[t]
  {
    hide OrderKey, HasValid, OrderOf;
    assert run[k] == Next(run[k - 1], steps[k - 1]);
    if t in run[k - 1].jobs {
      c := JobOrigin(run, steps, k - 1, t);
    } else {
      c := k - 1;
    }
  }

  // ---------------------------------------------------------------- main results

  /**
    In every interleaving no two running jobs order the same names, repetitions counted, and every
    job was committed, at step `c`, for names that no valid ACME row covered when its sweep had last
    listed the table, at step `j`.
  */
  lemma IssuanceIsSafe(run: seq<State>, steps: seq<Step>, k: nat, t: nat, u: nat) returns (c: nat, j: nat)
    requires IsRun(run, steps) && k < |run|
    requires t in run[k].jobs && u in run[k].jobs
    ensures t != u ==> OrderKey(run[k].jobs[t].hosts) != OrderKey(run[k].jobs[u].hosts)
    ensures t != u ==> multiset(run[k].jobs[t].hosts) != multiset(run[k].jobs[u].hosts)
    ensures OrderKey(run[k].jobs[t].hosts) in run[k].inflight
    ensures j < c < k && steps[c].Commit? && steps[c].job == t && LastListing(steps, steps[c].sweep, c) == Some(j)
    ensures !HasValid(run[j].table, run[k].jobs[t].hosts, steps[c].now)
  {
    hide OrderKey, HasValid, Next, OrderOf;
    RunKeepsInv(run, steps, k);
    if multiset(run[k].jobs[t].hosts) == multiset(run[k].jobs[u].hosts) {
      SameNamesSameKey(run[k].jobs[t].hosts, run[k].jobs[u].hosts);
    }
    c := JobOrigin(run, steps, k, t);
    JobStartsIff(run, steps, c);
    j := LastListing(steps, steps[c].sweep, c).value;
  }

  lemma SameNamesSameKey(a: seq<string>, b: seq<string>)
    requires multiset(a) == multiset(b)
    ensures OrderKey(a) == OrderKey(b)
  {
    hide Sorted;
    SortedSorts(a);
    SortedSorts(b);
    InOrderUnique(Sorted(a), Sorted(b));
  }

  lemma {:induction false} SublistDistinct(hosts: seq<string>, star: bool)
    ensures forall h :: h in Stars(hosts, star) ==> h in hosts
    ensures Distinct(hosts) ==> Distinct(Stars(hosts, star))
  {
    if hosts != [] {
      SublistDistinct(hosts[1..], star);
      assert hosts == [hosts[0]] + hosts[1..];
      if Distinct(hosts) { assert hosts[0] !in hosts[1..]; }
    }
  }

  lemma {:induction false} ValidDistinct(hosts: seq<string>)
    ensures forall h :: h in TlsRows.ValidHosts(hosts) ==> h in hosts
    ensures Distinct(hosts) ==> Distinct(TlsRows.ValidHosts(hosts))
  {
    hide TlsRows.InvalidAcme, TlsRows.ValidHosts;
    if hosts == [] {
      TlsRows.NoValidHosts();
    } else {
      var init, h := hosts[..|hosts| - 1], hosts[|hosts| - 1];
      assert hosts == init + [h];
      ValidDistinct(init);
      TlsRows.ValidHostsLast(init, h);
      DistinctLast(init, h);
      DistinctLast(TlsRows.ValidHosts(init), h);
    }
  }

  /** A row without repeated hosts, blanks and white space aside, makes an order without repeated names. */
  lemma DistinctOrder(row: TlsRow)
    ensures forall h :: h in OrderOf(row) ==> h in HostsOf(row)
    ensures Distinct(HostsOf(row)) ==> Distinct(OrderOf(row))
  {
    hide Distinct, Stars, TlsRows.ValidHosts, IsDns01, Trimmed;
    var hosts := HostsOf(row);
    SublistDistinct(hosts, true);
    SublistDistinct(hosts, false);
    ValidDistinct(hosts);
    ValidDistinct(Stars(hosts, true));
    ValidDistinct(Stars(hosts, false));
  }

  ghost predicate DistinctRows(todo: seq<TlsRow>) { forall row :: row in todo ==> Distinct(HostsOf(row)) }

  lemma {:induction false} DistinctRun(run: seq<State>, steps: seq<Step>, k: nat)
    requires IsRun(run, steps) && k < |run|
    requires forall i :: 0 <= i < |steps| && steps[i].StartSweep? ==> DistinctRows(steps[i].todo)
    ensures forall w :: w in run[k].sweeps ==> DistinctRows(run[k].sweeps[w].todo)
    ensures forall t :: t in run[k].jobs ==> Distinct(run[k].jobs[t].hosts)
  {
    hide Distinct, OrderKey, HasValid, OrderOf, HostsOf;
    if k > 0 {
      DistinctRun(run, steps, k - 1);
      var s, step := run[k - 1], steps[k - 1];
      assert run[k] == Next(s, step);
      if step.Commit? {
        var todo := s.sweeps[step.sweep].todo;
        assert todo[0] in todo;
        DistinctOrder(todo[0]);
      }
    }
  }

  /** When no swept row repeats a host, no two running jobs order the same set of names. */
  lemma DistinctRowsOrderApart(run: seq<State>, steps: seq<Step>, k: nat, t: nat, u: nat)
    requires IsRun(run, steps) && k < |run|
    requires forall i :: 0 <= i < |steps| && steps[i].StartSweep? ==> DistinctRows(steps[i].todo)
    requires t in run[k].jobs && u in run[k].jobs && t != u
    ensures NameSet(run[k].jobs[t].hosts) != NameSet(run[k].jobs[u].hosts)
  {
    hide OrderKey, Distinct, IsRun, DistinctRows;
    DistinctRun(run, steps, k);
    var _, _ := IssuanceIsSafe(run, steps, k, t, u);
    DistinctIffSingle(run[k].jobs[t].hosts);
    DistinctIffSingle(run[k].jobs[u].hosts);
  }

  /** The key is free again as soon as no job holds it: finished orders never block later ones. */
  lemma KeysAreReleased(run: seq<State>, steps: seq<Step>, k: nat, key: string)
    requires IsRun(run, steps) && k < |run|
    requires forall t :: t in run[k].jobs ==> OrderKey(run[k].jobs[t].hosts) != key
    ensures key !in run[k].inflight
  {
    hide OrderKey, HasValid;
    RunKeepsInv(run, steps, k);
  }

  /** Step `m` puts `row` into the table, where it stays up to `k`. */
  ghost predicate PutAt(run: seq<State>, steps: seq<Step>, m: nat, k: nat, row: CertificateRow)
    requires m < k < |run| && |run| == |steps| + 1
  {
    && ((steps[m].Save? && steps[m].row == row) || (steps[m].OtherWriters? && row in steps[m].table))
    && row !in run[m].table
    && forall i :: m < i <= k ==> row in run[i].table
  }

  /** A row that came into the table was put there. */
  lemma {:induction false} PutSometime(run: seq<State>, steps: seq<Step>, j: nat, k: nat, row: CertificateRow)
    returns (m: nat)
    requires IsRun(run, steps) && j <= k < |run| && row !in run[j].table && row in run[k].table
    ensures j <= m < k && PutAt(run, steps, m, k, row)
  {
    hide OrderKey, HasValid, OrderOf;
    assert run[k] == Next(run[k - 1], steps[k - 1]);
    if row in run[k - 1].table {
      m := PutSometime(run, steps, j, k - 1, row);
    } else {
      m := k - 1;
    }
  }

  /**
    The listing is all that guards an order. A job that starts repeats one whose certificate is in
    the table if and only if a row valid for its names was put there after its sweep had last listed
    the table, and has stayed.
  */
  lemma RepeatsIffPutSinceListing(run: seq<State>, steps: seq<Step>, k: nat)
    requires IsRun(run, steps) && k < |steps| && steps[k].Commit? && steps[k].job in run[k + 1].jobs
    ensures LastListing(steps, steps[k].sweep, k).Some?
    ensures HasValid(run[k].table, Committed(run[k], steps[k]), steps[k].now) <==>
              exists m, row :: LastListing(steps, steps[k].sweep, k).value < m < k && PutAt(run, steps, m, k, row)
                && IsValid(row, Committed(run[k], steps[k]), steps[k].now)
  {
    hide IsValid, OrderKey, Next, OrderOf;
    JobStartsIff(run, steps, k);
    var hosts, now := Committed(run[k], steps[k]), steps[k].now;
    var j := LastListing(steps, steps[k].sweep, k).value;
    if HasValid(run[k].table, hosts, now) {
      var row :| row in run[k].table && IsValid(row, hosts, now);
      assert row !in run[j].table;
      var m := PutSometime(run, steps, j, k, row);
      assert m != j;
    }
  }

  // ------------------------------------------------------------- two real runs

  /** A freshly obtained certificate for an order. */
  function Obtained(hosts: seq<string>, now: int): CertificateRow {
    CertificateRow("", hosts, "acme", Some(At(now + 90 * 86_400)))
  }

  lemma {:induction false} TrimmedTrims(hosts: seq<string>)
    ensures forall h :: h in Trimmed(hosts) ==> Trim(h) == h != ""
  {
    hide Trim;
    if hosts != [] {
      TrimmedTrims(hosts[1..]);
      TrimIdempotent(hosts[0]);
    }
  }

  lemma {:induction false} TrimmedOfTrimmed(hosts: seq<string>)
    requires forall h :: h in hosts ==> Trim(h) == h != ""
    ensures Trimmed(hosts) == hosts
  {
    hide Trim;
    if hosts != [] {
      assert hosts[0] in hosts;
      TrimmedOfTrimmed(hosts[1..]);
    }
  }

  lemma ObtainedIsValid(row: TlsRow, now: int)
    requires OrderOf(row) != []
    ensures IsValid(Obtained(OrderOf(row), now), OrderOf(row), now)
  {
    hide OrderOf, Trim, Trimmed, WildcardCovers;
    var hosts := OrderOf(row);
    DistinctOrder(row);
    TrimmedTrims(row.hosts);
    TrimmedOfTrimmed(hosts);
    assert Lower("acme") == "acme";
  }

  lemma RunGoesOn(run: seq<State>, steps: seq<Step>, step: Step)
    requires IsRun(run, steps) && Enabled(run[|steps|], step)
    ensures IsRun(run + [Next(run[|steps|], step)], steps + [step])
  {
    hide Enabled, Next;
    var run', steps' := run + [Next(run[|steps|], step)], steps + [step];
    forall k | 0 <= k < |steps'| ensures Enabled(run'[k], steps'[k]) && run'[k + 1] == Next(run'[k], steps'[k]) {
      if k < |steps| { assert run'[k] == run[k] && run'[k + 1] == run[k + 1] && steps'[k] == steps[k]; }
    }
  }

  /** A sweep over two rows that has started the first order and listed the table for the second. */
  lemma FirstOrderStarts(table: set<CertificateRow>, a: TlsRow, b: TlsRow, now: int)
    returns (run: seq<State>, steps: seq<Step>)
    requires OrderOf(a) != [] && OrderOf(b) != [] && !HasValid(table, OrderOf(a), now)
    ensures IsRun(run, steps) && |steps| == 4 && steps[0] == StartSweep(0, [a, b]) && run[0].table == table
    ensures run[4] == State(table, {OrderKey(OrderOf(a))}, map[0 := Sweep([b], table, true)], map[0 := Job(OrderOf(a))])
  {
    hide OrderOf, OrderKey, HasValid;
    steps := [StartSweep(0, [a, b]), Relist(0, true), Commit(0, 0, now), Relist(0, true)];
    var s0 := State(table, {}, map[], map[]);
    var s1 := State(table, {}, map[0 := Sweep([a, b], table, false)], map[]);
    var s2 := State(table, {}, map[0 := Sweep([a, b], table, true)], map[]);
    var s3 := State(table, {OrderKey(OrderOf(a))}, map[0 := Sweep([b], table, false)], map[0 := Job(OrderOf(a))]);
    var s4 := State(table, {OrderKey(OrderOf(a))}, map[0 := Sweep([b], table, true)], map[0 := Job(OrderOf(a))]);
    assert [a, b][1..] == [b];
    assert s1 == Next(s0, steps[0]) && s2 == Next(s1, steps[1]) && s3 == Next(s2, steps[2]) && s4 == Next(s3, steps[3]);
    run := [s0, s1, s2, s3, s4];
  }

  /** One sweep over two rows starts a job for each, if the table covers neither and the keys differ. */
  lemma BothOrdersStart(table: set<CertificateRow>, a: TlsRow, b: TlsRow, now: int)
    returns (run: seq<State>, steps: seq<Step>)
    requires OrderOf(a) != [] && OrderOf(b) != [] && OrderKey(OrderOf(a)) != OrderKey(OrderOf(b))
    requires !HasValid(table, OrderOf(a), now) && !HasValid(table, OrderOf(b), now)
    ensures IsRun(run, steps) && |steps| == 5 && steps[0] == StartSweep(0, [a, b])
    ensures run[5].jobs == map[0 := Job(OrderOf(a)), 1 := Job(OrderOf(b))]
  {
    hide OrderOf, OrderKey, HasValid, IsRun;
    run, steps := FirstOrderStarts(table, a, b, now);
    RunGoesOn(run, steps, Commit(0, 1, now));
    run, steps := run + [Next(run[4], Commit(0, 1, now))], steps + [Commit(0, 1, now)];
  }

  /**
    Every order can be repeated: with two rows that make the same order, not covered by the table,
    there is a run in which the first job saves its certificate and finishes after the sweep has
    listed the table for the second row and before it commits.
  */
  lemma FinishedOrderIsRepeated(table: set<CertificateRow>, a: TlsRow, b: TlsRow, now: int)
    returns (run: seq<State>, steps: seq<Step>)
    requires OrderOf(a) == OrderOf(b) != [] && !HasValid(table, OrderOf(a), now)
    ensures IsRun(run, steps) && run[0].table == table && |steps| == 7
    ensures steps[6] == Commit(0, 1, now) && HasValid(run[6].table, OrderOf(b), now)
    ensures run[7].jobs == map[1 := Job(OrderOf(b))]
  {
    hide OrderOf, OrderKey, HasValid, IsValid, IsRun;
    var cert := Obtained(OrderOf(a), now);
    run, steps := FirstOrderStarts(table, a, b, now);
    var listed := map[0 := Sweep([b], table, true)];
    var saved := State(table + {cert}, {OrderKey(OrderOf(a))}, listed, map[0 := Job(OrderOf(a))]);
    RunGoesOn(run, steps, Save(0, cert));
    run, steps := run + [saved], steps + [Save(0, cert)];
    var finished := State(table + {cert}, {}, listed, map[]);
    assert finished == Next(saved, Finish(0));
    RunGoesOn(run, steps, Finish(0));
    run, steps := run + [finished], steps + [Finish(0)];
    RunGoesOn(run, steps, Commit(0, 1, now));
    run, steps := run + [Next(finished, Commit(0, 1, now))], steps + [Commit(0, 1, now)];
    ObtainedIsValid(a, now);
    RowIsValid(finished.table, cert, OrderOf(a), now);
  }

  lemma PlainOrders(h: string)
    requires TlsRows.PlainHost(h) && !StartsWith(h, "*")
    ensures OrderOf(TlsRow([h], "http01")) == [h] && OrderOf(TlsRow([h, h], "http01")) == [h, h]
  {
    hide TlsRows.InvalidAcme, Trim, TlsRows.Name, TlsRows.ValidHosts;
    var one, two := [h], [h, h];
    assert two[1..] == one && one[1..] == [];
    assert Lower("http01") == "http01";
    assert Trimmed([]) == [] && Trimmed(one) == [h] + [] == one && Trimmed(two) == [h] + one == two;
    assert Stars([], false) == [] && Stars(one, false) == [h] + [] == one && Stars(two, false) == [h] + one == two;
    TlsRows.ValidHostsShrink(one);
    TlsRows.ValidHostsShrink(two);
  }

  /** A host listed twice in one row and once in another is ordered by two jobs at once. */
  lemma RepeatedHostIsOrderedTwice(h: string, now: int) returns (run: seq<State>, steps: seq<Step>)
    requires TlsRows.PlainHost(h) && !StartsWith(h, "*") && Free(h, {','})
    ensures IsRun(run, steps) && |steps| == 5
    ensures steps[0] == StartSweep(0, [TlsRow([h, h], "http01"), TlsRow([h], "http01")])
    ensures run[5].jobs == map[0 := Job([h, h]), 1 := Job([h])] && NameSet([h, h]) == NameSet([h])
  {
    hide OrderOf, OrderKey, TlsRows.PlainHost, IsRun;
    var a, b := TlsRow([h, h], "http01"), TlsRow([h], "http01");
    PlainOrders(h);
    assert |multiset([h, h])| == 2 && |multiset([h])| == 1;
    KeyIdentifiesNames([h, h], [h]);
    run, steps := BothOrdersStart({}, a, b, now);
  }

  lemma RowIsValid(table: set<CertificateRow>, row: CertificateRow, hosts: seq<string>, now: int)
    requires row in table && IsValid(row, hosts, now)
    ensures HasValid(table, hosts, now)
  {
  }

  lemma {:induction false} StarsOfNames(names: seq<string>)
    requires forall h :: h in names ==> !StartsWith(h, "*")
    ensures Stars(names, true) == []
  {
    if names != [] {
      assert names[0] in names;
      StarsOfNames(names[1..]);
    }
  }

  lemma {:induction false} StarsConcat(a: seq<string>, b: seq<string>)
    ensures Stars(a + b, true) == Stars(a, true) + Stars(b, true)
  {
    if a == [] {
      assert a + b == b;
    } else {
      assert (a + b)[1..] == a[1..] + b && (a + b)[0] == a[0];
      StarsConcat(a[1..], b);
    }
  }

  /** Names without a star, put anywhere into a DNS-01 row that has a wildcard, leave its order alone. */
  lemma NewNamesKeepOrder(before: seq<string>, names: seq<string>, after: seq<string>, challenge: string)
    requires IsDns01(challenge) && Stars(before + after, true) != []
    requires forall h :: h in names ==> !StartsWith(h, "*")
    ensures OrderHosts(before + names + after, challenge) == OrderHosts(before + after, challenge)
  {
    hide TlsRows.ValidHosts;
    StarsConcat(before, after);
    StarsConcat(before, names);
    StarsConcat(before + names, after);
    StarsOfNames(names);
    assert Stars(before, true) + [] == Stars(before, true);
  }

  /**
    So once the wildcard's certificate is listed, a sweep over the extended row starts nothing: it
    commits without a new job and without taking a key.
  */
  lemma NewNamesCauseNoOrder(
      s: State, w: nat, t: nat, now: int, before: seq<string>, names: seq<string>, after: seq<string>)
    requires Enabled(s, Commit(w, t, now)) && IsDns01(s.sweeps[w].todo[0].challenge)
    requires HostsOf(s.sweeps[w].todo[0]) == before + names + after
    requires Stars(before + after, true) != [] && forall h :: h in names ==> !StartsWith(h, "*")
    requires HasValid(s.sweeps[w].listing, OrderHosts(before + after, s.sweeps[w].todo[0].challenge), now)
    ensures Next(s, Commit(w, t, now)).jobs == s.jobs && Next(s, Commit(w, t, now)).inflight == s.inflight
  {
    hide OrderHosts, HasValid;
    NewNamesKeepOrder(before, names, after, s.sweeps[w].todo[0].challenge);
  }

  /** A certificate that covers a row still covers it after any name one of its wildcards covers is added. */
  lemma CoverageSurvivesNewNames(certHosts: seq<string>, tlsHosts: seq<string>, host: string, wildcard: string)
    requires CoversHosts(certHosts, tlsHosts)
    requires Trim(host) != "" && Trim(host)[0] != '*'
    requires wildcard in Trimmed(certHosts) && WildcardCovers(wildcard, Trim(host))
    ensures CoversHosts(certHosts, tlsHosts + [host])
  {
    hide WildcardCovers;
    TrimmedLast(tlsHosts, host);
    TrimIdempotent(host);
  }

  lemma {:induction false} TrimmedLast(hosts: seq<string>, host: string)
    ensures Trimmed(hosts + [host]) == Trimmed(hosts) + if Trim(host) == "" then [] else [Trim(host)]
  {
    hide Trim;
    var all := hosts + [host];
    if hosts == [] {
      assert all == [host] && all[1..] == [];
      assert Trimmed(all) == if Trim(host) == "" then [] else [Trim(host)];
    } else {
      assert all[1..] == hosts[1..] + [host] && all[0] == hosts[0];
      TrimmedLast(hosts[1..], host);
      var head := if Trim(hosts[0]) == "" then [] else [Trim(hosts[0])];
      assert Trimmed(all) == head + Trimmed(all[1..]) && Trimmed(hosts) == head + Trimmed(hosts[1..]);
    }
  }
}
