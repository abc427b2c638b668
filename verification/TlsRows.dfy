/**
  `normalize_tls_config` (`src/proxy_config.rs`): duplicate TLS rows are merged greedily, hosts no
  certificate authority would accept are dropped, and rows left without hosts disappear.
*/
module TlsRows {
  import opened Prelude
  import opened Text

  datatype TlsSource =
    | Acme(email: Option<string>, challenge: string, dnsProvider: Option<string>,
           dnsProviderType: Option<string>, dnsCredentials: Option<map<string, string>>)
    | File(cert: string, key: string)
    | Kubernetes

  datatype TlsConfig = TlsConfig(hosts: seq<string>, source: TlsSource, expiresAt: Option<string>)

  // -------------------------------------------------------------------- tests

  /** A host name as it is compared: trimmed and lower-case. */
  function Name(host: string): string { Lower(Trim(host)) }

  function HostSet(hosts: seq<string>): set<string> {
    set h | h in hosts && Name(h) != "" :: Name(h)
  }

  function WildcardHost(hosts: seq<string>): Option<string> {
    if hosts == [] then None
    else if StartsWith(Trim(hosts[0]), "*.") then Some(Name(hosts[0]))
    else WildcardHost(hosts[1..])
  }

  predicate Equivalent(a: TlsSource, b: TlsSource) {
    match (a, b)
    case (Acme(e1, c1, d1, t1, _), Acme(e2, c2, d2, t2, _)) => e1 == e2 && c1 == c2 && d1 == d2 && t1 == t2
    case (File(c1, k1), File(c2, k2)) => c1 == c2 && k1 == k2
    case _ => false
  }

  predicate ShouldMerge(a: TlsConfig, b: TlsConfig) {
    && Equivalent(a.source, b.source)
    && (a.source.Acme? ==>
          || (WildcardHost(a.hosts).Some? && WildcardHost(a.hosts) == WildcardHost(b.hosts))
          || !(HostSet(a.hosts) !! HostSet(b.hosts)))
  }

  function NonEmptyParts(parts: seq<string>): nat {
    if parts == [] then 0 else (if parts[0] == "" then 0 else 1) + NonEmptyParts(parts[1..])
  }

  /** A name with fewer than two labels, not counting a leading star. */
  predicate TooFewLabels(name: string) {
    name == "" || NonEmptyParts(Split(if StartsWith(name, "*.") then name[2..] else name, {'.'})) < 2
  }

  predicate InvalidAcme(host: string) { TooFewLabels(Name(host)) }

  // ------------------------------------------------------------ specification

  predicate EqIgnoreCase(a: string, b: string) { Lower(a) == Lower(b) }

  function AddHost(hosts: seq<string>, h: string): seq<string> {
    var t := Trim(h);
    if t == "" || exists x :: x in hosts && EqIgnoreCase(x, t) then hosts else hosts + [t]
  }

  function AddHosts(hosts: seq<string>, more: seq<string>): seq<string> {
    if more == [] then hosts else AddHost(AddHosts(hosts, more[..|more| - 1]), more[|more| - 1])
  }

  /** The first row that takes `entry`, or the number of rows. */
  function Position(merged: seq<TlsConfig>, entry: TlsConfig): (i: nat)
    ensures i <= |merged|
    ensures forall k :: 0 <= k < i ==> !ShouldMerge(merged[k], entry)
    ensures i < |merged| ==> ShouldMerge(merged[i], entry)
  {
    if merged == [] || ShouldMerge(merged[0], entry) then 0 else 1 + Position(merged[1..], entry)
  }

  function Absorb(row: TlsConfig, entry: TlsConfig): TlsConfig {
    TlsConfig(AddHosts(row.hosts, entry.hosts), row.source, None)
  }

  function AddEntry(merged: seq<TlsConfig>, entry: TlsConfig): seq<TlsConfig> {
    var i := Position(merged, entry);
    if i == |merged| then merged + [entry] else merged[i := Absorb(merged[i], entry)]
  }

  function Merge(tls: seq<TlsConfig>): seq<TlsConfig> {
    if tls == [] then [] else AddEntry(Merge(tls[..|tls| - 1]), tls[|tls| - 1])
  }

  function ValidHosts(hosts: seq<string>): seq<string> {
    if hosts == [] then [] else
      ValidHosts(hosts[..|hosts| - 1]) + if InvalidAcme(hosts[|hosts| - 1]) then [] else [hosts[|hosts| - 1]]
  }

  function CleanRow(row: TlsConfig): TlsConfig {
    if !row.source.Acme? || ValidHosts(row.hosts) == row.hosts then row
    else TlsConfig(ValidHosts(row.hosts), row.source, None)
  }

  function Clean(rows: seq<TlsConfig>): seq<TlsConfig> {
    if rows == [] then [] else
      var row := CleanRow(rows[|rows| - 1]);
      Clean(rows[..|rows| - 1]) + if row.hosts == [] then [] else [row]
  }

  function Normalize(tls: seq<TlsConfig>): seq<TlsConfig> { Clean(Merge(tls)) }

  // ------------------------------------------------------------- the procedure

  method FindPosition(merged: seq<TlsConfig>, entry: TlsConfig) returns (i: nat)
    ensures i == Position(merged, entry)
  {
    hide ShouldMerge;
    i := 0;
    while i < |merged| && !ShouldMerge(merged[i], entry)
      invariant i <= |merged| && forall k :: 0 <= k < i ==> !ShouldMerge(merged[k], entry)
    {
      i := i + 1;
    }
  }

  method PushHosts(hosts: seq<string>, more: seq<string>) returns (out: seq<string>)
    ensures out == AddHosts(hosts, more)
  {
    out := hosts;
    for i := 0 to |more|
      invariant out == AddHosts(hosts, more[..i])
    {
      assert more[..i + 1][..i] == more[..i];
      var h := Trim(more[i]);
      if h == "" {
        continue;
      }
      if !exists x :: x in out && EqIgnoreCase(x, h) {
        out := out + [h];
      }
    }
    assert more[..|more|] == more;
  }

  method RetainValid(hosts: seq<string>) returns (out: seq<string>)
    ensures out == ValidHosts(hosts)
  {
    hide InvalidAcme;
    out := [];
    for i := 0 to |hosts|
      invariant out == ValidHosts(hosts[..i])
    {
      assert hosts[..i + 1][..i] == hosts[..i];
      if !InvalidAcme(hosts[i]) {
        out := out + [hosts[i]];
      }
    }
    assert hosts[..|hosts|] == hosts;
  }

  /** The merging loop over the drained rows. */
  method MergeRows(tls: seq<TlsConfig>) returns (merged: seq<TlsConfig>)
    ensures merged == Merge(tls)
  {
    hide Position, AddHosts;
    merged := [];
    for i := 0 to |tls|
      invariant merged == Merge(tls[..i])
    {
      var entry := tls[i];
      assert tls[..i + 1][..i] == tls[..i];
      var idx := FindPosition(merged, entry);
      if idx < |merged| {
        var hosts := PushHosts(merged[idx].hosts, entry.hosts);
        merged := merged[idx := TlsConfig(hosts, merged[idx].source, None)];
      } else {
        merged := merged + [entry];
      }
    }
    assert tls[..|tls|] == tls;
  }

  /** The loop that drops unacceptable hosts, row by row in place. */
  method CleanInPlace(rows: seq<TlsConfig>) returns (cleaned: seq<TlsConfig>)
    ensures |cleaned| == |rows| && forall k :: 0 <= k < |rows| ==> cleaned[k] == CleanRow(rows[k])
  {
    hide ValidHosts;
    cleaned := rows;
    for i := 0 to |rows|
      invariant |cleaned| == |rows|
      invariant forall k :: 0 <= k < |rows| ==> cleaned[k] == if k < i then CleanRow(rows[k]) else rows[k]
    {
      var entry := cleaned[i];
      if entry.source.Acme? {
        var kept := RetainValid(entry.hosts);
        ValidHostsShrink(entry.hosts);
        if |kept| != |entry.hosts| {
          cleaned := cleaned[i := TlsConfig(kept, entry.source, None)];
        }
      }
    }
  }

  /** `normalize_tls_config`: merge, drop hosts, drop rows without hosts. */
  method NormalizeTls(tls: seq<TlsConfig>) returns (out: seq<TlsConfig>)
    ensures out == Normalize(tls)
  {
    hide Merge, Clean, CleanRow;
    var merged := MergeRows(tls);
    var cleaned := CleanInPlace(merged);
    out := [];
    NothingToClean();
    for i := 0 to |cleaned|
      invariant out == Clean(merged[..i])
    {
      assert merged[..i + 1] == merged[..i] + [merged[i]];
      CleanLast(merged[..i], merged[i]);
      if cleaned[i].hosts != [] {
        out := out + [cleaned[i]];
      }
    }
    assert merged[..|merged|] == merged;
  }

  // --------------------------------------------------------------- convergence

  function TotalHosts(rows: seq<TlsConfig>): nat {
    if rows == [] then 0 else TotalHosts(rows[..|rows| - 1]) + |rows[|rows| - 1].hosts|
  }

  /** Rows plus host strings. */
  function Size(rows: seq<TlsConfig>): nat { |rows| + TotalHosts(rows) }

  lemma {:induction false} ValidHostsShrink(hosts: seq<string>)
    ensures |ValidHosts(hosts)| <= |hosts|
    ensures |ValidHosts(hosts)| == |hosts| <==> forall h :: h in hosts ==> !InvalidAcme(h)
    ensures |ValidHosts(hosts)| == |hosts| ==> ValidHosts(hosts) == hosts
    ensures forall h :: h in ValidHosts(hosts) <==> h in hosts && !InvalidAcme(h)
  {
    hide InvalidAcme, ValidHosts;
    if hosts == [] {
      NoValidHosts();
    } else {
      var init, h := hosts[..|hosts| - 1], hosts[|hosts| - 1];
      ValidHostsShrink(init);
      assert hosts == init + [h];
      ValidHostsLast(init, h);
    }
  }

  lemma NoValidHosts()
    ensures ValidHosts([]) == []
  {
  }

  lemma ValidHostsLast(hosts: seq<string>, h: string)
    ensures ValidHosts(hosts + [h]) == ValidHosts(hosts) + if InvalidAcme(h) then [] else [h]
  {
    hide InvalidAcme;
    assert (hosts + [h])[..|hosts|] == hosts;
  }

  lemma {:induction false} AddHostsGrowth(hosts: seq<string>, more: seq<string>)
    ensures |AddHosts(hosts, more)| <= |hosts| + |more|
  {
    if more != [] { AddHostsGrowth(hosts, more[..|more| - 1]); }
  }

  lemma {:induction false} TotalHostsUpdate(rows: seq<TlsConfig>, i: nat, row: TlsConfig)
    requires i < |rows|
    ensures TotalHosts(rows[i := row]) == TotalHosts(rows) - |rows[i].hosts| + |row.hosts|
  {
    var n := |rows| - 1;
    if i < n {
      assert rows[i := row][..n] == rows[..n][i := row];
      TotalHostsUpdate(rows[..n], i, row);
    } else {
      assert rows[i := row][..n] == rows[..n];
    }
  }

  lemma AddEntrySize(merged: seq<TlsConfig>, entry: TlsConfig)
    ensures Size(AddEntry(merged, entry)) <= Size(merged) + 1 + |entry.hosts|
    ensures Size(AddEntry(merged, entry)) == Size(merged) + 1 + |entry.hosts| <==> Position(merged, entry) == |merged|
  {
    hide Position, ShouldMerge;
    var i := Position(merged, entry);
    if i < |merged| {
      AddHostsGrowth(merged[i].hosts, entry.hosts);
      TotalHostsUpdate(merged, i, Absorb(merged[i], entry));
    } else {
      assert (merged + [entry])[..|merged|] == merged;
    }
  }

  lemma NoMergeableLast(tls: seq<TlsConfig>, entry: TlsConfig)
    requires NoMergeable(tls) && Position(tls, entry) == |tls|
    ensures NoMergeable(tls + [entry])
  {
    hide Position, ShouldMerge;
  }

  /** Merging never grows the rows; it keeps their size only when no two rows merge. */
  lemma {:induction false} MergeSize(tls: seq<TlsConfig>)
    ensures Size(Merge(tls)) <= Size(tls)
    ensures Size(Merge(tls)) == Size(tls) ==> Merge(tls) == tls && NoMergeable(tls)
  {
    hide ShouldMerge, Position, Size, NoMergeable, Absorb;
    if tls == [] {
      assert NoMergeable([]) by { NothingMergeable(); }
    } else {
      var init, entry := tls[..|tls| - 1], tls[|tls| - 1];
      MergeSize(init);
      AddEntrySize(Merge(init), entry);
      assert tls == init + [entry];
      SizeLast(init, entry);
      if Size(Merge(tls)) == Size(tls) {
        NoMergeableLast(init, entry);
      }
    }
  }

  lemma NothingMergeable()
    ensures NoMergeable([])
  {
  }

  /** No row takes a later one. */
  ghost predicate NoMergeable(tls: seq<TlsConfig>) {
    forall i, j :: 0 <= i < j < |tls| ==> !ShouldMerge(tls[i], tls[j])
  }

  ghost predicate CleanOne(r: TlsConfig) {
    r.hosts != [] && (r.source.Acme? ==> forall h :: h in r.hosts ==> !InvalidAcme(h))
  }

  ghost predicate CleanRows(rows: seq<TlsConfig>) {
    forall r :: r in rows ==> CleanOne(r)
  }

  lemma CleanRowFacts(row: TlsConfig)
    ensures CleanRow(row).source == row.source && |CleanRow(row).hosts| <= |row.hosts|
    ensures |CleanRow(row).hosts| == |row.hosts| ==> CleanRow(row) == row
    ensures CleanRow(row).hosts != [] ==> CleanOne(CleanRow(row))
    ensures CleanOne(row) ==> CleanRow(row) == row
  {
    hide InvalidAcme, ValidHosts;
    ValidHostsShrink(row.hosts);
  }

  lemma CleanLast(rows: seq<TlsConfig>, row: TlsConfig)
    ensures Clean(rows + [row]) == if CleanRow(row).hosts == [] then Clean(rows) else Clean(rows) + [CleanRow(row)]
  {
    hide CleanRow;
    assert (rows + [row])[..|rows|] == rows;
  }

  lemma SizeLast(rows: seq<TlsConfig>, row: TlsConfig)
    ensures Size(rows + [row]) == Size(rows) + 1 + |row.hosts|
  {
    assert (rows + [row])[..|rows|] == rows;
  }

  lemma CleanSizeStep(rows: seq<TlsConfig>, row: TlsConfig)
    requires Size(Clean(rows)) <= Size(rows)
    requires Size(Clean(rows)) == Size(rows) ==> Clean(rows) == rows
    ensures Size(Clean(rows + [row])) <= Size(rows + [row])
    ensures Size(Clean(rows + [row])) == Size(rows + [row]) ==> Clean(rows + [row]) == rows + [row]
  {
    hide CleanRow, Clean, Size;
    CleanRowFacts(row);
    CleanLast(rows, row);
    SizeLast(rows, row);
    SizeLast(Clean(rows), CleanRow(row));
  }

  lemma {:induction false} CleanSize(rows: seq<TlsConfig>)
    ensures Size(Clean(rows)) <= Size(rows)
    ensures Size(Clean(rows)) == Size(rows) ==> Clean(rows) == rows
  {
    hide Size, Clean;
    if rows == [] {
      NothingToClean();
    } else {
      var init, row := rows[..|rows| - 1], rows[|rows| - 1];
      CleanSize(init);
      assert rows == init + [row];
      CleanSizeStep(init, row);
    }
  }

  lemma NothingToClean()
    ensures Clean([]) == []
  {
  }

  lemma CleanMakesCleanStep(rows: seq<TlsConfig>, row: TlsConfig)
    requires CleanRows(Clean(rows)) && (CleanRows(rows) ==> Clean(rows) == rows)
    ensures CleanRows(Clean(rows + [row]))
    ensures CleanRows(rows + [row]) ==> Clean(rows + [row]) == rows + [row]
  {
    hide CleanRow, Clean, InvalidAcme;
    CleanRowFacts(row);
    CleanLast(rows, row);
    assert row in rows + [row] && forall r :: r in rows ==> r in rows + [row];
  }

  lemma {:induction false} CleanMakesClean(rows: seq<TlsConfig>)
    ensures CleanRows(Clean(rows))
    ensures CleanRows(rows) ==> Clean(rows) == rows
  {
    hide Clean, CleanOne;
    if rows == [] {
      NothingToClean();
    } else {
      var init, row := rows[..|rows| - 1], rows[|rows| - 1];
      CleanMakesClean(init);
      assert rows == init + [row];
      CleanMakesCleanStep(init, row);
    }
  }

  /** The result of `normalize_tls_config` in normal form: rows that neither merge nor need cleaning. */
  ghost predicate NormalForm(tls: seq<TlsConfig>) { NoMergeable(tls) && CleanRows(tls) }

  lemma {:induction false} MergeOfUnmergeable(tls: seq<TlsConfig>)
    requires NoMergeable(tls)
    ensures Merge(tls) == tls
  {
    hide ShouldMerge;
    if tls != [] {
      MergeOfUnmergeable(tls[..|tls| - 1]);
      assert tls == tls[..|tls| - 1] + [tls[|tls| - 1]];
    }
  }

  /** Each pass is the identity, on exactly the rows in normal form, or makes the configuration smaller. */
  lemma PassShrinksOrIsDone(tls: seq<TlsConfig>)
    ensures Normalize(tls) == tls <==> NormalForm(tls)
    ensures Normalize(tls) == tls || Size(Normalize(tls)) < Size(tls)
  {
    hide ShouldMerge, InvalidAcme, Merge, Clean, Size;
    MergeSize(tls);
    CleanSize(Merge(tls));
    CleanMakesClean(Merge(tls));
    CleanMakesClean(tls);
    if NoMergeable(tls) { MergeOfUnmergeable(tls); }
  }

  /** Normalising until nothing changes. It always ends, after at most `Size(tls)` passes. */
  function Converge(tls: seq<TlsConfig>): (r: (seq<TlsConfig>, nat))
    ensures NormalForm(r.0)
    ensures r.1 + Size(r.0) <= Size(tls)
    decreases Size(tls)
  {
    PassShrinksOrIsDone(tls);
    if Normalize(tls) == tls then (tls, 0) else
      var r := Converge(Normalize(tls));
      (r.0, r.1 + 1)
  }

  lemma ShouldMergeSymmetric(a: TlsConfig, b: TlsConfig)
    ensures ShouldMerge(a, b) <==> ShouldMerge(b, a)
  {
    hide HostSet, WildcardHost;
    var x, y := HostSet(a.hosts), HostSet(b.hosts);
    assert x !! y <==> y !! x;
  }

  /** At the end no two rows, in either order, would merge. */
  lemma ConvergedRowsApart(tls: seq<TlsConfig>, i: nat, j: nat)
    requires i < |Converge(tls).0| && j < |Converge(tls).0| && i != j
    ensures !ShouldMerge(Converge(tls).0[i], Converge(tls).0[j])
  {
    var rows := Converge(tls).0;
    ShouldMergeSymmetric(rows[i], rows[j]);
  }

  /** A host the examples below can use: already trimmed and lower-case, acceptable, no wildcard. */
  ghost predicate PlainHost(h: string) {
    Name(h) == h == Trim(h) && h != "" && !InvalidAcme(h) && !StartsWith(h, "*.")
  }

  lemma PlainExample()
    ensures PlainHost("a.b")
  {
    hide Trim, Split, NonEmptyParts, StartsWith;
    var h := "a.b";
    assert h[0] == 'a' && h[2] == 'b';
    TrimOfTrimmed(h);
    assert Lower(h) == h;
    assert !StartsWith(h, "*.") by { NoStar(h); }
    TwoParts("a", "b");
    assert "a" + "." + "b" == h;
  }

  lemma NoStar(h: string)
    requires |h| > 0 && h[0] != '*'
    ensures !StartsWith(h, "*.")
  {
    assert |h| >= 2 ==> h[..2][0] == h[0];
  }

  lemma TwoParts(x: string, y: string)
    requires x != "" && y != "" && Free(x, {'.'}) && Free(y, {'.'})
    ensures NonEmptyParts(Split(x + "." + y, {'.'})) == 2
  {
    hide Split;
    SplitFirst(x, '.', y, {'.'});
    SplitWhole(y, {'.'});
    assert [x] + [y] == [x, y] && [x, y][1..] == [y] && [y][1..] == [];
    assert NonEmptyParts([]) == 0 && NonEmptyParts([y]) == 1;
  }

  /** One pass is not enough in general: a row may bridge two rows that were already placed. */
  lemma OnePassIsNotEnough(source: TlsSource, x: string, y: string)
    requires source.Acme? && PlainHost(x) && PlainHost(y) && x != y
    ensures var tls := [TlsConfig([x], source, None), TlsConfig([y], source, None), TlsConfig([x, y], source, None)];
            && Normalize(tls) == [TlsConfig([x, y], source, None), TlsConfig([y], source, None)]
            && Normalize(Normalize(tls)) != Normalize(tls)
  {
    hide Normalize, ShouldMerge;
    var a, b, c := TlsConfig([x], source, None), TlsConfig([y], source, None), TlsConfig([x, y], source, None);
    BridgeMerges(source, x, y);
    BridgeStaysClean(source, x, y);
    BridgeNormalizes(a, b, c);
    PassShrinksOrIsDone([c, b]);
    assert ShouldMerge([c, b][0], [c, b][1]);
  }

  lemma BridgeMerges(source: TlsSource, x: string, y: string)
    requires source.Acme? && PlainHost(x) && PlainHost(y) && x != y
    ensures var a, b, c := TlsConfig([x], source, None), TlsConfig([y], source, None), TlsConfig([x, y], source, None);
            !ShouldMerge(a, b) && ShouldMerge(a, c) && ShouldMerge(c, b)
  {
    hide Name, Trim, InvalidAcme, Lower, StartsWith;
    assert WildcardHost([x]) == None by { assert [x][1..] == []; }
    assert x in HostSet([x]) && x in HostSet([x, y]) && y in HostSet([y]) && y in HostSet([x, y]) by {
      assert x in [x, y] && y in [x, y];
    }
    assert HostSet([x]) == {x} && HostSet([y]) == {y};
  }

  lemma BridgeStaysClean(source: TlsSource, x: string, y: string)
    requires source.Acme? && PlainHost(x) && PlainHost(y) && x != y
    ensures var b, c := TlsConfig([y], source, None), TlsConfig([x, y], source, None);
            Absorb(TlsConfig([x], source, None), c) == c && CleanRow(b) == b && CleanRow(c) == c
  {
    hide InvalidAcme, ValidHosts, AddHosts;
    BridgeHosts(x, y);
    ValidHostsShrink([x, y]);
    ValidHostsShrink([y]);
  }

  lemma BridgeNormalizes(a: TlsConfig, b: TlsConfig, c: TlsConfig)
    requires !ShouldMerge(a, b) && ShouldMerge(a, c) && Absorb(a, c) == c
    requires CleanRow(b) == b && CleanRow(c) == c && b.hosts != [] && c.hosts != []
    ensures Normalize([a, b, c]) == [c, b]
  {
    hide ShouldMerge, Absorb, CleanRow;
    var tls := [a, b, c];
    assert tls[..2] == [a, b] && [a, b][..1] == [a] && [a][..0] == [] && [c, b][..1] == [c] && [c][..0] == [];
    assert Merge([a]) == [a] && Position([a], b) == 1;
    assert Merge([a, b]) == [a] + [b] == [a, b];
    assert Merge(tls) == [a, b][0 := c] == [c, b];
    assert Clean([c]) == [c] && Clean([c, b]) == [c] + [b];
  }

  lemma BridgeHosts(x: string, y: string)
    requires PlainHost(x) && PlainHost(y) && x != y
    ensures AddHosts([x], [x, y]) == [x, y]
  {
    hide InvalidAcme;
    assert [x, y][..1] == [x] && [x][..0] == [];
    assert AddHosts([x], []) == [x];
    assert EqIgnoreCase(x, x) && x in [x];
    assert AddHosts([x], [x]) == [x];
    assert Lower(x) == x && Lower(y) == y;
    assert AddHost([x], y) == [x, y];
  }

  // ------------------------------------------------------------- conservation

  /** The names a row stands for: all its host names, less those no authority would accept. */
  function Names(row: TlsConfig): set<string> {
    set h | h in row.hosts && Name(h) != "" && !(row.source.Acme? && TooFewLabels(Name(h))) :: Name(h)
  }

  /** The names configured for a source, over all its rows. */
  function NamesFor(rows: seq<TlsConfig>, source: TlsSource): set<string> {
    if rows == [] then {} else
      NamesFor(rows[..|rows| - 1], source) +
        if Equivalent(rows[|rows| - 1].source, source) then Names(rows[|rows| - 1]) else {}
  }

  lemma LowerTrim(s: string)
    ensures Lower(Trim(s)) == Trim(Lower(s))
  {
    LowerTrimStart(s);
    LowerTrimEnd(TrimStart(s));
  }

  lemma {:induction false} LowerTrimStart(s: string)
    ensures Lower(TrimStart(s)) == TrimStart(Lower(s))
  {
    if s != [] && IsSpace(s[0]) {
      assert Lower(s)[1..] == Lower(s[1..]);
      LowerTrimStart(s[1..]);
    }
  }

  lemma {:induction false} LowerTrimEnd(s: string)
    ensures Lower(TrimEnd(s)) == TrimEnd(Lower(s))
  {
    if s != [] && IsSpace(s[|s| - 1]) {
      assert Lower(s)[..|s| - 1] == Lower(s[..|s| - 1]);
      LowerTrimEnd(s[..|s| - 1]);
    }
  }

  lemma NameOfTrimmed(h: string)
    ensures Name(Trim(h)) == Name(h)
    ensures Trim(h) == "" <==> Name(h) == ""
  {
    TrimIdempotent(h);
  }

  lemma SameLowerSameName(x: string, t: string)
    requires EqIgnoreCase(x, t)
    ensures Name(x) == Name(t)
  {
    LowerTrim(x);
    LowerTrim(t);
  }

  /** Adding hosts adds exactly their names. */
  lemma {:induction false} AddHostsNames(source: TlsSource, hosts: seq<string>, more: seq<string>)
    ensures Names(TlsConfig(AddHosts(hosts, more), source, None))
            == Names(TlsConfig(hosts, source, None)) + Names(TlsConfig(more, source, None))
  {
    hide Name, TooFewLabels, Lower, Trim;
    if more != [] {
      var n := |more| - 1;
      AddHostsNames(source, hosts, more[..n]);
      assert more == more[..n] + [more[n]];
      AddHostNames(source, AddHosts(hosts, more[..n]), more[n]);
      assert Names(TlsConfig(more, source, None)) == Names(TlsConfig(more[..n], source, None)) + Names(TlsConfig([more[n]], source, None));
    }
  }

  lemma AddHostNames(source: TlsSource, hosts: seq<string>, h: string)
    ensures Names(TlsConfig(AddHost(hosts, h), source, None))
            == Names(TlsConfig(hosts, source, None)) + Names(TlsConfig([h], source, None))
  {
    hide Name, TooFewLabels, Lower, Trim;
    NameOfTrimmed(h);
    var t := Trim(h);
    if t != "" && exists x :: x in hosts && EqIgnoreCase(x, t) {
      var x :| x in hosts && EqIgnoreCase(x, t);
      SameLowerSameName(x, t);
    } else if t != "" {
      assert AddHost(hosts, h) == hosts + [t];
      assert t in hosts + [t];
    }
  }

  lemma AbsorbNames(row: TlsConfig, entry: TlsConfig)
    requires Equivalent(row.source, entry.source)
    ensures Names(Absorb(row, entry)) == Names(row) + Names(entry)
  {
    hide Name, TooFewLabels, AddHosts;
    AddHostsNames(row.source, row.hosts, entry.hosts);
    assert Names(row) == Names(TlsConfig(row.hosts, row.source, None));
    assert Names(entry) == Names(TlsConfig(entry.hosts, row.source, None));
  }

  lemma {:induction false} NamesForUpdate(rows: seq<TlsConfig>, i: nat, row: TlsConfig, more: set<string>, source: TlsSource)
    requires i < |rows| && row.source == rows[i].source && Names(row) == Names(rows[i]) + more
    ensures NamesFor(rows[i := row], source)
            == NamesFor(rows, source) + if Equivalent(row.source, source) then more else {}
  {
    hide Names;
    var n := |rows| - 1;
    if i < n {
      assert rows[i := row][..n] == rows[..n][i := row];
      NamesForUpdate(rows[..n], i, row, more, source);
    } else {
      assert rows[i := row][..n] == rows[..n];
    }
  }

  lemma {:induction false} MergeNames(tls: seq<TlsConfig>, source: TlsSource)
    ensures NamesFor(Merge(tls), source) == NamesFor(tls, source)
  {
    hide Names, Position, AddHosts;
    if tls != [] {
      var n := |tls| - 1;
      MergeNames(tls[..n], source);
      var merged, entry := Merge(tls[..n]), tls[n];
      var i := Position(merged, entry);
      if i == |merged| {
        assert (merged + [entry])[..|merged|] == merged;
      } else {
        AbsorbNames(merged[i], entry);
        NamesForUpdate(merged, i, Absorb(merged[i], entry), Names(entry), source);
      }
    }
  }

  lemma CleanRowNames(row: TlsConfig)
    ensures Names(CleanRow(row)) == Names(row) && CleanRow(row).source == row.source
    ensures CleanRow(row).hosts == [] ==> Names(row) == {}
  {
    hide Name, TooFewLabels, ValidHosts;
    ValidHostsShrink(row.hosts);
  }

  lemma NamesForLast(rows: seq<TlsConfig>, row: TlsConfig, source: TlsSource)
    ensures NamesFor(rows + [row], source)
            == NamesFor(rows, source) + if Equivalent(row.source, source) then Names(row) else {}
  {
    assert (rows + [row])[..|rows|] == rows;
  }

  lemma CleanNamesStep(rows: seq<TlsConfig>, row: TlsConfig, source: TlsSource)
    requires NamesFor(Clean(rows), source) == NamesFor(rows, source)
    ensures NamesFor(Clean(rows + [row]), source) == NamesFor(rows + [row], source)
  {
    hide CleanRow, Clean, NamesFor, Names, Equivalent;
    CleanRowNames(row);
    CleanLast(rows, row);
    NamesForLast(rows, row, source);
    NamesForLast(Clean(rows), CleanRow(row), source);
  }

  lemma {:induction false} CleanNames(rows: seq<TlsConfig>, source: TlsSource)
    ensures NamesFor(Clean(rows), source) == NamesFor(rows, source)
  {
    hide Clean, NamesFor;
    if rows == [] {
      NothingToClean();
    } else {
      var init, row := rows[..|rows| - 1], rows[|rows| - 1];
      CleanNames(init, source);
      assert rows == init + [row];
      CleanNamesStep(init, row, source);
    }
  }

  /** For every source, a pass keeps exactly the names configured for it, and leaves only clean rows. */
  lemma NamesConserved(tls: seq<TlsConfig>, source: TlsSource)
    ensures NamesFor(Normalize(tls), source) == NamesFor(tls, source)
    ensures CleanRows(Normalize(tls))
  {
    hide NamesFor, Clean, CleanRows, Merge;
    MergeNames(tls, source);
    CleanNames(Merge(tls), source);
    CleanMakesClean(Merge(tls));
  }

  lemma {:induction false} ConvergeConserves(tls: seq<TlsConfig>, source: TlsSource)
    ensures NamesFor(Converge(tls).0, source) == NamesFor(tls, source)
    decreases Size(tls)
  {
    hide NamesFor, Normalize, Size;
    PassShrinksOrIsDone(tls);
    if Normalize(tls) != tls {
      NamesConserved(tls, source);
      ConvergeConserves(Normalize(tls), source);
    }
  }

  // ------------------------------------------------------ when one pass is enough

  /** Two rows of one source that hold a common acceptable name. */
  ghost predicate Overlap(a: TlsConfig, b: TlsConfig) {
    Equivalent(a.source, b.source) && !(Names(a) !! Names(b))
  }

  ghost predicate NoOverlap(rows: seq<TlsConfig>) {
    forall i, j :: 0 <= i < j < |rows| ==> !Overlap(rows[i], rows[j])
  }

  /** No row behind the one that takes `entry` shares an acceptable name with it. */
  ghost predicate TakenWhole(merged: seq<TlsConfig>, entry: TlsConfig) {
    forall q :: Position(merged, entry) < q < |merged| ==> !Overlap(merged[q], entry)
  }

  /** Read in order, no row bridges two of the rows placed before it. */
  ghost predicate NoBridge(tls: seq<TlsConfig>) {
    forall k :: 0 <= k < |tls| ==> TakenWhole(Merge(tls[..k]), tls[k])
  }

  lemma OverlapMerges(a: TlsConfig, b: TlsConfig)
    requires Overlap(a, b)
    ensures ShouldMerge(a, b)
  {
    hide Name, TooFewLabels, WildcardHost;
    var x :| x in Names(a) && x in Names(b);
    assert x in HostSet(a.hosts) && x in HostSet(b.hosts);
  }

  lemma AppendOverlap(rows: seq<TlsConfig>, row: TlsConfig)
    ensures NoOverlap(rows + [row]) <==> NoOverlap(rows) && forall r :: r in rows ==> !Overlap(r, row)
  {
    hide Overlap;
    var all := rows + [row];
    assert forall k :: 0 <= k < |rows| ==> all[k] == rows[k];
    assert all[|rows|] == row;
  }

  lemma AbsorbOverlap(taker: TlsConfig, entry: TlsConfig, other: TlsConfig)
    requires Equivalent(taker.source, entry.source)
    ensures Overlap(Absorb(taker, entry), other) <==> Overlap(taker, other) || Overlap(entry, other)
    ensures Overlap(other, Absorb(taker, entry)) <==> Overlap(other, taker) || Overlap(other, entry)
    ensures Overlap(other, entry) <==> Overlap(entry, other)
  {
    hide Names, AddHosts;
    AbsorbNames(taker, entry);
  }

  lemma AddEntryOverlap(merged: seq<TlsConfig>, entry: TlsConfig)
    ensures NoOverlap(AddEntry(merged, entry)) <==> NoOverlap(merged) && TakenWhole(merged, entry)
  {
    hide Position, Overlap, Absorb, ShouldMerge;
    var p := Position(merged, entry);
    forall q | 0 <= q < |merged| && Overlap(merged[q], entry) ensures p <= q { OverlapMerges(merged[q], entry); }
    if p == |merged| {
      AppendOverlap(merged, entry);
    } else {
      var after := merged[p := Absorb(merged[p], entry)];
      forall q | 0 <= q < |merged|
        ensures Overlap(after[p], merged[q]) <==> Overlap(merged[p], merged[q]) || Overlap(merged[q], entry)
        ensures Overlap(merged[q], after[p]) <==> Overlap(merged[q], merged[p]) || Overlap(merged[q], entry)
      {
        assert Equivalent(merged[p].source, entry.source) by { TakerIsEquivalent(merged, entry); }
        AbsorbOverlap(merged[p], entry, merged[q]);
      }
      assert forall q :: 0 <= q < |merged| && q != p ==> after[q] == merged[q];
    }
  }

  lemma TakerIsEquivalent(merged: seq<TlsConfig>, entry: TlsConfig)
    requires Position(merged, entry) < |merged|
    ensures Equivalent(merged[Position(merged, entry)].source, entry.source)
  {
  }

  lemma MergeLast(tls: seq<TlsConfig>, entry: TlsConfig)
    ensures Merge(tls + [entry]) == AddEntry(Merge(tls), entry)
  {
    hide AddEntry;
    assert (tls + [entry])[..|tls|] == tls;
  }

  lemma NoBridgeLast(tls: seq<TlsConfig>, entry: TlsConfig)
    ensures NoBridge(tls + [entry]) <==> NoBridge(tls) && TakenWhole(Merge(tls), entry)
  {
    hide Merge, TakenWhole;
    var all := tls + [entry];
    assert forall k :: 0 <= k < |tls| ==> all[..k] == tls[..k] && all[k] == tls[k];
    assert all[..|tls|] == tls && all[|tls|] == entry;
  }

  lemma {:induction false} MergeOverlap(tls: seq<TlsConfig>)
    ensures NoOverlap(Merge(tls)) <==> NoBridge(tls)
  {
    hide NoOverlap, NoBridge, Merge;
    if tls == [] {
      NothingOverlaps();
    } else {
      var init, entry := tls[..|tls| - 1], tls[|tls| - 1];
      MergeOverlap(init);
      assert tls == init + [entry];
      MergeLast(init, entry);
      AddEntryOverlap(Merge(init), entry);
      NoBridgeLast(init, entry);
    }
  }

  lemma NothingOverlaps()
    ensures NoOverlap(Merge([])) && NoBridge([])
  {
  }

  /** Rows read from files never end up in two rows of one source. */
  ghost predicate FilesApart(rows: seq<TlsConfig>) {
    forall i, j :: 0 <= i < j < |rows| && rows[i].source.File? ==> !Equivalent(rows[i].source, rows[j].source)
  }

  lemma {:induction false} MergeFilesApart(tls: seq<TlsConfig>)
    ensures FilesApart(Merge(tls))
  {
    hide Position, AddHosts, WildcardHost, HostSet;
    if tls != [] { MergeFilesApart(tls[..|tls| - 1]); }
  }

  lemma {:induction false} WildcardIsAName(hosts: seq<string>)
    requires WildcardHost(hosts).Some?
    ensures WildcardHost(hosts).value in HostSet(hosts)
  {
    hide Trim;
    if StartsWith(Trim(hosts[0]), "*.") {
      assert hosts[0] in hosts && Name(hosts[0]) != "";
    } else {
      WildcardIsAName(hosts[1..]);
    }
  }

  /** Between cleaned rows, sharing an acceptable name is what merges. */
  lemma CleanedMergeIffOverlap(a: TlsConfig, b: TlsConfig)
    requires CleanRow(a).hosts != [] && CleanRow(b).hosts != []
    requires !(a.source.File? && Equivalent(a.source, b.source))
    ensures ShouldMerge(CleanRow(a), CleanRow(b)) <==> Overlap(a, b)
  {
    hide WildcardHost, HostSet, Names, CleanRow;
    CleanRowNames(a);
    CleanRowNames(b);
    CleanRowFacts(a);
    CleanRowFacts(b);
    var x, y := CleanRow(a), CleanRow(b);
    if a.source.Acme? && b.source.Acme? {
      NamesOfClean(x);
      NamesOfClean(y);
      if WildcardHost(x.hosts).Some? { WildcardIsAName(x.hosts); }
      if WildcardHost(y.hosts).Some? { WildcardIsAName(y.hosts); }
    }
  }

  lemma NamesOfClean(row: TlsConfig)
    requires CleanOne(row) && row.source.Acme?
    ensures HostSet(row.hosts) == Names(row)
  {
    hide Name;
    assert forall h :: InvalidAcme(h) <==> TooFewLabels(Name(h));
  }

  lemma {:induction false} CleanedRows(rows: seq<TlsConfig>)
    ensures forall r :: r in rows && CleanRow(r).hosts != [] ==> CleanRow(r) in Clean(rows)
    ensures forall c :: c in Clean(rows) ==> exists r :: r in rows && c == CleanRow(r) && c.hosts != []
  {
    hide CleanRow, Clean;
    if rows == [] {
      NothingToClean();
    } else {
      var init, row := rows[..|rows| - 1], rows[|rows| - 1];
      CleanedRows(init);
      assert rows == init + [row];
      CleanLast(init, row);
    }
  }

  lemma CleanOverlapStep(rows: seq<TlsConfig>, row: TlsConfig)
    requires FilesApart(rows + [row]) && (NoMergeable(Clean(rows)) <==> NoOverlap(rows))
    ensures NoMergeable(Clean(rows + [row])) <==> NoOverlap(rows + [row])
  {
    hide CleanRow, Clean, Overlap, ShouldMerge, Equivalent;
    CleanLast(rows, row);
    CleanRowNames(row);
    AppendOverlap(rows, row);
    var cleaned, c := Clean(rows), CleanRow(row);
    if c.hosts == [] {
      forall r | r in rows ensures !Overlap(r, row) { NoNamesNoOverlap(r, row); }
    } else {
      CleanedRows(rows);
      forall r | r in rows && CleanRow(r).hosts != [] ensures ShouldMerge(CleanRow(r), c) <==> Overlap(r, row) {
        var i :| 0 <= i < |rows| && rows[i] == r;
        assert (rows + [row])[i] == r && (rows + [row])[|rows|] == row;
        CleanedMergeIffOverlap(r, row);
      }
      forall r | r in rows && CleanRow(r).hosts == [] ensures !Overlap(r, row) {
        CleanRowNames(r);
        NoNamesNoOverlap(r, row);
      }
      AppendMergeable(cleaned, c);
    }
  }

  lemma NoNamesNoOverlap(a: TlsConfig, b: TlsConfig)
    requires Names(a) == {} || Names(b) == {}
    ensures !Overlap(a, b)
  {
  }

  lemma AppendMergeable(rows: seq<TlsConfig>, row: TlsConfig)
    ensures NoMergeable(rows + [row]) <==> NoMergeable(rows) && forall r :: r in rows ==> !ShouldMerge(r, row)
  {
    hide ShouldMerge;
    var all := rows + [row];
    assert forall k :: 0 <= k < |rows| ==> all[k] == rows[k];
    assert all[|rows|] == row;
  }

  lemma {:induction false} CleanOverlap(rows: seq<TlsConfig>)
    requires FilesApart(rows)
    ensures NoMergeable(Clean(rows)) <==> NoOverlap(rows)
  {
    hide Clean, ShouldMerge, Overlap;
    if rows == [] {
      NothingToClean();
    } else {
      var init, row := rows[..|rows| - 1], rows[|rows| - 1];
      assert rows == init + [row];
      CleanOverlap(init);
      CleanOverlapStep(init, row);
    }
  }

  /**
    One pass is enough exactly for the configurations in which, read in order, no row shares an
    acceptable name with a row behind the one that takes it.
  */
  lemma OnePassSufficesIffNoBridge(tls: seq<TlsConfig>)
    ensures Normalize(Normalize(tls)) == Normalize(tls) <==> NoBridge(tls)
    ensures Converge(tls).1 <= 1 <==> NoBridge(tls)
  {
    hide Merge, Clean, NoMergeable, NoOverlap, NoBridge, CleanRows, Size;
    PassShrinksOrIsDone(tls);
    PassShrinksOrIsDone(Normalize(tls));
    CleanMakesClean(Merge(tls));
    MergeFilesApart(tls);
    CleanOverlap(Merge(tls));
    MergeOverlap(tls);
  }

  /** The rows served from Kubernetes secrets, those without hosts aside. */
  function KubernetesRows(rows: seq<TlsConfig>): seq<TlsConfig> {
    if rows == [] then [] else
      var row := rows[|rows| - 1];
      KubernetesRows(rows[..|rows| - 1]) + if row.source.Kubernetes? && row.hosts != [] then [row] else []
  }

  lemma KubernetesLast(rows: seq<TlsConfig>, row: TlsConfig)
    ensures KubernetesRows(rows + [row])
            == KubernetesRows(rows) + if row.source.Kubernetes? && row.hosts != [] then [row] else []
  {
    assert (rows + [row])[..|rows|] == rows;
  }

  lemma {:induction false} KubernetesUpdate(rows: seq<TlsConfig>, i: nat, row: TlsConfig)
    requires i < |rows| && !rows[i].source.Kubernetes? && !row.source.Kubernetes?
    ensures KubernetesRows(rows[i := row]) == KubernetesRows(rows)
  {
    var n := |rows| - 1;
    if i < n {
      assert rows[i := row][..n] == rows[..n][i := row];
      KubernetesUpdate(rows[..n], i, row);
    } else {
      assert rows[i := row][..n] == rows[..n];
    }
  }

  lemma {:induction false} MergeKeepsKubernetes(tls: seq<TlsConfig>)
    ensures KubernetesRows(Merge(tls)) == KubernetesRows(tls)
  {
    hide Position, AddHosts, KubernetesRows;
    if tls != [] {
      var init, entry := tls[..|tls| - 1], tls[|tls| - 1];
      MergeKeepsKubernetes(init);
      assert tls == init + [entry];
      KubernetesLast(init, entry);
      var merged := Merge(init);
      var i := Position(merged, entry);
      if i == |merged| {
        KubernetesLast(merged, entry);
      } else {
        KubernetesUpdate(merged, i, Absorb(merged[i], entry));
        assert !entry.source.Kubernetes?;
        assert KubernetesRows(init) + [] == KubernetesRows(init);
      }
    }
  }

  lemma {:induction false} CleanKeepsKubernetes(rows: seq<TlsConfig>)
    ensures KubernetesRows(Clean(rows)) == KubernetesRows(rows)
  {
    hide Clean, KubernetesRows, ValidHosts;
    if rows == [] {
      NothingToClean();
    } else {
      var init, row := rows[..|rows| - 1], rows[|rows| - 1];
      CleanKeepsKubernetes(init);
      assert rows == init + [row];
      CleanLast(init, row);
      KubernetesLast(init, row);
      KubernetesLast(Clean(init), CleanRow(row));
      assert KubernetesRows(init) + [] == KubernetesRows(init);
    }
  }

  /** Rows served from Kubernetes secrets pass through unchanged and in order. */
  lemma KubernetesRowsKept(tls: seq<TlsConfig>)
    ensures KubernetesRows(Normalize(tls)) == KubernetesRows(tls)
  {
    MergeKeepsKubernetes(tls);
    CleanKeepsKubernetes(Merge(tls));
  }

  lemma {:induction false} MergedExpiry(tls: seq<TlsConfig>)
    ensures forall r :: r in Merge(tls) && r.expiresAt.Some? ==> r in tls
  {
    hide Position, AddHosts;
    if tls != [] {
      var init, entry := tls[..|tls| - 1], tls[|tls| - 1];
      MergedExpiry(init);
      assert tls == init + [entry];
    }
  }

  lemma {:induction false} CleanedExpiry(rows: seq<TlsConfig>)
    ensures forall r :: r in Clean(rows) && r.expiresAt.Some? ==> r in rows
  {
    hide Clean, ValidHosts;
    if rows == [] {
      NothingToClean();
    } else {
      var init, row := rows[..|rows| - 1], rows[|rows| - 1];
      CleanedExpiry(init);
      assert rows == init + [row];
      CleanLast(init, row);
    }
  }

  /** A row keeps its recorded expiry only if it comes through untouched. */
  lemma ExpiryOnlyOnUntouchedRows(tls: seq<TlsConfig>, row: TlsConfig)
    requires row in Normalize(tls) && row.expiresAt.Some?
    ensures row in tls
  {
    MergedExpiry(tls);
    CleanedExpiry(Merge(tls));
  }
}
