/**
  The TSV autonomous-system index (`AsnTsvDb`, `src/geoip.rs`): ranges sorted by start address and
  searched with `partition_point`. Addresses are numbers, 32 bits wide for IPv4 and 128 for IPv6.
*/
module AsnIndex {
  import opened Prelude

  datatype Ip = V4(n: nat) | V6(n: nat)

  /** One parsed line of the file. */
  datatype Row = Row(start: Ip, end: Ip, asn: nat)

  datatype Range = Range(start: nat, end: nat, asn: nat)

  datatype AsnDb = AsnDb(v4: seq<Range>, v6: seq<Range>)

  predicate Holds(r: Range, key: nat) { r.start <= key <= r.end }

  ghost predicate SortedByStart(v: seq<Range>) {
    forall i, j :: 0 <= i < j < |v| ==> v[i].start <= v[j].start
  }

  // --------------------------------------------------------------------- load

  /** The ranges of one address family: lines without a number and lines that mix families are skipped. */
  function Ranges(rows: seq<Row>, v6: bool): seq<Range> {
    if rows == [] then [] else
      var r := rows[|rows| - 1];
      var rest := Ranges(rows[..|rows| - 1], v6);
      if r.asn != 0 && r.start.V6? == v6 && r.end.V6? == v6
      then rest + [Range(r.start.n, r.end.n, r.asn)] else rest
  }

  function Insert(r: Range, v: seq<Range>): (out: seq<Range>)
    ensures out != []
  {
    if v == [] || r.start <= v[0].start then [r] + v else [v[0]] + Insert(r, v[1..])
  }

  lemma {:induction false} InsertKeepsRanges(r: Range, v: seq<Range>)
    ensures multiset(Insert(r, v)) == multiset(v) + multiset{r}
  {
    if v != [] && v[0].start < r.start {
      InsertKeepsRanges(r, v[1..]);
      assert v == [v[0]] + v[1..];
    }
  }

  lemma {:induction false} InsertSorted(r: Range, v: seq<Range>)
    requires SortedByStart(v)
    ensures SortedByStart(Insert(r, v))
    ensures v != [] ==> Insert(r, v)[0].start == if r.start <= v[0].start then r.start else v[0].start
  {
    if v != [] && v[0].start < r.start {
      InsertSorted(r, v[1..]);
      var rest := Insert(r, v[1..]);
      assert v[0].start <= rest[0].start;
      assert forall k :: 0 < k < |rest| ==> rest[0].start <= rest[k].start;
    }
  }

  lemma EmptySorted()
    ensures SortedByStart([])
  {
  }

  /** A sort by start address. Nothing below depends on which one. */
  method SortRanges(v: seq<Range>) returns (out: seq<Range>)
    ensures SortedByStart(out) && multiset(out) == multiset(v)
  {
    hide Insert, SortedByStart;
    out := [];
    assert SortedByStart(out) by { EmptySorted(); }
    for i := 0 to |v|
      invariant SortedByStart(out) && multiset(out) == multiset(v[..i])
    {
      InsertSorted(v[i], out);
      InsertKeepsRanges(v[i], out);
      assert v[..i + 1] == v[..i] + [v[i]];
      out := Insert(v[i], out);
    }
    assert v[..|v|] == v;
  }

  method Load(rows: seq<Row>) returns (db: AsnDb)
    ensures SortedByStart(db.v4) && multiset(db.v4) == multiset(Ranges(rows, false))
    ensures SortedByStart(db.v6) && multiset(db.v6) == multiset(Ranges(rows, true))
  {
    var v4: seq<Range>, v6: seq<Range> := [], [];
    for i := 0 to |rows|
      invariant v4 == Ranges(rows[..i], false) && v6 == Ranges(rows[..i], true)
    {
      var row := rows[i];
      assert rows[..i + 1][..i] == rows[..i];
      if row.asn == 0 {
        continue;
      }
      match (row.start, row.end) {
        case (V4(a), V4(b)) => v4 := v4 + [Range(a, b, row.asn)];
        case (V6(a), V6(b)) => v6 := v6 + [Range(a, b, row.asn)];
        case _ =>
      }
    }
    assert rows[..|rows|] == rows;
    v4 := SortRanges(v4);
    v6 := SortRanges(v6);
    db := AsnDb(v4, v6);
  }

  // ------------------------------------------------------------------- lookup

  /** The binary search: how many ranges start at or before `key`. */
  method PartitionPoint(v: seq<Range>, key: nat) returns (idx: nat)
    requires SortedByStart(v)
    ensures idx <= |v|
    ensures forall i :: 0 <= i < idx ==> v[i].start <= key
    ensures forall i :: idx <= i < |v| ==> key < v[i].start
  {
    var lo, hi := 0, |v|;
    while lo < hi
      invariant 0 <= lo <= hi <= |v|
      invariant forall i :: 0 <= i < lo ==> v[i].start <= key
      invariant forall i :: hi <= i < |v| ==> key < v[i].start
    {
      var mid := (lo + hi) / 2;
      if v[mid].start <= key {
        lo := mid + 1;
      } else {
        hi := mid;
      }
    }
    idx := lo;
  }

  /** Ranges that do not overlap: distinct ones share no address, none is empty. */
  ghost predicate Disjoint(rows: seq<Range>) {
    && (forall a :: a in rows ==> a.start <= a.end)
    && (forall a, b :: a in rows && b in rows && a != b ==> a.end < b.start || b.end < a.start)
  }

  /** `r` is what a scan of all ranges, in any order, says about `key`. */
  ghost predicate IsScan(rows: seq<Range>, key: nat, r: Option<nat>) {
    match r
    case None => forall x :: x in rows ==> !Holds(x, key)
    case Some(asn) =>
      && (exists x :: x in rows && Holds(x, key))
      && (forall x :: x in rows && Holds(x, key) ==> x.asn == asn)
  }

  /** Looking at the last range that starts at or before `key` is as good as scanning all of them. */
  lemma LastStartDecides(rows: seq<Range>, v: seq<Range>, key: nat, idx: nat)
    requires multiset(v) == multiset(rows) && SortedByStart(v) && Disjoint(rows)
    requires idx <= |v|
    requires forall i :: 0 <= i < idx ==> v[i].start <= key
    requires forall i :: idx <= i < |v| ==> key < v[i].start
    ensures IsScan(rows, key, if idx > 0 && Holds(v[idx - 1], key) then Some(v[idx - 1].asn) else None)
  {
    forall x | x in rows && Holds(x, key) ensures idx > 0 && x == v[idx - 1] {
      assert x in multiset(v);
      var p :| 0 <= p < |v| && v[p] == x;
      assert p < idx;
      var last := v[idx - 1];
      assert last in multiset(v) && x.start <= last.start;
    }
    if idx > 0 { assert v[idx - 1] in multiset(v); }
  }

  /** One family's lookup, over any sorted arrangement of the loaded ranges. */
  method LookupKey(v: seq<Range>, key: nat, ghost rows: seq<Range>) returns (r: Option<nat>)
    requires SortedByStart(v) && multiset(v) == multiset(rows)
    ensures Disjoint(rows) ==> IsScan(rows, key, r)
  {
    var idx := PartitionPoint(v, key);
    if Disjoint(rows) { LastStartDecides(rows, v, key, idx); }
    if idx == 0 {
      return None;
    }
    var range := v[idx - 1];
    if range.start <= key <= range.end {
      return Some(range.asn);
    }
    return None;
  }

  /**
    Loading any file and looking an address up: when the ranges of the address's family do not
    overlap, the answer is that of a scan of the file.
  */
  method LoadAndLookup(rows: seq<Row>, addr: Ip) returns (r: Option<nat>)
    ensures Disjoint(Ranges(rows, addr.V6?)) ==> IsScan(Ranges(rows, addr.V6?), addr.n, r)
  {
    var db := Load(rows);
    match addr {
      case V4(key) => r := LookupKey(db.v4, key, Ranges(rows, false));
      case V6(key) => r := LookupKey(db.v6, key, Ranges(rows, true));
    }
  }
}
