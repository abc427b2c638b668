/**
  The string operations of the Rust standard library the modelled code relies on. A string is its
  sequence of Unicode scalar values; the ASCII case mappings leave every other character alone.
*/
module Text {
  import opened Prelude

  /** `char::is_whitespace`: the Unicode White_Space property. */
  predicate IsSpace(c: char) {
    var n := c as int;
    9 <= n <= 13 || n == 0x20 || n == 0x85 || n == 0xA0 || n == 0x1680 || 0x2000 <= n <= 0x200A
    || n == 0x2028 || n == 0x2029 || n == 0x202F || n == 0x205F || n == 0x3000
  }

  function LowerChar(c: char): char {
    if 'A' <= c <= 'Z' then (c as int + 32) as char else c
  }

  function UpperChar(c: char): char {
    if 'a' <= c <= 'z' then (c as int - 32) as char else c
  }

  function Lower(s: string): (r: string)
    ensures |r| == |s|
  {
    seq(|s|, i requires 0 <= i < |s| => LowerChar(s[i]))
  }

  function Upper(s: string): (r: string)
    ensures |r| == |s|
  {
    seq(|s|, i requires 0 <= i < |s| => UpperChar(s[i]))
  }

  function TrimStart(s: string): (r: string) {
    if s != [] && IsSpace(s[0]) then TrimStart(s[1..]) else s
  }

  function TrimEnd(s: string): (r: string) {
    if s != [] && IsSpace(s[|s| - 1]) then TrimEnd(s[..|s| - 1]) else s
  }

  function Trim(s: string): (r: string) {
    TrimEnd(TrimStart(s))
  }

  /** No white space at either end: what `Trim` leaves alone. */
  predicate IsTrimmed(s: string) {
    s == [] || (!IsSpace(s[0]) && !IsSpace(s[|s| - 1]))
  }

  predicate StartsWith(s: string, prefix: string) {
    |prefix| <= |s| && s[..|prefix|] == prefix
  }

  predicate EndsWith(s: string, suffix: string) {
    |suffix| <= |s| && s[|s| - |suffix|..] == suffix
  }

  /** First position of a character in `seps`, or the length of `s`. */
  function IndexOf(s: string, seps: set<char>): (i: nat)
    ensures i <= |s|
    ensures forall k :: 0 <= k < i ==> s[k] !in seps
    ensures i < |s| ==> s[i] in seps
  {
    if s == [] || s[0] in seps then 0 else 1 + IndexOf(s[1..], seps)
  }

  /** `str::split` on a set of characters: always at least one part. */
  function Split(s: string, seps: set<char>): (parts: seq<string>)
    ensures |parts| >= 1
    decreases |s|
  {
    var i := IndexOf(s, seps);
    if i == |s| then [s] else [s[..i]] + Split(s[i + 1..], seps)
  }

  function Join(parts: seq<string>, glue: string): string {
    if |parts| == 0 then "" else if |parts| == 1 then parts[0] else parts[0] + glue + Join(parts[1..], glue)
  }

  predicate Free(s: string, seps: set<char>) {
    forall i :: 0 <= i < |s| ==> s[i] !in seps
  }

  // ------------------------------------------------------------------ decimal

  predicate IsDigit(c: char) { '0' <= c <= '9' }

  function DigitChar(d: nat): (c: char)
    requires d < 10
    ensures IsDigit(c)
  {
    (d + '0' as int) as char
  }

  function Print(n: nat): (s: string)
    ensures s != []
    ensures forall i :: 0 <= i < |s| ==> IsDigit(s[i])
  {
    if n < 10 then [DigitChar(n)] else Print(n / 10) + [DigitChar(n % 10)]
  }

  function DecimalValue(s: string): nat
    requires forall i :: 0 <= i < |s| ==> IsDigit(s[i])
  {
    if s == [] then 0 else
      assert IsDigit(s[|s| - 1]);
      DecimalValue(s[..|s| - 1]) * 10 + (s[|s| - 1] as int - '0' as int)
  }

  /** `str::parse` into an unsigned integer no larger than `max`; one leading `+` is accepted. */
  function ParseUnsigned(s: string, max: nat): Option<nat> {
    var digits := if s != [] && s[0] == '+' then s[1..] else s;
    if digits == [] || exists i :: 0 <= i < |digits| && !IsDigit(digits[i]) then None
    else if DecimalValue(digits) > max then None
    else Some(DecimalValue(digits))
  }

  // ------------------------------------------------------------------- lemmas

  lemma {:induction false} PrintThenValue(n: nat)
    ensures DecimalValue(Print(n)) == n
  {
    if n >= 10 {
      PrintThenValue(n / 10);
      assert Print(n)[..|Print(n)| - 1] == Print(n / 10);
    }
  }

  lemma ParsePrinted(n: nat, max: nat)
    requires n <= max
    ensures ParseUnsigned(Print(n), max) == Some(n)
  {
    PrintThenValue(n);
    assert IsDigit(Print(n)[0]);
  }

  lemma {:induction false} TrimStartTrims(s: string)
    ensures TrimStart(s) == [] || !IsSpace(TrimStart(s)[0])
    ensures s == [] || IsSpace(s[|s| - 1]) || (TrimStart(s) != [] && TrimStart(s)[|TrimStart(s)| - 1] == s[|s| - 1])
  {
    if s != [] && IsSpace(s[0]) { TrimStartTrims(s[1..]); }
  }

  lemma {:induction false} TrimEndTrims(s: string)
    ensures TrimEnd(s) == [] || !IsSpace(TrimEnd(s)[|TrimEnd(s)| - 1])
    ensures TrimEnd(s) != [] ==> s != [] && TrimEnd(s)[0] == s[0]
  {
    if s != [] && IsSpace(s[|s| - 1]) { TrimEndTrims(s[..|s| - 1]); }
  }

  lemma TrimTrims(s: string)
    ensures IsTrimmed(Trim(s))
  {
    TrimStartTrims(s);
    TrimEndTrims(TrimStart(s));
  }

  lemma {:induction false} TrimStartSlice(s: string) returns (i: nat)
    ensures i <= |s| && TrimStart(s) == s[i..]
  {
    if s != [] && IsSpace(s[0]) {
      i := TrimStartSlice(s[1..]);
      i := i + 1;
    } else {
      i := 0;
    }
  }

  lemma {:induction false} TrimEndSlice(s: string) returns (j: nat)
    ensures j <= |s| && TrimEnd(s) == s[..j]
  {
    if s != [] && IsSpace(s[|s| - 1]) {
      j := TrimEndSlice(s[..|s| - 1]);
    } else {
      j := |s|;
    }
  }

  /** Trimming cuts at both ends and changes nothing in between. */
  lemma TrimSlice(s: string) returns (i: nat, j: nat)
    ensures i <= j <= |s| && Trim(s) == s[i..j]
  {
    i := TrimStartSlice(s);
    var k := TrimEndSlice(TrimStart(s));
    j := i + k;
    assert s[i..][..k] == s[i..j];
  }

  lemma TrimOfTrimmed(s: string)
    requires IsTrimmed(s)
    ensures Trim(s) == s
  {
  }

  lemma TrimIdempotent(s: string)
    ensures Trim(Trim(s)) == Trim(s)
  {
    TrimTrims(s);
    TrimOfTrimmed(Trim(s));
  }

  lemma LowerIdempotent(s: string)
    ensures Lower(Lower(s)) == Lower(s)
  {
  }

  lemma UpperIdempotent(s: string)
    ensures Upper(Upper(s)) == Upper(s)
  {
  }

  lemma CaseKeepsTrimmed(s: string)
    requires IsTrimmed(s)
    ensures IsTrimmed(Lower(s)) && IsTrimmed(Upper(s))
  {
  }

  lemma SplitFirst(head: string, sep: char, tail: string, seps: set<char>)
    requires sep in seps && Free(head, seps)
    ensures Split(head + [sep] + tail, seps) == [head] + Split(tail, seps)
  {
    var s := head + [sep] + tail;
    assert s[|head|] == sep && (forall k :: 0 <= k < |head| ==> s[k] == head[k]);
    assert IndexOf(s, seps) == |head|;
    assert s[..|head|] == head && s[|head| + 1..] == tail;
  }

  lemma SplitWhole(s: string, seps: set<char>)
    requires Free(s, seps)
    ensures Split(s, seps) == [s]
  {
    assert IndexOf(s, seps) == |s|;
  }

  /** Splitting undoes joining when no part holds a separator. */
  lemma {:induction false} SplitJoined(parts: seq<string>, sep: char, seps: set<char>)
    requires sep in seps && parts != []
    requires forall k :: 0 <= k < |parts| ==> Free(parts[k], seps)
    ensures Split(Join(parts, [sep]), seps) == parts
  {
    hide Split;
    if |parts| == 1 {
      SplitWhole(parts[0], seps);
    } else {
      SplitFirst(parts[0], sep, Join(parts[1..], [sep]), seps);
      SplitJoined(parts[1..], sep, seps);
    }
  }

  lemma {:induction false} SplitPartsFree(s: string, seps: set<char>, k: nat)
    requires k < |Split(s, seps)|
    ensures Free(Split(s, seps)[k], seps)
    decreases |s|
  {
    var i := IndexOf(s, seps);
    if i < |s| && k > 0 { SplitPartsFree(s[i + 1..], seps, k - 1); }
  }
}
