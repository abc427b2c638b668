/**
  `issue_jwt` and `verify_jwt` (`src/edge/mod.rs`): HS256 tokens in the compact form of section 7.1
  of RFC 7515. HMAC-SHA-256 is a parameter: any function of key and message. The clock is one too.
*/
module Jwt {
  import opened Prelude
  import opened Text
  import opened Base64Url
  import Utf8

  const U64_MAX := 0xFFFF_FFFF_FFFF_FFFF

  type U64 = n: nat | n <= U64_MAX

  type Mac = (seq<Byte>, seq<Byte>) -> seq<Byte>

  const HEADER := "{\"alg\":\"HS256\",\"typ\":\"JWT\"}"
  const HEAD := "{\"sub\":\""
  const TAIL := "\",\"exp\":"
  const EXP := "\"exp\":"

  // -------------------------------------------------------------------- issue

  function Saturated(n: nat): U64 {
    if n <= U64_MAX then n else U64_MAX
  }

  function Expiry(now: U64, minutes: U64): U64 {
    var seconds: nat := Saturated(minutes * 60);
    Saturated(now + if seconds < 60 then 60 else seconds)
  }

  function Payload(owner: string, exp: nat): string {
    HEAD + owner + TAIL + Print(exp) + "}"
  }

  function Sign(mac: Mac, secret: string, signing: string): string {
    Encode(mac(Utf8.Bytes(secret), Utf8.Bytes(signing)))
  }

  function Signing(owner: string, exp: nat): string {
    Encode(Utf8.Bytes(HEADER)) + "." + Encode(Utf8.Bytes(Payload(owner, exp)))
  }

  function Issue(mac: Mac, secret: string, owner: string, minutes: U64, now: U64): string {
    var signing := Signing(owner, Expiry(now, minutes));
    signing + "." + Sign(mac, secret, signing)
  }

  // ------------------------------------------------------------------- verify

  predicate OccursAt(s: string, p: string, i: nat) {
    i + |p| <= |s| && s[i..i + |p|] == p
  }

  /** The first occurrence of `p` at or after `i`. */
  function Find(s: string, p: string, i: nat): (r: Option<nat>)
    requires i <= |s|
    ensures r.Some? ==> i <= r.value && OccursAt(s, p, r.value)
    ensures forall k :: i <= k <= |s| && (r.None? || k < r.value) ==> !OccursAt(s, p, k)
    decreases |s| - i
  {
    if OccursAt(s, p, i) then Some(i) else if i == |s| then None else Find(s, p, i + 1)
  }

  /** `raw.split(p).nth(1)`: the text between the first two occurrences. */
  function SecondPart(raw: string, p: string): Option<string> {
    var first := Find(raw, p, 0);
    if first.None? then None else
      var rest := raw[first.value + |p|..];
      var second := Find(rest, p, 0);
      Some(if second.None? then rest else rest[..second.value])
  }

  function TakeDigits(s: string): string {
    if s != "" && IsDigit(s[0]) then [s[0]] + TakeDigits(s[1..]) else ""
  }

  function ReadExpiry(raw: string): Option<nat> {
    var part := SecondPart(raw, EXP);
    if part.None? then None else ParseUnsigned(TakeDigits(TrimStart(part.value)), U64_MAX)
  }

  predicate Verify(mac: Mac, secret: string, token: string, now: U64) {
    var parts := Split(token, {'.'});
    && |parts| == 3
    && Decode(parts[2]) == Some(mac(Utf8.Bytes(secret), Utf8.Bytes(parts[0] + "." + parts[1])))
    && var bytes := Decode(parts[1]);
       var raw := Utf8.FromBytes(if bytes.Some? then bytes.value else []);
       raw.Some? && ReadExpiry(raw.value).Some? && now <= ReadExpiry(raw.value).value
  }

  // --------------------------------------------------------------- the envelope

  /** The two secrets authenticate `signing` alike, as equal secrets do. */
  predicate SameCode(mac: Mac, secret: string, other: string, signing: string) {
    mac(Utf8.Bytes(secret), Utf8.Bytes(signing)) == mac(Utf8.Bytes(other), Utf8.Bytes(signing))
  }

  /** The three dot-separated parts and the signature of an issued token always read back. */
  lemma VerifyIssued(
      mac: Mac, secret: string, other: string, owner: string, minutes: U64, issued: U64, now: U64)
    ensures var field := ReadExpiry(Payload(owner, Expiry(issued, minutes)));
            Verify(mac, other, Issue(mac, secret, owner, minutes, issued), now)
            <==> && SameCode(mac, secret, other, Signing(owner, Expiry(issued, minutes)))
                 && field.Some? && now <= field.value
  {
    hide ReadExpiry, Encode, Decode, Payload, Utf8.Bytes, Utf8.FromBytes, Split;
    var payload := Payload(owner, Expiry(issued, minutes));
    var signing := Signing(owner, Expiry(issued, minutes));
    var code := mac(Utf8.Bytes(secret), Utf8.Bytes(signing));
    var parts := [Encode(Utf8.Bytes(HEADER)), Encode(Utf8.Bytes(payload)), Encode(code)];
    assert Issue(mac, secret, owner, minutes, issued) == Join(parts, ".") by { JoinThree(parts); }
    EncodeShape(Utf8.Bytes(HEADER));
    EncodeShape(Utf8.Bytes(payload));
    EncodeShape(code);
    SplitJoined(parts, '.', {'.'});
    DecodeEncoded(Utf8.Bytes(payload));
    DecodeEncoded(code);
    Utf8.FromBytesOfBytes(payload);
  }

  lemma JoinThree(parts: seq<string>)
    requires |parts| == 3
    ensures Join(parts, ".") == parts[0] + "." + parts[1] + "." + parts[2]
  {
    assert parts[1..][1..] == [parts[2]];
    assert Join(parts[1..][1..], ".") == parts[2];
    assert Join(parts[1..], ".") == parts[1] + "." + parts[2];
  }

  // ------------------------------------------------------- the expiry field

  /** A differing character rules an occurrence out. */
  lemma Mismatch(s: string, p: string, i: nat, j: nat)
    requires j < |p| && (i + j >= |s| || s[i + j] != p[j])
    ensures !OccursAt(s, p, i)
  {
    if i + |p| <= |s| { assert s[i..i + |p|][j] == s[i + j]; }
  }

  /** Nothing in the owner can be taken for the expiry field. */
  predicate OwnerSafe(owner: string) {
    Find("\"" + owner, EXP, 0).None?
  }

  lemma NoQuoteIsSafe(owner: string)
    requires Free(owner, {'"'})
    ensures OwnerSafe(owner)
  {
    var q := "\"" + owner;
    forall k | 0 <= k <= |q| ensures !OccursAt(q, EXP, k) {
      assert k + 4 < |q| ==> q[k + 4] == owner[k + 3];
      Mismatch(q, EXP, k, 4);
    }
  }

  /** Where the field name stands in the payload. */
  lemma NameInPayload(owner: string, exp: nat)
    ensures OccursAt(Payload(owner, exp), EXP, 10 + |owner|)
    ensures Payload(owner, exp)[16 + |owner|..] == Print(exp) + "}"
  {
    var p := Payload(owner, exp);
    assert p[8 + |owner|..16 + |owner|] == TAIL;
    assert p[10 + |owner|..16 + |owner|] == p[8 + |owner|..16 + |owner|][2..8];
    assert TAIL[2..8] == EXP;
  }

  /** Before that, the name can only occur in the quote that opens the owner, followed by the owner. */
  lemma EarlierName(owner: string, exp: nat, k: nat)
    requires k < 10 + |owner|
    ensures OccursAt(Payload(owner, exp), EXP, k) <==> k >= 7 && OccursAt("\"" + owner, EXP, k - 7)
  {
    var p := Payload(owner, exp);
    var q := "\"" + owner;
    var t := 8 + |owner|;
    assert p[..8] == HEAD && p[7..t] == q && p[t..t + 8] == TAIL;
    if k < 7 {
      assert p[k] == HEAD[k] && p[k + 1] == HEAD[k + 1];
      Mismatch(p, EXP, k, if k == 1 || k == 5 then 1 else 0);
    } else if k + 6 <= t {
      assert p[k..k + 6] == p[7..t][k - 7..k - 1];
    } else {
      assert p[t] == TAIL[0] && p[t + 1] == TAIL[1];
      Mismatch(p, EXP, k, if k == t + 1 then 0 else if k == t then 1 else if k + 4 == t then 5 else t - k);
    }
  }

  lemma DigitsBeforeBrace(s: string)
    requires forall i :: 0 <= i < |s| ==> IsDigit(s[i])
    ensures TakeDigits(s + "}") == s
  {
    if s != "" {
      assert (s + "}")[1..] == s[1..] + "}";
      DigitsBeforeBrace(s[1..]);
    }
  }

  /** With a safe owner the verifier reads the expiry that was written. */
  lemma SafeOwnerReadsExpiry(owner: string, exp: nat)
    requires OwnerSafe(owner) && exp <= U64_MAX
    ensures ReadExpiry(Payload(owner, exp)) == Some(exp)
  {
    hide Payload, ParseUnsigned, TrimStart, Find;
    var p := Payload(owner, exp);
    NameInPayload(owner, exp);
    forall k | 0 <= k < 10 + |owner| ensures !OccursAt(p, EXP, k) {
      EarlierName(owner, exp, k);
    }
    assert Find(p, EXP, 0) == Some(10 + |owner|);
    var rest := Print(exp) + "}";
    forall k | 0 <= k <= |rest| ensures !OccursAt(rest, EXP, k) {
      Mismatch(rest, EXP, k, 0);
    }
    assert SecondPart(p, EXP) == Some(rest);
    DigitsRead(exp);
  }

  lemma DigitsRead(exp: nat)
    requires exp <= U64_MAX
    ensures ParseUnsigned(TakeDigits(TrimStart(Print(exp) + "}")), U64_MAX) == Some(exp)
  {
    hide ParseUnsigned;
    var rest := Print(exp) + "}";
    assert IsDigit(rest[0]);
    assert TrimStart(rest) == rest;
    DigitsBeforeBrace(Print(exp));
    ParsePrinted(exp, U64_MAX);
  }

  /** A quote ends both the white space and the digits that are read. */
  lemma {:induction false} QuoteStops(a: string, b: string)
    ensures TakeDigits(TrimStart(a + "\"" + b)) == TakeDigits(TrimStart(a))
    ensures TakeDigits(a + "\"" + b) == TakeDigits(a)
  {
    var s := a + "\"" + b;
    if a == "" {
      assert s[0] == '"';
    } else {
      assert s[1..] == a[1..] + "\"" + b && s[0] == a[0];
      QuoteStops(a[1..], b);
    }
  }

  /** With an unsafe owner what is read does not depend on the expiry at all. */
  lemma UnsafeOwnerHidesExpiry(owner: string, x: nat, y: nat)
    requires !OwnerSafe(owner)
    ensures ReadExpiry(Payload(owner, x)) == ReadExpiry(Payload(owner, y))
  {
    var text := OwnerText(owner);
    UnsafeOwnerText(owner, x);
    UnsafeOwnerText(owner, y);
  }

  /** The owner's own text after the name it smuggles in. */
  function OwnerText(owner: string): string
    requires !OwnerSafe(owner)
  {
    ("\"" + owner)[Find("\"" + owner, EXP, 0).value + 6..]
  }

  lemma UnsafeOwnerText(owner: string, exp: nat)
    requires !OwnerSafe(owner)
    ensures ReadExpiry(Payload(owner, exp)) == ParseUnsigned(TakeDigits(TrimStart(OwnerText(owner))), U64_MAX)
  {
    hide Payload, ParseUnsigned, TrimStart, TakeDigits, Find;
    var p := Payload(owner, exp);
    var at := Find("\"" + owner, EXP, 0).value;
    forall k | 0 <= k < 7 + at ensures !OccursAt(p, EXP, k) { EarlierName(owner, exp, k); }
    EarlierName(owner, exp, 7 + at);
    assert Find(p, EXP, 0) == Some(7 + at);
    var after := TAIL[1..] + Print(exp) + "}";
    PayloadAfter(owner, exp, 13 + at);
    QuoteStops(OwnerText(owner), after);
    CutDoesNotMatter(p[13 + at..]);
  }

  lemma PayloadAfter(owner: string, exp: nat, k: nat)
    requires 7 <= k <= 8 + |owner|
    ensures Payload(owner, exp)[k..] == ("\"" + owner)[k - 7..] + "\"" + (TAIL[1..] + Print(exp) + "}")
  {
    hide Print;
    var head, tail := HEAD[..7], TAIL[1..];
    assert HEAD == head + "\"" && TAIL == "\"" + tail;
    TextAfter(head, owner, tail, Print(exp), k);
  }

  lemma Regroup(a: string, b: string, c: string)
    ensures a + b + c == a + (b + c)
  {
  }

  lemma TextAfter(head: string, owner: string, tail: string, digits: string, k: nat)
    requires |head| <= k <= |head| + 1 + |owner|
    ensures (head + "\"" + owner + ("\"" + tail) + digits + "}")[k..]
            == ("\"" + owner)[k - |head|..] + "\"" + (tail + digits + "}")
  {
    var front := "\"" + owner;
    var rest := tail + digits + "}";
    PartsOf(head, "\"", owner, tail, digits, "}");
    DropInto(head, front, "\"" + rest, k);
    Regroup(front[k - |head|..], "\"", rest);
  }

  lemma PartsOf(head: string, q: string, owner: string, tail: string, digits: string, end: string)
    ensures head + q + owner + (q + tail) + digits + end == head + (q + owner) + (q + (tail + digits + end))
  {
    Regroup(head, q, owner);
    Regroup(q, tail, digits);
    Regroup(q, tail + digits, end);
    Regroup(head + (q + owner), q + tail, digits);
    Regroup(head + (q + owner), q + tail + digits, end);
  }

  lemma DropInto(a: string, b: string, c: string, k: nat)
    requires |a| <= k <= |a| + |b|
    ensures (a + b + c)[k..] == b[k - |a|..] + c
  {
  }

  /** Stopping at a second field name changes nothing: it starts with a quote. */
  lemma CutDoesNotMatter(rest: string)
    ensures var second := Find(rest, EXP, 0);
            var part := if second.None? then rest else rest[..second.value];
            TakeDigits(TrimStart(part)) == TakeDigits(TrimStart(rest))
  {
    var second := Find(rest, EXP, 0);
    if second.Some? {
      var c := second.value;
      assert rest[c..c + 6][0] == '"';
      assert rest == rest[..c] + "\"" + rest[c + 1..];
      QuoteStops(rest[..c], rest[c + 1..]);
    }
  }

  // ------------------------------------------------------------- main results

  /**
    For every secret, every safe owner (every owner without a double quote is one) and every
    validity, an issued token verifies at second `now` exactly up to its expiry, inclusive; under
    another secret it does so only if the two secrets give its signing text the same code.
  */
  lemma IssuedTokenLivesToExpiry(
      mac: Mac, secret: string, other: string, owner: string, minutes: U64, issued: U64, now: U64)
    requires OwnerSafe(owner)
    ensures Verify(mac, secret, Issue(mac, secret, owner, minutes, issued), now)
            <==> now <= Expiry(issued, minutes)
    ensures Verify(mac, other, Issue(mac, secret, owner, minutes, issued), now)
            <==> now <= Expiry(issued, minutes) && SameCode(mac, secret, other, Signing(owner, Expiry(issued, minutes)))
  {
    hide Verify, Issue, ReadExpiry;
    VerifyIssued(mac, secret, secret, owner, minutes, issued, now);
    VerifyIssued(mac, secret, other, owner, minutes, issued, now);
    SafeOwnerReadsExpiry(owner, Expiry(issued, minutes));
  }

  /** The condition is exact: for every other owner some validity and issue time break the expiry. */
  lemma UnsafeOwnerBreaksExpiry(mac: Mac, secret: string, owner: string)
    returns (minutes: U64, issued: U64, now: U64)
    requires !OwnerSafe(owner)
    ensures Verify(mac, secret, Issue(mac, secret, owner, minutes, issued), now)
            != (now <= Expiry(issued, minutes))
  {
    hide ReadExpiry, Verify, Issue, Payload, Signing, OwnerSafe;
    minutes, issued := 0, 0;
    UnsafeOwnerHidesExpiry(owner, 60, 61);
    var field := ReadExpiry(Payload(owner, 60));
    if field == Some(60) {
      issued, now := 1, 61;
    } else if field.Some? && field.value > 60 {
      now := 61;
    } else {
      now := 60;
    }
    VerifyIssued(mac, secret, secret, owner, minutes, issued, now);
  }
}
