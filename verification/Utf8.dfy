/** `str::as_bytes` and `String::from_utf8` (RFC 3629): strict UTF-8, no overlong forms. */
module Utf8 {
  import opened Prelude
  import opened Base64Url

  function CharBytes(c: char): (b: seq<Byte>)
    ensures 1 <= |b| <= 4
  {
    var n := c as int;
    if n < 0x80 then [n]
    else if n < 0x800 then [0xC0 + n / 64, 0x80 + n % 64]
    else if n < 0x1_0000 then [0xE0 + n / 0x1000, 0x80 + n / 64 % 64, 0x80 + n % 64]
    else [0xF0 + n / 0x4_0000, 0x80 + n / 0x1000 % 64, 0x80 + n / 64 % 64, 0x80 + n % 64]
  }

  function Bytes(s: string): seq<Byte> {
    if s == "" then [] else CharBytes(s[0]) + Bytes(s[1..])
  }

  /** `str::len`. */
  function ByteLength(s: string): nat { |Bytes(s)| }

  predicate IsScalar(n: int) { 0 <= n < 0xD800 || 0xE000 <= n < 0x11_0000 }

  predicate Continues(b: seq<Byte>, k: nat) {
    |b| >= k && forall i :: 1 <= i < k ==> 0x80 <= b[i] < 0xC0
  }

  /** The first character of `b` and the bytes it takes, None for an ill-formed start. */
  function FirstChar(b: seq<Byte>): (r: Option<(char, nat)>)
    requires b != []
    ensures r.Some? ==> 1 <= r.value.1 <= |b|
  {
    var x := b[0] as int;
    if x < 0x80 then Some((x as char, 1))
    else if 0xC0 <= x < 0xE0 && Continues(b, 2) then
      Scalar((x - 0xC0) * 64 + (b[1] - 0x80), 0x80, 2)
    else if 0xE0 <= x < 0xF0 && Continues(b, 3) then
      Scalar((x - 0xE0) * 0x1000 + (b[1] as int - 0x80) * 64 + (b[2] - 0x80), 0x800, 3)
    else if 0xF0 <= x < 0xF8 && Continues(b, 4) then
      Scalar((x - 0xF0) * 0x4_0000 + (b[1] as int - 0x80) * 0x1000 + (b[2] as int - 0x80) * 64 + (b[3] - 0x80), 0x1_0000, 4)
    else None
  }

  function Scalar(n: int, least: int, k: nat): (r: Option<(char, nat)>)
    ensures r.Some? ==> r.value.1 == k
  {
    if least <= n && IsScalar(n) then Some((n as char, k)) else None
  }

  function FromBytes(b: seq<Byte>): Option<string>
    decreases |b|
  {
    if b == [] then Some("") else
      var first := FirstChar(b);
      if first.None? then None else
        var rest := FromBytes(b[first.value.1..]);
        if rest.None? then None else Some([first.value.0] + rest.value)
  }

  lemma Digits64(n: nat)
    ensures n == n / 0x1000 * 0x1000 + n / 64 % 64 * 64 + n % 64
    ensures n == n / 0x4_0000 * 0x4_0000 + n / 0x1000 % 64 * 0x1000 + n / 64 % 64 * 64 + n % 64
  {
    var a := n / 64;
    var b := a / 64;
    assert 0x1000 * b <= n < 0x1000 * b + 0x1000;
    assert b == n / 0x1000;
    var c := b / 64;
    assert 0x4_0000 * c <= n < 0x4_0000 * c + 0x4_0000;
    assert c == n / 0x4_0000;
  }

  lemma FirstOfThree(c: char, b: seq<Byte>)
    requires 0x800 <= c as int < 0x1_0000 && |b| >= 3 && b[..3] == CharBytes(c)
    ensures FirstChar(b) == Some((c, 3))
  {
    var n := c as int;
    var t := b[..3];
    assert b[0] == t[0] == 0xE0 + n / 0x1000 && b[1] == t[1] == 0x80 + n / 64 % 64 && b[2] == t[2] == 0x80 + n % 64;
    assert Continues(b, 3);
    Digits64(n);
  }

  lemma FirstOfFour(c: char, b: seq<Byte>)
    requires 0x1_0000 <= c as int && |b| >= 4 && b[..4] == CharBytes(c)
    ensures FirstChar(b) == Some((c, 4))
  {
    var n := c as int;
    var t := b[..4];
    assert b[0] == t[0] == 0xF0 + n / 0x4_0000 && b[1] == t[1] == 0x80 + n / 0x1000 % 64;
    assert b[2] == t[2] == 0x80 + n / 64 % 64 && b[3] == t[3] == 0x80 + n % 64;
    assert Continues(b, 4);
    Digits64(n);
  }

  lemma FirstOfTwo(c: char, b: seq<Byte>)
    requires c as int < 0x800 && |b| >= |CharBytes(c)| && b[..|CharBytes(c)|] == CharBytes(c)
    ensures FirstChar(b) == Some((c, |CharBytes(c)|))
  {
    var n := c as int;
    assert b[0] == b[..|CharBytes(c)|][0];
    if n >= 0x80 {
      assert b[1] == b[..2][1] == 0x80 + n % 64;
      assert Continues(b, 2);
    }
  }

  lemma FirstOfChar(c: char, rest: seq<Byte>)
    ensures FirstChar(CharBytes(c) + rest) == Some((c, |CharBytes(c)|))
  {
    hide FirstChar;
    var b := CharBytes(c) + rest;
    assert b[..|CharBytes(c)|] == CharBytes(c);
    if c as int < 0x800 { FirstOfTwo(c, b); }
    else if c as int < 0x1_0000 { FirstOfThree(c, b); }
    else { FirstOfFour(c, b); }
  }

  lemma {:induction false} LengthInBytes(s: string)
    ensures ByteLength(s) >= |s|
  {
    if s != "" { LengthInBytes(s[1..]); }
  }

  /** Reading back the bytes of a string gives the string. */
  lemma {:induction false} FromBytesOfBytes(s: string)
    ensures FromBytes(Bytes(s)) == Some(s)
  {
    hide FirstChar, CharBytes;
    if s != "" {
      FromBytesOfBytes(s[1..]);
      FirstOfChar(s[0], Bytes(s[1..]));
      assert Bytes(s)[|CharBytes(s[0])|..] == Bytes(s[1..]);
      assert s == [s[0]] + s[1..];
    }
  }
}
