/**
  `b64url_encode` and `b64url_decode` (`src/edge/mod.rs`), the alphabet of section 5 of RFC 4648
  without padding. Both are specified as numbers: a byte string is a base-256 numeral, its
  encoding a base-64 numeral, and coding only scales one into the other.
*/
module Base64Url {
  import opened Prelude
  import opened Text

  type Byte = b: int | 0 <= b < 256

  const U32 := 0x1_0000_0000

  /** `val`: both the URL-safe and the standard alphabet are read. */
  function Val(c: char): (v: Option<nat>)
    ensures v.Some? ==> v.value < 64
  {
    if 'A' <= c <= 'Z' then Some(c as int - 'A' as int)
    else if 'a' <= c <= 'z' then Some(c as int - 'a' as int + 26)
    else if '0' <= c <= '9' then Some(c as int - '0' as int + 52)
    else if c == '-' || c == '+' then Some(62)
    else if c == '_' || c == '/' then Some(63)
    else None
  }

  /** The encoder's table `T`: A-Z, a-z, 0-9, `-`, `_`. */
  function Symbol(i: nat): (c: char)
    requires i < 64
    ensures Val(c) == Some(i) && c !in {'=', '.', '+', '/'}
  {
    if i < 26 then ('A' as int + i) as char
    else if i < 52 then ('a' as int + i - 26) as char
    else if i < 62 then ('0' as int + i - 52) as char
    else if i == 62 then '-'
    else '_'
  }

  // ------------------------------------------------------------------ numerals

  /** `acc` followed by the bytes of `data`, read as one base-256 numeral. */
  function Number256(acc: nat, data: seq<Byte>): nat
    decreases |data|
  {
    if data == [] then acc else Number256(acc * 256 + data[0], data[1..])
  }

  ghost predicate AllSymbols(s: string) {
    forall i :: 0 <= i < |s| ==> s[i] != '=' && Val(s[i]).Some?
  }

  /** `acc` followed by the symbols of `s`, read as one base-64 numeral. */
  ghost function Number64(acc: nat, s: string): nat
    requires AllSymbols(s)
    decreases |s|
  {
    if s == [] then acc else
      assert Val(s[0]).Some?;
      Number64(acc * 64 + Val(s[0]).value, s[1..])
  }

  /** A numeral and a length determine the bytes. */
  lemma {:induction false} NumeralDeterminesBytes(x: nat, a: seq<Byte>, y: nat, b: seq<Byte>)
    requires |a| == |b| && Number256(x, a) == Number256(y, b)
    ensures x == y && a == b
    decreases |a|
  {
    if a != [] {
      NumeralDeterminesBytes(x * 256 + a[0], a[1..], y * 256 + b[0], b[1..]);
      assert a == [a[0]] + a[1..] && b == [b[0]] + b[1..];
    }
  }

  // ------------------------------------------------------------------ encoding

  /** Three bytes as the 24-bit word the encoder assembles. */
  function Word(a: int, b: int, c: int): (n: nat)
    requires 0 <= a < 256 && 0 <= b < 256 && 0 <= c < 256
    ensures n < 0x100_0000
  {
    a * 0x1_0000 + b * 0x100 + c
  }

  /** The four six-bit fields of a 24-bit word, most significant first. */
  function Field(n: nat, k: nat): (x: nat)
    requires k < 4
    ensures x < 64
  {
    if k == 0 then n / 0x4_0000 % 64 else if k == 1 then n / 0x1000 % 64 else if k == 2 then n / 0x40 % 64 else n % 64
  }

  function Symbols(n: nat): (s: string)
    ensures |s| == 4
  {
    [Symbol(Field(n, 0)), Symbol(Field(n, 1)), Symbol(Field(n, 2)), Symbol(Field(n, 3))]
  }

  function Encode(data: seq<Byte>): string {
    if |data| == 0 then ""
    else if |data| == 1 then Symbols(Word(data[0], 0, 0))[..2]
    else if |data| == 2 then Symbols(Word(data[0], data[1], 0))[..3]
    else Symbols(Word(data[0], data[1], data[2])) + Encode(data[3..])
  }

  method EncodeBytes(data: seq<Byte>) returns (out: string)
    ensures out == Encode(data)
  {
    out := "";
    var i := 0;
    while i + 3 <= |data|
      invariant 0 <= i <= |data|
      invariant out + Encode(data[i..]) == Encode(data)
    {
      var n := Word(data[i], data[i + 1], data[i + 2]);
      EncodeSuffix(data, out, i);
      out := PushSymbols(out, n, 4);
      i := i + 3;
    }
    if i < |data| {
      var rem := |data| - i;
      var n := Word(data[i], 0, 0);
      if rem == 2 {
        n := Word(data[i], data[i + 1], 0);
      }
      out := PushSymbols(out, n, rem + 1);
    }
  }

  /** The pushes of one group, field by field. */
  method PushSymbols(before: string, n: nat, count: nat) returns (out: string)
    requires 2 <= count <= 4
    ensures out == before + Symbols(n)[..count]
  {
    out := before + [Symbol(Field(n, 0))];
    out := out + [Symbol(Field(n, 1))];
    if count >= 3 {
      out := out + [Symbol(Field(n, 2))];
    }
    if count == 4 {
      out := out + [Symbol(Field(n, 3))];
    }
  }

  lemma EncodeSuffix(data: seq<Byte>, out: string, i: nat)
    requires i + 3 <= |data|
    ensures var n := Word(data[i], data[i + 1], data[i + 2]);
            out + Encode(data[i..]) == out + Symbols(n)[..4] + Encode(data[i + 3..])
  {
    assert data[i..][3..] == data[i + 3..];
    var n := Word(data[i], data[i + 1], data[i + 2]);
    assert Encode(data[i..]) == Symbols(n) + Encode(data[i + 3..]);
  }

  /** `x << bits`, for the bit counts that occur. */
  function Shl(x: nat, bits: nat): nat
    requires BitCount(bits)
  {
    if bits == 0 then x else if bits == 2 then x * 4 else if bits == 4 then x * 16 else x * 64
  }

  /** Unused low bits in the last symbol of the encoding of `n` bytes. */
  function Padding(n: nat): (bits: nat)
    ensures BitCount(bits)
  {
    if n % 3 == 0 then 0 else if n % 3 == 1 then 4 else 2
  }

  lemma {:induction false} EncodeShape(data: seq<Byte>)
    ensures AllSymbols(Encode(data)) && Free(Encode(data), {'=', '.', '+', '/'})
    ensures |Encode(data)| == (|data| * 8 + 5) / 6
  {
    if |data| >= 3 { EncodeShape(data[3..]); }
  }

  lemma Prepend(acc: nat, x: nat, rest: string)
    requires x < 64 && AllSymbols(rest)
    ensures AllSymbols([Symbol(x)] + rest)
    ensures Number64(acc, [Symbol(x)] + rest) == Number64(acc * 64 + x, rest)
  {
    assert ([Symbol(x)] + rest)[1..] == rest;
  }

  lemma Prepend2(acc: nat, x: nat, y: nat, rest: string)
    requires x < 64 && y < 64 && AllSymbols(rest)
    ensures AllSymbols([Symbol(x), Symbol(y)] + rest)
    ensures Number64(acc, [Symbol(x), Symbol(y)] + rest) == Number64(acc * 0x1000 + x * 64 + y, rest)
  {
    Prepend(acc * 64 + x, y, rest);
    Prepend(acc, x, [Symbol(y)] + rest);
    assert [Symbol(x), Symbol(y)] + rest == [Symbol(x)] + ([Symbol(y)] + rest);
  }

  lemma FieldsOf(n: nat)
    requires n < 0x100_0000
    ensures n == Field(n, 0) * 0x4_0000 + Field(n, 1) * 0x1000 + Field(n, 2) * 0x40 + Field(n, 3)
    ensures n / 0x40 == Field(n, 0) * 0x1000 + Field(n, 1) * 0x40 + Field(n, 2)
    ensures n / 0x1000 == Field(n, 0) * 0x40 + Field(n, 1)
  {
    var a := n / 0x40;
    var b := a / 0x40;
    NestedDivision(n, a, b);
    assert a == b * 0x40 + a % 0x40;
    assert b == Field(n, 0) * 0x40 + b % 0x40;
  }

  lemma NestedDivision(n: nat, a: nat, b: nat)
    requires n < 0x100_0000 && a == n / 0x40 && b == a / 0x40
    ensures b == n / 0x1000 && Field(n, 0) == b / 0x40
  {
    assert 0x1000 * b <= n < 0x1000 * b + 0x1000;
    var c := b / 0x40;
    assert 0x4_0000 * c <= n < 0x4_0000 * c + 0x4_0000;
  }

  lemma SymbolsNumber(acc: nat, n: nat, rest: string)
    requires AllSymbols(rest)
    ensures AllSymbols(Symbols(n) + rest) && AllSymbols(Symbols(n)[..2]) && AllSymbols(Symbols(n)[..3])
    ensures var half := acc * 0x1000 + Field(n, 0) * 64 + Field(n, 1);
            && Number64(acc, Symbols(n)[..2]) == half
            && Number64(acc, Symbols(n)[..3]) == half * 64 + Field(n, 2)
            && Number64(acc, Symbols(n) + rest) == Number64(half * 0x1000 + Field(n, 2) * 64 + Field(n, 3), rest)
  {
    var w, x, y, z := Field(n, 0), Field(n, 1), Field(n, 2), Field(n, 3);
    SymbolsOf(acc, w, x, y, z, rest);
    assert Symbols(n) == [Symbol(w), Symbol(x), Symbol(y), Symbol(z)];
  }

  lemma SymbolsOf(acc: nat, w: nat, x: nat, y: nat, z: nat, rest: string)
    requires w < 64 && x < 64 && y < 64 && z < 64 && AllSymbols(rest)
    ensures var s := [Symbol(w), Symbol(x), Symbol(y), Symbol(z)];
            var half := acc * 0x1000 + w * 64 + x;
            && AllSymbols(s + rest) && AllSymbols(s[..2]) && AllSymbols(s[..3])
            && Number64(acc, s[..2]) == half
            && Number64(acc, s[..3]) == half * 64 + y
            && Number64(acc, s + rest) == Number64(half * 0x1000 + y * 64 + z, rest)
  {
    var s := [Symbol(w), Symbol(x), Symbol(y), Symbol(z)];
    var half := acc * 0x1000 + w * 64 + x;
    assert s + rest == [Symbol(w), Symbol(x)] + ([Symbol(y), Symbol(z)] + rest);
    Prepend2(half, y, z, rest);
    Prepend2(acc, w, x, [Symbol(y), Symbol(z)] + rest);
    assert s[..2] == [Symbol(w), Symbol(x)] + "";
    Prepend2(acc, w, x, "");
    assert s[..3] == [Symbol(w), Symbol(x)] + ([Symbol(y)] + "");
    Prepend(half, y, "");
    Prepend2(acc, w, x, [Symbol(y)] + "");
  }

  /** The encoding is the same numeral, scaled by the padding bits. */
  lemma {:induction false} EncodeNumber(acc: nat, data: seq<Byte>)
    ensures AllSymbols(Encode(data))
    ensures Number64(acc, Encode(data)) == Shl(Number256(acc, data), Padding(|data|))
    decreases |data|
  {
    hide Encode, Number64, Number256;
    EncodeShape(data);
    if |data| == 0 {
      NoByteNumber(acc);
    } else if |data| == 1 {
      OneByteNumber(acc, data);
    } else if |data| == 2 {
      TwoByteNumber(acc, data);
    } else {
      var next := GroupNumber(acc, data);
      EncodeNumber(next, data[3..]);
    }
  }

  lemma GroupNumber(acc: nat, data: seq<Byte>) returns (next: nat)
    requires |data| >= 3
    ensures AllSymbols(Encode(data)) && AllSymbols(Encode(data[3..]))
    ensures Number64(acc, Encode(data)) == Number64(next, Encode(data[3..]))
    ensures Number256(acc, data) == Number256(next, data[3..])
  {
    hide Word, Symbol, Field;
    var n := Word(data[0], data[1], data[2]);
    next := acc * 0x100_0000 + n;
    EncodeShape(data[3..]);
    SymbolsNumber(acc, n, Encode(data[3..]));
    FieldsOf(n);
    ThreeBytes(acc, data);
  }

  lemma NoByteNumber(acc: nat)
    ensures Encode([]) == "" && Number64(acc, "") == acc == Number256(acc, [])
  {
  }

  lemma OneByteNumber(acc: nat, data: seq<Byte>)
    requires |data| == 1
    ensures AllSymbols(Encode(data))
    ensures Number64(acc, Encode(data)) == Number256(acc, data) * 16
  {
    var n := Word(data[0], 0, 0);
    SymbolsNumber(acc, n, "");
    FieldsOf(n);
    assert n / 0x1000 == data[0] as int * 16;
    assert Number256(acc, data) == acc * 256 + data[0] as int;
  }

  lemma TwoByteNumber(acc: nat, data: seq<Byte>)
    requires |data| == 2
    ensures AllSymbols(Encode(data))
    ensures Number64(acc, Encode(data)) == Number256(acc, data) * 4
  {
    var n := Word(data[0], data[1], 0);
    SymbolsNumber(acc, n, "");
    FieldsOf(n);
    assert n / 0x40 == data[0] as int * 0x400 + data[1] as int * 4;
    TwoBytes(acc, data);
  }

  lemma TwoBytes(acc: nat, data: seq<Byte>)
    requires |data| == 2
    ensures Number256(acc, data) == acc * 0x1_0000 + data[0] as int * 256 + data[1]
  {
    assert data[1..][1..] == [];
    assert Number256(acc, data) == Number256(acc * 256 + data[0], data[1..]);
    assert Number256(acc * 256 + data[0], data[1..]) == Number256((acc * 256 + data[0]) * 256 + data[1], []);
  }

  lemma ThreeBytes(acc: nat, data: seq<Byte>)
    requires |data| >= 3
    ensures Number256(acc, data) == Number256(acc * 0x100_0000 + Word(data[0], data[1], data[2]), data[3..])
  {
    var x := acc * 256 + data[0];
    var y := x * 256 + data[1];
    assert data[1..][1..] == data[2..] && data[2..][1..] == data[3..];
    assert Number256(acc, data) == Number256(x, data[1..]) == Number256(y, data[2..]);
    assert y * 256 + data[2] == acc * 0x100_0000 + Word(data[0], data[1], data[2]);
  }

  // ------------------------------------------------------------------ decoding

  /** The decoder's bit counts after a character, and two to that power. */
  predicate BitCount(bits: nat) { bits in {0, 2, 4, 6} }

  function Pow2(bits: nat): (p: nat)
    requires BitCount(bits)
    ensures p > 0
  {
    if bits == 0 then 1 else if bits == 2 then 4 else if bits == 4 then 16 else 64
  }

  /** `(buf << 6) | v` in 32 bits. */
  function Shifted(buf: nat, v: nat): nat {
    buf * 64 % U32 + v
  }

  /** The decoder from a given accumulator on. */
  function DecodeFrom(s: string, buf: nat, bits: nat): Option<seq<Byte>>
    requires BitCount(bits) && buf < Pow2(bits)
    decreases |s|
  {
    if s == [] || s[0] == '=' then Some([])
    else if Val(s[0]).None? then None
    else
      var b := Shifted(buf, Val(s[0]).value);
      if bits == 0 then
        DecodeFrom(s[1..], b, 6)
      else
        After([b / Pow2(bits - 2) % 256], DecodeFrom(s[1..], b % Pow2(bits - 2), bits - 2))
  }

  function Decode(s: string): Option<seq<Byte>> {
    DecodeFrom(s, 0, 0)
  }

  function After(out: seq<Byte>, rest: Option<seq<Byte>>): Option<seq<Byte>> {
    if rest.None? then None else Some(out + rest.value)
  }

  lemma AfterAfter(out: seq<Byte>, more: seq<Byte>, rest: Option<seq<Byte>>)
    ensures After(out, After(more, rest)) == After(out + more, rest)
  {
    if rest.Some? { assert out + (more + rest.value) == out + more + rest.value; }
  }

  lemma AfterNothing(rest: Option<seq<Byte>>)
    ensures After([], rest) == rest
  {
    if rest.Some? { assert [] + rest.value == rest.value; }
  }

  /** The loop of `b64url_decode`: the accumulator stays below two to the bit count, far from 32 bits. */
  method DecodeString(s: string) returns (r: Option<seq<Byte>>)
    ensures r == Decode(s)
  {
    hide Val;
    var out: seq<Byte> := [];
    var buf := 0;
    var bits := 0;
    var i := 0;
    assert s[0..] == s;
    AfterNothing(Decode(s));
    while i < |s|
      invariant 0 <= i <= |s|
      invariant BitCount(bits) && 0 <= buf < Pow2(bits)
      invariant Decode(s) == After(out, DecodeFrom(s[i..], buf, bits))
    {
      if s[i] == '=' {
        break;
      }
      var v := Val(s[i]);
      if v.None? {
        return None;
      }
      assert buf * 64 + v.value < U32;
      assert s[i..][1..] == s[i + 1..];
      buf := Shifted(buf, v.value);
      bits := bits + 6;
      if bits >= 8 {
        bits := bits - 8;
        AfterAfter(out, [buf / Pow2(bits) % 256], DecodeFrom(s[i + 1..], buf % Pow2(bits), bits));
        out := out + [buf / Pow2(bits) % 256];
        buf := buf % Pow2(bits);
      }
      i := i + 1;
    }
    assert out + [] == out;
    return Some(out);
  }

  /** Bits left in the accumulator after `n` more symbols. */
  function Leftover(bits: nat, n: nat): (left: nat)
    requires BitCount(bits)
    ensures BitCount(left)
    decreases n
  {
    if n == 0 then bits else Leftover(if bits == 0 then 6 else bits - 2, n - 1)
  }

  /** `high` is `number` without its lowest bits, `low` of them. */
  predicate IsHighPart(high: nat, number: nat, low: nat)
    requires BitCount(low)
  {
    Shl(high, low) <= number < Shl(high + 1, low)
  }

  /** The bytes decoded are the leading octets of the symbols' numeral; the leftover bits are dropped. */
  lemma {:induction false} DecodeNumber(s: string, acc: nat, buf: nat, bits: nat)
    requires AllSymbols(s) && BitCount(bits) && buf < Pow2(bits)
    ensures DecodeFrom(s, buf, bits).Some?
    ensures var out := DecodeFrom(s, buf, bits).value;
            var left := Leftover(bits, |s|);
            && 8 * |out| + left == bits + 6 * |s|
            && IsHighPart(Number256(acc, out), Number64(Shl(acc, bits) + buf, s), left)
    decreases |s|
  {
    hide Val, Shifted;
    if s != [] {
      assert Val(s[0]).Some?;
      var v := Val(s[0]).value;
      var b := Shifted(buf, v);
      var number := Shl(acc, bits) + buf;
      assert Number64(number, s) == Number64(number * 64 + v, s[1..]);
      if bits == 0 {
        FirstSextet(buf, v);
        DecodeNumber(s[1..], acc, b, 6);
      } else {
        var low := b % Pow2(bits - 2);
        var octet := OctetOut(acc, buf, bits, v);
        DecodeNumber(s[1..], acc * 256 + octet, low, bits - 2);
        DecodeStep(s, acc, buf, bits, v, octet);
      }
    }
  }

  lemma DecodeStep(s: string, acc: nat, buf: nat, bits: nat, v: nat, octet: Byte)
    requires s != [] && s[0] != '=' && Val(s[0]) == Some(v) && BitCount(bits) && bits > 0 && buf < Pow2(bits)
    requires octet == Shifted(buf, v) / Pow2(bits - 2) % 256
    requires DecodeFrom(s[1..], Shifted(buf, v) % Pow2(bits - 2), bits - 2).Some?
    ensures var rest := DecodeFrom(s[1..], Shifted(buf, v) % Pow2(bits - 2), bits - 2).value;
            DecodeFrom(s, buf, bits) == Some([octet] + rest)
            && Number256(acc, [octet] + rest) == Number256(acc * 256 + octet, rest)
  {
    hide Val, Shifted, Pow2;
    var rest := DecodeFrom(s[1..], Shifted(buf, v) % Pow2(bits - 2), bits - 2).value;
    assert ([octet] + rest)[1..] == rest;
  }

  lemma FirstSextet(buf: nat, v: nat)
    requires buf < Pow2(0) && v < 64
    ensures Shifted(buf, v) == v
  {
  }

  lemma OctetOut(acc: nat, buf: nat, bits: nat, v: nat) returns (octet: Byte)
    requires BitCount(bits) && bits > 0 && buf < Pow2(bits) && v < 64
    ensures var b, p := Shifted(buf, v), Pow2(bits - 2);
            && octet == b / p % 256
            && Shl(acc * 256 + octet, bits - 2) + b % p == (Shl(acc, bits) + buf) * 64 + v
  {
    var b := buf * 64 + v;
    assert b == Shifted(buf, v);
    octet := b / Pow2(bits - 2) % 256;
    hide Shifted;
    if bits == 2 { TakeOctet(b, 1); } else if bits == 4 { TakeOctet(b, 4); } else { TakeOctet(b, 16); }
  }

  lemma TakeOctet(b: nat, p: nat)
    requires p in {1, 4, 16} && b < 256 * p
    ensures b / p % 256 == b / p && b == p * (b / p) + b % p
  {
    if p == 1 {} else if p == 4 {} else {}
  }

  /** Decoding accepts exactly the strings whose characters before the first `=` are all symbols. */
  lemma {:induction false} DecodeAccepts(s: string, buf: nat, bits: nat)
    requires BitCount(bits) && buf < Pow2(bits)
    ensures DecodeFrom(s, buf, bits).Some? <==> AllSymbols(s[..IndexOf(s, {'='})])
    ensures DecodeFrom(s, buf, bits) == DecodeFrom(s[..IndexOf(s, {'='})], buf, bits)
    decreases |s|
  {
    var t := s[..IndexOf(s, {'='})];
    if s != [] && s[0] != '=' {
      assert t[1..] == s[1..][..IndexOf(s[1..], {'='})];
      if Val(s[0]).Some? {
        assert AllSymbols(t) <==> AllSymbols(t[1..]) by {
          assert t == [s[0]] + t[1..];
        }
        var b := Shifted(buf, Val(s[0]).value);
        if bits == 0 { DecodeAccepts(s[1..], b, 6); } else { DecodeAccepts(s[1..], b % Pow2(bits - 2), bits - 2); }
      }
    }
  }

  lemma HighPartOfScaled(high: nat, x: nat, low: nat)
    requires BitCount(low) && IsHighPart(high, Shl(x, low), low)
    ensures high == x
  {
    if low == 0 {} else if low == 2 {} else if low == 4 {} else {}
  }

  /** Decoding undoes encoding, for every byte string. */
  lemma DecodeEncoded(data: seq<Byte>)
    ensures Decode(Encode(data)) == Some(data)
  {
    hide Encode, DecodeFrom;
    var s := Encode(data);
    EncodeShape(data);
    EncodeNumber(0, data);
    DecodeNumber(s, 0, 0, 0);
    var out := Decode(s).value;
    LengthsAgree(|data|, |s|, |out|);
    HighPartOfScaled(Number256(0, out), Number256(0, data), Padding(|data|));
    NumeralDeterminesBytes(0, out, 0, data);
  }

  lemma LengthsAgree(bytes: nat, symbols: nat, octets: nat)
    requires symbols == (bytes * 8 + 5) / 6 && 8 * octets + Leftover(0, symbols) == 6 * symbols
    ensures octets == bytes && Padding(bytes) == Leftover(0, symbols)
  {
    hide Leftover;
    var q := bytes / 3;
    if bytes == 3 * q { assert symbols == 4 * q; }
    else if bytes == 3 * q + 1 { assert symbols == 4 * q + 2; }
    else { assert symbols == 4 * q + 3; }
  }
}
