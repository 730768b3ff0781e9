/**
 * UTF-8, as Rust's `str::as_bytes` produces it and `core::str::from_utf8`
 * accepts it (RFC 3629: shortest form only, no surrogates, nothing above
 * U+10FFFF). The settings store keeps every string as these bytes.
 *
 * A Dafny `char` is a Unicode scalar value, exactly the domain of Rust's `char`.
 */
module Utf8 {
  import opened Common

  predicate IsContinuation(b: byte) {
    0x80 <= b < 0xC0
  }

  /** The bytes of one scalar value. */
  function EncodeChar(c: char): (b: seq<byte>)
    ensures 1 <= |b| <= 4
  {
    var cp := c as int;
    if cp < 0x80 then
      [cp as byte]
    else if cp < 0x800 then
      [(0xC0 + cp / 64) as byte, (0x80 + cp % 64) as byte]
    else if cp < 0x10000 then
      [(0xE0 + cp / 4096) as byte, (0x80 + (cp / 64) % 64) as byte, (0x80 + cp % 64) as byte]
    else
      [(0xF0 + cp / 262144) as byte, (0x80 + (cp / 4096) % 64) as byte,
       (0x80 + (cp / 64) % 64) as byte, (0x80 + cp % 64) as byte]
  }

  /** `s.as_bytes()` */
  function Encode(s: string): (b: seq<byte>)
    ensures |b| >= |s|
  {
    if s == [] then [] else EncodeChar(s[0]) + Encode(s[1..])
  }

  predicate IsScalar(cp: int) {
    (0 <= cp < 0xD800) || (0xE000 <= cp < 0x110000)
  }

  /** The scalar value `cp` as a character, if the `len`-byte form is its shortest one. */
  function Scalar(cp: int, len: nat): Option<(char, nat)> {
    var least := if len == 2 then 0x80 else if len == 3 then 0x800 else 0x10000;
    if least <= cp && IsScalar(cp) then Some((cp as char, len)) else None
  }

  /** Decodes the character at the start of `b` and the number of bytes it takes. */
  function DecodeChar(b: seq<byte>): (r: Option<(char, nat)>)
    ensures r.Some? ==> 1 <= r.value.1 <= |b| && r.value.1 <= 4
  {
    if |b| == 0 then None
    else if b[0] < 0x80 then Some(((b[0] as int) as char, 1))
    else if b[0] < 0xC0 then None
    else if b[0] < 0xE0 then
      if |b| < 2 || !IsContinuation(b[1]) then None
      else Scalar((b[0] as int - 0xC0) * 64 + (b[1] as int - 0x80), 2)
    else if b[0] < 0xF0 then
      if |b| < 3 || !IsContinuation(b[1]) || !IsContinuation(b[2]) then None
      else Scalar((b[0] as int - 0xE0) * 4096 + (b[1] as int - 0x80) * 64 + (b[2] as int - 0x80), 3)
    else if b[0] < 0xF8 then
      if |b| < 4 || !IsContinuation(b[1]) || !IsContinuation(b[2]) || !IsContinuation(b[3]) then None
      else Scalar((b[0] as int - 0xF0) * 262144 + (b[1] as int - 0x80) * 4096
                  + (b[2] as int - 0x80) * 64 + (b[3] as int - 0x80), 4)
    else None
  }

  /** `core::str::from_utf8`: the string, or None for ill-formed input. */
  function Decode(b: seq<byte>): Option<string>
    decreases |b|
  {
    if b == [] then Some("")
    else match DecodeChar(b)
      case None => None
      case Some((c, k)) =>
        match Decode(b[k..])
        case None => None
        case Some(rest) => Some([c] + rest)
  }

  lemma DivMod64(q: int, r: int)
    requires 0 <= r < 64
    ensures (q * 64 + r) / 64 == q && (q * 64 + r) % 64 == r
  {
  }

  lemma EncodeCharDecodes(c: char, rest: seq<byte>)
    ensures DecodeChar(EncodeChar(c) + rest) == Some((c, |EncodeChar(c)|))
  {
    var cp := c as int;
    var b := EncodeChar(c) + rest;
    if cp < 0x80 {
    } else if cp < 0x800 {
      DivMod64(cp / 64, cp % 64);
      assert (b[0] as int - 0xC0) * 64 + (b[1] as int - 0x80) == cp;
    } else if cp < 0x10000 {
      var hi := cp / 64;
      DivMod64(hi / 64, hi % 64);
      assert cp / 4096 == hi / 64;
      assert (b[0] as int - 0xE0) * 64 + (b[1] as int - 0x80) == hi;
      assert (b[0] as int - 0xE0) * 4096 + (b[1] as int - 0x80) * 64 + (b[2] as int - 0x80) == cp;
    } else {
      var hi := cp / 64;
      var top := hi / 64;
      assert cp / 4096 == top;
      assert cp / 262144 == top / 64;
      assert (b[0] as int - 0xF0) * 64 + (b[1] as int - 0x80) == top;
      assert (b[0] as int - 0xF0) * 4096 + (b[1] as int - 0x80) * 64 + (b[2] as int - 0x80) == hi;
      assert (b[0] as int - 0xF0) * 262144 + (b[1] as int - 0x80) * 4096
             + (b[2] as int - 0x80) * 64 + (b[3] as int - 0x80) == cp;
    }
  }

  /** The two, three and four 6-bit groups of a code point. */
  lemma Groups2(x0: int, x1: int)
    requires 0 <= x0 && 0 <= x1 < 64
    ensures (x0 * 64 + x1) / 64 == x0 && (x0 * 64 + x1) % 64 == x1
  {
    DivMod64(x0, x1);
  }

  lemma Groups3(x0: int, x1: int, x2: int)
    requires 0 <= x0 && 0 <= x1 < 64 && 0 <= x2 < 64
    ensures var cp := (x0 * 64 + x1) * 64 + x2;
      cp / 4096 == x0 && (cp / 64) % 64 == x1 && cp % 64 == x2
  {
    var cp := (x0 * 64 + x1) * 64 + x2;
    Groups2(x0 * 64 + x1, x2);
    Groups2(x0, x1);
    assert cp / 4096 == (cp / 64) / 64;
  }

  lemma Groups4(x0: int, x1: int, x2: int, x3: int)
    requires 0 <= x0 && 0 <= x1 < 64 && 0 <= x2 < 64 && 0 <= x3 < 64
    ensures var cp := ((x0 * 64 + x1) * 64 + x2) * 64 + x3;
      cp / 262144 == x0 && (cp / 4096) % 64 == x1 && (cp / 64) % 64 == x2 && cp % 64 == x3
  {
    var cp := ((x0 * 64 + x1) * 64 + x2) * 64 + x3;
    Groups2((x0 * 64 + x1) * 64 + x2, x3);
    Groups3(x0, x1, x2);
    assert cp / 262144 == (cp / 64) / 4096;
    assert cp / 4096 == (cp / 64) / 64;
  }

  lemma DecodeCharEncodes(b: seq<byte>)
    requires DecodeChar(b).Some?
    ensures var (c, k) := DecodeChar(b).value; EncodeChar(c) == b[..k]
  {
    var (c, k) := DecodeChar(b).value;
    if b[0] < 0x80 {
    } else if b[0] < 0xE0 {
      var x0, x1 := b[0] as int - 0xC0, b[1] as int - 0x80;
      assert c as int == x0 * 64 + x1;
      Groups2(x0, x1);
      assert EncodeChar(c) == [b[0], b[1]];
    } else if b[0] < 0xF0 {
      var x0, x1, x2 := b[0] as int - 0xE0, b[1] as int - 0x80, b[2] as int - 0x80;
      assert c as int == (x0 * 64 + x1) * 64 + x2;
      Groups3(x0, x1, x2);
      assert EncodeChar(c) == [b[0], b[1], b[2]];
    } else {
      var x0, x1, x2, x3 := b[0] as int - 0xF0, b[1] as int - 0x80, b[2] as int - 0x80, b[3] as int - 0x80;
      assert c as int == ((x0 * 64 + x1) * 64 + x2) * 64 + x3;
      Groups4(x0, x1, x2, x3);
      assert EncodeChar(c) == [b[0], b[1], b[2], b[3]];
    }
  }

  /** Reading back what `as_bytes` wrote gives the same string. */
  lemma {:induction false} DecodeEncode(s: string)
    ensures Decode(Encode(s)) == Some(s)
  {
    if s != [] {
      var e := EncodeChar(s[0]);
      EncodeCharDecodes(s[0], Encode(s[1..]));
      assert (e + Encode(s[1..]))[|e|..] == Encode(s[1..]);
      DecodeEncode(s[1..]);
      assert [s[0]] + s[1..] == s;
    }
  }

  /** Every well-formed byte string is the encoding of what it decodes to. */
  lemma {:induction false} EncodeDecode(b: seq<byte>)
    requires Decode(b).Some?
    ensures Encode(Decode(b).value) == b
    decreases |b|
  {
    if b != [] {
      var (c, k) := DecodeChar(b).value;
      DecodeCharEncodes(b);
      EncodeDecode(b[k..]);
      var s := Decode(b).value;
      assert s == [c] + Decode(b[k..]).value;
      assert s[1..] == Decode(b[k..]).value;
      assert b == b[..k] + b[k..];
    }
  }

  /** A decoded string re-encodes to exactly as many bytes as were read. */
  lemma DecodedLength(b: seq<byte>)
    requires Decode(b).Some?
    ensures |Encode(Decode(b).value)| == |b|
  {
    EncodeDecode(b);
  }

  predicate IsAscii(s: string) {
    forall i :: 0 <= i < |s| ==> s[i] < 128 as char
  }

  /** ASCII text is encoded one byte per character, each byte the character's code. */
  lemma {:induction false} EncodeAscii(s: string)
    requires IsAscii(s)
    ensures |Encode(s)| == |s|
    ensures forall i :: 0 <= i < |s| ==> Encode(s)[i] as int == s[i] as int
  {
    if s != [] {
      EncodeAscii(s[1..]);
      assert Encode(s) == EncodeChar(s[0]) + Encode(s[1..]);
    }
  }
}
