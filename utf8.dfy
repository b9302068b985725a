/** UTF-8, as `encodeURIComponent` uses it to turn characters into bytes and as the
    `application/x-www-form-urlencoded` parser uses it to turn them back. */
module Utf8 {

  type Byte = b: int | 0 <= b < 256

  /** The UTF-8 encoding of one Unicode scalar value: one to four bytes. */
  function EncodeChar(c: char): (bs: seq<Byte>)
    ensures 1 <= |bs| <= 4
  {
    var cp := c as int;
    if cp < 0x80 then [cp]
    else if cp < 0x800 then [0xC0 + cp / 64, 0x80 + cp % 64]
    else if cp < 0x10000 then [0xE0 + cp / 4096, 0x80 + (cp / 64) % 64, 0x80 + cp % 64]
    else [0xF0 + cp / 262144, 0x80 + (cp / 4096) % 64, 0x80 + (cp / 64) % 64, 0x80 + cp % 64]
  }

  function Encode(s: string): seq<Byte>
    decreases |s|
  {
    if s == [] then [] else EncodeChar(s[0]) + Encode(s[1..])
  }

  predicate IsContinuation(b: Byte) {
    0x80 <= b < 0xC0
  }

  const Replacement: char := '\U{FFFD}'

  /** The character that starts `bs` and how many bytes it takes. A byte that does not
      start a well-formed sequence decodes to U+FFFD and is skipped alone. */
  function DecodeOne(bs: seq<Byte>): (r: (char, nat))
    requires |bs| >= 1
    ensures 1 <= r.1 <= |bs|
  {
    var b0: int := bs[0];
    if b0 < 0x80 then (b0 as char, 1)
    else if 0xC2 <= b0 < 0xE0 && |bs| >= 2 && IsContinuation(bs[1]) then
      (((b0 - 0xC0) * 64 + (bs[1] as int - 0x80)) as char, 2)
    else if 0xE0 <= b0 < 0xF0 && |bs| >= 3 && IsContinuation(bs[1]) && IsContinuation(bs[2]) then
      var cp := (b0 - 0xE0) * 4096 + (bs[1] as int - 0x80) * 64 + (bs[2] as int - 0x80);
      if 0x800 <= cp && !(0xD800 <= cp < 0xE000) then (cp as char, 3) else (Replacement, 1)
    else if 0xF0 <= b0 < 0xF5 && |bs| >= 4 && IsContinuation(bs[1]) && IsContinuation(bs[2]) && IsContinuation(bs[3]) then
      var cp := (b0 - 0xF0) * 262144 + (bs[1] as int - 0x80) * 4096 + (bs[2] as int - 0x80) * 64 + (bs[3] as int - 0x80);
      if 0x10000 <= cp < 0x110000 then (cp as char, 4) else (Replacement, 1)
    else (Replacement, 1)
  }

  function Decode(bs: seq<Byte>): string
    decreases |bs|
  {
    if bs == [] then []
    else
      var (c, n) := DecodeOne(bs);
      [c] + Decode(bs[n..])
  }

  /** Decoding the bytes of one character, followed by anything, yields that character
      and consumes exactly its bytes. */
  lemma DecodeOneEncodeChar(c: char, rest: seq<Byte>)
    ensures DecodeOne(EncodeChar(c) + rest) == (c, |EncodeChar(c)|)
  {
    var cp := c as int;
    if cp < 0x80 {
    } else if cp < 0x800 {
      DecodeTwoBytes(c, rest);
    } else if cp < 0x10000 {
      DecodeThreeBytes(c, rest);
    } else {
      DecodeFourBytes(c, rest);
    }
  }

  lemma DecodeTwoBytes(c: char, rest: seq<Byte>)
    requires 0x80 <= c as int < 0x800
    ensures DecodeOne(EncodeChar(c) + rest) == (c, 2)
  {
    var cp := c as int;
    var bs := EncodeChar(c) + rest;
    assert cp == (cp / 64) * 64 + cp % 64;
    assert bs[0] == 0xC0 + cp / 64 && bs[1] == 0x80 + cp % 64;
  }

  lemma DecodeThreeBytes(c: char, rest: seq<Byte>)
    requires 0x800 <= c as int < 0x10000
    ensures DecodeOne(EncodeChar(c) + rest) == (c, 3)
  {
    var cp := c as int;
    var bs := EncodeChar(c) + rest;
    var hi := cp / 4096;
    var mid := (cp / 64) % 64;
    var lo := cp % 64;
    assert cp / 64 == hi * 64 + mid;
    assert cp == (cp / 64) * 64 + lo;
    assert cp == hi * 4096 + mid * 64 + lo;
    assert bs[0] == 0xE0 + hi && bs[1] == 0x80 + mid && bs[2] == 0x80 + lo;
  }

  lemma DecodeFourBytes(c: char, rest: seq<Byte>)
    requires 0x10000 <= c as int
    ensures DecodeOne(EncodeChar(c) + rest) == (c, 4)
  {
    var cp := c as int;
    var bs := EncodeChar(c) + rest;
    var top := cp / 262144;
    var hi := (cp / 4096) % 64;
    var mid := (cp / 64) % 64;
    var lo := cp % 64;
    assert cp / 4096 == top * 64 + hi;
    assert cp / 64 == (cp / 4096) * 64 + mid;
    assert cp == (cp / 64) * 64 + lo;
    assert cp == top * 262144 + hi * 4096 + mid * 64 + lo;
    assert bs[0] == 0xF0 + top && bs[1] == 0x80 + hi && bs[2] == 0x80 + mid && bs[3] == 0x80 + lo;
  }

  /** Decoding the UTF-8 encoding of a string gives back the string. */
  lemma {:induction false} DecodeEncode(s: string)
    ensures Decode(Encode(s)) == s
    decreases |s|
  {
    if s != [] {
      var e := EncodeChar(s[0]);
      DecodeOneEncodeChar(s[0], Encode(s[1..]));
      assert (e + Encode(s[1..]))[|e|..] == Encode(s[1..]);
      DecodeEncode(s[1..]);
      assert s == [s[0]] + s[1..];
    }
  }

  /** An ASCII string encodes to its own character codes. */
  lemma {:induction false} EncodeAscii(s: string)
    requires forall i :: 0 <= i < |s| ==> s[i] as int < 0x80
    ensures |Encode(s)| == |s|
    ensures forall i :: 0 <= i < |s| ==> Encode(s)[i] == s[i] as int
    decreases |s|
  {
    if s != [] {
      EncodeAscii(s[1..]);
    }
  }
}
