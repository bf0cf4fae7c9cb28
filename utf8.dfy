/** UTF-8 as Python's `str.encode()` and strict `bytes.decode()` use it. */
module Utf8 {
  import opened Base

  predicate IsContinuation(b: byte) {
    0x80 <= b <= 0xBF
  }

  /** The bytes of one character. */
  function EncodeChar(c: char): (bs: seq<byte>)
    ensures 1 <= |bs| <= 4
  {
    var cp := c as int;
    if cp < 0x80 then
      [cp as byte]
    else if cp < 0x800 then
      [(0xC0 + cp / 64) as byte, (0x80 + cp % 64) as byte]
    else if cp < 0x10000 then
      [(0xE0 + cp / 4096) as byte, (0x80 + (cp / 64) % 64) as byte, (0x80 + cp % 64) as byte]
    else
      [(0xF0 + cp / 262144) as byte, (0x80 + (cp / 4096) % 64) as byte,
       (0x80 + (cp / 64) % 64) as byte, (0x80 + cp % 64) as byte]
  }

  /** Python's `s.encode("utf-8")`. */
  function Encode(s: string): seq<byte> {
    if s == [] then [] else EncodeChar(s[0]) + Encode(s[1..])
  }

  /** Length of the well-formed sequence that starts `bs`, or 0 when `bs` does
      not start with one (the ranges of the Unicode standard, table 3-7). */
  function LeadLength(bs: seq<byte>): (k: nat)
    ensures k <= |bs| && k <= 4
  {
    if |bs| == 0 then 0
    else
      var b0 := bs[0];
      if b0 < 0x80 then 1
      else if 0xC2 <= b0 <= 0xDF then
        if |bs| >= 2 && IsContinuation(bs[1]) then 2 else 0
      else if 0xE0 <= b0 <= 0xEF then
        var lo: byte := if b0 == 0xE0 then 0xA0 else 0x80;
        var hi: byte := if b0 == 0xED then 0x9F else 0xBF;
        if |bs| >= 3 && lo <= bs[1] <= hi && IsContinuation(bs[2]) then 3 else 0
      else if 0xF0 <= b0 <= 0xF4 then
        var lo: byte := if b0 == 0xF0 then 0x90 else 0x80;
        var hi: byte := if b0 == 0xF4 then 0x8F else 0xBF;
        if |bs| >= 4 && lo <= bs[1] <= hi && IsContinuation(bs[2]) && IsContinuation(bs[3])
        then 4 else 0
      else 0
  }

  /** The character a well-formed sequence of `LeadLength(bs)` bytes stands for. */
  function LeadChar(bs: seq<byte>): char
    requires LeadLength(bs) > 0
  {
    var b0 := bs[0] as int;
    if b0 < 0x80 then b0 as char
    else if b0 < 0xE0 then
      ((b0 - 0xC0) * 64 + (bs[1] as int - 0x80)) as char
    else if b0 < 0xF0 then
      ((b0 - 0xE0) * 4096 + (bs[1] as int - 0x80) * 64 + (bs[2] as int - 0x80)) as char
    else
      ((b0 - 0xF0) * 262144 + (bs[1] as int - 0x80) * 4096
        + (bs[2] as int - 0x80) * 64 + (bs[3] as int - 0x80)) as char
  }

  /** Python's strict `bs.decode()`: None stands for UnicodeDecodeError. */
  function Decode(bs: seq<byte>): Option<string>
    decreases |bs|
  {
    if bs == [] then Some("")
    else
      var k := LeadLength(bs);
      if k == 0 then None
      else match Decode(bs[k..])
        case None => None
        case Some(rest) => Some([LeadChar(bs)] + rest)
  }

  /** The bytes of one character form one well-formed sequence that decodes back to it. */
  lemma EncodeCharDecodes(c: char, tail: seq<byte>)
    ensures LeadLength(EncodeChar(c) + tail) == |EncodeChar(c)|
    ensures LeadChar(EncodeChar(c) + tail) == c
  {
    var cp := c as int;
    if cp < 0x80 {
    } else if cp < 0x800 {
      TwoBytes(c, tail);
    } else if cp < 0x10000 {
      ThreeBytes(c, tail);
    } else {
      FourBytes(c, tail);
    }
  }

  lemma TwoBytes(c: char, tail: seq<byte>)
    requires 0x80 <= c as int < 0x800
    ensures LeadLength(EncodeChar(c) + tail) == 2
    ensures LeadChar(EncodeChar(c) + tail) == c
  {
    var cp := c as int;
    var bs := EncodeChar(c) + tail;
    var d0, d1 := cp / 64, cp % 64;
    assert 2 <= d0 < 32 && 0 <= d1 < 64;
    assert bs[0] as int == 0xC0 + d0;
    assert bs[1] as int == 0x80 + d1;
    assert cp == d0 * 64 + d1;
  }

  lemma ThreeBytes(c: char, tail: seq<byte>)
    requires 0x800 <= c as int < 0x10000
    ensures LeadLength(EncodeChar(c) + tail) == 3
    ensures LeadChar(EncodeChar(c) + tail) == c
  {
    var cp := c as int;
    var bs := EncodeChar(c) + tail;
    var d0, d1, d2 := cp / 4096, (cp / 64) % 64, cp % 64;
    assert 0 <= d0 < 16 && 0 <= d1 < 64 && 0 <= d2 < 64;
    assert cp == d0 * 4096 + d1 * 64 + d2;
    assert d0 == 0 ==> d1 >= 32;
    assert d0 == 13 ==> d1 < 32;
    assert bs[0] as int == 0xE0 + d0;
    assert bs[1] as int == 0x80 + d1;
    assert bs[2] as int == 0x80 + d2;
  }

  lemma FourBytes(c: char, tail: seq<byte>)
    requires 0x10000 <= c as int
    ensures LeadLength(EncodeChar(c) + tail) == 4
    ensures LeadChar(EncodeChar(c) + tail) == c
  {
    var cp := c as int;
    var bs := EncodeChar(c) + tail;
    var d0, d1, d2, d3 := cp / 262144, (cp / 4096) % 64, (cp / 64) % 64, cp % 64;
    FourDigits(cp, d0, d1, d2, d3);
    assert bs[0] as int == 0xF0 + d0;
    assert bs[1] as int == 0x80 + d1;
    assert bs[2] as int == 0x80 + d2;
    assert bs[3] as int == 0x80 + d3;
  }

  /** The base-64 digits of a code point beyond the Basic Multilingual Plane. */
  lemma FourDigits(cp: int, d0: int, d1: int, d2: int, d3: int)
    requires 0x10000 <= cp < 0x110000
    requires d0 == cp / 262144 && d1 == (cp / 4096) % 64 && d2 == (cp / 64) % 64 && d3 == cp % 64
    ensures 0 <= d0 <= 4 && 0 <= d1 < 64 && 0 <= d2 < 64 && 0 <= d3 < 64
    ensures cp == d0 * 262144 + d1 * 4096 + d2 * 64 + d3
    ensures d0 == 0 ==> d1 >= 16
    ensures d0 == 4 ==> d1 < 16
  {
    var q := cp / 64;
    var r := q / 64;
    assert cp == q * 64 + d3;
    assert q == r * 64 + d2;
    assert r == d0 * 64 + d1;
  }

  /** Decoding undoes encoding: every string survives a trip through the serial line. */
  lemma {:induction false} DecodeEncode(s: string)
    ensures Decode(Encode(s)) == Some(s)
  {
    if s != [] {
      var head := EncodeChar(s[0]);
      var tail := Encode(s[1..]);
      EncodeCharDecodes(s[0], tail);
      assert (head + tail)[|head|..] == tail;
      DecodeEncode(s[1..]);
      assert s == [s[0]] + s[1..];
    }
  }

  /** A byte outside the ASCII range can never be decoded on its own; this is why
      reading a socket one byte at a time only ever yields ASCII characters. */
  lemma SingleByteDecodes(b: byte)
    ensures Decode([b]).Some? <==> b < 0x80
    ensures b < 0x80 ==> Decode([b]) == Some([b as int as char])
  {
    assert [b][1..] == [];
    assert Decode([]) == Some("");
    if b < 0x80 {
      assert LeadLength([b]) == 1;
      assert LeadChar([b]) == b as int as char;
      assert Decode([b]) == Some([LeadChar([b])] + "");
      assert [LeadChar([b])] + "" == [b as int as char];
    } else {
      assert LeadLength([b]) == 0;
    }
  }
}
