/**
 Bytes, and Python's `str.encode()` (UTF-8), which turns the configured
 webhook secret into the HMAC key.
 */
module Utf8 {

  newtype byte = x: int | 0 <= x < 256

  /** A character is ASCII when its code point is below 0x80. */
  predicate IsAsciiChar(c: char) {
    (c as int) < 0x80
  }

  predicate IsAscii(s: string) {
    forall i :: 0 <= i < |s| ==> IsAsciiChar(s[i])
  }

  /** A continuation byte, `10xxxxxx`. */
  predicate IsContinuation(b: byte) {
    0x80 <= b < 0xC0
  }

  /**
   The UTF-8 encoding of one code point: one byte below 0x80, then two, three
   or four bytes, a lead byte followed by continuation bytes.
   */
  function EncodeChar(c: char): (r: seq<byte>)
    ensures 1 <= |r| <= 4
    ensures |r| == 1 <==> IsAsciiChar(c)
    ensures |r| == 1 ==> r[0] as int == c as int
    ensures !IsContinuation(r[0])
    ensures forall i :: 1 <= i < |r| ==> IsContinuation(r[i])
    ensures |r| == LengthFromLead(r[0])
  {
    var n := c as int;
    if n < 0x80 then [n as byte]
    else if n < 0x800 then [(0xC0 + n / 64) as byte, (0x80 + n % 64) as byte]
    else if n < 0x10000 then
      [(0xE0 + n / 4096) as byte, (0x80 + (n / 64) % 64) as byte, (0x80 + n % 64) as byte]
    else
      [(0xF0 + n / 262144) as byte, (0x80 + (n / 4096) % 64) as byte,
       (0x80 + (n / 64) % 64) as byte, (0x80 + n % 64) as byte]
  }

  /** How many bytes a character's encoding takes, read off its lead byte. */
  function LengthFromLead(b: byte): nat {
    if b < 0x80 then 1 else if b < 0xE0 then 2 else if b < 0xF0 then 3 else 4
  }

  /** The code point a lead byte and its continuation bytes spell. */
  function DecodeChar(bs: seq<byte>): int
    requires 1 <= |bs| <= 4
  {
    if |bs| == 1 then bs[0] as int
    else if |bs| == 2 then (bs[0] as int - 0xC0) * 64 + (bs[1] as int - 0x80)
    else if |bs| == 3 then
      (bs[0] as int - 0xE0) * 4096 + (bs[1] as int - 0x80) * 64 + (bs[2] as int - 0x80)
    else
      (bs[0] as int - 0xF0) * 262144 + (bs[1] as int - 0x80) * 4096
      + (bs[2] as int - 0x80) * 64 + (bs[3] as int - 0x80)
  }

  /** Decoding a character's encoding gives its code point back, so no two characters share one. */
  lemma DecodeEncodeChar(c: char)
    ensures DecodeChar(EncodeChar(c)) == c as int
  {
    var n := c as int;
    if n >= 0x10000 {
      assert n == (n / 262144) * 262144 + ((n / 4096) % 64) * 4096 + ((n / 64) % 64) * 64 + n % 64;
    } else if n >= 0x800 {
      assert n == (n / 4096) * 4096 + ((n / 64) % 64) * 64 + n % 64;
    }
  }

  /** `s.encode()`: the characters' encodings, concatenated. */
  function Utf8Encode(s: string): (r: seq<byte>)
    ensures |s| <= |r| <= 4 * |s|
  {
    if |s| == 0 then [] else EncodeChar(s[0]) + Utf8Encode(s[1..])
  }

  /** An ASCII string encodes byte for byte. */
  lemma {:induction false} AsciiEncodesBytewise(s: string)
    ensures IsAscii(s) ==> |Utf8Encode(s)| == |s|
    ensures IsAscii(s) ==> forall i :: 0 <= i < |s| ==> Utf8Encode(s)[i] as int == s[i] as int
  {
    if |s| > 0 && IsAscii(s) {
      assert IsAscii(s[1..]) by {
        forall i | 0 <= i < |s| - 1 ensures IsAsciiChar(s[1..][i]) {
          assert s[1..][i] == s[i + 1];
        }
      }
      AsciiEncodesBytewise(s[1..]);
      forall i | 0 <= i < |s|
        ensures Utf8Encode(s)[i] as int == s[i] as int
      {
        if i > 0 {
          assert Utf8Encode(s)[i] == Utf8Encode(s[1..])[i - 1];
        }
      }
    }
  }

  /** Different strings have different encodings: no two secrets share a key. */
  lemma {:induction false} Utf8EncodeInjective(s1: string, s2: string)
    requires Utf8Encode(s1) == Utf8Encode(s2)
    ensures s1 == s2
  {
    var e := Utf8Encode(s1);
    if |s1| == 0 || |s2| == 0 {
      assert |e| == 0;
    } else {
      var e1, e2 := EncodeChar(s1[0]), EncodeChar(s2[0]);
      assert e == e1 + Utf8Encode(s1[1..]) && e == e2 + Utf8Encode(s2[1..]);
      assert e1[0] == e[0] == e2[0];
      assert e1 == e[..|e1|] == e2;
      DecodeEncodeChar(s1[0]);
      DecodeEncodeChar(s2[0]);
      assert Utf8Encode(s1[1..]) == e[|e1|..] == Utf8Encode(s2[1..]);
      Utf8EncodeInjective(s1[1..], s2[1..]);
      assert s1 == [s1[0]] + s1[1..] && s2 == [s2[0]] + s2[1..];
    }
  }
}
