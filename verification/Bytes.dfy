// Byte strings and UTF-8 (RFC 3629), the form in which frames travel.
module Bytes {
  import opened Text

  type byte = b: int | 0 <= b < 256

  type bytes = seq<byte>

  /** U+007F. */
  const DELETE: byte := 127

  function Ascii(s: string): (r: bytes)
    requires forall i :: 0 <= i < |s| ==> s[i] < 128 as char
    ensures |r| == |s|
    ensures forall i :: 0 <= i < |s| ==> r[i] == s[i] as int
  {
    seq(|s|, i requires 0 <= i < |s| => s[i] as byte)
  }

  /** Length of the well-formed character a byte string begins with, 0 if there is none. */
  function CharLen(s: bytes): nat {
    if s == [] then 0
    else if s[0] < 0x80 then 1
    else if 0xC2 <= s[0] <= 0xDF then (if Continues(s, 1, 0x80, 0xBF) then 2 else 0)
    else if 0xE0 <= s[0] <= 0xEF then
      (if Continues(s, 1, if s[0] == 0xE0 then 0xA0 else 0x80, if s[0] == 0xED then 0x9F else 0xBF)
          && Continues(s, 2, 0x80, 0xBF) then 3 else 0)
    else if 0xF0 <= s[0] <= 0xF4 then
      (if Continues(s, 1, if s[0] == 0xF0 then 0x90 else 0x80, if s[0] == 0xF4 then 0x8F else 0xBF)
          && Continues(s, 2, 0x80, 0xBF) && Continues(s, 3, 0x80, 0xBF) then 4 else 0)
    else 0
  }

  predicate Continues(s: bytes, i: nat, lo: int, hi: int) { i < |s| && lo <= s[i] <= hi }

  predicate ValidUtf8(s: bytes)
    decreases |s|
  {
    s == [] || (CharLen(s) > 0 && ValidUtf8(s[CharLen(s)..]))
  }

  lemma CharLenOfConcat(s: bytes, t: bytes)
    requires CharLen(s) > 0
    ensures CharLen(s) <= |s| && CharLen(s + t) == CharLen(s)
    ensures forall i :: 0 < i < CharLen(s) ==> s[i] >= 0x80
    ensures CharLen(s) > 1 ==> s[0] >= 0x80
  {
  }

  lemma {:induction false} Utf8Concat(s: bytes, t: bytes)
    requires ValidUtf8(s) && ValidUtf8(t)
    ensures ValidUtf8(s + t)
    decreases |s|
  {
    if s == [] {
      assert s + t == t;
    } else {
      var k := CharLen(s);
      CharLenOfConcat(s, t);
      Utf8Concat(s[k..], t);
      assert (s + t)[k..] == s[k..] + t;
    }
  }

  lemma {:induction false} AsciiIsUtf8(s: bytes)
    requires forall i :: 0 <= i < |s| ==> s[i] < 0x80
    ensures ValidUtf8(s)
  {
    if s != [] { AsciiIsUtf8(s[1..]); }
  }

  /** The UTF-8 form of a Unicode scalar value. */
  function EncodeChar(n: nat): bytes
    requires n < 0x110000
  {
    if n < 0x80 then [n]
    else if n < 0x800 then [0xC0 + n / 64, 0x80 + n % 64]
    else if n < 0x10000 then [0xE0 + n / 4096, 0x80 + n / 64 % 64, 0x80 + n % 64]
    else [0xF0 + n / 262144, 0x80 + n / 4096 % 64, 0x80 + n / 64 % 64, 0x80 + n % 64]
  }
}
