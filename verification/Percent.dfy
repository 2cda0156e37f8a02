/**
 Percent-encoding (RFC 3986, section 2.1) over byte strings, written as strings whose characters
 stand for bytes, and the UTF-8 test that decides whether a decoded string is kept.
 */
module Percent {
  predicate IsHex(c: char) { '0' <= c <= '9' || 'a' <= c <= 'f' || 'A' <= c <= 'F' }

  function HexValue(c: char): nat
    requires IsHex(c)
  {
    if c <= '9' then c as nat - '0' as nat else if c <= 'F' then c as nat - 'A' as nat + 10
      else c as nat - 'a' as nat + 10
  }

  function HexDigit(n: nat): (c: char)
    requires n < 16
    ensures IsHex(c) && HexValue(c) == n
  {
    if n < 10 then '0' + n as char else 'A' + (n - 10) as char
  }

  /** Each % with two hex digits becomes a byte; any other % stays. */
  function Decode(s: string): string {
    if s == "" then ""
    else if s[0] == '%' && |s| >= 3 && IsHex(s[1]) && IsHex(s[2]) then
      [(16 * HexValue(s[1]) + HexValue(s[2])) as char] + Decode(s[3..])
    else [s[0]] + Decode(s[1..])
  }

  predicate Unreserved(c: char) {
    '0' <= c <= '9' || 'a' <= c <= 'z' || 'A' <= c <= 'Z' || c == '-' || c == '.' || c == '_' || c == '~'
  }

  predicate IsBytes(s: string) { forall i :: 0 <= i < |s| ==> s[i] as nat < 256 }

  function EncodeByte(c: char): string
    requires c as nat < 256
  {
    if Unreserved(c) || c == '/' then [c] else ['%', HexDigit(c as nat / 16), HexDigit(c as nat % 16)]
  }

  /** A path as a server writes it into an href. */
  function Encode(s: string): string
    requires IsBytes(s)
  {
    if s == "" then "" else EncodeByte(s[0]) + Encode(s[1..])
  }

  predicate HrefChar(c: char) { Unreserved(c) || c == '/' || c == '%' }

  lemma {:induction false} EncodedChars(s: string)
    requires IsBytes(s)
    ensures forall i :: 0 <= i < |Encode(s)| ==> HrefChar(Encode(s)[i])
    ensures s != "" ==> Encode(s) != "" && (Encode(s)[|Encode(s)| - 1] == '/' <==> s[|s| - 1] == '/')
  {
    if s != "" { EncodedChars(s[1..]); }
  }

  lemma {:induction false} DecodeByte(c: char, rest: string)
    requires c as nat < 256
    ensures Decode(EncodeByte(c) + rest) == [c] + Decode(rest)
  {
    var head := EncodeByte(c);
    assert (head + rest)[|head|..] == rest;
    assert (16 * (c as nat / 16) + c as nat % 16) as char == c;
  }

  lemma {:induction false} DecodeEncode(s: string)
    requires IsBytes(s)
    ensures Decode(Encode(s)) == s
  {
    if s != "" {
      DecodeEncode(s[1..]);
      DecodeByte(s[0], Encode(s[1..]));
    }
  }

  // ----- UTF-8 -----

  predicate Cont(s: string, i: nat) { i < |s| && 0x80 <= s[i] as nat <= 0xBF }

  /** The length of the well-formed sequence that `s` starts with, 0 if there is none (RFC 3629, section 4). */
  function SequenceLength(s: string): (n: nat)
    ensures n <= |s| && n <= 4
  {
    if s == "" then 0
    else
      var b := s[0] as nat;
      if b < 0x80 then 1
      else if 0xC2 <= b <= 0xDF && Cont(s, 1) then 2
      else if 0xE0 <= b <= 0xEF && Cont(s, 1) && Cont(s, 2)
        && (b == 0xE0 ==> s[1] as nat >= 0xA0) && (b == 0xED ==> s[1] as nat <= 0x9F) then 3
      else if 0xF0 <= b <= 0xF4 && Cont(s, 1) && Cont(s, 2) && Cont(s, 3)
        && (b == 0xF0 ==> s[1] as nat >= 0x90) && (b == 0xF4 ==> s[1] as nat <= 0x8F) then 4
      else 0
  }

  predicate ValidUtf8(s: string) { s == "" || (SequenceLength(s) > 0 && ValidUtf8(s[SequenceLength(s)..])) }

  lemma {:induction false} ValidUtf8Append(a: string, b: string)
    requires ValidUtf8(a) && ValidUtf8(b)
    ensures ValidUtf8(a + b)
    decreases |a|
  {
    if a == "" {
      assert a + b == b;
    } else {
      var n := SequenceLength(a);
      assert SequenceLength(a + b) == n;
      assert (a + b)[n..] == a[n..] + b;
      ValidUtf8Append(a[n..], b);
    }
  }

  lemma {:induction false} ValidUtf8Bytes(s: string)
    requires ValidUtf8(s)
    ensures IsBytes(s)
    decreases |s|
  {
    if s != "" {
      var n := SequenceLength(s);
      ValidUtf8Bytes(s[n..]);
      assert forall i :: n <= i < |s| ==> s[i] == s[n..][i - n];
    }
  }

  /** The decoded string, or the string itself where decoding gives no valid text. */
  function DecodeOrKeep(s: string): string { if ValidUtf8(Decode(s)) then Decode(s) else s }
}
