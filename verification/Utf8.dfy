/** What the UTF-8 test accepts: exactly the encodings of sequences of code points. */
module Utf8 {
  import opened Percent

  /** The code points that have an encoding (RFC 3629, section 3): no surrogates. */
  predicate Scalar(p: nat) { p < 0xD800 || 0xE000 <= p < 0x110000 }

  predicate AllScalar(points: seq<nat>) { forall p | p in points :: Scalar(p) }

  /** A continuation byte with six bits. */
  function Tail(bits: nat): char
    requires bits < 64
  {
    (0x80 + bits) as char
  }

  function EncodePoint(p: nat): string
    requires Scalar(p)
  {
    if p < 0x80 then [p as char]
    else if p < 0x800 then [(0xC0 + p / 64) as char, Tail(p % 64)]
    else if p < 0x10000 then [(0xE0 + p / 4096) as char, Tail(p / 64 % 64), Tail(p % 64)]
    else [(0xF0 + p / 262144) as char, Tail(p / 4096 % 64), Tail(p / 64 % 64), Tail(p % 64)]
  }

  function EncodePoints(points: seq<nat>): string
    requires AllScalar(points)
  {
    if points == [] then "" else EncodePoint(points[0]) + EncodePoints(points[1..])
  }

  lemma {:induction false} PointIsSequence(p: nat, rest: string)
    requires Scalar(p)
    ensures SequenceLength(EncodePoint(p) + rest) == |EncodePoint(p)| > 0
  {
    var s := EncodePoint(p) + rest;
    if p < 0x80 {
      assert s[0] == p as char;
    } else if p < 0x800 {
      TwoRead(s, p / 64, p % 64);
    } else if p < 0x10000 {
      ThreeRead(s, p / 4096, p / 64 % 64, p % 64);
    } else {
      FourRead(s, p / 262144, p / 4096 % 64, p / 64 % 64, p % 64);
    }
  }

  lemma TwoRead(s: string, a: nat, b: nat)
    requires 2 <= a < 32 && b < 64 && |s| >= 2 && s[0] == (0xC0 + a) as char && s[1] == Tail(b)
    ensures SequenceLength(s) == 2
  {
  }

  lemma ThreeRead(s: string, a: nat, b: nat, c: nat)
    requires a < 16 && b < 64 && c < 64 && |s| >= 3
    requires s[0] == (0xE0 + a) as char && s[1] == Tail(b) && s[2] == Tail(c)
    requires (a == 0 ==> b >= 32) && (a == 13 ==> b < 32)
    ensures SequenceLength(s) == 3
  {
  }

  lemma FourRead(s: string, a: nat, b: nat, c: nat, d: nat)
    requires a <= 4 && b < 64 && c < 64 && d < 64 && |s| >= 4
    requires s[0] == (0xF0 + a) as char && s[1] == Tail(b) && s[2] == Tail(c) && s[3] == Tail(d)
    requires (a == 0 ==> b >= 16) && (a == 4 ==> b < 16)
    ensures SequenceLength(s) == 4
  {
  }

  /** Three digits in base 64. */
  lemma Digits(a: nat, b: nat, c: nat)
    requires b < 64 && c < 64
    ensures var p := (a * 64 + b) * 64 + c; p / 4096 == a && p / 64 % 64 == b && p % 64 == c && p / 64 == a * 64 + b
  {
  }

  lemma SequenceIsPoint(s: string) returns (p: nat)
    requires SequenceLength(s) > 0
    ensures Scalar(p) && EncodePoint(p) == s[..SequenceLength(s)]
  {
    var n, b := SequenceLength(s), s[0] as nat;
    if n == 1 {
      p := b;
    } else if n == 2 {
      p := (b - 0xC0) * 64 + (s[1] as nat - 0x80);
    } else if n == 3 {
      p := ThreeBytes(s);
    } else {
      p := FourBytes(s);
    }
  }

  lemma ThreeBytes(s: string) returns (p: nat)
    requires SequenceLength(s) == 3
    ensures Scalar(p) && EncodePoint(p) == s[..3]
  {
    var b, c, d := s[0] as nat - 0xE0, s[1] as nat - 0x80, s[2] as nat - 0x80;
    p := (b * 64 + c) * 64 + d;
    Digits(b, c, d);
  }

  lemma FourBytes(s: string) returns (p: nat)
    requires SequenceLength(s) == 4
    ensures Scalar(p) && EncodePoint(p) == s[..4]
  {
    var b, c, d, e := s[0] as nat - 0xF0, s[1] as nat - 0x80, s[2] as nat - 0x80, s[3] as nat - 0x80;
    var q := b * 64 + c;
    p := (q * 64 + d) * 64 + e;
    Digits(q, d, e);
    assert q / 64 == b && q % 64 == c;
    assert p / 262144 == p / 4096 / 64;
  }

  /** The test accepts the encodings of code points, and nothing else. */
  lemma ValidIff(s: string)
    ensures ValidUtf8(s) <==> exists points :: AllScalar(points) && EncodePoints(points) == s
  {
    if ValidUtf8(s) { var points := PointsOf(s); }
    forall points | AllScalar(points) && EncodePoints(points) == s ensures ValidUtf8(s) {
      EncodingIsValid(points);
    }
  }

  lemma {:induction false} EncodingIsValid(points: seq<nat>)
    requires AllScalar(points)
    ensures ValidUtf8(EncodePoints(points))
  {
    if points != [] {
      var first, rest := EncodePoint(points[0]), EncodePoints(points[1..]);
      EncodingIsValid(points[1..]);
      PointIsSequence(points[0], rest);
      assert (first + rest)[|first|..] == rest;
    }
  }

  lemma {:induction false} PointsOf(s: string) returns (points: seq<nat>)
    requires ValidUtf8(s)
    ensures AllScalar(points) && EncodePoints(points) == s
    decreases |s|
  {
    points := [];
    if s != "" {
      var n := SequenceLength(s);
      var p := SequenceIsPoint(s);
      var rest := PointsOf(s[n..]);
      PointsCons(p, rest);
      points := [p] + rest;
      Rejoined(s, n);
    }
  }

  lemma Rejoined(s: string, n: nat)
    requires n <= |s|
    ensures s[..n] + s[n..] == s
  {
  }

  lemma {:induction false} PointsCons(p: nat, points: seq<nat>)
    requires Scalar(p) && AllScalar(points)
    ensures AllScalar([p] + points) && EncodePoints([p] + points) == EncodePoint(p) + EncodePoints(points)
  {
    assert ([p] + points)[1..] == points;
  }
}
