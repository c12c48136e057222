/** Cutting UTF-8 text to a number of bytes without breaking a character. */
module Utf8 {
  import opened Texts

  predicate Tail(b: Byte) { 0x80 <= b <= 0xBF }

  /** The second byte a character may have after a first byte of three or four
      (section 4 of RFC 3629). */
  predicate Second(first: Byte, b: Byte) {
    if first == 0xE0 then 0xA0 <= b <= 0xBF
    else if first == 0xED then 0x80 <= b <= 0x9F
    else if first == 0xF0 then 0x90 <= b <= 0xBF
    else if first == 0xF4 then 0x80 <= b <= 0x8F
    else Tail(b)
  }

  /** The length of the character that the bytes start with, or 0 if it is malformed. */
  function CharLength(s: seq<Byte>): (n: nat)
    ensures n <= 4 && n <= |s|
  {
    if s == [] then 0
    else if s[0] < 0x80 then 1
    else if 0xC2 <= s[0] <= 0xDF && |s| >= 2 && Tail(s[1]) then 2
    else if 0xE0 <= s[0] <= 0xEF && |s| >= 3 && Second(s[0], s[1]) && Tail(s[2]) then 3
    else if 0xF0 <= s[0] <= 0xF4 && |s| >= 4 && Second(s[0], s[1]) && Tail(s[2]) && Tail(s[3]) then 4
    else 0
  }

  predicate ValidUtf8(s: seq<Byte>) {
    s == [] || (CharLength(s) > 0 && ValidUtf8(s[CharLength(s)..]))
  }

  /** The longest valid prefix of at most n bytes. */
  function LongestValid(s: seq<Byte>, n: nat): (r: seq<Byte>)
    requires n <= |s|
    ensures |r| <= n && r == s[..|r|] && ValidUtf8(r)
    ensures forall k :: |r| < k <= n ==> !ValidUtf8(s[..k])
  {
    if ValidUtf8(s[..n]) then s[..n] else LongestValid(s, n - 1)
  }

  function Truncated(value: seq<Byte>, maxBytes: int): seq<Byte> {
    if maxBytes <= 0 then []
    else if |value| <= maxBytes then value
    else LongestValid(value, maxBytes)
  }

  method TruncateUtf8(value: seq<Byte>, maxBytes: int) returns (r: seq<Byte>)
    ensures r == Truncated(value, maxBytes)
  {
    if maxBytes <= 0 {
      return [];
    }
    if |value| <= maxBytes {
      return value;
    }
    r := value[..maxBytes];
    while !ValidUtf8(r)
      invariant |r| <= maxBytes && r == value[..|r|]
      invariant LongestValid(value, maxBytes) == LongestValid(value, |r|)
      decreases |r|
    {
      r := r[..|r| - 1];
    }
  }

  /** The last character boundary of valid text within a limit is at most three bytes
      below it. */
  lemma {:induction false} BoundaryIsNear(s: seq<Byte>, limit: nat) returns (k: nat)
    requires ValidUtf8(s) && limit <= |s|
    ensures k <= limit <= k + 3 && ValidUtf8(s[..k])
    decreases |s|
  {
    var n := CharLength(s);
    if limit == 0 || n > limit {
      k := 0;
    } else {
      var rest := BoundaryIsNear(s[n..], limit - n);
      k := n + rest;
      assert CharLength(s[..k]) == n;
      assert s[..k][n..] == s[n..][..rest];
    }
  }

  /** Valid text that is cut loses at most three bytes below the limit; the result is
      its longest valid prefix within the limit. */
  lemma TruncationIsTight(value: seq<Byte>, maxBytes: int)
    requires ValidUtf8(value)
    ensures var r := Truncated(value, maxBytes);
      && ValidUtf8(r) && r <= value
      && (maxBytes >= 0 ==> |r| <= maxBytes)
      && (forall k :: |r| < k <= |value| && k <= maxBytes ==> !ValidUtf8(value[..k]))
      && (|r| < |value| ==> |r| >= maxBytes - 3)
  {
    if 0 < maxBytes < |value| {
      var k := BoundaryIsNear(value, maxBytes);
    }
  }

  // --------------------------------------- what valid text is, the other way

  /** A character that text can hold: a code point that is no surrogate. */
  predicate Scalar(c: nat) { c < 0x11_0000 && !(0xD800 <= c < 0xE000) }

  /** Its bytes (section 3 of RFC 3629). */
  function EncodeScalar(c: nat): seq<Byte>
    requires Scalar(c)
  {
    if c < 0x80 then [c]
    else if c < 0x800 then [0xC0 + c / 0x40, 0x80 + c % 0x40]
    else if c < 0x1_0000 then [0xE0 + c / 0x1000, 0x80 + c / 0x40 % 0x40, 0x80 + c % 0x40]
    else [0xF0 + c / 0x4_0000, 0x80 + c / 0x1000 % 0x40, 0x80 + c / 0x40 % 0x40, 0x80 + c % 0x40]
  }

  function EncodeText(text: seq<nat>): seq<Byte>
    requires forall c :: c in text ==> Scalar(c)
  {
    if text == [] then [] else EncodeScalar(text[0]) + EncodeText(text[1..])
  }

  lemma ThreeParts(c: nat)
    requires 0x800 <= c < 0x1_0000
    ensures var a, b := c / 0x1000, c / 0x40 % 0x40;
      a < 0x10 && (a == 0 ==> b >= 0x20) && (c < 0xD800 || c >= 0xE000 ==> a == 0xD ==> b < 0x20)
  {
    assert c / 0x40 == 0x40 * (c / 0x1000) + c / 0x40 % 0x40;
  }

  lemma FourParts(c: nat)
    requires 0x1_0000 <= c < 0x11_0000
    ensures var a, b := c / 0x4_0000, c / 0x1000 % 0x40;
      a <= 4 && (a == 0 ==> b >= 0x10) && (a == 4 ==> b < 0x10)
  {
    assert c / 0x1000 == 0x40 * (c / 0x4_0000) + c / 0x1000 % 0x40;
  }

  lemma ScalarHasLength(c: nat, rest: seq<Byte>)
    requires Scalar(c)
    ensures EncodeScalar(c) != [] && CharLength(EncodeScalar(c) + rest) == |EncodeScalar(c)|
  {
    if 0x800 <= c < 0x1_0000 {
      ThreeParts(c);
    } else if c >= 0x1_0000 {
      FourParts(c);
    }
  }

  /** The bits that a byte adds to a character. */
  function Part(b: Byte, base: int): int { b as int - base }

  lemma TwoFit(c: nat, a: nat, b: nat)
    requires c == a * 0x40 + b && b < 0x40
    ensures c / 0x40 == a && c % 0x40 == b
  {
  }

  lemma ThreeBytes(a: nat, b: nat, d: nat) returns (c: nat)
    requires a < 0x10 && b < 0x40 && d < 0x40
    ensures c / 0x1000 == a && c / 0x40 % 0x40 == b && c % 0x40 == d && c == a * 0x1000 + b * 0x40 + d
  {
    var high := a * 0x40 + b;
    c := high * 0x40 + d;
    TwoFit(high, a, b);
    TwoFit(c, high, d);
  }

  lemma FourBytes(a: nat, b: nat, d: nat, e: nat) returns (c: nat)
    requires a < 0x8 && b < 0x40 && d < 0x40 && e < 0x40
    ensures c / 0x4_0000 == a && c / 0x1000 % 0x40 == b && c / 0x40 % 0x40 == d && c % 0x40 == e
    ensures c == a * 0x4_0000 + b * 0x1000 + d * 0x40 + e
  {
    var high := a * 0x40 + b;
    var middle := high * 0x40 + d;
    c := middle * 0x40 + e;
    TwoFit(high, a, b);
    TwoFit(middle, high, d);
    TwoFit(c, middle, e);
  }

  /** What the bytes of the first character stand for. */
  lemma FirstIsScalar(s: seq<Byte>) returns (c: nat)
    requires CharLength(s) > 0
    ensures Scalar(c) && s[..CharLength(s)] == EncodeScalar(c)
  {
    var n := CharLength(s);
    if n == 1 {
      c := s[0];
    } else if n == 2 {
      c := Part(s[0], 0xC0) * 0x40 + Part(s[1], 0x80);
    } else if n == 3 {
      c := ThreeBytes(Part(s[0], 0xE0), Part(s[1], 0x80), Part(s[2], 0x80));
    } else {
      c := FourBytes(Part(s[0], 0xF0), Part(s[1], 0x80), Part(s[2], 0x80), Part(s[3], 0x80));
    }
  }

  /** Every encoded text is valid ... */
  lemma {:induction false} EncodedIsValid(text: seq<nat>)
    requires forall c :: c in text ==> Scalar(c)
    ensures ValidUtf8(EncodeText(text))
  {
    if text != [] {
      var first, rest := EncodeScalar(text[0]), EncodeText(text[1..]);
      EncodedIsValid(text[1..]);
      ScalarHasLength(text[0], rest);
      assert (first + rest)[|first|..] == rest;
    }
  }

  lemma TextCons(c: nat, rest: seq<nat>)
    requires Scalar(c) && forall d :: d in rest ==> Scalar(d)
    ensures (forall d :: d in [c] + rest ==> Scalar(d))
    ensures EncodeText([c] + rest) == EncodeScalar(c) + EncodeText(rest)
  {
    assert ([c] + rest)[1..] == rest;
  }

  lemma FirstFollowed(s: seq<Byte>)
    requires s != [] && ValidUtf8(s)
    ensures var n := CharLength(s); 0 < n <= |s| && ValidUtf8(s[n..]) && s == s[..n] + s[n..]
  {
  }

  /** ... and valid bytes are an encoded text. */
  lemma {:induction false} ValidIsEncoded(s: seq<Byte>) returns (text: seq<nat>)
    requires ValidUtf8(s)
    ensures (forall c :: c in text ==> Scalar(c)) && EncodeText(text) == s
    decreases |s|
  {
    hide CharLength, EncodeScalar, ValidUtf8, Scalar;
    text := [];
    if s != [] {
      FirstFollowed(s);
      var c := FirstIsScalar(s);
      var rest := ValidIsEncoded(s[CharLength(s)..]);
      TextCons(c, rest);
      text := [c] + rest;
    }
  }
}
