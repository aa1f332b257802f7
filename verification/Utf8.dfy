// Clamping a label to a byte limit without splitting a UTF-8 character (RFC 3629).
module Utf8 {
  import opened Model

  predicate IsTail(b: Byte) {
    0x80 <= b <= 0xBF
  }

  // Octets of the well-formed character at the front of s (section 4 of RFC 3629), 0 if none.
  function CharLength(s: seq<Byte>): (n: nat)
    ensures n <= 4 && n <= |s|
    ensures n > 0 ==> !IsTail(s[0]) && forall i :: 0 < i < n ==> IsTail(s[i])
  {
    if s == [] then 0
    else if s[0] <= 0x7F then 1
    else if |s| >= 2 && 0xC2 <= s[0] <= 0xDF && IsTail(s[1]) then 2
    else if |s| >= 3 && 0xE0 <= s[0] <= 0xEF && IsTail(s[1]) && IsTail(s[2])
         && (s[0] == 0xE0 ==> 0xA0 <= s[1]) && (s[0] == 0xED ==> s[1] <= 0x9F) then 3
    else if |s| >= 4 && 0xF0 <= s[0] <= 0xF4 && IsTail(s[1]) && IsTail(s[2]) && IsTail(s[3])
         && (s[0] == 0xF0 ==> 0x90 <= s[1]) && (s[0] == 0xF4 ==> s[1] <= 0x8F) then 4
    else 0
  }

  predicate ValidUtf8(s: seq<Byte>) {
    s == [] || (CharLength(s) > 0 && ValidUtf8(s[CharLength(s)..]))
  }

  predicate IsCharBoundary(s: seq<Byte>, i: nat) {
    i == 0 || i == |s| || (i < |s| && !IsTail(s[i]))
  }

  // ---------- Validity is being an encoding ----------

  // A Unicode scalar value.
  type Scalar = c: int | 0 <= c <= 0x10FFFF && !(0xD800 <= c <= 0xDFFF)

  // Its encoding (section 3 of RFC 3629).
  function Encode(c: Scalar): seq<Byte> {
    if c < 0x80 then [c]
    else if c < 0x800 then [0xC0 + c / 0x40, 0x80 + c % 0x40]
    else if c < 0x1_0000 then [0xE0 + c / 0x1000, 0x80 + c / 0x40 % 0x40, 0x80 + c % 0x40]
    else [0xF0 + c / 0x4_0000, 0x80 + c / 0x1000 % 0x40, 0x80 + c / 0x40 % 0x40, 0x80 + c % 0x40]
  }

  function EncodeAll(text: seq<Scalar>): seq<Byte> {
    if text == [] then [] else Encode(text[0]) + EncodeAll(text[1..])
  }

  // Six bits a digit.
  function Join(digits: seq<int>): int {
    if digits == [] then 0 else Join(digits[..|digits| - 1]) * 0x40 + digits[|digits| - 1]
  }

  lemma DecodeEncodes(s: seq<Byte>) returns (c: Scalar)
    requires CharLength(s) > 0
    ensures Encode(c) == s[..CharLength(s)]
  {
    match CharLength(s)
    case 1 => c := s[0];
    case 2 => c := DecodeTwo(s);
    case 3 => c := DecodeThree(s);
    case _ => c := DecodeFour(s);
  }

  lemma DecodeTwo(s: seq<Byte>) returns (c: Scalar)
    requires CharLength(s) == 2
    ensures Encode(c) == s[..2]
  {
    hide Join;
    JoinTwo(s[0] - 0xC0, s[1] - 0x80);
    c := Join([s[0] - 0xC0, s[1] - 0x80]);
  }

  lemma DecodeThree(s: seq<Byte>) returns (c: Scalar)
    requires CharLength(s) == 3
    ensures Encode(c) == s[..3]
  {
    hide Join;
    JoinThree(s[0] - 0xE0, s[1] - 0x80, s[2] - 0x80);
    c := Join([s[0] - 0xE0, s[1] - 0x80, s[2] - 0x80]);
  }

  lemma DecodeFour(s: seq<Byte>) returns (c: Scalar)
    requires CharLength(s) == 4
    ensures Encode(c) == s[..4]
  {
    hide Join;
    JoinFour(s[0] - 0xF0, s[1] - 0x80, s[2] - 0x80, s[3] - 0x80);
    c := Join([s[0] - 0xF0, s[1] - 0x80, s[2] - 0x80, s[3] - 0x80]);
  }

  lemma JoinTwo(a: int, b: int)
    requires 0 <= b < 0x40
    ensures Join([a, b]) == a * 0x40 + b
    ensures Join([a, b]) / 0x40 == a && Join([a, b]) % 0x40 == b
  {
    assert [a, b][..1] == [a] && Join([a]) == a;
  }

  lemma JoinThree(a: int, b: int, c: int)
    requires 0 <= b < 0x40 && 0 <= c < 0x40
    ensures var j := Join([a, b, c]);
      j == a * 0x1000 + b * 0x40 + c && j / 0x1000 == a && j / 0x40 % 0x40 == b && j % 0x40 == c
  {
    assert [a, b, c][..2] == [a, b];
    JoinTwo(a, b);
  }

  lemma JoinFour(a: int, b: int, c: int, d: int)
    requires 0 <= b < 0x40 && 0 <= c < 0x40 && 0 <= d < 0x40
    ensures var j := Join([a, b, c, d]);
      && j == a * 0x4_0000 + b * 0x1000 + c * 0x40 + d && j / 0x4_0000 == a
      && j / 0x1000 % 0x40 == b && j / 0x40 % 0x40 == c && j % 0x40 == d
  {
    assert [a, b, c, d][..3] == [a, b, c];
    JoinThree(a, b, c);
  }

  lemma EncodeIsChar(c: Scalar, rest: seq<Byte>)
    ensures CharLength(Encode(c) + rest) == |Encode(c)| > 0
    ensures (Encode(c) + rest)[|Encode(c)|..] == rest
  {
    var e, s := Encode(c), Encode(c) + rest;
    assert s[0] == e[0];
    assert |e| > 1 ==> s[1] == e[1];
    assert |e| > 2 ==> s[2] == e[2];
    assert |e| > 3 ==> s[3] == e[3];
  }

  // A byte string is valid exactly when it encodes some sequence of Unicode scalar values.
  lemma ValidIff(s: seq<Byte>)
    ensures ValidUtf8(s) <==> exists text: seq<Scalar> :: EncodeAll(text) == s
  {
    if ValidUtf8(s) {
      var text := DecodeAll(s);
    }
    forall text: seq<Scalar> | EncodeAll(text) == s
      ensures ValidUtf8(s)
    {
      EncodingIsValid(text);
    }
  }

  // A valid string is an encoded character followed by a valid string.
  lemma FirstChar(s: seq<Byte>) returns (c: Scalar, rest: seq<Byte>)
    requires ValidUtf8(s) && s != []
    ensures s == Encode(c) + rest && ValidUtf8(rest) && |rest| < |s|
  {
    hide Encode;
    c := DecodeEncodes(s);
    rest := s[CharLength(s)..];
    assert s == s[..CharLength(s)] + rest;
  }

  lemma EncodeOneMore(c: Scalar, rest: seq<Scalar>)
    ensures EncodeAll([c] + rest) == Encode(c) + EncodeAll(rest)
  {
    hide Encode;
    assert ([c] + rest)[1..] == rest;
  }

  lemma {:induction false} DecodeAll(s: seq<Byte>) returns (text: seq<Scalar>)
    requires ValidUtf8(s)
    ensures EncodeAll(text) == s
    decreases |s|
  {
    text := [];
    if s != [] {
      hide ValidUtf8, Encode, EncodeAll;
      var c, tail := FirstChar(s);
      var rest := DecodeAll(tail);
      EncodeOneMore(c, rest);
      text := [c] + rest;
    }
  }

  lemma {:induction false} EncodingIsValid(text: seq<Scalar>)
    ensures ValidUtf8(EncodeAll(text))
  {
    hide CharLength, Encode;
    if text != [] {
      EncodeIsChar(text[0], EncodeAll(text[1..]));
      EncodingIsValid(text[1..]);
    }
  }

  // ---------- Cutting ----------

  // Cutting a valid string at i leaves a valid string exactly when i is a boundary.
  lemma {:induction false} BoundaryIff(s: seq<Byte>, i: nat)
    requires ValidUtf8(s) && i <= |s|
    ensures IsCharBoundary(s, i) <==> ValidUtf8(s[..i])
    decreases |s|
  {
    if s != [] && i > 0 {
      var n := CharLength(s);
      if i < n {
        assert CharLength(s[..i]) == 0;
      } else {
        assert CharLength(s[..i]) == n;
        assert s[..i][n..] == s[n..][..i - n];
        BoundaryIff(s[n..], i - n);
      }
    }
  }

  // Some boundary lies at most three octets back.
  lemma {:induction false} BoundaryNearby(s: seq<Byte>, i: nat) returns (j: nat)
    requires ValidUtf8(s) && i <= |s|
    ensures j <= i <= j + 3 && IsCharBoundary(s, j)
    decreases |s|
  {
    var n := CharLength(s);
    if i < n || s == [] {
      j := 0;
    } else {
      j := BoundaryNearby(s[n..], i - n);
      j := j + n;
    }
  }

  // The last boundary at or before i; it exists because 0 is one.
  function LastBoundary(s: seq<Byte>, i: nat): (end: nat)
    ensures end <= i && IsCharBoundary(s, end)
    ensures forall k :: end < k <= i ==> !IsCharBoundary(s, k)
  {
    if IsCharBoundary(s, i) then i else LastBoundary(s, i - 1)
  }

  function Clamp(value: seq<Byte>, maxBytes: nat): seq<Byte> {
    if |value| <= maxBytes then value else value[..LastBoundary(value, maxBytes)]
  }

  method ClampUtf8(value: seq<Byte>, maxBytes: nat) returns (r: seq<Byte>)
    ensures r == Clamp(value, maxBytes)
  {
    if |value| <= maxBytes {
      return value;
    }
    var end := maxBytes;
    while !IsCharBoundary(value, end)
      invariant 0 <= end <= maxBytes
      invariant LastBoundary(value, end) == LastBoundary(value, maxBytes)
      decreases end
    {
      end := end - 1;
    }
    r := value[..end];
  }

  // The clamp is the longest valid prefix that fits, at most three octets short of the limit.
  lemma ClampIsLongestPrefix(value: seq<Byte>, maxBytes: nat)
    requires ValidUtf8(value)
    ensures var r := Clamp(value, maxBytes);
      && r <= value && |r| <= maxBytes && ValidUtf8(r)
      && (forall k :: 0 <= k <= |value| && k <= maxBytes && ValidUtf8(value[..k]) ==> k <= |r|)
      && (if |value| <= maxBytes then r == value else maxBytes - 3 <= |r|)
  {
    if |value| > maxBytes {
      var end := LastBoundary(value, maxBytes);
      BoundaryIff(value, end);
      forall k | 0 <= k <= maxBytes && ValidUtf8(value[..k])
        ensures k <= end
      {
        BoundaryIff(value, k);
      }
      var j := BoundaryNearby(value, maxBytes);
    }
  }
}
