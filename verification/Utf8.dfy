/** Well-formed UTF-8, the texts that sender ids may be: what `str::from_utf8` accepts
    (crates/net_control/src/lib.rs, lines 728-756), against the encoding form of section 3 of RFC 3629. */
module Utf8 {
  import opened Common

  predicate Continuation(b: Byte) {
    0x80 <= b <= 0xBF
  }

  /** The number of bytes of the well-formed UTF-8 sequence `s` starts with, or 0. */
  function Utf8Step(s: seq<Byte>): (n: nat)
    ensures n <= |s|
  {
    if s == [] then 0
    else if s[0] <= 0x7F then 1
    else if |s| >= 2 && 0xC2 <= s[0] <= 0xDF && Continuation(s[1]) then 2
    else if |s| >= 3 && 0xE0 <= s[0] <= 0xEF && Continuation(s[1]) && Continuation(s[2])
            && (s[0] == 0xE0 ==> 0xA0 <= s[1]) && (s[0] == 0xED ==> s[1] <= 0x9F) then 3
    else if |s| >= 4 && 0xF0 <= s[0] <= 0xF4 && Continuation(s[1]) && Continuation(s[2]) && Continuation(s[3])
            && (s[0] == 0xF0 ==> 0x90 <= s[1]) && (s[0] == 0xF4 ==> s[1] <= 0x8F) then 4
    else 0
  }

  predicate IsUtf8(s: seq<Byte>) {
    s == [] || (Utf8Step(s) > 0 && IsUtf8(s[Utf8Step(s)..]))
  }

  // ---- the encoded texts ------------------------------------------------------------------------

  /** The characters: the surrogates are none. */
  type Scalar = c: nat | c < 0xD800 || 0xE000 <= c < 0x11_0000

  function Encoded(c: Scalar): seq<Byte> {
    if c < 0x80 then [c]
    else if c < 0x800 then [0xC0 + c / 0x40, 0x80 + c % 0x40]
    else if c < 0x1_0000 then [0xE0 + c / 0x1000, 0x80 + c / 0x40 % 0x40, 0x80 + c % 0x40]
    else [0xF0 + c / 0x4_0000, 0x80 + c / 0x1000 % 0x40, 0x80 + c / 0x40 % 0x40, 0x80 + c % 0x40]
  }

  function Text(cs: seq<Scalar>): seq<Byte> {
    if cs == [] then [] else Encoded(cs[0]) + Text(cs[1..])
  }

  lemma LastDigit(n: nat, d: nat)
    requires d < 0x40
    ensures (n * 0x40 + d) / 0x40 == n && (n * 0x40 + d) % 0x40 == d
  {
  }

  lemma TwoDigitsOff(n: nat)
    ensures n / 0x1000 == n / 0x40 / 0x40
  {
  }

  lemma ThreeDigitsOff(n: nat)
    ensures n / 0x4_0000 == n / 0x1000 / 0x40
  {
  }

  /** The character these six-bit digits stand for, if its encoding has these bytes. */
  lemma FromDigits(a: nat, b: nat, c: nat, d: nat) returns (x: nat)
    requires b < 0x40 && c < 0x40 && d < 0x40
    ensures x == a * 0x4_0000 + b * 0x1000 + c * 0x40 + d
    ensures x / 0x4_0000 == a && x / 0x1000 == a * 0x40 + b && x / 0x1000 % 0x40 == b
    ensures x / 0x40 % 0x40 == c && x % 0x40 == d
    ensures a == b == 0 ==> x / 0x40 == c
  {
    x := ((a * 0x40 + b) * 0x40 + c) * 0x40 + d;
    LastDigit((a * 0x40 + b) * 0x40 + c, d);
    LastDigit(a * 0x40 + b, c);
    LastDigit(a, b);
    TwoDigitsOff(x);
    ThreeDigitsOff(x);
  }

  /** The character at the front. */
  lemma FirstScalar(s: seq<Byte>) returns (x: Scalar)
    requires Utf8Step(s) > 0
    ensures Encoded(x) == s[..Utf8Step(s)]
  {
    match Utf8Step(s)
    case 1 => x := s[0];
    case 2 => x := FirstOfTwo(s[0], s[1]);
    case 3 => x := FirstOfThree(s[0], s[1], s[2]);
    case _ => x := FirstOfFour(s[0], s[1], s[2], s[3]);
  }

  lemma FirstOfTwo(b0: nat, b1: nat) returns (x: Scalar)
    requires 0xC2 <= b0 <= 0xDF && 0x80 <= b1 <= 0xBF
    ensures Encoded(x) == [b0, b1]
  {
    x := FromDigits(0, 0, b0 - 0xC0, b1 - 0x80);
  }

  lemma FirstOfThree(b0: nat, b1: nat, b2: nat) returns (x: Scalar)
    requires 0xE0 <= b0 <= 0xEF && 0x80 <= b1 <= 0xBF && 0x80 <= b2 <= 0xBF
    requires (b0 == 0xE0 ==> 0xA0 <= b1) && (b0 == 0xED ==> b1 <= 0x9F)
    ensures Encoded(x) == [b0, b1, b2]
  {
    x := FromDigits(0, b0 - 0xE0, b1 - 0x80, b2 - 0x80);
  }

  lemma FirstOfFour(b0: nat, b1: nat, b2: nat, b3: nat) returns (x: Scalar)
    requires 0xF0 <= b0 <= 0xF4 && 0x80 <= b1 <= 0xBF && 0x80 <= b2 <= 0xBF && 0x80 <= b3 <= 0xBF
    requires (b0 == 0xF0 ==> 0x90 <= b1) && (b0 == 0xF4 ==> b1 <= 0x8F)
    ensures Encoded(x) == [b0, b1, b2, b3]
  {
    x := FromDigits(b0 - 0xF0, b1 - 0x80, b2 - 0x80, b3 - 0x80);
  }

  lemma StepOfEncoded(c: Scalar, rest: seq<Byte>)
    ensures Utf8Step(Encoded(c) + rest) == |Encoded(c)| > 0
  {
    if c >= 0x1_0000 {
      assert (Encoded(c) + rest)[0] == 0xF0 + c / 0x4_0000 && (Encoded(c) + rest)[1] == 0x80 + c / 0x1000 % 0x40;
    }
  }

  lemma {:induction false} TextIsUtf8(cs: seq<Scalar>)
    ensures IsUtf8(Text(cs))
  {
    if cs != [] {
      TextIsUtf8(cs[1..]);
      StepOfEncoded(cs[0], Text(cs[1..]));
      assert Text(cs)[|Encoded(cs[0])|..] == Text(cs[1..]);
    }
  }

  lemma {:induction false} Utf8IsText(s: seq<Byte>) returns (cs: seq<Scalar>)
    requires IsUtf8(s)
    ensures Text(cs) == s
  {
    if s == [] {
      cs := [];
    } else {
      var rest := Utf8IsText(s[Utf8Step(s)..]);
      var first := FirstScalar(s);
      cs := [first] + rest;
      assert cs[1..] == rest && s == s[..Utf8Step(s)] + s[Utf8Step(s)..];
    }
  }

  /** The bytes accepted are exactly the encodings of texts. */
  lemma IsUtf8IffText(s: seq<Byte>)
    ensures IsUtf8(s) <==> exists cs :: Text(cs) == s
  {
    if IsUtf8(s) {
      var cs := Utf8IsText(s);
    } else if cs :| Text(cs) == s {
      TextIsUtf8(cs);
    }
  }
}
