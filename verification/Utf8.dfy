/** From a \uXXXX literal to UTF-8 bytes (parse_hex4 and utf16_literal_to_utf8), and what RFC 3629 says those bytes
    should be. Bytes are characters below 256; masks and shifts of the unsigned code point are written as remainders and
    quotients, and the decoder of RFC 3629 is defined here as well. */
module Utf8 {
  import opened Pointers

  function HexValue(c: char): Option<nat> {
    if '0' <= c <= '9' then Some(c as int - '0' as int)
    else if 'A' <= c <= 'F' then Some(10 + c as int - 'A' as int)
    else if 'a' <= c <= 'f' then Some(10 + c as int - 'a' as int)
    else None
  }

  /** Four hexadecimal digits; zero, not an error, when one of them is not a digit. */
  function ParseHex4(s: string): nat
    requires |s| >= 4
  {
    match (HexValue(s[0]), HexValue(s[1]), HexValue(s[2]), HexValue(s[3]))
    case (Some(a), Some(b), Some(c), Some(d)) => ((a * 16 + b) * 16 + c) * 16 + d
    case _ => 0
  }

  /** The loop over the digits. */
  method ParseHex4Loop(s: string) returns (h: nat)
    requires |s| >= 4
    ensures h == ParseHex4(s)
  {
    h := 0;
    var i := 0;
    while i < 4
      invariant 0 <= i <= 4
      invariant forall k :: 0 <= k < i ==> HexValue(s[k]).Some?
      invariant i == 0 ==> h == 0
      invariant i == 1 ==> h == 16 * HexValue(s[0]).value
      invariant i == 2 ==> h == 16 * (16 * HexValue(s[0]).value + HexValue(s[1]).value)
      invariant i == 3 ==> h == 16 * (16 * (16 * HexValue(s[0]).value + HexValue(s[1]).value) + HexValue(s[2]).value)
      invariant i == 4 ==> h == ParseHex4(s)
    {
      match HexValue(s[i]) {
        case None => return 0;
        case Some(d) => h := h + d;
      }
      if i < 3 {
        h := h * 16;
      }
      i := i + 1;
    }
  }

  function Byte(n: nat): char
    requires n < 256
  {
    n as char
  }

  /** A continuation byte for the low six bits. */
  function Trail(n: nat): char {
    Byte(0x80 + n % 64)
  }

  /** The bytes written for a code point: lead byte by length, six bits in each further byte. */
  function Encode(cp: nat): (r: string)
    requires cp <= 0x10FFFF
    ensures 1 <= |r| <= 4
  {
    if cp < 0x80 then [Byte(cp)]
    else if cp < 0x800 then [Byte(0xC0 + cp / 64), Trail(cp)]
    else if cp < 0x10000 then [Byte(0xE0 + cp / 4096), Trail(cp / 64), Trail(cp)]
    else [Byte(0xF0 + cp / 262144), Trail(cp / 4096), Trail(cp / 64), Trail(cp)]
  }

  datatype Literal = Literal(length: nat, bytes: string)

  const Failure := Literal(0, "")

  predicate LowSurrogate(code: nat) {
    0xDC00 <= code <= 0xDFFF
  }

  predicate HighSurrogate(code: nat) {
    0xD800 <= code <= 0xDBFF
  }

  /** utf16_literal_to_utf8: s is the text from the backslash to the end of the string literal. Length
      zero is failure. */
  function Utf16LiteralToUtf8(s: string): (r: Literal)
    ensures r.length == 0 || (r.length == 6 <= |s| && |r.bytes| <= 3) || (r.length == 12 <= |s| && |r.bytes| == 4)
    ensures r.length > 0 ==> |r.bytes| > 0
  {
    if |s| < 6 then Failure
    else
      var first := ParseHex4(s[2..]);
      if LowSurrogate(first) then Failure
      else if HighSurrogate(first) then
        if |s| < 12 || s[6] != '\\' || s[7] != 'u' then Failure
        else
          var second := ParseHex4(s[8..]);
          if !LowSurrogate(second) then Failure
          else Literal(12, Encode(0x10000 + (first % 1024) * 1024 + second % 1024))
      else
        HexBound(s[2..]);
        Literal(6, Encode(first))
  }

  lemma HexBound(s: string)
    requires |s| >= 4
    ensures ParseHex4(s) < 0x10000
  {
  }

  /** The loop that fills the trailing bytes from the last one forward, then the lead byte. */
  method EncodeLoop(codepoint: nat, output: array<char>, at: nat) returns (next: nat)
    requires codepoint <= 0x10FFFF && at + |Encode(codepoint)| <= output.Length
    modifies output
    ensures next == at + |Encode(codepoint)| && output[at..next] == Encode(codepoint)
    ensures forall k :: 0 <= k < at || next <= k < output.Length ==> output[k] == old(output[k])
  {
    hide Encode, Trail;
    var length, mark := 1, 0;
    if 0x80 <= codepoint < 0x800 {
      length, mark := 2, 0xC0;
    } else if 0x800 <= codepoint < 0x10000 {
      length, mark := 3, 0xE0;
    } else if 0x10000 <= codepoint {
      length, mark := 4, 0xF0;
    }
    var cp, position := codepoint, length - 1;
    ghost var goal := Encode(codepoint);
    EncodedBytes(codepoint, length, mark);
    while position > 0
      invariant 0 <= position < length == |goal|
      invariant cp == Shifted(codepoint, length - 1 - position)
      invariant forall k :: position < k < length ==> output[at + k] == goal[k]
      invariant forall k :: 0 <= k < at || at + length <= k < output.Length ==> output[k] == old(output[k])
    {
      TrailByte(cp);
      output[at + position] := Byte(0x80 + cp % 64);
      cp := cp / 64;
      position := position - 1;
    }
    if length > 1 {
      output[at] := Byte(mark + cp);
    } else {
      output[at] := Byte(cp % 128);
    }
    assert forall k :: 0 <= k < length ==> output[at + k] == goal[k];
    return at + length;
  }

  /** The bytes of a code point in the order the loop works them out. */
  lemma EncodedBytes(codepoint: nat, length: nat, mark: nat)
    requires codepoint <= 0x10FFFF
    requires if codepoint < 0x80 then length == 1 && mark == 0
             else if codepoint < 0x800 then length == 2 && mark == 0xC0
             else if codepoint < 0x10000 then length == 3 && mark == 0xE0
             else length == 4 && mark == 0xF0
    ensures |Encode(codepoint)| == length
    ensures forall k :: 0 < k < length ==> Encode(codepoint)[k] == Trail(Shifted(codepoint, length - 1 - k))
    ensures var first := Shifted(codepoint, length - 1);
            && (length == 1 ==> Encode(codepoint)[0] == Byte(first % 128))
            && (length > 1 ==> mark + first < 256 && Encode(codepoint)[0] == Byte(mark + first))
  {
    hide Trail;
  }

  lemma TrailByte(cp: nat)
    ensures Trail(cp) == Byte(0x80 + cp % 64)
  {
  }

  /** The code point after some shifts by six. */
  function Shifted(cp: nat, times: nat): nat
    requires times <= 3
  {
    if times == 0 then cp else if times == 1 then cp / 64 else if times == 2 then cp / 4096 else cp / 262144
  }

  /** The conversion as the parser calls it: the literal starts at `at`, the string literal ends at `end`,
      and the bytes go to `output` from o on. Failure writes nothing. */
  method ConvertLiteral(input: string, at: nat, end: nat, output: array<char>, o: nat)
      returns (sequence: nat, next: nat)
    requires at <= end <= |input|
    requires o + |Utf16LiteralToUtf8(input[at..end]).bytes| <= output.Length
    modifies output
    ensures var literal := Utf16LiteralToUtf8(input[at..end]);
            && sequence == literal.length && next == o + |literal.bytes|
            && output[o..next] == literal.bytes
    ensures forall k :: 0 <= k < o || next <= k < output.Length ==> output[k] == old(output[k])
  {
    if end - at < 6 {
      return 0, o;
    }
    assert input[at..end][2..] == input[at + 2..end];
    var first := ParseHex4Loop(input[at + 2..end]);
    var codepoint;
    if LowSurrogate(first) {
      return 0, o;
    }
    if HighSurrogate(first) {
      if end - at < 12 || input[at + 6] != '\\' || input[at + 7] != 'u' {
        return 0, o;
      }
      assert input[at..end][8..] == input[at + 8..end];
      var second := ParseHex4Loop(input[at + 8..end]);
      if !LowSurrogate(second) {
        return 0, o;
      }
      sequence, codepoint := 12, 0x10000 + (first % 1024) * 1024 + second % 1024;
    } else {
      HexBound(input[at + 2..end]);
      sequence, codepoint := 6, first;
    }
    next := EncodeLoop(codepoint, output, o);
  }

  // ----- RFC 3629 -----

  predicate IsTrail(c: char) {
    0x80 <= c as int < 0xC0
  }

  function Bits(c: char): nat
    requires IsTrail(c)
  {
    c as int - 0x80
  }

  /** Section 3 of RFC 3629: the code point a whole byte sequence stands for. Longer forms than needed,
      surrogates and values past 10FFFF are no UTF-8. */
  function DecodeBytes(b: string): Option<nat> {
    if |b| == 1 && b[0] as int < 0x80 then Some(b[0] as int)
    else if |b| == 2 && 0xC0 <= b[0] as int < 0xE0 && IsTrail(b[1]) then
      InRange((b[0] as int - 0xC0) * 64 + Bits(b[1]), 0x80)
    else if |b| == 3 && 0xE0 <= b[0] as int < 0xF0 && IsTrail(b[1]) && IsTrail(b[2]) then
      InRange((b[0] as int - 0xE0) * 4096 + Bits(b[1]) * 64 + Bits(b[2]), 0x800)
    else if |b| == 4 && 0xF0 <= b[0] as int < 0xF8 && IsTrail(b[1]) && IsTrail(b[2]) && IsTrail(b[3]) then
      InRange((b[0] as int - 0xF0) * 262144 + Bits(b[1]) * 4096 + Bits(b[2]) * 64 + Bits(b[3]), 0x10000)
    else None
  }

  function InRange(n: nat, least: nat): Option<nat> {
    if least <= n <= 0x10FFFF && !(0xD800 <= n <= 0xDFFF) then Some(n) else None
  }

  ghost predicate ScalarValue(cp: nat) {
    cp <= 0x10FFFF && !(0xD800 <= cp <= 0xDFFF)
  }

  /** The bytes written are the one and only UTF-8 form of the code point. */
  lemma EncodeIsUtf8(cp: nat, b: string)
    requires ScalarValue(cp)
    ensures DecodeBytes(b) == Some(cp) <==> b == Encode(cp)
  {
    if DecodeBytes(b) == Some(cp) {
      if |b| == 2 {
        TwoBytes(b);
      } else if |b| == 3 {
        ThreeBytes(b);
      } else if |b| == 4 {
        FourBytes(b);
      }
    }
    EncodeDecodes(cp);
  }

  lemma EncodeDecodes(cp: nat)
    requires ScalarValue(cp)
    ensures DecodeBytes(Encode(cp)) == Some(cp)
  {
    if cp >= 0x10000 {
      FourDecode(cp);
    } else if cp >= 0x800 {
      ThreeDecode(cp);
    }
  }

  lemma ThreeDecode(cp: nat)
    requires ScalarValue(cp) && 0x800 <= cp < 0x10000
    ensures DecodeBytes(Encode(cp)) == Some(cp)
  {
    assert cp / 64 == cp / 4096 * 64 + cp / 64 % 64;
  }

  lemma FourDecode(cp: nat)
    requires ScalarValue(cp) && 0x10000 <= cp
    ensures DecodeBytes(Encode(cp)) == Some(cp)
  {
    assert cp / 64 == cp / 4096 * 64 + cp / 64 % 64;
    assert cp / 4096 == cp / 262144 * 64 + cp / 4096 % 64;
  }

  lemma TwoBytes(b: string)
    requires |b| == 2 && DecodeBytes(b).Some?
    ensures b == Encode(DecodeBytes(b).value)
  {
  }

  lemma ThreeBytes(b: string)
    requires |b| == 3 && DecodeBytes(b).Some?
    ensures b == Encode(DecodeBytes(b).value)
  {
    var cp := DecodeBytes(b).value;
    assert cp / 64 == (b[0] as int - 0xE0) * 64 + Bits(b[1]);
  }

  lemma FourBytes(b: string)
    requires |b| == 4 && DecodeBytes(b).Some?
    ensures b == Encode(DecodeBytes(b).value)
  {
    var cp := DecodeBytes(b).value;
    assert cp / 64 == (b[0] as int - 0xF0) * 4096 + Bits(b[1]) * 64 + Bits(b[2]);
    assert cp / 4096 == (b[0] as int - 0xF0) * 64 + Bits(b[1]);
  }

  // ----- section 7 of RFC 8259 -----

  ghost predicate HexDigits(s: string, i: nat) {
    i + 4 <= |s| && forall k :: i <= k < i + 4 ==> HexValue(s[k]).Some?
  }

  /** The code point a literal denotes: one escape outside the surrogate range, or a high and a low
      surrogate. */
  ghost function Denotes(s: string): Option<nat> {
    if !HexDigits(s, 2) then None
    else
      var first := ParseHex4(s[2..]);
      if !HighSurrogate(first) && !LowSurrogate(first) then Some(first)
      else if HighSurrogate(first) && HexDigits(s, 8) && s[6] == '\\' && s[7] == 'u'
        && LowSurrogate(ParseHex4(s[8..])) then
        Some(0x10000 + (first - 0xD800) * 0x400 + (ParseHex4(s[8..]) - 0xDC00))
      else None
  }

  lemma HexOrZero(s: string, i: nat)
    requires i + 4 <= |s|
    ensures !HexDigits(s, i) ==> ParseHex4(s[i..]) == 0
  {
    var t := s[i..];
    assert t[0] == s[i] && t[1] == s[i + 1] && t[2] == s[i + 2] && t[3] == s[i + 3];
  }

  /** A valid literal gives the UTF-8 form of what it denotes. With hexadecimal digits in place,
      failure is exactly a lone or mismatched surrogate. Digits that are none read as zero instead of
      failing. */
  lemma LiteralIsUtf8(s: string)
    requires |s| >= 6
    ensures Denotes(s).Some? ==>
      && ScalarValue(Denotes(s).value)
      && Utf16LiteralToUtf8(s).length == (if Denotes(s).value < 0x10000 then 6 else 12)
      && DecodeBytes(Utf16LiteralToUtf8(s).bytes) == Denotes(s)
    ensures HexDigits(s, 2) && Denotes(s).None? ==> Utf16LiteralToUtf8(s) == Failure
    ensures !HexDigits(s, 2) ==> Utf16LiteralToUtf8(s) == Literal(6, "\0")
  {
    HexOrZero(s, 2);
    HexBound(s[2..]);
    if |s| >= 12 {
      HexOrZero(s, 8);
    }
    if HexDigits(s, 2) {
      var r := Utf16LiteralToUtf8(s);
      var d := Denotes(s);
      DenotedEncoded(s);
      if d.Some? {
        EncodeIsUtf8(d.value, r.bytes);
      }
    } else {
      assert Encode(0) == "\0";
    }
  }

  lemma DenotedEncoded(s: string)
    requires |s| >= 6 && HexDigits(s, 2) && (|s| >= 12 && !HexDigits(s, 8) ==> ParseHex4(s[8..]) == 0)
    ensures match Denotes(s)
            case None => Utf16LiteralToUtf8(s) == Failure
            case Some(cp) =>
              ScalarValue(cp) && Utf16LiteralToUtf8(s) == Literal(if cp < 0x10000 then 6 else 12, Encode(cp))
  {
    hide Encode, ParseHex4;
    HexBound(s[2..]);
    var first := ParseHex4(s[2..]);
    if HighSurrogate(first) && |s| >= 12 {
      var second := ParseHex4(s[8..]);
      assert first % 1024 == first - 0xD800;
      assert LowSurrogate(second) ==> second % 1024 == second - 0xDC00;
    }
  }
}
