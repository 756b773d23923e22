/** JSON string literals: `extra_space`, `escape_string`, and the decoding done by `get_string`. */
module Escaping {
  import opened Results

  // ---------- escape_string ----------

  /** Characters written as a backslash and one more character. */
  function ShortEscape(c: char): Option<char> {
    match c
    case '"' => Some('"')
    case '\\' => Some('\\')
    case '\U{0008}' => Some('b')
    case '\U{000C}' => Some('f')
    case '\n' => Some('n')
    case '\r' => Some('r')
    case '\t' => Some('t')
    case _ => None
  }

  function HexDigit(d: nat): char
    requires d < 16
  {
    "0123456789abcdef"[d]
  }

  function EscapedChar(c: char): string {
    match ShortEscape(c)
    case Some(e) => ['\\', e]
    case None =>
      if c <= '\U{001F}' then ['\\', 'u', '0', '0', HexDigit(c as int / 16), HexDigit(c as int % 16)]
      else [c]
  }

  function Escaped(s: string): string {
    if s == "" then "" else Escaped(s[..|s| - 1]) + EscapedChar(s[|s| - 1])
  }

  /** std::accumulate over the characters. */
  function ExtraSpace(s: string): nat {
    if s == "" then 0
    else
      var c := s[|s| - 1];
      ExtraSpace(s[..|s| - 1]) + if ShortEscape(c).Some? then 1 else if c <= '\U{001F}' then 5 else 0
  }

  /** `extra_space` is exact: the escaped text needs that many more characters. */
  lemma {:induction false} ExtraSpaceExact(s: string)
    ensures |Escaped(s)| == |s| + ExtraSpace(s)
    ensures ExtraSpace(s) == 0 ==> Escaped(s) == s
  {
    if s != "" {
      ExtraSpaceExact(s[..|s| - 1]);
      assert s == s[..|s| - 1] + [s[|s| - 1]];
    }
  }

  lemma {:induction false} EscapedConcat(a: string, b: string)
    ensures Escaped(a + b) == Escaped(a) + Escaped(b)
  {
    if b == "" {
      assert a + b == a;
    } else {
      assert (a + b)[..|a + b| - 1] == a + b[..|b| - 1];
      EscapedConcat(a, b[..|b| - 1]);
    }
  }

  lemma EscapedCons(c: char, s: string)
    ensures Escaped([c] + s) == EscapedChar(c) + Escaped(s)
  {
    EscapedConcat([c], s);
    assert [c][..0] == "";
  }

  /** No control character is left, and every quote comes right after a backslash. */
  lemma {:induction false} EscapedIsClean(s: string)
    ensures forall i | 0 <= i < |Escaped(s)| :: ' ' <= Escaped(s)[i]
    ensures forall i | 0 <= i < |Escaped(s)| && Escaped(s)[i] == '"' :: i > 0 && Escaped(s)[i - 1] == '\\'
  {
    if s != "" {
      EscapedIsClean(s[..|s| - 1]);
      CharIsClean(s[|s| - 1]);
      hide EscapedChar;
    }
  }

  lemma CharIsClean(c: char)
    ensures forall i | 0 <= i < |EscapedChar(c)| :: ' ' <= EscapedChar(c)[i]
    ensures forall i | 0 <= i < |EscapedChar(c)| && EscapedChar(c)[i] == '"' :: i > 0 && EscapedChar(c)[i - 1] == '\\'
  {
  }

  /**
   Only a quote, a backslash and control characters are escaped: seven of them with a letter, the
   other control characters as a unicode escape of their number with lower-case digits.
   */
  lemma EscapesOnlyWhatItMust(c: char)
    ensures EscapedChar(c) ==
      if c == '"' then "\\\""
      else if c == '\\' then "\\\\"
      else if c == '\n' then "\\n"
      else if c == '\r' then "\\r"
      else if c == '\t' then "\\t"
      else if c == '\U{0008}' then "\\b"
      else if c == '\U{000C}' then "\\f"
      else if c < ' ' then "\\u00" + [if c < '\U{0010}' then '0' else '1'] + [LowerHex(c as int % 16)]
      else [c]
  {
  }

  /** The digit of a number below sixteen. */
  function LowerHex(d: nat): char
    requires d < 16
  {
    if d < 10 then ('0' as int + d) as char else ('a' as int + (d - 10)) as char
  }

  lemma EscapedStep(s: string, i: nat)
    requires i < |s|
    ensures Escaped(s[..i + 1]) == Escaped(s[..i]) + EscapedChar(s[i])
    ensures |Escaped(s[i..])| == |EscapedChar(s[i])| + |Escaped(s[i + 1..])|
  {
    assert s[..i + 1][..i] == s[..i];
    assert s[i..] == [s[i]] + s[i + 1..];
    EscapedCons(s[i], s[i + 1..]);
  }

  /** `escape_string` fills a buffer of backslashes that has exactly the right size. */
  method EscapeString(s: string) returns (r: string)
    ensures r == Escaped(s)
  {
    ExtraSpaceExact(s);
    var space := ExtraSpace(s);
    if space == 0 {
      return s;
    }
    var result := new char[|s| + space](_ => '\\');
    var pos: nat := 0;
    assert s[..0] == "" && s[0..] == s;
    for i := 0 to |s|
      invariant pos + |Escaped(s[i..])| == result.Length
      invariant pos <= result.Length && result[..pos] == Escaped(s[..i])
      invariant forall n | pos <= n < result.Length :: result[n] == '\\'
    {
      EscapedStep(s, i);
      pos := WriteEscaped(result, pos, s[i]);
    }
    assert s[..|s|] == s && s[|s|..] == "";
    return result[..];
  }

  /** The switch over one character; the backslashes are there already. */
  method WriteEscaped(result: array<char>, pos: nat, c: char) returns (pos': nat)
    requires pos + |EscapedChar(c)| <= result.Length
    requires forall n | pos <= n < result.Length :: result[n] == '\\'
    modifies result
    ensures pos' == pos + |EscapedChar(c)|
    ensures result[..pos'] == old(result[..pos]) + EscapedChar(c)
    ensures forall n | pos' <= n < result.Length :: result[n] == '\\'
  {
    var short := ShortEscape(c);
    if short.Some? {
      result[pos + 1] := short.value;
      return pos + 2;
    }
    if c <= '\U{001F}' {
      result[pos + 1] := 'u';
      result[pos + 2] := '0';
      result[pos + 3] := '0';
      result[pos + 4] := HexDigit(c as int / 16);
      result[pos + 5] := HexDigit(c as int % 16);
      return pos + 6;
    }
    result[pos] := c;
    return pos + 1;
  }

  // ---------- to_unicode ----------

  function Byte(n: nat): char
    requires n < 256
  {
    n as char
  }

  /** UTF-8 encoding of a code point or a surrogate pair (section 3 of RFC 3629). */
  function ToUnicode(codepoint1: nat, codepoint2: nat): Result<string> {
    var surrogate := 0xD800 <= codepoint1 <= 0xDBFF;
    if surrogate && !(0xDC00 <= codepoint2 <= 0xDFFF) then Err(InvalidArgument)
    else
      EncodeCodePoint(if surrogate then codepoint1 * 1024 + codepoint2 - 0x35FDC00 else codepoint1)
  }

  function EncodeCodePoint(c: nat): Result<string> {
    if c < 0x80 then Ok([Byte(c)])
    else if c <= 0x7FF then Ok([Byte(0xC0 + c / 64 % 32), Byte(0x80 + c % 64)])
    else if c <= 0xFFFF then Ok([Byte(0xE0 + c / 4096 % 16), Byte(0x80 + c / 64 % 64), Byte(0x80 + c % 64)])
    else if c <= 0x10FFFF then
      Ok([Byte(0xF0 + c / 262144 % 8), Byte(0x80 + c / 4096 % 64), Byte(0x80 + c / 64 % 64), Byte(0x80 + c % 64)])
    else Err(OutOfRange)
  }

  /** The code point that a UTF-8 sequence stands for, if its lead byte fits its length. */
  function Utf8Value(s: string): Option<nat> {
    if exists i | 1 <= i < |s| :: !(0x80 <= s[i] as int < 0xC0) then None
    else
      var b := seq(|s|, i requires 0 <= i < |s| => s[i] as int);
      if |s| == 1 && b[0] < 0x80 then Some(b[0])
      else if |s| == 2 && 0xC0 <= b[0] < 0xE0 then Some((b[0] - 0xC0) * 64 + (b[1] - 0x80))
      else if |s| == 3 && 0xE0 <= b[0] < 0xF0 then
        Some((b[0] - 0xE0) * 4096 + (b[1] - 0x80) * 64 + (b[2] - 0x80))
      else if |s| == 4 && 0xF0 <= b[0] < 0xF8 then
        Some((b[0] - 0xF0) * 262144 + (b[1] - 0x80) * 4096 + (b[2] - 0x80) * 64 + (b[3] - 0x80))
      else None
  }

  /** How many bytes UTF-8 takes for a code point. */
  function Utf8Length(c: nat): nat {
    if c < 0x80 then 1 else if c < 0x800 then 2 else if c < 0x1_0000 then 3 else 4
  }

  /** The code point of one escape, or of a high and a low surrogate. */
  function CodePoint(codepoint1: nat, codepoint2: nat): nat {
    if 0xD800 <= codepoint1 <= 0xDBFF && 0xDC00 <= codepoint2 <= 0xDFFF then
      0x1_0000 + (codepoint1 - 0xD800) * 1024 + (codepoint2 - 0xDC00)
    else codepoint1
  }

  lemma TwoBytes(x: nat, y: nat)
    requires x < 32 && y < 64
    ensures Utf8Value([Byte(0xC0 + x), Byte(0x80 + y)]) == Some(x * 64 + y)
  {
  }

  lemma ThreeBytes(x: nat, y: nat, z: nat)
    requires x < 16 && y < 64 && z < 64
    ensures Utf8Value([Byte(0xE0 + x), Byte(0x80 + y), Byte(0x80 + z)]) == Some(x * 4096 + y * 64 + z)
  {
  }

  lemma FourBytes(w: nat, x: nat, y: nat, z: nat)
    requires w < 8 && x < 64 && y < 64 && z < 64
    ensures Utf8Value([Byte(0xF0 + w), Byte(0x80 + x), Byte(0x80 + y), Byte(0x80 + z)])
         == Some(w * 262144 + x * 4096 + y * 64 + z)
  {
  }

  lemma SixBitGroups(c: nat)
    requires c <= 0x10_FFFF
    ensures c < 0x800 ==> c == c / 64 % 32 * 64 + c % 64
    ensures c < 0x1_0000 ==> c == c / 4096 % 16 * 4096 + c / 64 % 64 * 64 + c % 64
    ensures c == c / 262144 % 8 * 262144 + c / 4096 % 64 * 4096 + c / 64 % 64 * 64 + c % 64
  {
    assert c / 4096 == c / 64 / 64 && c / 262144 == c / 4096 / 64;
  }

  lemma EncodedCodePoint(c: nat)
    ensures match EncodeCodePoint(c) {
      case Ok(s) => Utf8Value(s) == Some(c) && |s| == Utf8Length(c)
      case Err(e) => e == OutOfRange && c > 0x10_FFFF
    }
  {
    if c < 0x80 {
      assert Utf8Value([Byte(c)]) == Some(c);
    } else if c <= 0x10_FFFF {
      hide Utf8Value, Byte;
      SixBitGroups(c);
      if c < 0x800 {
        TwoBytes(c / 64 % 32, c % 64);
      } else if c < 0x1_0000 {
        ThreeBytes(c / 4096 % 16, c / 64 % 64, c % 64);
      } else {
        FourBytes(c / 262144 % 8, c / 4096 % 64, c / 64 % 64, c % 64);
      }
    }
  }

  /** The result is the shortest UTF-8 sequence of the code point; a high surrogate needs a low one. */
  lemma ToUnicodeIsUtf8(codepoint1: nat, codepoint2: nat)
    ensures var c := CodePoint(codepoint1, codepoint2);
      match ToUnicode(codepoint1, codepoint2) {
        case Ok(s) => Utf8Value(s) == Some(c) && |s| == Utf8Length(c)
        case Err(InvalidArgument) => 0xD800 <= codepoint1 <= 0xDBFF && !(0xDC00 <= codepoint2 <= 0xDFFF)
        case Err(e) => e == OutOfRange && codepoint1 > 0x10_FFFF
      }
  {
    hide EncodeCodePoint, Utf8Value, Utf8Length;
    EncodedCodePoint(CodePoint(codepoint1, codepoint2));
  }
}
