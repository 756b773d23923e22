/** The scanner of the JSON parser: `scan`, `get_string` and `get_number`. */
module Lexer {
  import opened Results
  import opened Text
  import opened Json
  import opened Escaping

  datatype Token =
    | LiteralTrue | LiteralFalse | LiteralNull
    | ValueString | ValueNumber
    | BeginArray | BeginObject | EndArray | EndObject
    | NameSeparator | ValueSeparator
    | ParseError | EndOfInput

  /** The last token, with `m_start` and `m_cursor`. */
  datatype Scanned = Scanned(token: Token, start: nat, cursor: nat)

  /** The C library's conversions between floating-point numbers and text. */
  datatype Libc = Libc(strtod: string -> real, show: real -> string)

  /** The buffer is followed by as many null characters as the scanner looks at. */
  function CharAt(text: string, i: nat): char {
    if i < |text| then text[i] else '\0'
  }

  predicate IsBlank(c: char) {
    c == ' ' || c == '\t' || c == '\n' || c == '\r'
  }

  predicate IsHex(c: char) {
    '0' <= c <= '9' || 'a' <= c <= 'f' || 'A' <= c <= 'F'
  }

  /** The four hexadecimal digits of a unicode escape. */
  predicate FourHex(text: string, i: nat) {
    IsHex(CharAt(text, i)) && IsHex(CharAt(text, i + 1)) && IsHex(CharAt(text, i + 2)) && IsHex(CharAt(text, i + 3))
  }

  // ---------- scan ----------

  /** From inside a string literal: the position after the closing quote, if the literal is well formed. */
  function StringEnd(text: string, i: nat): (end: Option<nat>)
    ensures end.Some? ==> i < end.value <= |text|
    decreases |text| - i
  {
    if i >= |text| then None
    else if text[i] < ' ' then None
    else if text[i] == '"' then Some(i + 1)
    else if text[i] != '\\' then StringEnd(text, i + 1)
    else
      var c := CharAt(text, i + 1);
      if c == '"' || c == '\\' || c == '/' || c == 'b' || c == 'f' || c == 'n' || c == 'r' || c == 't' then
        StringEnd(text, i + 2)
      else if c == 'u' && FourHex(text, i + 2) then StringEnd(text, i + 6)
      else None
  }

  function DigitsEnd(text: string, i: nat): (end: nat)
    ensures i <= end && (i <= |text| ==> end <= |text|)
    ensures forall n | i <= n < end :: IsDigit(CharAt(text, n))
    ensures !IsDigit(CharAt(text, end))
    decreases |text| - i
  {
    if IsDigit(CharAt(text, i)) then DigitsEnd(text, i + 1) else i
  }

  function FractionEnd(text: string, i: nat): (end: nat)
    ensures i <= end && (i <= |text| ==> end <= |text|)
  {
    if CharAt(text, i) == '.' && IsDigit(CharAt(text, i + 1)) then DigitsEnd(text, i + 1) else i
  }

  function ExponentEnd(text: string, i: nat): (end: nat)
    ensures i <= end && (i <= |text| ==> end <= |text|)
  {
    var sign := CharAt(text, i + 1);
    var digits := if sign == '+' || sign == '-' then i + 2 else i + 1;
    if (CharAt(text, i) == 'e' || CharAt(text, i) == 'E') && IsDigit(CharAt(text, digits)) then DigitsEnd(text, digits)
    else i
  }

  /** From the first digit of a number: the longest match of integer, fraction and exponent. */
  function NumberEnd(text: string, i: nat): (end: nat)
    requires IsDigit(CharAt(text, i))
    ensures i < end <= |text|
  {
    var whole := if CharAt(text, i) == '0' then i + 1 else DigitsEnd(text, i);
    ExponentEnd(text, FractionEnd(text, whole))
  }

  predicate Follows(text: string, i: nat, word: string) {
    i + |word| <= |text| && text[i..i + |word|] == word
  }

  const BOM := "\U{EF}\U{BB}\U{BF}"

  /** The token that starts at `pos`. */
  function TokenAt(text: string, pos: nat): (r: Scanned)
    ensures pos == r.start < r.cursor
    ensures r.token != EndOfInput ==> r.cursor <= |text|
    ensures r.token == ValueString ==> r.cursor - pos >= 2
  {
    var c := CharAt(text, pos);
    if c == '"' then
      match StringEnd(text, pos + 1)
      case Some(end) => Scanned(ValueString, pos, end)
      case None => Scanned(ParseError, pos, pos + 1)
    else if IsDigit(c) then Scanned(ValueNumber, pos, NumberEnd(text, pos))
    else if c == '-' then
      if IsDigit(CharAt(text, pos + 1)) then Scanned(ValueNumber, pos, NumberEnd(text, pos + 1))
      else Scanned(ParseError, pos, pos + 1)
    else if Follows(text, pos, "true") then Scanned(LiteralTrue, pos, pos + 4)
    else if Follows(text, pos, "false") then Scanned(LiteralFalse, pos, pos + 5)
    else if Follows(text, pos, "null") then Scanned(LiteralNull, pos, pos + 4)
    else Scanned(Single(c), pos, pos + 1)
  }

  function Single(c: char): Token {
    match c
    case '\0' => EndOfInput
    case '[' => BeginArray
    case ']' => EndArray
    case '{' => BeginObject
    case '}' => EndObject
    case ':' => NameSeparator
    case ',' => ValueSeparator
    case _ => ParseError
  }

  /** The next token from `pos` on, after blanks and byte order marks. */
  function Scan(text: string, pos: nat): (r: Scanned)
    ensures pos <= r.start < r.cursor
    ensures r.token != EndOfInput ==> r.cursor <= |text|
    ensures r.token == ValueString ==> r.cursor - r.start >= 2
    decreases |text| - pos
  {
    if IsBlank(CharAt(text, pos)) then Scan(text, pos + 1)
    else if Follows(text, pos, BOM) then Scan(text, pos + 3)
    else TokenAt(text, pos)
  }

  // ---------- get_string ----------

  function HexValue(c: char): nat
    requires IsHex(c)
  {
    if c <= '9' then c as int - '0' as int
    else if 'a' <= c then c as int - 'a' as int + 10
    else c as int - 'A' as int + 10
  }

  /** `std::strtoul(std::string(p, 4), nullptr, 16)` on the digits it accepts. */
  function Hex(text: string, i: nat, n: nat): (v: nat)
    decreases n
  {
    if n == 0 || !forall k | i <= k < i + n :: IsHex(CharAt(text, k)) then 0
    else Hex(text, i, n - 1) * 16 + HexValue(CharAt(text, i + n - 1))
  }

  function Then(head: string, tail: Result<string>): Result<string> {
    if tail.Ok? then Ok(head + tail.value) else tail
  }

  /** The character a one-letter escape stands for; unknown letters append nothing. */
  function Unescaped(c: char): string {
    match c
    case 't' => "\t"
    case 'b' => "\U{0008}"
    case 'f' => "\U{000C}"
    case 'n' => "\n"
    case 'r' => "\r"
    case '\\' => "\\"
    case '/' => "/"
    case '"' => "\""
    case _ => ""
  }

  /** The value of the characters from `i` up to the closing quote at `end`. */
  function StringValue(text: string, i: nat, end: nat): Result<string>
    decreases end - i
  {
    if i >= end then Ok("")
    else if CharAt(text, i) != '\\' then Then([CharAt(text, i)], StringValue(text, i + 1, end))
    else if CharAt(text, i + 1) != 'u' then
      Then(Unescaped(CharAt(text, i + 1)), StringValue(text, i + 2, end))
    else
      var codepoint := Hex(text, i + 2, 4);
      if 0xD800 <= codepoint <= 0xDBFF then
        if CharAt(text, i + 6) != '\\' || CharAt(text, i + 7) != 'u' then Err(InvalidArgument)
        else
          var c :- ToUnicode(codepoint, Hex(text, i + 8, 4));
          Then(c, StringValue(text, i + 12, end))
      else
        var c :- ToUnicode(codepoint, 0);
        Then(c, StringValue(text, i + 6, end))
  }

  // ---------- get_number ----------

  /** One round of the loop: None once the number is no longer an integer in range. */
  function Accumulate(value: Option<uint64>, c: char, max: nat): (r: Option<uint64>)
    ensures r.Some? ==> r.value <= max
  {
    if value.None? || !IsDigit(c) then None
    else
      // 64-bit unsigned arithmetic wraps around
      var temp := (value.value * 10 + DigitValue(c)) % TWO64;
      if temp < value.value || temp > max then None else Some(temp)
  }

  function AccumulateAll(digits: string, max: nat): (r: Option<uint64>)
    ensures r.Some? ==> r.value <= max
  {
    if digits == "" then Some(0)
    else Accumulate(AccumulateAll(digits[..|digits| - 1], max), digits[|digits| - 1], max)
  }

  /** The value of a number token. */
  function NumberValue(lib: Libc, literal: string): Value {
    var negative := literal != "" && literal[0] == '-';
    var digits := if negative then literal[1..] else literal;
    match AccumulateAll(digits, if negative then TWO63 else TWO64 - 1)
    case Some(v) => if negative then Integer(0 - v as int) else Unsigned(v)
    case None => Float(lib.strtod(literal))
  }

  // ---------- the scanner object ----------

  class Scanner {
    const text: string
    const lib: Libc
    var start: nat
    var cursor: nat

    constructor (text: string, lib: Libc)
      ensures this.text == text && this.lib == lib
      ensures start == 0 && cursor == 0
    {
      this.text := text;
      this.lib := lib;
      start, cursor := 0, 0;
    }

    /** The loop of `scan`: blanks and byte order marks start over. */
    method Next() returns (token: Token)
      modifies this
      ensures Scanned(token, start, cursor) == Scan(text, old(cursor))
    {
      while true
        invariant Scan(text, cursor) == Scan(text, old(cursor))
        decreases |text| - cursor
      {
        start := cursor;
        if IsBlank(CharAt(text, cursor)) {
          cursor := cursor + 1;
          while IsBlank(CharAt(text, cursor))
            invariant Scan(text, cursor) == Scan(text, old(cursor)) && start < cursor
            decreases |text| - cursor
          {
            cursor := cursor + 1;
          }
        } else if Follows(text, cursor, BOM) {
          cursor := cursor + 3;
        } else {
          token := ScanToken();
          return;
        }
      }
    }

    method ScanToken() returns (token: Token)
      modifies this`cursor
      ensures Scanned(token, old(cursor), cursor) == TokenAt(text, old(cursor))
    {
      var c := CharAt(text, cursor);
      if c == '"' {
        token := ScanString();
      } else if IsDigit(c) || c == '-' {
        token := ScanNumber();
      } else if Follows(text, cursor, "true") {
        token, cursor := LiteralTrue, cursor + 4;
      } else if Follows(text, cursor, "false") {
        token, cursor := LiteralFalse, cursor + 5;
      } else if Follows(text, cursor, "null") {
        token, cursor := LiteralNull, cursor + 4;
      } else {
        token, cursor := Single(c), cursor + 1;
      }
    }

    /** The states of the automaton that recognise a string literal. */
    method ScanString() returns (token: Token)
      requires CharAt(text, cursor) == '"'
      modifies this`cursor
      ensures match StringEnd(text, old(cursor) + 1)
        case Some(end) => token == ValueString && cursor == end
        case None => token == ParseError && cursor == old(cursor) + 1
    {
      cursor := cursor + 1;
      var marker := cursor;
      while CharAt(text, cursor) >= ' ' && CharAt(text, cursor) != '"'
        invariant marker <= cursor && StringEnd(text, cursor) == StringEnd(text, marker)
        decreases |text| - cursor
      {
        if CharAt(text, cursor) != '\\' {
          cursor := cursor + 1;
        } else {
          var c := CharAt(text, cursor + 1);
          if c == '"' || c == '\\' || c == '/' || c == 'b' || c == 'f' || c == 'n' || c == 'r' || c == 't' {
            cursor := cursor + 2;
          } else if c == 'u' && FourHex(text, cursor + 2) {
            cursor := cursor + 6;
          } else {
            cursor := marker;
            return ParseError;
          }
        }
      }
      if CharAt(text, cursor) == '"' {
        cursor := cursor + 1;
        return ValueString;
      }
      cursor := marker;
      return ParseError;
    }

    method SkipDigits()
      modifies this`cursor
      ensures cursor == DigitsEnd(text, old(cursor))
    {
      while IsDigit(CharAt(text, cursor))
        invariant DigitsEnd(text, cursor) == DigitsEnd(text, old(cursor))
        decreases |text| - cursor
      {
        cursor := cursor + 1;
      }
    }

    /** The states that recognise a number, with the marker they fall back to. */
    method ScanNumber() returns (token: Token)
      requires IsDigit(CharAt(text, cursor)) || CharAt(text, cursor) == '-'
      modifies this`cursor
      ensures var first := if CharAt(text, old(cursor)) == '-' then old(cursor) + 1 else old(cursor);
        if IsDigit(CharAt(text, first)) then token == ValueNumber && cursor == NumberEnd(text, first)
        else token == ParseError && cursor == old(cursor) + 1
    {
      if CharAt(text, cursor) == '-' {
        cursor := cursor + 1;
        if !IsDigit(CharAt(text, cursor)) {
          return ParseError;
        }
      }
      if CharAt(text, cursor) == '0' {
        cursor := cursor + 1;
      } else {
        SkipDigits();
      }
      ScanFraction();
      ScanExponent();
      return ValueNumber;
    }

    method ScanFraction()
      modifies this`cursor
      ensures cursor == FractionEnd(text, old(cursor))
    {
      if CharAt(text, cursor) == '.' && IsDigit(CharAt(text, cursor + 1)) {
        cursor := cursor + 1;
        SkipDigits();
      }
    }

    method ScanExponent()
      modifies this`cursor
      ensures cursor == ExponentEnd(text, old(cursor))
    {
      var marker := cursor;
      if CharAt(text, cursor) == 'e' || CharAt(text, cursor) == 'E' {
        cursor := cursor + 1;
        if CharAt(text, cursor) == '+' || CharAt(text, cursor) == '-' {
          cursor := cursor + 1;
        }
        if IsDigit(CharAt(text, cursor)) {
          SkipDigits();
        } else {
          cursor := marker;
        }
      }
    }

    /** The loop of `get_string` over the characters between the quotes. */
    method GetString() returns (r: Result<string>)
      requires cursor - start >= 2
      ensures r == StringValue(text, start + 1, cursor - 1)
    {
      hide ToUnicode, Hex;
      var result := "";
      var i := start + 1;
      assert forall r: string :: "" + r == r;
      while i < cursor - 1
        invariant StringValue(text, start + 1, cursor - 1) == Then(result, StringValue(text, i, cursor - 1))
        decreases cursor - i
      {
        if CharAt(text, i) != '\\' {
          ThenThen(result, [CharAt(text, i)], StringValue(text, i + 1, cursor - 1));
          result := result + [CharAt(text, i)];
          i := i + 1;
        } else if CharAt(text, i + 1) != 'u' {
          ThenThen(result, Unescaped(CharAt(text, i + 1)), StringValue(text, i + 2, cursor - 1));
          result := result + Unescaped(CharAt(text, i + 1));
          i := i + 2;
        } else {
          var codepoint := Hex(text, i + 2, 4);
          if 0xD800 <= codepoint <= 0xDBFF {
            if CharAt(text, i + 6) != '\\' || CharAt(text, i + 7) != 'u' {
              return Err(InvalidArgument);
            }
            var c := ToUnicode(codepoint, Hex(text, i + 8, 4));
            if c.Err? {
              return c;
            }
            ThenThen(result, c.value, StringValue(text, i + 12, cursor - 1));
            result := result + c.value;
            i := i + 12;
          } else {
            var c := ToUnicode(codepoint, 0);
            if c.Err? {
              return c;
            }
            ThenThen(result, c.value, StringValue(text, i + 6, cursor - 1));
            result := result + c.value;
            i := i + 6;
          }
        }
      }
      assert result + "" == result;
      return Ok(result);
    }

    /** The loop of `get_number` over the characters of the token. */
    method GetNumber() returns (r: Value)
      requires start < cursor <= |text|
      ensures r == NumberValue(lib, text[start..cursor])
    {
      ghost var literal := text[start..cursor];
      var curptr := start;
      var negative := text[start] == '-';
      var max := TWO64 - 1;
      if negative {
        max := TWO63;
        curptr := curptr + 1;
      }
      ghost var digits := text[curptr..cursor];
      assert digits == if negative then literal[1..] else literal;
      var value: Option<uint64> := Some(0);
      ghost var n: nat := 0;
      assert digits[..0] == "";
      while curptr < cursor && value.Some?
        invariant n <= |digits| && curptr == cursor - |digits| + n
        invariant digits == text[cursor - |digits|..cursor]
        invariant value == AccumulateAll(digits[..n], max)
      {
        assert digits[..n + 1][..n] == digits[..n];
        value := Accumulate(value, text[curptr], max);
        curptr, n := curptr + 1, n + 1;
      }
      if value.None? {
        NotInteger(digits, max, n);
      }
      assert n == |digits| ==> digits[..n] == digits;
      hide AccumulateAll;
      return match value
        case Some(v) => if negative then Integer(0 - v as int) else Unsigned(v)
        case None => Float(lib.strtod(text[start..cursor]));
    }
  }

  lemma ThenThen(a: string, b: string, r: Result<string>)
    ensures Then(a, Then(b, r)) == Then(a + b, r)
  {
    if r.Ok? {
      assert a + (b + r.value) == a + b + r.value;
    }
  }

  /** Once a number has left the integer range it stays a float. */
  lemma {:induction false} NotInteger(digits: string, max: nat, n: nat)
    requires n <= |digits| && AccumulateAll(digits[..n], max).None?
    ensures AccumulateAll(digits, max).None?
    decreases |digits|
  {
    if n < |digits| {
      var front := digits[..|digits| - 1];
      assert front[..n] == digits[..n];
      NotInteger(front, max, n);
    } else {
      assert digits[..n] == digits;
    }
  }
}
