/** `parse(dump(v)) == v`. */
module ParseDump {
  import opened Results
  import opened Text
  import opened Json
  import opened Escaping
  import opened Lexer
  import opened Parser
  import opened Dump

  /** The value as the parser reads it back: a non-negative number is unsigned. */
  function Normal(v: Value): Value {
    match v
    case Integer(i) => if i >= 0 then Unsigned(i) else v
    case Array(xs) => Array(seq(|xs|, i requires 0 <= i < |xs| => Normal(xs[i])))
    case Object(m) => Object(map k | k in m :: Normal(m[k]))
    case _ => v
  }

  lemma {:induction false} NormalIsEqual(v: Value)
    ensures Eq(Normal(v), v)
  {
    match v
    case Array(xs) =>
      forall i | 0 <= i < |xs| ensures Eq(Normal(v).elems[i], xs[i]) { NormalIsEqual(xs[i]); }
    case Object(m) =>
      forall k | k in m ensures Eq(Normal(v).members[k], m[k]) { NormalIsEqual(m[k]); }
    case _ =>
  }

  // ---------- tokens ----------

  lemma FollowsParts(text: string, p: nat, a: string, b: string)
    requires Follows(text, p, a + b)
    ensures Follows(text, p, a) && Follows(text, p + |a|, b)
  {
    var t := text[p..p + |a + b|];
    assert t[..|a|] == a && t[|a|..] == b;
  }

  lemma FollowsAt(text: string, p: nat, a: string, i: nat)
    requires Follows(text, p, a) && i < |a|
    ensures CharAt(text, p + i) == a[i]
  {
    assert text[p..p + |a|][i] == a[i];
  }

  lemma {:induction false} ScanBlanks(text: string, p: nat, b: string)
    requires Follows(text, p, b) && forall c | c in b :: IsBlank(c)
    ensures Scan(text, p) == Scan(text, p + |b|)
    decreases |b|
  {
    if b != "" {
      FollowsAt(text, p, b, 0);
      assert b == [b[0]] + b[1..];
      FollowsParts(text, p, [b[0]], b[1..]);
      ScanBlanks(text, p + 1, b[1..]);
    }
  }

  /** A number ends before this position. */
  predicate Ends(text: string, p: nat) {
    var c := CharAt(text, p);
    !IsDigit(c) && c != '.' && c != 'e' && c != 'E'
  }

  lemma {:induction false} DigitsEndIs(text: string, i: nat, end: nat)
    requires i <= end && (forall n | i <= n < end :: IsDigit(CharAt(text, n))) && !IsDigit(CharAt(text, end))
    ensures DigitsEnd(text, i) == end
    decreases end - i
  {
    if i < end {
      DigitsEndIs(text, i + 1, end);
    }
  }

  lemma NumberEndOfDecimal(text: string, p: nat, n: nat)
    requires Follows(text, p, Decimal(n)) && Ends(text, p + |Decimal(n)|)
    ensures IsDigit(CharAt(text, p)) && NumberEnd(text, p) == p + |Decimal(n)|
  {
    var d := Decimal(n);
    forall i | p <= i < p + |d| ensures IsDigit(CharAt(text, i)) {
      FollowsAt(text, p, d, i - p);
      assert d[i - p] in d;
    }
    FollowsAt(text, p, d, 0);
    if d[0] != '0' {
      DigitsEndIs(text, p, p + |d|);
    }
  }

  /** Every in-range number is accumulated exactly. */
  lemma {:induction false} AccumulateDecimal(n: nat, max: nat)
    requires n <= max < TWO64
    ensures AccumulateAll(Decimal(n), max) == Some(n)
  {
    if n < 10 {
      assert AccumulateAll("", max) == Some(0);
      assert Decimal(n)[..0] == "";
    } else {
      hide AccumulateAll;
      AccumulateDecimal(n / 10, max);
      AccumulateSnoc(Decimal(n / 10), DigitChar(n % 10), max);
      assert Decimal(n) == Decimal(n / 10) + [DigitChar(n % 10)];
      hide Decimal;
      AccumulateStep(n, max);
    }
  }

  lemma AccumulateSnoc(front: string, last: char, max: nat)
    ensures AccumulateAll(front + [last], max) == Accumulate(AccumulateAll(front, max), last, max)
  {
    assert (front + [last])[..|front|] == front;
  }

  lemma AccumulateStep(n: nat, max: nat)
    requires n <= max < TWO64
    ensures Accumulate(Some(n / 10), DigitChar(n % 10), max) == Some(n)
  {
  }

  lemma DigitsHaveNoSign(n: nat)
    ensures Decimal(n)[0] != '-'
  {
    assert IsDigit(Decimal(n)[0]);
  }

  /** `get_number` gives back every 64-bit number `dump` writes. */
  lemma NumberRoundTrip(lib: Libc, i: int)
    requires -TWO63 <= i < TWO64
    ensures NumberValue(lib, IntegerText(i)) == if i >= 0 then Unsigned(i) else Integer(i)
  {
    if i >= 0 {
      AccumulateDecimal(i, TWO64 - 1);
      DigitsHaveNoSign(i);
    } else {
      AccumulateDecimal(-i, TWO63);
      assert IntegerText(i)[1..] == Decimal(-i);
    }
  }

  // ---------- numbers out of range ----------

  /** The overflow guard lets a wrapped sum pass exactly if it is not below the value before, nor above the maximum. */
  lemma WrapIsMissed(v: uint64, c: char, max: nat)
    requires IsDigit(c) && v <= max < TWO64
    ensures var sum := v * 10 + DigitValue(c);
            var r := Accumulate(Some(v), c, max);
            && (r.Some? && r.value != sum <==> sum >= TWO64 && v <= sum % TWO64 <= max)
            && (r.Some? && r.value == sum <==> sum <= max)
  {
  }

  /** Whatever the guard lets pass is right modulo 2^64, and every number below that is judged rightly. */
  lemma {:induction false} AccumulatedModulo(digits: string, max: nat)
    requires AllDigits(digits) && max < TWO64
    ensures var (n, v) := (AccumulateAll(digits, max), DecimalValue(digits));
            && (n.Some? ==> n.value == v % TWO64)
            && (v < TWO64 ==> n == if v <= max then Some(v) else None)
  {
    if digits != "" {
      var front, c := digits[..|digits| - 1], digits[|digits| - 1];
      AccumulatedModulo(front, max);
      assert c in digits;
      ModuloStep(DecimalValue(front), DigitValue(c));
    }
  }

  lemma ModuloStep(v: nat, d: nat)
    ensures (v % TWO64 * 10 + d) % TWO64 == (v * 10 + d) % TWO64
  {
    MultipleVanishes(v % TWO64 * 10 + d, 10 * (v / TWO64));
  }

  lemma MultipleVanishes(x: nat, k: nat)
    ensures (x + TWO64 * k) % TWO64 == x % TWO64
  {
  }

  /**
   A number token of digits comes back as a wrong integer exactly if it is 2^64 or more and the guard
   lets every one of its digits pass; the integer is then what is left of it modulo 2^64.
   */
  lemma WrongIntegerExactly(lib: Libc, digits: string)
    requires AllDigits(digits) && digits != ""
    ensures var (r, v) := (NumberValue(lib, digits), DecimalValue(digits));
            && (r.Unsigned? <==> AccumulateAll(digits, TWO64 - 1).Some?)
            && (r.Unsigned? ==> r.u == v % TWO64)
            && (r.Unsigned? && r.u != v <==> v >= TWO64 && AccumulateAll(digits, TWO64 - 1).Some?)
            && (v < TWO64 ==> r == Unsigned(v))
  {
    assert digits[0] in digits;
    AccumulatedModulo(digits, TWO64 - 1);
  }

  /** The same with a minus sign, where the integers end at -2^63. */
  lemma WrongNegativeExactly(lib: Libc, digits: string)
    requires AllDigits(digits)
    ensures var (r, v) := (NumberValue(lib, "-" + digits), DecimalValue(digits));
            && (r.Integer? <==> AccumulateAll(digits, TWO63).Some?)
            && (r.Integer? ==> r.i == -(v % TWO64))
            && (r.Integer? && r.i != -v <==> v >= TWO64 && AccumulateAll(digits, TWO63).Some?)
            && (v < TWO64 ==> (r.Integer? <==> v <= TWO63))
  {
    assert ("-" + digits)[1..] == digits;
    AccumulatedModulo(digits, TWO63);
  }

  /** Thirty quintillion is read as 11553255926290448384. */
  lemma WrongIntegerIsRead(lib: Libc)
    ensures NumberValue(lib, Decimal(30_000_000_000_000_000_000)) == Unsigned(11_553_255_926_290_448_384)
  {
    hide Decimal, AccumulateAll;
    var n := 3_000_000_000_000_000_000;
    AccumulateDecimal(n, TWO64 - 1);
    DigitsHaveNoSign(10 * n);
    DecimalTimesTen(n);
    AccumulateSnoc(Decimal(n), DigitChar(0), TWO64 - 1);
    assert Accumulate(Some(n), DigitChar(0), TWO64 - 1) == Some(11_553_255_926_290_448_384);
  }

  lemma DecimalTimesTen(n: nat)
    requires n > 0
    ensures Decimal(10 * n) == Decimal(n) + [DigitChar(0)]
  {
    assert 10 * n / 10 == n && 10 * n % 10 == 0;
  }

  lemma ScanHere(text: string, p: nat)
    requires !IsBlank(CharAt(text, p)) && CharAt(text, p) != '\U{EF}'
    ensures Scan(text, p) == TokenAt(text, p)
  {
    if Follows(text, p, BOM) {
      FollowsAt(text, p, BOM, 0);
    }
  }

  lemma ScanNumberText(text: string, p: nat, i: int)
    requires Follows(text, p, IntegerText(i)) && Ends(text, p + |IntegerText(i)|)
    ensures Scan(text, p) == Scanned(ValueNumber, p, p + |IntegerText(i)|)
  {
    hide Scan, NumberEnd, Decimal, StringEnd;
    if i >= 0 {
      NumberEndOfDecimal(text, p, i);
    } else {
      FollowsParts(text, p, "-", Decimal(-i));
      FollowsAt(text, p, "-", 0);
      NumberEndOfDecimal(text, p + 1, -i);
    }
    ScanHere(text, p);
  }

  // ---------- strings ----------

  lemma HexTwoDigits(text: string, i: nat, n: nat)
    requires n < 32 && Follows(text, i, ['0', '0', HexDigit(n / 16), HexDigit(n % 16)])
    ensures FourHex(text, i) && Hex(text, i, 4) == n
  {
    var d := ['0', '0', HexDigit(n / 16), HexDigit(n % 16)];
    FollowsAt(text, i, d, 0);
    FollowsAt(text, i, d, 1);
    FollowsAt(text, i, d, 2);
    FollowsAt(text, i, d, 3);
    assert Hex(text, i, 1) == 0;
    assert Hex(text, i, 2) == 0;
    assert Hex(text, i, 3) == n / 16;
  }

  /** The scanner passes over an escaped character as a whole, and `get_string` decodes it. */
  lemma EscapedCharRead(text: string, i: nat, c: char, end: nat)
    requires Follows(text, i, EscapedChar(c)) && i + |EscapedChar(c)| <= end
    ensures StringEnd(text, i) == StringEnd(text, i + |EscapedChar(c)|)
    ensures StringValue(text, i, end) == Lexer.Then([c], StringValue(text, i + |EscapedChar(c)|, end))
  {
    var e := EscapedChar(c);
    FollowsAt(text, i, e, 0);
    if ShortEscape(c).Some? {
      FollowsAt(text, i, e, 1);
      assert Unescaped(e[1]) == [c];
    } else if c <= '\U{001F}' {
      FollowsAt(text, i, e, 1);
      var d := ['0', '0', HexDigit(c as int / 16), HexDigit(c as int % 16)];
      assert e == ['\\', 'u'] + d;
      FollowsParts(text, i, ['\\', 'u'], d);
      HexTwoDigits(text, i + 2, c as int);
      assert ToUnicode(c as int, 0) == Ok([c]);
    }
  }

  lemma {:induction false} EscapedRead(text: string, i: nat, s: string)
    requires Follows(text, i, Escaped(s) + "\"")
    ensures StringEnd(text, i) == Some(i + |Escaped(s)| + 1)
    ensures StringValue(text, i, i + |Escaped(s)|) == Ok(s)
    decreases |s|
  {
    hide *;
    var end := i + |Escaped(s)|;
    if s == "" {
      ClosingQuote(text, i);
    } else {
      var c, rest := s[0], s[1..];
      assert s == [c] + rest;
      EscapedCons(c, rest);
      Regroup2(EscapedChar(c), Escaped(rest), "\"");
      FollowsParts(text, i, EscapedChar(c), Escaped(rest) + "\"");
      EscapedCharRead(text, i, c, end);
      EscapedRead(text, i + |EscapedChar(c)|, rest);
      ThenOk(c, rest);
    }
  }

  lemma ThenOk(c: char, rest: string)
    ensures Lexer.Then([c], Ok(rest)) == Ok([c] + rest)
  {
  }

  lemma ClosingQuote(text: string, i: nat)
    requires Follows(text, i, Escaped("") + "\"")
    ensures Escaped("") == "" && StringEnd(text, i) == Some(i + 1) && StringValue(text, i, i) == Ok("")
  {
    FollowsAt(text, i, Escaped("") + "\"", 0);
  }

  lemma Regroup2(a: string, b: string, c: string)
    ensures a + b + c == a + (b + c)
  {
  }

  /** `get_string` on a quoted, escaped text is the original text, for every text. */
  lemma StringRoundTrip(text: string, p: nat, s: string)
    requires Follows(text, p, "\"" + Escaped(s) + "\"")
    ensures Scan(text, p) == Scanned(ValueString, p, p + |Escaped(s)| + 2)
    ensures StringValue(text, p + 1, p + |Escaped(s)| + 1) == Ok(s)
  {
    hide Scan, Escaped, StringEnd, StringValue;
    assert "\"" + Escaped(s) + "\"" == "\"" + (Escaped(s) + "\"");
    FollowsParts(text, p, "\"", Escaped(s) + "\"");
    FollowsAt(text, p, "\"", 0);
    EscapedRead(text, p + 1, s);
    ScanHere(text, p);
  }

  // ---------- values ----------

  lemma ScanWord(text: string, p: nat, word: string)
    requires word == "true" || word == "false" || word == "null"
    requires Follows(text, p, word)
    ensures Scan(text, p) ==
      Scanned(if word == "true" then LiteralTrue else if word == "false" then LiteralFalse else LiteralNull, p, p + |word|)
  {
    FollowsAt(text, p, word, 0);
    var c := word[0];
    assert c == 't' || c == 'f' || c == 'n';
    ScanHere(text, p);
    hide Scan;
    WordToken(text, p, word);
  }

  lemma WordToken(text: string, p: nat, word: string)
    requires word == "true" || word == "false" || word == "null"
    requires Follows(text, p, word)
    ensures TokenAt(text, p) ==
      Scanned(if word == "true" then LiteralTrue else if word == "false" then LiteralFalse else LiteralNull, p, p + |word|)
  {
    FollowsAt(text, p, word, 0);
    if Follows(text, p, "true") { FollowsAt(text, p, "true", 0); }
    if Follows(text, p, "false") { FollowsAt(text, p, "false", 0); }
  }

  lemma ScanSingle(text: string, p: nat, c: char)
    requires Follows(text, p, [c]) && (c == '[' || c == ']' || c == '{' || c == '}' || c == ':' || c == ',')
    ensures Scan(text, p) == Scanned(Single(c), p, p + 1)
  {
    FollowsAt(text, p, [c], 0);
    ScanHere(text, p);
    if Follows(text, p, "true") { FollowsAt(text, p, "true", 0); }
    if Follows(text, p, "false") { FollowsAt(text, p, "false", 0); }
    if Follows(text, p, "null") { FollowsAt(text, p, "null", 0); }
    hide Scan, Follows, Single;
  }

  lemma EmptyContainers(lib: Libc, text: string, p: nat, isArray: bool)
    requires Follows(text, p, if isArray then "[]" else "{}")
    ensures ParseValue(lib, text, Scan(text, p)) ==
      Ok(Parsed(if isArray then Array([]) else Object(map[]), Scan(text, p + 2)))
  {
    var open, close := if isArray then "[" else "{", if isArray then "]" else "}";
    assert (if isArray then "[]" else "{}") == open + close;
    FollowsParts(text, p, open, close);
    ScanSingle(text, p, open[0]);
    ScanSingle(text, p + 1, close[0]);
  }

  lemma ArrayUnfolds(lib: Libc, v: Value, style: Style, indent: nat)
    requires v.Array? && v.elems != []
    ensures ValueText(lib, v, style, indent) == "[" + (style.Break() + ElementsText(lib, v, 0, style, indent))
  {
  }

  lemma ElementsUnfold(lib: Libc, v: Value, i: nat, style: Style, indent: nat)
    requires v.Array? && i < |v.elems| && NoFloats(v)
    ensures ElementsText(lib, v, i, style, indent) ==
      ElementHead(i, style, indent) + ValueText(lib, v.elems[i], style, style.Inner(indent)) + ElementsText(lib, v, i + 1, style, indent)
    ensures NoFloats(v.elems[i])
  {
    hide ValueText;
  }

  lemma ObjectUnfolds(lib: Libc, v: Value, keys: seq<string>, style: Style, indent: nat)
    requires v.Object? && v.members != map[] && keys == Sorted(v.members.Keys)
    ensures keys != []
    ensures ValueText(lib, v, style, indent) == "{" + (style.Break() + MembersText(lib, v, keys, 0, style, indent))
  {
    var k :| k in v.members;
    assert k in keys;
  }

  lemma MembersUnfold(lib: Libc, v: Value, keys: seq<string>, i: nat, style: Style, indent: nat)
    requires v.Object? && i < |keys| && NoFloats(v) && forall k | k in keys :: k in v.members
    ensures MembersText(lib, v, keys, i, style, indent) ==
      ElementHead(i, style, indent) + MemberKey(keys[i], style)
      + ValueText(lib, v.members[keys[i]], style, style.Inner(indent)) + MembersText(lib, v, keys, i + 1, style, indent)
    ensures NoFloats(v.members[keys[i]])
  {
    hide ValueText, Escaped;
  }

  /** The number and the text of a scalar, scanned and read. */
  lemma ScalarParsed(lib: Libc, text: string, p: nat, v: Value, style: Style, indent: nat)
    requires v.IsPrimitive() && !v.Float?
    requires Follows(text, p, ValueText(lib, v, style, indent)) && Ends(text, p + |ValueText(lib, v, style, indent)|)
    ensures ParseValue(lib, text, Scan(text, p)) == Ok(Parsed(Normal(v), Scan(text, p + |ValueText(lib, v, style, indent)|)))
  {
    hide ParseValue, Scan, ValueText, Ends, Follows, Escaped, IntegerText, Normal;
    ScalarText(lib, v, style, indent);
    match v
    case Null => WordParsed(lib, text, p, "null");
    case Boolean(b) => WordParsed(lib, text, p, if b then "true" else "false");
    case String(s) => StringParsed(lib, text, p, s);
    case Integer(i) => NumberParsed(lib, text, p, i);
    case Unsigned(u) => NumberParsed(lib, text, p, u);
  }

  lemma ScalarText(lib: Libc, v: Value, style: Style, indent: nat)
    requires v.IsPrimitive() && !v.Float?
    ensures !v.Array? && !v.Object?
    ensures match v
      case Null => ValueText(lib, v, style, indent) == "null" && Normal(v) == v
      case Boolean(b) => ValueText(lib, v, style, indent) == (if b then "true" else "false") && Normal(v) == v
      case String(s) => ValueText(lib, v, style, indent) == "\"" + Escaped(s) + "\"" && Normal(v) == v
      case Integer(i) => ValueText(lib, v, style, indent) == IntegerText(i) && Normal(v) == if i >= 0 then Unsigned(i) else v
      case Unsigned(u) => ValueText(lib, v, style, indent) == IntegerText(u) && Normal(v) == v
      case _ => true
  {
    hide Escaped, IntegerText;
  }

  lemma WordParsed(lib: Libc, text: string, p: nat, word: string)
    requires word == "true" || word == "false" || word == "null"
    requires Follows(text, p, word)
    ensures ParseValue(lib, text, Scan(text, p)) ==
      Ok(Parsed(if word == "true" then Boolean(true) else if word == "false" then Boolean(false) else Null, Scan(text, p + |word|)))
  {
    ScanWord(text, p, word);
    hide Scan;
  }

  lemma StringParsed(lib: Libc, text: string, p: nat, s: string)
    requires Follows(text, p, "\"" + Escaped(s) + "\"")
    ensures ParseValue(lib, text, Scan(text, p)) == Ok(Parsed(String(s), Scan(text, p + |"\"" + Escaped(s) + "\""|)))
  {
    hide *;
    StringRoundTrip(text, p, s);
    ScanIsScanned(text, p);
    ParseStringToken(lib, text, Scan(text, p), s);
  }

  lemma ParseStringToken(lib: Libc, text: string, at: Scanned, s: string)
    requires IsScanned(text, at) && at.token == ValueString && StringValue(text, at.start + 1, at.cursor - 1) == Ok(s)
    ensures ParseValue(lib, text, at) == Ok(Parsed(String(s), Scan(text, at.cursor)))
  {
    hide Scan, StringValue;
  }

  lemma NumberParsed(lib: Libc, text: string, p: nat, i: int)
    requires -TWO63 <= i < TWO64
    requires Follows(text, p, IntegerText(i)) && Ends(text, p + |IntegerText(i)|)
    ensures ParseValue(lib, text, Scan(text, p)) ==
      Ok(Parsed(if i >= 0 then Unsigned(i) else Integer(i), Scan(text, p + |IntegerText(i)|)))
  {
    hide *;
    ScanNumberText(text, p, i);
    NumberRoundTrip(lib, i);
    FollowsText(text, p, IntegerText(i));
    ScanIsScanned(text, p);
    ParseNumberToken(lib, text, Scan(text, p));
  }

  lemma FollowsText(text: string, p: nat, a: string)
    requires Follows(text, p, a)
    ensures p + |a| <= |text| && text[p..p + |a|] == a
  {
  }

  lemma ParseNumberToken(lib: Libc, text: string, at: Scanned)
    requires IsScanned(text, at) && at.token == ValueNumber
    ensures ParseValue(lib, text, at) == Ok(Parsed(NumberValue(lib, text[at.start..at.cursor]), Scan(text, at.cursor)))
  {
    hide Scan, NumberValue;
  }

  predicate OpensValue(t: Token) {
    t.LiteralTrue? || t.LiteralFalse? || t.LiteralNull? || t.ValueString? || t.ValueNumber? || t.BeginArray? || t.BeginObject?
  }

  /** A value starts with a token of its own. */
  lemma StartsValue(lib: Libc, text: string, p: nat, v: Value, style: Style, indent: nat)
    requires NoFloats(v) && Follows(text, p, ValueText(lib, v, style, indent)) && Ends(text, p + |ValueText(lib, v, style, indent)|)
    ensures OpensValue(Scan(text, p).token)
  {
    if v.Array? || v.Object? {
      ContainerStarts(lib, text, p, v, style, indent);
    } else {
      hide Scan, Decimal, Escaped;
      match v
      case Null => ScanWord(text, p, "null");
      case Boolean(b) => ScanWord(text, p, if b then "true" else "false");
      case String(s) => StringRoundTrip(text, p, s);
      case Integer(i) => ScanNumberText(text, p, i);
      case Unsigned(u) => ScanNumberText(text, p, u);
    }
  }

  lemma ContainerStarts(lib: Libc, text: string, p: nat, v: Value, style: Style, indent: nat)
    requires (v.Array? || v.Object?) && Follows(text, p, ValueText(lib, v, style, indent))
    ensures OpensValue(Scan(text, p).token)
  {
    var c := if v.Array? then '[' else '{';
    assert ValueText(lib, v, style, indent)[0] == c;
    hide *;
    FollowsAt(text, p, ValueText(lib, v, style, indent), 0);
    OpeningBracket(text, p);
  }

  lemma OpeningBracket(text: string, p: nat)
    requires CharAt(text, p) == '[' || CharAt(text, p) == '{'
    ensures OpensValue(Scan(text, p).token)
  {
    ScanHere(text, p);
  }

  /** What follows an element ends a number. */
  lemma ElementsTextEnds(lib: Libc, text: string, p: nat, v: Value, i: nat, style: Style, indent: nat)
    requires v.Array? && 0 < i <= |v.elems| && Follows(text, p, ElementsText(lib, v, i, style, indent))
    ensures Ends(text, p)
  {
    FollowsAt(text, p, ElementsText(lib, v, i, style, indent), 0);
  }

  lemma MembersTextEnds(lib: Libc, text: string, p: nat, v: Value, keys: seq<string>, i: nat, style: Style, indent: nat)
    requires v.Object? && 0 < i <= |keys| && (forall k | k in keys :: k in v.members)
    requires Follows(text, p, MembersText(lib, v, keys, i, style, indent))
    ensures Ends(text, p)
  {
    FollowsAt(text, p, MembersText(lib, v, keys, i, style, indent), 0);
  }

  lemma Blanks(style: Style, n: nat)
    ensures forall c | c in Spaces(n) :: IsBlank(c)
    ensures forall c | c in style.Break() + Spaces(n) :: IsBlank(c)
  {
  }

  lemma HeadParts(i: nat, style: Style, indent: nat)
    ensures ElementHead(i, style, indent) ==
      if i == 0 then Spaces(style.Inner(indent)) else "," + (style.Break() + Spaces(style.Inner(indent)))
  {
    if i == 0 {
      assert "" + Spaces(style.Inner(indent)) == Spaces(style.Inner(indent));
    } else {
      Regroup2(",", style.Break(), Spaces(style.Inner(indent)));
      assert style.Separator() == "," + style.Break();
    }
  }

  /** From element `i` on: the separator, if any, is skipped and the element's text is reached. */
  lemma SkipHead(text: string, p: nat, i: nat, style: Style, indent: nat)
    requires Follows(text, p, ElementHead(i, style, indent))
    ensures var q := p + |ElementHead(i, style, indent)|;
      if i == 0 then Scan(text, p) == Scan(text, q)
      else Scan(text, p) == Scanned(Single(','), p, p + 1) && Scan(text, p + 1) == Scan(text, q)
  {
    hide *;
    var n := style.Inner(indent);
    HeadParts(i, style, indent);
    Blanks(style, n);
    if i == 0 {
      ScanBlanks(text, p, Spaces(n));
    } else {
      FollowsParts(text, p, ",", style.Break() + Spaces(n));
      ScanSingle(text, p, ',');
      ScanBlanks(text, p + 1, style.Break() + Spaces(n));
    }
  }

  lemma SkipClosing(text: string, p: nat, style: Style, indent: nat, close: char)
    requires Follows(text, p, style.Break() + Spaces(indent) + [close]) && (close == ']' || close == '}')
    ensures var q := p + |style.Break() + Spaces(indent)|;
      Scan(text, p) == Scanned(Single(close), q, q + 1)
  {
    hide *;
    var blanks := style.Break() + Spaces(indent);
    Blanks(style, indent);
    FollowsParts(text, p, blanks, [close]);
    ScanBlanks(text, p, blanks);
    ScanSingle(text, p + |blanks|, close);
  }

  lemma FloatFree(v: Value)
    requires NoFloats(v)
    ensures !v.Float? && (v.IsPrimitive() <==> !v.Array? && !v.Object?)
  {
  }

  lemma EmptyParsed(lib: Libc, text: string, p: nat, v: Value, style: Style, indent: nat)
    requires v == Array([]) || v == Object(map[])
    requires Follows(text, p, ValueText(lib, v, style, indent))
    ensures ParseValue(lib, text, Scan(text, p)) == Ok(Parsed(Normal(v), Scan(text, p + |ValueText(lib, v, style, indent)|)))
  {
    hide *;
    EmptyText(lib, v, style, indent);
    EmptyContainers(lib, text, p, v.Array?);
  }

  lemma EmptyText(lib: Libc, v: Value, style: Style, indent: nat)
    requires v == Array([]) || v == Object(map[])
    ensures ValueText(lib, v, style, indent) == if v.Array? then "[]" else "{}"
    ensures Normal(v) == v
  {
  }

  /** Reading a dumped value gives the value and stops right after it. */
  lemma {:induction false} ValueParsed(lib: Libc, text: string, p: nat, v: Value, style: Style, indent: nat)
    requires NoFloats(v)
    requires Follows(text, p, ValueText(lib, v, style, indent)) && Ends(text, p + |ValueText(lib, v, style, indent)|)
    ensures ParseValue(lib, text, Scan(text, p)) == Ok(Parsed(Normal(v), Scan(text, p + |ValueText(lib, v, style, indent)|)))
    decreases v, 2, 0
  {
    hide *;
    match v
    case Array(xs) =>
      if xs == [] { EmptyParsed(lib, text, p, v, style, indent); } else { ArrayParsed(lib, text, p, v, style, indent); }
    case Object(m) =>
      if m == map[] { EmptyParsed(lib, text, p, v, style, indent); } else { ObjectParsed(lib, text, p, v, style, indent); }
    case _ =>
      FloatFree(v);
      ScalarParsed(lib, text, p, v, style, indent);
  }

  lemma ArrayParsed(lib: Libc, text: string, p: nat, v: Value, style: Style, indent: nat)
    requires v.Array? && v.elems != [] && NoFloats(v)
    requires Follows(text, p, ValueText(lib, v, style, indent)) && Ends(text, p + |ValueText(lib, v, style, indent)|)
    ensures ParseValue(lib, text, Scan(text, p)) == Ok(Parsed(Normal(v), Scan(text, p + |ValueText(lib, v, style, indent)|)))
    decreases v, 1, 0
  {
    hide *;
    var body := ElementsText(lib, v, 0, style, indent);
    var q := p + 1 + |style.Break()|;
    ArrayUnfolds(lib, v, style, indent);
    FollowsParts(text, p, "[", style.Break() + body);
    FollowsParts(text, p + 1, style.Break(), body);
    OpenScanned(text, p, style, '[');
    ElementsParsed(lib, text, q, v, 0, style, indent, []);
    ElementReached(lib, text, q, v, 0, style, indent);
    ArrayOpens(lib, text, p, q, Scan(text, q));
    assert [] + NormalFrom(v, 0) == NormalFrom(v, 0);
    NormalArray(v);
  }

  lemma OpenScanned(text: string, p: nat, style: Style, c: char)
    requires Follows(text, p, [c]) && Follows(text, p + 1, style.Break()) && (c == '[' || c == '{')
    ensures Scan(text, p) == Scanned(if c == '[' then BeginArray else BeginObject, p, p + 1)
    ensures Scan(text, p + 1) == Scan(text, p + 1 + |style.Break()|)
  {
    ScanSingle(text, p, c);
    ScanBlanks(text, p + 1, style.Break());
  }

  lemma ArrayOpens(lib: Libc, text: string, p: nat, q: nat, next: Scanned)
    requires Scan(text, p) == Scanned(BeginArray, p, p + 1) && Scan(text, p + 1) == next == Scan(text, q)
    requires OpensValue(next.token)
    ensures ParseValue(lib, text, Scan(text, p)) == ParseElements(lib, text, Scan(text, q), [])
  {
  }

  function NormalFrom(v: Value, i: nat): seq<Value>
    requires v.Array? && i <= |v.elems|
  {
    seq(|v.elems| - i, n requires 0 <= n < |v.elems| - i => Normal(v.elems[i + n]))
  }

  lemma NormalArray(v: Value)
    requires v.Array?
    ensures Normal(v) == Array(NormalFrom(v, 0))
  {
  }

  /** The positions of the head, the text and the rest of element `i`. */
  lemma ElementReached(lib: Libc, text: string, p: nat, v: Value, i: nat, style: Style, indent: nat)
    requires v.Array? && i < |v.elems| && NoFloats(v) && Follows(text, p, ElementsText(lib, v, i, style, indent))
    ensures NoFloats(v.elems[i])
    ensures var head, here := ElementHead(i, style, indent), ValueText(lib, v.elems[i], style, style.Inner(indent));
      var q := p + |head|;
      && Follows(text, q, here) && Ends(text, q + |here|)
      && Follows(text, q + |here|, ElementsText(lib, v, i + 1, style, indent))
      && |ElementsText(lib, v, i, style, indent)| == |head| + |here| + |ElementsText(lib, v, i + 1, style, indent)|
      && (if i == 0 then Scan(text, p) == Scan(text, q)
          else Scan(text, p) == Scanned(Single(','), p, p + 1) && Scan(text, p + 1) == Scan(text, q))
      && OpensValue(Scan(text, q).token)
  {
    hide *;
    var head, here := ElementHead(i, style, indent), ValueText(lib, v.elems[i], style, style.Inner(indent));
    var rest := ElementsText(lib, v, i + 1, style, indent);
    ElementsUnfold(lib, v, i, style, indent);
    FollowsParts(text, p, head + here, rest);
    FollowsParts(text, p, head, here);
    ElementsTextEnds(lib, text, p + |head| + |here|, v, i + 1, style, indent);
    SkipHead(text, p, i, style, indent);
    StartsValue(lib, text, p + |head|, v.elems[i], style, style.Inner(indent));
  }

  lemma {:induction false} ElementsParsed(lib: Libc, text: string, p: nat, v: Value, i: nat, style: Style, indent: nat, acc: seq<Value>)
    requires v.Array? && i < |v.elems| && NoFloats(v)
    requires Follows(text, p, ElementsText(lib, v, i, style, indent))
    ensures ParseElements(lib, text, Scan(text, p), acc) ==
      Ok(Parsed(Array(acc + NormalFrom(v, i)), Scan(text, p + |ElementsText(lib, v, i, style, indent)|)))
    decreases v, 0, |v.elems| - i
  {
    hide *;
    var x := v.elems[i];
    var head, here := ElementHead(i, style, indent), ValueText(lib, x, style, style.Inner(indent));
    var q, r := p + |head|, p + |head| + |here|;
    NormalFromStep(v, i);
    ElementReached(lib, text, p, v, i, style, indent);
    ValueParsed(lib, text, q, x, style, style.Inner(indent));
    ScanIsScanned(text, r);
    AtComma(text, p, i);
    ParseElementsStep(lib, text, p, q, acc, Normal(x), Scan(text, r));
    assert acc + [Normal(x)] + NormalFrom(v, i + 1) == acc + ([Normal(x)] + NormalFrom(v, i + 1));
    if i + 1 < |v.elems| {
      ElementReached(lib, text, r, v, i + 1, style, indent);
      AtComma(text, r, i + 1);
      ElementsParsed(lib, text, r, v, i + 1, style, indent, acc + [Normal(x)]);
    } else {
      LastElement(lib, text, r, v, style, indent, acc + [Normal(x)]);
    }
  }

  lemma NormalFromStep(v: Value, i: nat)
    requires v.Array? && i < |v.elems|
    ensures [Normal(v.elems[i])] + NormalFrom(v, i + 1) == NormalFrom(v, i)
  {
    hide Normal;
  }

  lemma ScanIsScanned(text: string, p: nat)
    ensures IsScanned(text, Scan(text, p))
  {
  }

  /** The separator is a value separator; a value never starts with one. */
  lemma AtComma(text: string, p: nat, i: nat)
    ensures Single(',') == ValueSeparator
    ensures OpensValue(Scan(text, p).token) ==> Scan(text, p).token != ValueSeparator
  {
    hide Scan;
  }

  /** One round of the loop over elements. */
  lemma ParseElementsStep(lib: Libc, text: string, p: nat, q: nat, acc: seq<Value>, x: Value, next: Scanned)
    requires if Scan(text, p).token == ValueSeparator then Scan(text, Scan(text, p).cursor) == Scan(text, q) else Scan(text, p) == Scan(text, q)
    requires IsScanned(text, next) && ParseValue(lib, text, Scan(text, q)) == Ok(Parsed(x, next))
    ensures next.token == ValueSeparator ==>
      ParseElements(lib, text, Scan(text, p), acc) == ParseElements(lib, text, next, acc + [x])
    ensures next.token == EndArray ==>
      ParseElements(lib, text, Scan(text, p), acc) == Ok(Parsed(Array(acc + [x]), Scan(text, next.cursor)))
  {
  }

  lemma LastElement(lib: Libc, text: string, r: nat, v: Value, style: Style, indent: nat, acc: seq<Value>)
    requires v.Array? && Follows(text, r, ElementsText(lib, v, |v.elems|, style, indent))
    ensures var next := Scan(text, r);
      && next.token == EndArray && next.cursor == r + |ElementsText(lib, v, |v.elems|, style, indent)|
      && NormalFrom(v, |v.elems|) == [] && acc + [] == acc
  {
    SkipClosing(text, r, style, indent, ']');
  }

  // ---------- objects ----------

  function MemberKey(k: string, style: Style): string {
    "\"" + Escaped(k) + style.Colon()
  }

  lemma ObjectParsed(lib: Libc, text: string, p: nat, v: Value, style: Style, indent: nat)
    requires v.Object? && v.members != map[] && NoFloats(v)
    requires Follows(text, p, ValueText(lib, v, style, indent)) && Ends(text, p + |ValueText(lib, v, style, indent)|)
    ensures ParseValue(lib, text, Scan(text, p)) == Ok(Parsed(Normal(v), Scan(text, p + |ValueText(lib, v, style, indent)|)))
    decreases v, 1, 0
  {
    hide *;
    var keys := Sorted(v.members.Keys);
    ObjectUnfolds(lib, v, keys, style, indent);
    var body := MembersText(lib, v, keys, 0, style, indent);
    var q := p + 1 + |style.Break()|;
    FollowsParts(text, p, "{", style.Break() + body);
    FollowsParts(text, p + 1, style.Break(), body);
    OpenScanned(text, p, style, '{');
    MembersParsed(lib, text, q, v, keys, 0, style, indent, map[]);
    MemberReached(lib, text, q, v, keys, 0, style, indent);
    ObjectOpens(lib, text, p, q, Scan(text, q));
    NormalObject(v, keys);
  }

  lemma ObjectOpens(lib: Libc, text: string, p: nat, q: nat, next: Scanned)
    requires Scan(text, p) == Scanned(BeginObject, p, p + 1) && Scan(text, p + 1) == next == Scan(text, q)
    requires next.token == ValueString
    ensures ParseValue(lib, text, Scan(text, p)) == ParseMembers(lib, text, Scan(text, q), map[])
  {
  }

  function NormalMembers(v: Value, keys: seq<string>, i: nat): map<string, Value>
    requires v.Object? && i <= |keys| && forall k | k in keys :: k in v.members
  {
    map k | k in keys[i..] :: Normal(v.members[k])
  }

  lemma NormalObject(v: Value, keys: seq<string>)
    requires v.Object? && forall k :: k in keys <==> k in v.members
    ensures Normal(v) == Object(map[] + NormalMembers(v, keys, 0))
  {
    assert keys[0..] == keys;
    assert map[] + NormalMembers(v, keys, 0) == Normal(v).members;
  }

  lemma NormalMembersStep(v: Value, keys: seq<string>, i: nat, acc: map<string, Value>)
    requires v.Object? && i < |keys| && forall k | k in keys :: k in v.members
    ensures acc + NormalMembers(v, keys, i) == acc[keys[i] := Normal(v.members[keys[i]])] + NormalMembers(v, keys, i + 1)
    ensures acc + NormalMembers(v, keys, |keys|) == acc
  {
    assert keys[i..] == [keys[i]] + keys[i + 1..];
  }

  /** The key of a member, its colon and the blank after it. */
  lemma KeyParsed(text: string, p: nat, k: string, style: Style)
    requires Follows(text, p, MemberKey(k, style))
    ensures var s, colon, q := Scan(text, p), Scan(text, Scan(text, p).cursor), p + |MemberKey(k, style)|;
      && s.token == ValueString && StringValue(text, s.start + 1, s.cursor - 1) == Ok(k)
      && colon.token == NameSeparator && Scan(text, colon.cursor) == Scan(text, q)
  {
    hide *;
    var name, blank := "\"" + Escaped(k) + "\"", if style.pretty then " " else "";
    KeyText(k, style, blank);
    FollowsParts(text, p, name, ":" + blank);
    FollowsParts(text, p + |name|, ":", blank);
    StringRoundTrip(text, p, k);
    ScanSingle(text, p + |name|, ':');
    ScanBlanks(text, p + |name| + 1, blank);
  }

  lemma KeyText(k: string, style: Style, blank: string)
    requires blank == if style.pretty then " " else ""
    ensures MemberKey(k, style) == "\"" + Escaped(k) + "\"" + (":" + blank)
    ensures (forall c | c in blank :: IsBlank(c)) && Single(':') == NameSeparator
  {
    hide Escaped;
    assert style.Colon() == "\"" + (":" + blank);
  }

  /** The positions of the head, the key, the value and the rest of member `i`. */
  lemma MemberReached(lib: Libc, text: string, p: nat, v: Value, keys: seq<string>, i: nat, style: Style, indent: nat)
    requires v.Object? && i < |keys| && NoFloats(v) && forall k | k in keys :: k in v.members
    requires Follows(text, p, MembersText(lib, v, keys, i, style, indent))
    ensures NoFloats(v.members[keys[i]])
    ensures var head, key := ElementHead(i, style, indent), MemberKey(keys[i], style);
      var here := ValueText(lib, v.members[keys[i]], style, style.Inner(indent));
      var q, r := p + |head|, p + |head| + |key|;
      && Follows(text, q, key) && Follows(text, r, here) && Ends(text, r + |here|)
      && Follows(text, r + |here|, MembersText(lib, v, keys, i + 1, style, indent))
      && |MembersText(lib, v, keys, i, style, indent)| == |head| + |key| + |here| + |MembersText(lib, v, keys, i + 1, style, indent)|
      && (if i == 0 then Scan(text, p) == Scan(text, q)
          else Scan(text, p) == Scanned(Single(','), p, p + 1) && Scan(text, p + 1) == Scan(text, q))
      && Scan(text, q).token == ValueString
  {
    hide *;
    var head, key := ElementHead(i, style, indent), MemberKey(keys[i], style);
    var here := ValueText(lib, v.members[keys[i]], style, style.Inner(indent));
    var rest := MembersText(lib, v, keys, i + 1, style, indent);
    MembersUnfold(lib, v, keys, i, style, indent);
    FollowsParts(text, p, head + key + here, rest);
    FollowsParts(text, p, head + key, here);
    FollowsParts(text, p, head, key);
    MembersTextEnds(lib, text, p + |head| + |key| + |here|, v, keys, i + 1, style, indent);
    SkipHead(text, p, i, style, indent);
    KeyParsed(text, p + |head|, keys[i], style);
  }

  lemma {:induction false} MembersParsed(lib: Libc, text: string, p: nat, v: Value, keys: seq<string>, i: nat,
                                         style: Style, indent: nat, acc: map<string, Value>)
    requires v.Object? && i < |keys| && NoFloats(v) && forall k | k in keys :: k in v.members
    requires Follows(text, p, MembersText(lib, v, keys, i, style, indent))
    ensures ParseMembers(lib, text, Scan(text, p), acc) ==
      Ok(Parsed(Object(acc + NormalMembers(v, keys, i)), Scan(text, p + |MembersText(lib, v, keys, i, style, indent)|)))
    decreases v, 0, |keys| - i
  {
    hide *;
    var k := keys[i];
    var x := v.members[k];
    var head, key := ElementHead(i, style, indent), MemberKey(k, style);
    var here := ValueText(lib, x, style, style.Inner(indent));
    var q, r, e := p + |head|, p + |head| + |key|, p + |head| + |key| + |here|;
    MemberReached(lib, text, p, v, keys, i, style, indent);
    KeyParsed(text, q, k, style);
    ValueParsed(lib, text, r, x, style, style.Inner(indent));
    ScanIsScanned(text, e);
    AtComma(text, p, i);
    ParseMembersStep(lib, text, p, q, r, acc, k, Normal(x), Scan(text, e));
    NormalMembersStep(v, keys, i, acc);
    if i + 1 < |keys| {
      MemberReached(lib, text, e, v, keys, i + 1, style, indent);
      AtComma(text, e, i + 1);
      MembersParsed(lib, text, e, v, keys, i + 1, style, indent, acc[k := Normal(x)]);
    } else {
      NormalMembersStep(v, keys, i, acc[k := Normal(x)]);
      LastMember(lib, text, e, v, keys, style, indent);
    }
  }

  /** One round of the loop over key-value pairs. */
  lemma ParseMembersStep(lib: Libc, text: string, p: nat, q: nat, r: nat, acc: map<string, Value>, k: string, x: Value, next: Scanned)
    requires if Scan(text, p).token == ValueSeparator then Scan(text, Scan(text, p).cursor) == Scan(text, q) else Scan(text, p) == Scan(text, q)
    requires var s, colon := Scan(text, q), Scan(text, Scan(text, q).cursor);
      && s.token == ValueString && StringValue(text, s.start + 1, s.cursor - 1) == Ok(k)
      && colon.token == NameSeparator && Scan(text, colon.cursor) == Scan(text, r)
    requires IsScanned(text, next) && ParseValue(lib, text, Scan(text, r)) == Ok(Parsed(x, next))
    ensures next.token == ValueSeparator ==>
      ParseMembers(lib, text, Scan(text, p), acc) == ParseMembers(lib, text, next, acc[k := x])
    ensures next.token == EndObject ==>
      ParseMembers(lib, text, Scan(text, p), acc) == Ok(Parsed(Object(acc[k := x]), Scan(text, next.cursor)))
  {
    hide Scan, ParseValue, StringValue, Left;
  }

  lemma LastMember(lib: Libc, text: string, e: nat, v: Value, keys: seq<string>, style: Style, indent: nat)
    requires v.Object? && (forall k | k in keys :: k in v.members) && Follows(text, e, MembersText(lib, v, keys, |keys|, style, indent))
    ensures Scan(text, e).token == EndObject
    ensures Scan(text, e).cursor == e + |MembersText(lib, v, keys, |keys|, style, indent)|
  {
    SkipClosing(text, e, style, indent, '}');
  }

  // ---------- the theorem ----------

  /**
   `parse(v.dump(indent)) == v` for every value without floats, compact or with any indentation:
   the whole text is consumed and every string and 64-bit number is read back.
   */
  lemma ParseDumped(lib: Libc, v: Value, indent: int)
    requires NoFloats(v)
    ensures Parse(lib, Dumped(lib, v, indent)) == Ok(Normal(v))
    ensures Eq(Normal(v), v)
  {
    hide Parse, ValueText, Normal, Eq, NoFloats;
    ParseText(lib, v, if indent >= 0 then Style(true, indent) else Style(false, 0));
    NormalIsEqual(v);
  }

  lemma ParseText(lib: Libc, v: Value, style: Style)
    requires NoFloats(v)
    ensures Parse(lib, ValueText(lib, v, style, 0)) == Ok(Normal(v))
  {
    hide *;
    var text := ValueText(lib, v, style, 0);
    WholeText(text);
    ValueParsed(lib, text, 0, v, style, 0);
    ScanPastEnd(text);
    WholeParsed(lib, text, Normal(v));
  }

  lemma WholeText(text: string)
    ensures Follows(text, 0, text) && Ends(text, |text|)
  {
  }

  lemma WholeParsed(lib: Libc, text: string, v: Value)
    requires ParseValue(lib, text, Scan(text, 0)) == Ok(Parsed(v, Scan(text, |text|))) && Scan(text, |text|).token == EndOfInput
    ensures Parse(lib, text) == Ok(v)
  {
    hide Scan, ParseValue;
  }

  lemma ScanPastEnd(text: string)
    ensures Scan(text, |text|).token == EndOfInput
  {
  }
}
