/** The texts that `parse` accepts, by the grammar of RFC 8259, and the values they denote. */
module Grammar {
  import opened Results
  import opened Text
  import opened Json
  import opened Lexer
  import opened Parser
  import opened ParseDump
  import opened StringLiterals

  // ---------- the grammar ----------

  /** A JSON value as it is written, with the gaps between its tokens. */
  datatype Tree =
    | Word(constant: Value)
    | Numeral(minus: bool, whole: string, fraction: string, exponent: string)
    | Quoted(pieces: seq<Piece>)
    | EmptyList(gap: string)
    | EmptyRecord(gap: string)
    | List(items: Items)
    | Record(members: Members)

  datatype Items =
    | LastItem(before: string, item: Tree, after: string)
    | NextItem(before: string, item: Tree, after: string, rest: Items)

  datatype Name = Name(before: string, key: seq<Piece>, after: string, gap: string)

  datatype Members =
    | LastMember(name: Name, value: Tree, after: string)
    | NextMember(name: Name, value: Tree, after: string, rest: Members)

  /** Blanks, among which the parser also counts byte order marks. */
  predicate Blanks(b: string) {
    b == "" || (IsBlank(b[0]) && Blanks(b[1..])) || (BOM <= b && Blanks(b[3..]))
  }

  predicate Digits(s: string) {
    s != "" && AllDigits(s)
  }

  predicate WellFormedNumeral(whole: string, fraction: string, exponent: string) {
    && Digits(whole) && (whole[0] == '0' ==> whole == "0")
    && (fraction == "" || (fraction[0] == '.' && Digits(fraction[1..])))
    && WellFormedExponent(exponent)
  }

  predicate WellFormedExponent(exponent: string) {
    exponent == ""
    || ((exponent[0] == 'e' || exponent[0] == 'E')
        && (Digits(exponent[1..])
            || (|exponent| > 1 && (exponent[1] == '+' || exponent[1] == '-') && Digits(exponent[2..]))))
  }

  predicate WellFormed(t: Tree) {
    match t
    case Word(constant) => constant in {Null, Boolean(true), Boolean(false)}
    case Numeral(_, whole, fraction, exponent) => WellFormedNumeral(whole, fraction, exponent)
    case Quoted(pieces) => AllWellFormed(pieces)
    case EmptyList(gap) => Blanks(gap)
    case EmptyRecord(gap) => Blanks(gap)
    case List(items) => WellFormedItems(items)
    case Record(members) => WellFormedMembers(members)
  }

  predicate WellFormedItems(items: Items) {
    && Blanks(items.before) && WellFormed(items.item) && Blanks(items.after)
    && (items.NextItem? ==> WellFormedItems(items.rest))
  }

  predicate WellFormedName(name: Name) {
    Blanks(name.before) && AllWellFormed(name.key) && Blanks(name.after) && Blanks(name.gap)
  }

  predicate WellFormedMembers(members: Members) {
    && WellFormedName(members.name) && WellFormed(members.value) && Blanks(members.after)
    && (members.NextMember? ==> WellFormedMembers(members.rest))
  }

  function Quote(pieces: seq<Piece>): string {
    "\"" + (Spelled(pieces) + "\"")
  }

  function NumeralText(minus: bool, whole: string, fraction: string, exponent: string): string {
    (if minus then "-" else "") + (whole + (fraction + exponent))
  }

  function WordText(constant: Value): string {
    if constant == Boolean(true) then "true" else if constant == Boolean(false) then "false" else "null"
  }

  /** The text of a tree. */
  function TextOf(t: Tree): string {
    match t
    case Word(constant) => WordText(constant)
    case Numeral(minus, whole, fraction, exponent) => NumeralText(minus, whole, fraction, exponent)
    case Quoted(pieces) => Quote(pieces)
    case EmptyList(gap) => "[" + (gap + "]")
    case EmptyRecord(gap) => "{" + (gap + "}")
    case List(items) => "[" + TextOfItems(items)
    case Record(members) => "{" + TextOfMembers(members)
  }

  function TextOfItems(items: Items): string {
    items.before + (TextOf(items.item) + (items.after + (if items.NextItem? then "," + TextOfItems(items.rest) else "]")))
  }

  function TextOfName(name: Name): string {
    name.before + (Quote(name.key) + (name.after + (":" + name.gap)))
  }

  function TextOfMembers(members: Members): string {
    TextOfName(members.name)
    + (TextOf(members.value) + (members.after + (if members.NextMember? then "," + TextOfMembers(members.rest) else "}")))
  }

  /** An integer in range is itself; beyond that it is what the accumulation makes of it. */
  function NumeralMeaning(lib: Libc, minus: bool, whole: string, fraction: string, exponent: string): Value
    requires WellFormedNumeral(whole, fraction, exponent)
  {
    var literal := NumeralText(minus, whole, fraction, exponent);
    if fraction != "" || exponent != "" then Float(lib.strtod(literal))
    else
      var n := DecimalValue(whole);
      if minus && n <= TWO63 then Integer(0 - n)
      else if !minus && n < TWO64 then Unsigned(n)
      else NumberValue(lib, literal)
  }

  /** The value that a tree denotes; only a lone surrogate in a string makes it an error. */
  function Denoted(lib: Libc, t: Tree): Result<Value>
    requires WellFormed(t)
  {
    match t
    case Word(constant) => Ok(constant)
    case Numeral(minus, whole, fraction, exponent) => Ok(NumeralMeaning(lib, minus, whole, fraction, exponent))
    case Quoted(pieces) =>
      var s :- Meaning(pieces);
      Ok(String(s))
    case EmptyList(_) => Ok(Array([]))
    case EmptyRecord(_) => Ok(Object(map[]))
    case List(items) =>
      var xs :- DenotedItems(lib, items);
      Ok(Array(xs))
    case Record(members) =>
      var m :- DenotedMembers(lib, members);
      Ok(Object(m))
  }

  function DenotedItems(lib: Libc, items: Items): Result<seq<Value>>
    requires WellFormedItems(items)
  {
    var x :- Denoted(lib, items.item);
    if items.LastItem? then Ok([x])
    else
      var xs :- DenotedItems(lib, items.rest);
      Ok([x] + xs)
  }

  /** Of several members with the same name the last one counts. */
  function DenotedMembers(lib: Libc, members: Members): Result<map<string, Value>>
    requires WellFormedMembers(members)
  {
    var k :- Meaning(members.name.key);
    var x :- Denoted(lib, members.value);
    if members.LastMember? then Ok(map[k := x])
    else
      var m :- DenotedMembers(lib, members.rest);
      Ok(map[k := x] + m)
  }

  // ---------- gaps ----------

  lemma BlankSkipped(text: string, p: nat, b: string)
    requires b != "" && Follows(text, p, b) && IsBlank(b[0])
    ensures Scan(text, p) == Scan(text, p + 1) && Follows(text, p + 1, b[1..])
  {
    FollowsAt(text, p, b, 0);
    assert b == [b[0]] + b[1..];
    FollowsParts(text, p, [b[0]], b[1..]);
  }

  lemma MarkSkipped(text: string, p: nat, b: string)
    requires BOM <= b && Follows(text, p, b)
    ensures Scan(text, p) == Scan(text, p + 3) && Follows(text, p + 3, b[3..])
  {
    assert b == BOM + b[3..];
    FollowsParts(text, p, BOM, b[3..]);
    FollowsAt(text, p, BOM, 0);
  }

  lemma {:induction false} ScanGap(text: string, p: nat, b: string)
    requires Follows(text, p, b) && Blanks(b)
    ensures Scan(text, p) == Scan(text, p + |b|)
    decreases |b|
  {
    hide Scan, Follows, IsBlank;
    if b != "" {
      if IsBlank(b[0]) && Blanks(b[1..]) {
        BlankSkipped(text, p, b);
        ScanGap(text, p + 1, b[1..]);
      } else {
        MarkSkipped(text, p, b);
        ScanGap(text, p + 3, b[3..]);
      }
    }
  }

  /** A number can only be followed by what ends it. */
  lemma GapEnds(text: string, p: nat, b: string, more: string)
    requires Follows(text, p, b + more) && Blanks(b) && more != "" && (more[0] == ',' || more[0] == ']' || more[0] == '}')
    ensures Ends(text, p)
  {
    FollowsAt(text, p, b + more, 0);
    assert b != "" ==> (b + more)[0] == b[0];
    assert b == "" ==> b + more == more;
    assert BOM <= b ==> b[0] == BOM[0];
  }

  /** The gap before the next token. */
  lemma {:induction false} GapBefore(text: string, p: nat) returns (gap: string)
    requires p <= |text|
    ensures Blanks(gap) && Follows(text, p, gap)
    ensures var s := Scan(text, p); s.start == p + |gap| && s == TokenAt(text, s.start)
    decreases |text| - p
  {
    if IsBlank(CharAt(text, p)) {
      var more := GapBefore(text, p + 1);
      gap := [text[p]] + more;
      assert gap[1..] == more;
      FollowsConcat(text, p, [text[p]], more);
    } else if Follows(text, p, BOM) {
      var more := GapBefore(text, p + 3);
      gap := BOM + more;
      assert gap[3..] == more && BOM <= gap;
      FollowsConcat(text, p, BOM, more);
    } else {
      gap := "";
    }
  }

  // ---------- numbers ----------

  lemma DigitsStand(text: string, i: nat, s: string)
    requires Follows(text, i, s) && AllDigits(s) && !IsDigit(CharAt(text, i + |s|))
    ensures DigitsEnd(text, i) == i + |s|
  {
    forall n | i <= n < i + |s| ensures IsDigit(CharAt(text, n)) {
      FollowsAt(text, i, s, n - i);
      assert s[n - i] in s;
    }
    DigitsEndIs(text, i, i + |s|);
  }

  /** The character after the first part of a text in three parts. */
  lemma NextChar(text: string, p: nat, a: string, b: string)
    requires Follows(text, p, a + b)
    ensures CharAt(text, p) == if a != "" then a[0] else if b != "" then b[0] else CharAt(text, p)
  {
    if a + b != "" {
      FollowsAt(text, p, a + b, 0);
    }
  }

  lemma FractionStands(text: string, i: nat, fraction: string)
    requires Follows(text, i, fraction) && (fraction == "" || (fraction[0] == '.' && Digits(fraction[1..])))
    requires !IsDigit(CharAt(text, i + |fraction|)) && CharAt(text, i + |fraction|) != '.'
    ensures FractionEnd(text, i) == i + |fraction|
  {
    if fraction != "" {
      assert fraction == "." + fraction[1..];
      FollowsParts(text, i, ".", fraction[1..]);
      FollowsAt(text, i, ".", 0);
      FollowsAt(text, i + 1, fraction[1..], 0);
      assert fraction[1..][0] in fraction[1..];
      DigitsStand(text, i + 1, fraction[1..]);
    }
  }

  lemma PlainExponent(text: string, i: nat, exponent: string)
    requires Follows(text, i, exponent) && |exponent| > 1 && (exponent[0] == 'e' || exponent[0] == 'E')
    requires Digits(exponent[1..]) && !IsDigit(CharAt(text, i + |exponent|))
    ensures ExponentEnd(text, i) == i + |exponent|
  {
    var digits := exponent[1..];
    assert exponent == exponent[..1] + digits;
    FollowsAt(text, i, exponent, 0);
    FollowsParts(text, i, exponent[..1], digits);
    FollowsAt(text, i + 1, digits, 0);
    assert digits[0] in digits;
    DigitsStand(text, i + 1, digits);
    hide DigitsEnd, Follows;
  }

  lemma SignedExponent(text: string, i: nat, exponent: string)
    requires Follows(text, i, exponent) && |exponent| > 2 && (exponent[0] == 'e' || exponent[0] == 'E')
    requires (exponent[1] == '+' || exponent[1] == '-') && Digits(exponent[2..]) && !IsDigit(CharAt(text, i + |exponent|))
    ensures ExponentEnd(text, i) == i + |exponent|
  {
    var digits := exponent[2..];
    assert exponent == exponent[..2] + digits;
    FollowsAt(text, i, exponent, 0);
    FollowsAt(text, i, exponent, 1);
    FollowsParts(text, i, exponent[..2], digits);
    FollowsAt(text, i + 2, digits, 0);
    assert digits[0] in digits;
    DigitsStand(text, i + 2, digits);
    hide DigitsEnd, Follows;
  }

  lemma ExponentStands(text: string, i: nat, exponent: string)
    requires Follows(text, i, exponent) && WellFormedExponent(exponent) && Ends(text, i + |exponent|)
    ensures ExponentEnd(text, i) == i + |exponent|
  {
    if exponent != "" {
      if Digits(exponent[1..]) {
        PlainExponent(text, i, exponent);
      } else {
        SignedExponent(text, i, exponent);
      }
    }
    hide Digits, DigitsEnd, Follows;
  }

  /** The longest match from the first digit on is the whole numeral. */
  lemma NumeralStands(text: string, i: nat, whole: string, fraction: string, exponent: string)
    requires WellFormedNumeral(whole, fraction, exponent)
    requires Follows(text, i, whole + (fraction + exponent)) && Ends(text, i + |whole + (fraction + exponent)|)
    ensures IsDigit(CharAt(text, i)) && NumberEnd(text, i) == i + |whole + (fraction + exponent)|
  {
    hide DigitsEnd, FractionEnd, ExponentEnd, Follows;
    FollowsParts(text, i, whole, fraction + exponent);
    var w := i + |whole|;
    NextChar(text, w, fraction, exponent);
    FollowsParts(text, w, fraction, exponent);
    NextChar(text, w + |fraction|, exponent, "");
    assert exponent + "" == exponent;
    FollowsAt(text, i, whole, 0);
    assert whole[0] in whole;
    if whole[0] != '0' {
      DigitsStand(text, i, whole);
    }
    FractionStands(text, w, fraction);
    ExponentStands(text, w + |fraction|, exponent);
  }

  lemma NumeralScanned(text: string, p: nat, minus: bool, whole: string, fraction: string, exponent: string)
    requires WellFormedNumeral(whole, fraction, exponent)
    requires var s := NumeralText(minus, whole, fraction, exponent); Follows(text, p, s) && Ends(text, p + |s|)
    ensures Scan(text, p) == Scanned(ValueNumber, p, p + |NumeralText(minus, whole, fraction, exponent)|)
  {
    hide Scan, NumberEnd, StringEnd, WellFormedNumeral, Ends;
    var digits := whole + (fraction + exponent);
    if minus {
      FollowsParts(text, p, "-", digits);
      FollowsAt(text, p, "-", 0);
      NumeralStands(text, p + 1, whole, fraction, exponent);
    } else {
      assert "" + digits == digits;
      NumeralStands(text, p, whole, fraction, exponent);
    }
    ScanHere(text, p);
  }

  /** Digits without a leading zero are the decimal form of their number. */
  lemma {:induction false} CanonicalDecimal(s: string)
    requires Digits(s) && (s[0] == '0' ==> s == "0")
    ensures Decimal(DecimalValue(s)) == s
  {
    var front, last := s[..|s| - 1], s[|s| - 1];
    assert last in s;
    if front == "" {
      assert s == [last];
    } else {
      assert forall c | c in front :: c in s;
      assert front[0] == s[0];
      CanonicalDecimal(front);
      assert DecimalValue(s) == DecimalValue(front) * 10 + DigitValue(last);
      assert Decimal(0) == "0";
      assert DecimalValue(s) / 10 == DecimalValue(front) && DecimalValue(s) % 10 == DigitValue(last);
      assert DigitChar(DigitValue(last)) == last;
    }
  }

  lemma {:induction false} NotAllDigits(s: string, max: nat)
    requires !AllDigits(s)
    ensures AccumulateAll(s, max).None?
  {
    var front, last := s[..|s| - 1], s[|s| - 1];
    assert s == front + [last];
    if IsDigit(last) {
      NotAllDigits(front, max);
    }
  }

  lemma IntegralValue(lib: Libc, minus: bool, whole: string)
    requires Digits(whole) && (whole[0] == '0' ==> whole == "0")
    ensures var n := DecimalValue(whole);
      && (minus && n <= TWO63 ==> NumberValue(lib, "-" + whole) == Integer(0 - n))
      && (!minus && n < TWO64 ==> NumberValue(lib, whole) == Unsigned(n))
  {
    CanonicalDecimal(whole);
    assert whole[0] in whole;
    assert ("-" + whole)[1..] == whole;
    var n := DecimalValue(whole);
    if minus && n <= TWO63 {
      AccumulateDecimal(n, TWO63);
    } else if !minus && n < TWO64 {
      AccumulateDecimal(n, TWO64 - 1);
    }
    hide AccumulateAll, Decimal, DecimalValue;
  }

  lemma FloatValue(lib: Libc, minus: bool, digits: string)
    requires digits != "" && IsDigit(digits[0]) && !AllDigits(digits)
    ensures var literal := (if minus then "-" else "") + digits;
      NumberValue(lib, literal) == Float(lib.strtod(literal))
  {
    assert "" + digits == digits && ("-" + digits)[1..] == digits;
    NotAllDigits(digits, TWO63);
    NotAllDigits(digits, TWO64 - 1);
    hide AccumulateAll;
  }

  lemma NumeralValue(lib: Libc, minus: bool, whole: string, fraction: string, exponent: string)
    requires WellFormedNumeral(whole, fraction, exponent)
    ensures NumberValue(lib, NumeralText(minus, whole, fraction, exponent)) ==
      NumeralMeaning(lib, minus, whole, fraction, exponent)
  {
    var digits := whole + (fraction + exponent);
    assert whole[0] in whole && digits[0] == whole[0];
    if fraction == "" && exponent == "" {
      assert digits == whole && "" + whole == whole;
      IntegralValue(lib, minus, whole);
    } else {
      assert digits[|whole|] == if fraction != "" then '.' else exponent[0];
      assert digits[|whole|] in digits;
      FloatValue(lib, minus, digits);
    }
    hide NumberValue, DecimalValue, Digits;
  }

  // ---------- a tree is parsed to what it denotes ----------

  /** What the parser yields for a value that ends at `q`. */
  function ParsedAt(text: string, r: Result<Value>, q: nat): Result<Parsed> {
    match r
    case Ok(v) => Ok(Parsed(v, Scan(text, q)))
    case Err(e) => Err(e)
  }

  function ParsedText(text: string, r: Result<string>, q: nat): Result<Parsed> {
    match r
    case Ok(s) => Ok(Parsed(String(s), Scan(text, q)))
    case Err(e) => Err(e)
  }

  /** What the loop over elements yields if `acc` has been read before. */
  function ParsedItems(text: string, acc: seq<Value>, r: Result<seq<Value>>, q: nat): Result<Parsed> {
    match r
    case Ok(xs) => Ok(Parsed(Array(acc + xs), Scan(text, q)))
    case Err(e) => Err(e)
  }

  function ParsedMembers(text: string, acc: map<string, Value>, r: Result<map<string, Value>>, q: nat): Result<Parsed> {
    match r
    case Ok(m) => Ok(Parsed(Object(acc + m), Scan(text, q)))
    case Err(e) => Err(e)
  }

  lemma QuoteScanned(text: string, p: nat, pieces: seq<Piece>)
    requires AllWellFormed(pieces) && Follows(text, p, Quote(pieces))
    ensures var s := Scan(text, p);
      && s == Scanned(ValueString, p, p + |Quote(pieces)|)
      && StringValue(text, s.start + 1, s.cursor - 1) == Meaning(pieces)
  {
    hide Scan, StringEnd, StringValue, Meaning, AllWellFormed;
    FollowsParts(text, p, "\"", Spelled(pieces) + "\"");
    FollowsAt(text, p, "\"", 0);
    LiteralEnds(text, p + 1, pieces);
    LiteralValue(text, p + 1, pieces);
    ScanHere(text, p);
  }

  lemma QuoteParsed(lib: Libc, text: string, p: nat, pieces: seq<Piece>)
    requires AllWellFormed(pieces) && Follows(text, p, Quote(pieces))
    ensures ParseValue(lib, text, Scan(text, p)) ==
      ParsedText(text, Meaning(pieces), p + |Quote(pieces)|)
  {
    QuoteScanned(text, p, pieces);
    hide Scan, StringValue, Meaning, AllWellFormed, Spelled, Quote;
  }

  lemma NumeralParsed(lib: Libc, text: string, p: nat, minus: bool, whole: string, fraction: string, exponent: string)
    requires WellFormedNumeral(whole, fraction, exponent)
    requires var s := NumeralText(minus, whole, fraction, exponent); Follows(text, p, s) && Ends(text, p + |s|)
    ensures ParseValue(lib, text, Scan(text, p)) ==
      ParsedAt(text, Ok(NumeralMeaning(lib, minus, whole, fraction, exponent)),
               p + |NumeralText(minus, whole, fraction, exponent)|)
  {
    hide *;
    var s := NumeralText(minus, whole, fraction, exponent);
    NumeralScanned(text, p, minus, whole, fraction, exponent);
    NumeralValue(lib, minus, whole, fraction, exponent);
    FollowsText(text, p, s);
    ScanIsScanned(text, p);
    ParseNumberToken(lib, text, Scan(text, p));
    OkParsed(text, NumeralMeaning(lib, minus, whole, fraction, exponent), p + |s|);
  }

  lemma OkParsed(text: string, v: Value, q: nat)
    ensures ParsedAt(text, Ok(v), q) == Ok(Parsed(v, Scan(text, q)))
  {
  }

  lemma WordIs(constant: Value)
    requires constant in {Null, Boolean(true), Boolean(false)}
    ensures var word := WordText(constant);
      && (word == "true" || word == "false" || word == "null")
      && constant == if word == "true" then Boolean(true) else if word == "false" then Boolean(false) else Null
  {
    assert "true"[0] != "false"[0] && "true"[0] != "null"[0] && "false"[0] != "null"[0];
  }

  lemma EmptyOpens(lib: Libc, text: string, p: nat)
    ensures Scan(text, p) == Scanned(BeginArray, p, p + 1) && Scan(text, p + 1).token == EndArray ==>
      ParseValue(lib, text, Scan(text, p)) == Ok(Parsed(Array([]), Scan(text, Scan(text, p + 1).cursor)))
    ensures Scan(text, p) == Scanned(BeginObject, p, p + 1) && Scan(text, p + 1).token == EndObject ==>
      ParseValue(lib, text, Scan(text, p)) == Ok(Parsed(Object(map[]), Scan(text, Scan(text, p + 1).cursor)))
  {
    hide Scan, ParseElements, ParseMembers;
  }

  /** An empty container, blanks between its brackets. */
  lemma EmptyTree(lib: Libc, text: string, p: nat, gap: string, isList: bool)
    requires Blanks(gap) && Follows(text, p, if isList then "[" + (gap + "]") else "{" + (gap + "}"))
    ensures ParseValue(lib, text, Scan(text, p)) ==
      ParsedAt(text, Ok(if isList then Array([]) else Object(map[])), p + |gap| + 2)
  {
    hide *;
    var close := if isList then ']' else '}';
    Opening(text, p, if isList then '[' else '{', gap + [close]);
    FollowsParts(text, p + 1, gap, [close]);
    ScanGap(text, p + 1, gap);
    assert [close] + "" == [close];
    Separated(text, p + 1 + |gap|, close, "");
    EmptyOpens(lib, text, p);
    OkParsed(text, if isList then Array([]) else Object(map[]), p + |gap| + 2);
  }

  /** A value starts with a token that opens one. */
  lemma TreeOpens(text: string, p: nat, t: Tree)
    requires WellFormed(t) && Follows(text, p, TextOf(t)) && Ends(text, p + |TextOf(t)|)
    ensures OpensValue(Scan(text, p).token)
  {
    hide Scan, Blanks, TextOfItems, TextOfMembers, Ends, WellFormedNumeral, NumeralText, Quote, WordText, Meaning;
    match t
    case Word(constant) =>
      WordIs(constant);
      ScanWord(text, p, WordText(constant));
    case Numeral(minus, whole, fraction, exponent) => NumeralScanned(text, p, minus, whole, fraction, exponent);
    case Quoted(pieces) => QuoteScanned(text, p, pieces);
    case EmptyList(gap) => Opening(text, p, '[', gap + "]");
    case EmptyRecord(gap) => Opening(text, p, '{', gap + "}");
    case List(items) => Opening(text, p, '[', TextOfItems(items));
    case Record(members) => Opening(text, p, '{', TextOfMembers(members));
  }

  lemma Opening(text: string, p: nat, c: char, rest: string)
    requires (c == '[' || c == '{') && Follows(text, p, [c] + rest)
    ensures Scan(text, p) == Scanned(if c == '[' then BeginArray else BeginObject, p, p + 1)
    ensures Follows(text, p + 1, rest)
  {
    FollowsParts(text, p, [c], rest);
    ScanSingle(text, p, c);
    hide Scan;
  }

  /** What comes behind a value: the gap, then a comma with the rest, or the closing bracket. */
  lemma BehindValue(text: string, r: nat, after: string, last: bool, close: char, rest: string)
    requires Blanks(after) && (close == ']' || close == '}')
    requires Follows(text, r, after + if last then [close] else "," + rest)
    ensures var s := r + |after|;
      && Ends(text, r) && Scan(text, r) == Scan(text, s)
      && (if last then Scan(text, s) == Scanned(if close == ']' then EndArray else EndObject, s, s + 1)
          else Scan(text, s) == Scanned(ValueSeparator, s, s + 1) && Follows(text, s + 1, rest))
  {
    hide *;
    var more := if last then [close] else "," + rest;
    GapEnds(text, r, after, more);
    FollowsParts(text, r, after, more);
    ScanGap(text, r, after);
    if last {
      assert [close] + "" == [close];
      Separated(text, r + |after|, close, "");
    } else {
      Separated(text, r + |after|, ',', rest);
    }
  }

  lemma ItemsText(items: Items)
    requires WellFormedItems(items)
    ensures Blanks(items.before) && WellFormed(items.item) && Blanks(items.after)
    ensures TextOfItems(items) ==
      items.before + (TextOf(items.item) + (items.after + (if items.NextItem? then "," + TextOfItems(items.rest) else "]")))
  {
    hide TextOf, Blanks;
  }

  /** The parts of a list of items. */
  lemma ItemReached(text: string, p: nat, items: Items)
    requires WellFormedItems(items) && Follows(text, p, TextOfItems(items))
    ensures var q := p + |items.before|;
      var r := q + |TextOf(items.item)|;
      var s := r + |items.after|;
      && Follows(text, q, TextOf(items.item)) && Ends(text, r)
      && Scan(text, p) == Scan(text, q) && Scan(text, r) == Scan(text, s)
      && OpensValue(Scan(text, q).token)
      && (items.NextItem? ==>
            Scan(text, s) == Scanned(ValueSeparator, s, s + 1) && Follows(text, s + 1, TextOfItems(items.rest))
            && |TextOfItems(items)| == s + 1 - p + |TextOfItems(items.rest)|)
      && (items.LastItem? ==> Scan(text, s) == Scanned(EndArray, s, s + 1) && |TextOfItems(items)| == s + 1 - p)
  {
    hide *;
    var more := if items.NextItem? then "," + TextOfItems(items.rest) else "]";
    ItemsText(items);
    FollowsParts(text, p, items.before, TextOf(items.item) + (items.after + more));
    var q := p + |items.before|;
    FollowsParts(text, q, TextOf(items.item), items.after + more);
    var r := q + |TextOf(items.item)|;
    ScanGap(text, p, items.before);
    BehindValue(text, r, items.after, items.LastItem?, ']', if items.NextItem? then TextOfItems(items.rest) else "");
    TreeOpens(text, q, items.item);
  }

  /** A separator or a closing bracket, and what comes after it. */
  lemma Separated(text: string, s: nat, c: char, rest: string)
    requires Follows(text, s, [c] + rest) && (c == ',' || c == ']' || c == '}' || c == ':')
    ensures Follows(text, s + 1, rest)
    ensures Scan(text, s) == Scanned(if c == ',' then ValueSeparator else if c == ']' then EndArray
                                     else if c == '}' then EndObject else NameSeparator, s, s + 1)
  {
    FollowsParts(text, s, [c], rest);
    ScanSingle(text, s, c);
    hide Scan;
  }

  /** One round of the loop over elements, when the last token is not a separator. */
  lemma ElementsAt(lib: Libc, text: string, at: Scanned, acc: seq<Value>)
    requires IsScanned(text, at) && at.token != ValueSeparator
    ensures var r := ParseValue(lib, text, at);
      ParseElements(lib, text, at, acc) ==
        if r.Err? then Err(r.error)
        else if r.value.next.token == ValueSeparator then ParseElements(lib, text, r.value.next, acc + [r.value.value])
        else if r.value.next.token != EndArray then Err(InvalidArgument)
        else Ok(Parsed(Array(acc + [r.value.value]), Scan(text, r.value.next.cursor)))
  {
    hide Scan, ParseValue, Left;
  }

  /** A separator is skipped. */
  lemma ElementsComma(lib: Libc, text: string, at: Scanned, acc: seq<Value>)
    requires IsScanned(text, at) && at.token == ValueSeparator && Scan(text, at.cursor).token != ValueSeparator
    ensures IsScanned(text, Scan(text, at.cursor))
    ensures ParseElements(lib, text, at, acc) == ParseElements(lib, text, Scan(text, at.cursor), acc)
  {
    ScanIsScanned(text, at.cursor);
    ElementsAt(lib, text, Scan(text, at.cursor), acc);
    hide Scan, ParseValue, Left;
  }

  lemma OpensNoComma(token: Token)
    requires OpensValue(token)
    ensures token != ValueSeparator
  {
  }

  lemma ElementsRound(lib: Libc, text: string, q: nat, s: nat, acc: seq<Value>)
    requires OpensValue(Scan(text, q).token)
    ensures match ParseValue(lib, text, Scan(text, q))
      case Err(e) => ParseElements(lib, text, Scan(text, q), acc) == Err(e)
      case Ok(Parsed(x, next)) =>
        && (next == Scanned(EndArray, s, s + 1) ==>
              ParseElements(lib, text, Scan(text, q), acc) == Ok(Parsed(Array(acc + [x]), Scan(text, s + 1))))
        && (next == Scanned(ValueSeparator, s, s + 1) && OpensValue(Scan(text, s + 1).token) ==>
              ParseElements(lib, text, Scan(text, q), acc) == ParseElements(lib, text, Scan(text, s + 1), acc + [x]))
  {
    hide *;
    ScanIsScanned(text, q);
    OpensNoComma(Scan(text, q).token);
    ElementsAt(lib, text, Scan(text, q), acc);
    var r := ParseValue(lib, text, Scan(text, q));
    if r.Ok? && r.value.next == Scanned(ValueSeparator, s, s + 1) && OpensValue(Scan(text, s + 1).token) {
      OpensNoComma(Scan(text, s + 1).token);
      ElementsComma(lib, text, r.value.next, acc + [r.value.value]);
    }
  }

  lemma {:induction false} ItemsParsed(lib: Libc, text: string, p: nat, items: Items, acc: seq<Value>)
    requires WellFormedItems(items) && Follows(text, p, TextOfItems(items))
    ensures ParseElements(lib, text, Scan(text, p), acc) ==
      ParsedItems(text, acc, DenotedItems(lib, items), p + |TextOfItems(items)|)
    decreases items
  {
    hide *;
    ItemsUnfold(items);
    ItemReached(text, p, items);
    var q := p + |items.before|;
    var s := q + |TextOf(items.item)| + |items.after|;
    TreeParsed(lib, text, q, items.item);
    ElementsRound(lib, text, q, s, acc);
    match Denoted(lib, items.item)
    case Err(e) => FailedItem(lib, text, items, e, q + |TextOf(items.item)|, acc);
    case Ok(x) =>
      OkParsed(text, x, q + |TextOf(items.item)|);
      if items.NextItem? {
        ItemReached(text, s + 1, items.rest);
        ItemsParsed(lib, text, s + 1, items.rest, acc + [x]);
        MoreItems(lib, text, items, x, acc, p + |TextOfItems(items)|);
      } else {
        OneItem(lib, text, items, x, acc, s + 1);
      }
  }

  lemma ItemsUnfold(items: Items)
    requires WellFormedItems(items)
    ensures WellFormed(items.item) && (items.NextItem? ==> WellFormedItems(items.rest))
  {
  }

  lemma FailedItem(lib: Libc, text: string, items: Items, e: Error, q: nat, acc: seq<Value>)
    requires WellFormedItems(items) && Denoted(lib, items.item) == Err(e)
    ensures ParsedAt(text, Denoted(lib, items.item), q) == Err(e)
    ensures forall end: nat :: ParsedItems(text, acc, DenotedItems(lib, items), end) == Err(e)
  {
    hide Denoted, Scan;
  }

  lemma OneItem(lib: Libc, text: string, items: Items, x: Value, acc: seq<Value>, end: nat)
    requires WellFormedItems(items) && items.LastItem? && Denoted(lib, items.item) == Ok(x)
    ensures ParsedItems(text, acc, DenotedItems(lib, items), end) ==
      Ok(Parsed(Array(acc + [x]), Scan(text, end)))
  {
    hide Denoted, Scan;
  }

  lemma MoreItems(lib: Libc, text: string, items: Items, x: Value, acc: seq<Value>, end: nat)
    requires WellFormedItems(items) && items.NextItem? && Denoted(lib, items.item) == Ok(x)
    ensures ParsedItems(text, acc + [x], DenotedItems(lib, items.rest), end) ==
      ParsedItems(text, acc, DenotedItems(lib, items), end)
  {
    hide Denoted, Scan;
    var rest := DenotedItems(lib, items.rest);
    if rest.Ok? {
      assert acc + [x] + rest.value == acc + ([x] + rest.value);
    }
  }

  // ---------- objects ----------

  lemma NameText(name: Name)
    requires WellFormedName(name)
    ensures Blanks(name.before) && AllWellFormed(name.key) && Blanks(name.after) && Blanks(name.gap)
    ensures TextOfName(name) == name.before + (Quote(name.key) + (name.after + (":" + name.gap)))
  {
    hide Blanks, AllWellFormed, Quote;
  }

  /** The name of a member, its colon and the gaps around them. */
  lemma NameReached(text: string, p: nat, name: Name)
    requires WellFormedName(name) && Follows(text, p, TextOfName(name))
    ensures var first, colon := Scan(text, p), Scan(text, Scan(text, p).cursor);
      && first.token == ValueString && StringValue(text, first.start + 1, first.cursor - 1) == Meaning(name.key)
      && colon.token == NameSeparator && Scan(text, colon.cursor) == Scan(text, p + |TextOfName(name)|)
  {
    hide *;
    var more := ":" + name.gap;
    NameText(name);
    FollowsParts(text, p, name.before, Quote(name.key) + (name.after + more));
    var q := p + |name.before|;
    FollowsParts(text, q, Quote(name.key), name.after + more);
    var r := q + |Quote(name.key)|;
    FollowsParts(text, r, name.after, more);
    var s := r + |name.after|;
    ScanGap(text, p, name.before);
    QuoteScanned(text, q, name.key);
    ScanGap(text, r, name.after);
    Separated(text, s, ':', name.gap);
    ScanGap(text, s + 1, name.gap);
  }

  lemma MembersText(members: Members)
    requires WellFormedMembers(members)
    ensures WellFormedName(members.name) && WellFormed(members.value) && Blanks(members.after)
    ensures TextOfMembers(members) ==
      TextOfName(members.name)
      + (TextOf(members.value) + (members.after + (if members.NextMember? then "," + TextOfMembers(members.rest) else "}")))
  {
    hide TextOf, Blanks, TextOfName, WellFormedName;
  }

  /** The parts of a list of members. */
  lemma MemberReached(text: string, p: nat, members: Members)
    requires WellFormedMembers(members) && Follows(text, p, TextOfMembers(members))
    ensures var q := p + |TextOfName(members.name)|;
      var r := q + |TextOf(members.value)|;
      var s := r + |members.after|;
      && Follows(text, p, TextOfName(members.name)) && Follows(text, q, TextOf(members.value)) && Ends(text, r)
      && Scan(text, r) == Scan(text, s) && Scan(text, p).token == ValueString
      && (members.NextMember? ==>
            Scan(text, s) == Scanned(ValueSeparator, s, s + 1) && Follows(text, s + 1, TextOfMembers(members.rest))
            && |TextOfMembers(members)| == s + 1 - p + |TextOfMembers(members.rest)|)
      && (members.LastMember? ==> Scan(text, s) == Scanned(EndObject, s, s + 1) && |TextOfMembers(members)| == s + 1 - p)
  {
    hide *;
    var more := if members.NextMember? then "," + TextOfMembers(members.rest) else "}";
    var name := TextOfName(members.name);
    MembersText(members);
    FollowsParts(text, p, name, TextOf(members.value) + (members.after + more));
    NameReached(text, p, members.name);
    var q := p + |name|;
    FollowsParts(text, q, TextOf(members.value), members.after + more);
    var r := q + |TextOf(members.value)|;
    BehindValue(text, r, members.after, members.LastMember?, '}', if members.NextMember? then TextOfMembers(members.rest) else "");
  }

  lemma MembersRound(lib: Libc, text: string, p: nat, q: nat, s: nat, key: Result<string>, acc: map<string, Value>)
    requires var first, colon := Scan(text, p), Scan(text, Scan(text, p).cursor);
      && first.token == ValueString && StringValue(text, first.start + 1, first.cursor - 1) == key
      && colon.token == NameSeparator && Scan(text, colon.cursor) == Scan(text, q)
    ensures key.Err? ==> ParseMembers(lib, text, Scan(text, p), acc) == Err(key.error)
    ensures key.Ok? ==>
      match ParseValue(lib, text, Scan(text, q))
      case Err(e) => ParseMembers(lib, text, Scan(text, p), acc) == Err(e)
      case Ok(Parsed(x, next)) =>
        && (next == Scanned(EndObject, s, s + 1) ==>
              ParseMembers(lib, text, Scan(text, p), acc) == Ok(Parsed(Object(acc[key.value := x]), Scan(text, s + 1))))
        && (next == Scanned(ValueSeparator, s, s + 1) && Scan(text, s + 1).token == ValueString ==>
              ParseMembers(lib, text, Scan(text, p), acc) == ParseMembers(lib, text, Scan(text, s + 1), acc[key.value := x]))
  {
    hide Scan, ParseValue, StringValue, Left;
  }

  lemma {:induction false} MembersParsed(lib: Libc, text: string, p: nat, members: Members, acc: map<string, Value>)
    requires WellFormedMembers(members) && Follows(text, p, TextOfMembers(members))
    ensures ParseMembers(lib, text, Scan(text, p), acc) ==
      ParsedMembers(text, acc, DenotedMembers(lib, members), p + |TextOfMembers(members)|)
    decreases members
  {
    hide *;
    MembersUnfold(members);
    MemberReached(text, p, members);
    var q := p + |TextOfName(members.name)|;
    var s := q + |TextOf(members.value)| + |members.after|;
    var key := Meaning(members.name.key);
    NameReached(text, p, members.name);
    TreeParsed(lib, text, q, members.value);
    MembersRound(lib, text, p, q, s, key, acc);
    if key.Err? {
      FailedName(lib, text, members, key.error, acc);
    } else {
      match Denoted(lib, members.value)
      case Err(e) => FailedMember(lib, text, members, e, q + |TextOf(members.value)|, acc);
      case Ok(x) =>
        OkParsed(text, x, q + |TextOf(members.value)|);
        if members.NextMember? {
          MemberReached(text, s + 1, members.rest);
          MembersParsed(lib, text, s + 1, members.rest, acc[key.value := x]);
          MoreMembers(lib, text, members, key.value, x, acc, p + |TextOfMembers(members)|);
        } else {
          OneMember(lib, text, members, key.value, x, acc, s + 1);
        }
    }
  }

  lemma MembersUnfold(members: Members)
    requires WellFormedMembers(members)
    ensures WellFormedName(members.name) && AllWellFormed(members.name.key) && WellFormed(members.value)
    ensures members.NextMember? ==> WellFormedMembers(members.rest)
  {
  }

  lemma FailedName(lib: Libc, text: string, members: Members, e: Error, acc: map<string, Value>)
    requires WellFormedMembers(members) && Meaning(members.name.key) == Err(e)
    ensures forall end: nat :: ParsedMembers(text, acc, DenotedMembers(lib, members), end) == Err(e)
  {
    hide Denoted, Meaning, Scan;
  }

  lemma FailedMember(lib: Libc, text: string, members: Members, e: Error, q: nat, acc: map<string, Value>)
    requires WellFormedMembers(members) && Meaning(members.name.key).Ok? && Denoted(lib, members.value) == Err(e)
    ensures ParsedAt(text, Denoted(lib, members.value), q) == Err(e)
    ensures forall end: nat :: ParsedMembers(text, acc, DenotedMembers(lib, members), end) == Err(e)
  {
    hide Denoted, Meaning, Scan;
  }

  lemma OneMember(lib: Libc, text: string, members: Members, k: string, x: Value, acc: map<string, Value>, end: nat)
    requires WellFormedMembers(members) && members.LastMember?
    requires Meaning(members.name.key) == Ok(k) && Denoted(lib, members.value) == Ok(x)
    ensures ParsedMembers(text, acc, DenotedMembers(lib, members), end) ==
      Ok(Parsed(Object(acc[k := x]), Scan(text, end)))
  {
    hide Denoted, Meaning, Scan;
    assert acc + map[k := x] == acc[k := x];
  }

  lemma MoreMembers(lib: Libc, text: string, members: Members, k: string, x: Value, acc: map<string, Value>, end: nat)
    requires WellFormedMembers(members) && members.NextMember?
    requires Meaning(members.name.key) == Ok(k) && Denoted(lib, members.value) == Ok(x)
    ensures ParsedMembers(text, acc[k := x], DenotedMembers(lib, members.rest), end) ==
      ParsedMembers(text, acc, DenotedMembers(lib, members), end)
  {
    MembersDenote(lib, members);
    hide *;
    var rest := DenotedMembers(lib, members.rest);
    if rest.Ok? {
      LaterWins(acc, k, x, rest.value);
    }
    SameMembers(text, acc[k := x], rest, acc, DenotedMembers(lib, members), end);
  }

  lemma MembersDenote(lib: Libc, members: Members)
    requires WellFormedMembers(members) && members.NextMember? && Meaning(members.name.key).Ok? && Denoted(lib, members.value).Ok?
    ensures var k, x, rest := Meaning(members.name.key).value, Denoted(lib, members.value).value, DenotedMembers(lib, members.rest);
      DenotedMembers(lib, members) == if rest.Ok? then Ok(map[k := x] + rest.value) else rest
  {
    hide Denoted, Meaning;
  }

  lemma LaterWins(acc: map<string, Value>, k: string, x: Value, m: map<string, Value>)
    ensures acc[k := x] + m == acc + (map[k := x] + m)
  {
  }

  lemma SameMembers(text: string, a: map<string, Value>, r: Result<map<string, Value>>,
                    b: map<string, Value>, s: Result<map<string, Value>>, end: nat)
    requires if r.Ok? then s.Ok? && a + r.value == b + s.value else s == r
    ensures ParsedMembers(text, a, r, end) == ParsedMembers(text, b, s, end)
  {
    hide Scan;
  }

  // ---------- whole trees ----------

  lemma ListOpens(lib: Libc, text: string, p: nat)
    requires Scan(text, p) == Scanned(BeginArray, p, p + 1) && OpensValue(Scan(text, p + 1).token)
    ensures ParseValue(lib, text, Scan(text, p)) == ParseElements(lib, text, Scan(text, p + 1), [])
  {
    hide Scan;
  }

  lemma RecordOpens(lib: Libc, text: string, p: nat)
    requires Scan(text, p) == Scanned(BeginObject, p, p + 1) && Scan(text, p + 1).token == ValueString
    ensures ParseValue(lib, text, Scan(text, p)) == ParseMembers(lib, text, Scan(text, p + 1), map[])
  {
    hide Scan;
  }

  lemma ListDenoted(lib: Libc, text: string, items: Items, end: nat)
    requires WellFormedItems(items)
    ensures ParsedItems(text, [], DenotedItems(lib, items), end) == ParsedAt(text, Denoted(lib, List(items)), end)
  {
    hide DenotedItems, Scan;
    var xs := DenotedItems(lib, items);
    if xs.Ok? { assert [] + xs.value == xs.value; }
  }

  lemma RecordDenoted(lib: Libc, text: string, members: Members, end: nat)
    requires WellFormedMembers(members)
    ensures ParsedMembers(text, map[], DenotedMembers(lib, members), end) == ParsedAt(text, Denoted(lib, Record(members)), end)
  {
    hide DenotedMembers, Scan;
    var m := DenotedMembers(lib, members);
    if m.Ok? { assert map[] + m.value == m.value; }
  }

  lemma QuotedDenoted(lib: Libc, text: string, pieces: seq<Piece>)
    requires AllWellFormed(pieces)
    ensures forall q: nat :: ParsedAt(text, Denoted(lib, Quoted(pieces)), q) == ParsedText(text, Meaning(pieces), q)
  {
    hide Meaning;
  }

  /** What the cases of a tree say. */
  lemma TreeCases(lib: Libc, t: Tree)
    requires WellFormed(t)
    ensures t.Word? ==> t.constant in {Null, Boolean(true), Boolean(false)} && TextOf(t) == WordText(t.constant) && Denoted(lib, t) == Ok(t.constant)
    ensures t.Numeral? ==>
      && WellFormedNumeral(t.whole, t.fraction, t.exponent) && TextOf(t) == NumeralText(t.minus, t.whole, t.fraction, t.exponent)
      && Denoted(lib, t) == Ok(NumeralMeaning(lib, t.minus, t.whole, t.fraction, t.exponent))
    ensures t.Quoted? ==> AllWellFormed(t.pieces) && TextOf(t) == Quote(t.pieces)
    ensures t.EmptyList? ==> Blanks(t.gap) && TextOf(t) == "[" + (t.gap + "]") && Denoted(lib, t) == Ok(Array([]))
    ensures t.EmptyRecord? ==> Blanks(t.gap) && TextOf(t) == "{" + (t.gap + "}") && Denoted(lib, t) == Ok(Object(map[]))
    ensures t.List? ==> WellFormedItems(t.items) && TextOf(t) == ['['] + TextOfItems(t.items)
    ensures t.Record? ==> WellFormedMembers(t.members) && TextOf(t) == ['{'] + TextOfMembers(t.members)
  {
    hide WellFormedItems, WellFormedMembers, TextOfItems, TextOfMembers, WellFormedNumeral, NumeralText, NumeralMeaning,
         AllWellFormed, Quote, Blanks, WordText, DenotedItems, DenotedMembers, Meaning;
  }

  /** Wherever the text of a tree stands, the parser reads what it denotes and stops right behind it. */
  lemma {:induction false} TreeParsed(lib: Libc, text: string, p: nat, t: Tree)
    requires WellFormed(t) && Follows(text, p, TextOf(t)) && Ends(text, p + |TextOf(t)|)
    ensures ParseValue(lib, text, Scan(text, p)) == ParsedAt(text, Denoted(lib, t), p + |TextOf(t)|)
    decreases t
  {
    hide *;
    TreeCases(lib, t);
    match t
    case Word(constant) =>
      WordIs(constant);
      WordParsed(lib, text, p, WordText(constant));
      OkParsed(text, constant, p + |TextOf(t)|);
    case Numeral(minus, whole, fraction, exponent) => NumeralParsed(lib, text, p, minus, whole, fraction, exponent);
    case Quoted(pieces) =>
      QuoteParsed(lib, text, p, pieces);
      QuotedDenoted(lib, text, pieces);
    case EmptyList(gap) => EmptyTree(lib, text, p, gap, true);
    case EmptyRecord(gap) => EmptyTree(lib, text, p, gap, false);
    case List(items) =>
      Opening(text, p, '[', TextOfItems(items));
      ItemReached(text, p + 1, items);
      ListOpens(lib, text, p);
      ItemsParsed(lib, text, p + 1, items, []);
      ListDenoted(lib, text, items, p + |TextOf(t)|);
    case Record(members) =>
      Opening(text, p, '{', TextOfMembers(members));
      MemberReached(text, p + 1, members);
      RecordOpens(lib, text, p);
      MembersParsed(lib, text, p + 1, members, map[]);
      RecordDenoted(lib, text, members, p + |TextOf(t)|);
  }

  // ---------- what is parsed is a tree ----------

  /** The text of a token. */
  lemma TokenText(text: string, p: nat)
    requires p <= |text|
    ensures var s := TokenAt(text, p);
      && (s.token == BeginArray ==> Follows(text, p, "[") && s.cursor == p + 1)
      && (s.token == EndArray ==> Follows(text, p, "]") && s.cursor == p + 1)
      && (s.token == BeginObject ==> Follows(text, p, "{") && s.cursor == p + 1)
      && (s.token == EndObject ==> Follows(text, p, "}") && s.cursor == p + 1)
      && (s.token == NameSeparator ==> Follows(text, p, ":") && s.cursor == p + 1)
      && (s.token == ValueSeparator ==> Follows(text, p, ",") && s.cursor == p + 1)
      && (s.token == LiteralTrue ==> Follows(text, p, "true") && s.cursor == p + 4)
      && (s.token == LiteralFalse ==> Follows(text, p, "false") && s.cursor == p + 5)
      && (s.token == LiteralNull ==> Follows(text, p, "null") && s.cursor == p + 4)
      && (s.token == ValueString ==> Follows(text, p, "\"") && StringEnd(text, p + 1) == Some(s.cursor))
  {
    SingleText(text, p);
    OneCharacter(text, p);
    hide StringEnd, NumberEnd, Single;
  }

  lemma OneCharacter(text: string, p: nat)
    requires p <= |text|
    ensures CharAt(text, p) != '\0' ==> Follows(text, p, [CharAt(text, p)])
    ensures ['['] == "[" && [']'] == "]" && ['{'] == "{" && ['}'] == "}"
    ensures [':'] == ":" && [','] == "," && ['"'] == "\""
  {
    assert p < |text| ==> text[p..p + 1] == [text[p]];
  }

  lemma SingleText(text: string, p: nat)
    ensures var c, t := CharAt(text, p), Single(CharAt(text, p));
      && (t == BeginArray <==> c == '[') && (t == EndArray <==> c == ']') && (t == BeginObject <==> c == '{')
      && (t == EndObject <==> c == '}') && (t == NameSeparator <==> c == ':') && (t == ValueSeparator <==> c == ',')
      && (t == EndOfInput <==> c == '\0')
      && !t.LiteralTrue? && !t.LiteralFalse? && !t.LiteralNull? && !t.ValueString? && !t.ValueNumber?
  {
  }

  lemma QuoteOf(text: string, p: nat) returns (pieces: seq<Piece>)
    requires p <= |text| && TokenAt(text, p).token == ValueString
    ensures AllWellFormed(pieces) && Follows(text, p, Quote(pieces)) && TokenAt(text, p).cursor == p + |Quote(pieces)|
  {
    TokenText(text, p);
    hide TokenAt, StringEnd, Follows, AllWellFormed, Spelled;
    pieces := AcceptedIsSpelled(text, p + 1);
    FollowsConcat(text, p, "\"", Spelled(pieces) + "\"");
  }

  lemma DigitsOf(text: string, i: nat) returns (s: string)
    requires i <= |text|
    ensures AllDigits(s) && Follows(text, i, s) && DigitsEnd(text, i) == i + |s|
    ensures IsDigit(CharAt(text, i)) ==> s != "" && s[0] == CharAt(text, i)
  {
    var end := DigitsEnd(text, i);
    s := text[i..end];
    forall c | c in s ensures IsDigit(c) {
      var n :| 0 <= n < |s| && s[n] == c;
      assert CharAt(text, i + n) == c;
    }
    if IsDigit(CharAt(text, i)) {
      assert end > i;
    }
  }

  lemma FractionOf(text: string, i: nat) returns (fraction: string)
    requires i <= |text|
    ensures fraction == "" || (fraction[0] == '.' && Digits(fraction[1..]))
    ensures Follows(text, i, fraction) && FractionEnd(text, i) == i + |fraction|
  {
    if CharAt(text, i) == '.' && IsDigit(CharAt(text, i + 1)) {
      var digits := DigitsOf(text, i + 1);
      fraction := "." + digits;
      assert fraction[1..] == digits;
      FollowsConcat(text, i, ".", digits);
    } else {
      fraction := "";
    }
  }

  lemma ExponentOf(text: string, i: nat) returns (exponent: string)
    requires i <= |text|
    ensures WellFormedExponent(exponent) && Follows(text, i, exponent) && ExponentEnd(text, i) == i + |exponent|
  {
    var sign := CharAt(text, i + 1);
    var at := if sign == '+' || sign == '-' then i + 2 else i + 1;
    if (CharAt(text, i) == 'e' || CharAt(text, i) == 'E') && IsDigit(CharAt(text, at)) {
      var digits := DigitsOf(text, at);
      var head := text[i..at];
      exponent := head + digits;
      assert Follows(text, i, head);
      FollowsConcat(text, i, head, digits);
      assert exponent[|head|..] == digits && exponent[0] == head[0];
    } else {
      exponent := "";
    }
  }

  /** The first digits of a number. */
  lemma WholeOf(text: string, i: nat) returns (whole: string)
    requires i < |text| && IsDigit(CharAt(text, i))
    ensures Digits(whole) && (whole[0] == '0' ==> whole == "0") && Follows(text, i, whole)
    ensures NumberEnd(text, i) == ExponentEnd(text, FractionEnd(text, i + |whole|))
  {
    if CharAt(text, i) == '0' {
      whole := "0";
      FollowsExactly(text, i, "0");
    } else {
      whole := DigitsOf(text, i);
    }
    hide DigitsEnd, FractionEnd, ExponentEnd;
  }

  lemma UnsignedOf(text: string, i: nat) returns (whole: string, fraction: string, exponent: string)
    requires i < |text| && IsDigit(CharAt(text, i))
    ensures WellFormedNumeral(whole, fraction, exponent) && Follows(text, i, whole + (fraction + exponent))
    ensures NumberEnd(text, i) == i + |whole + (fraction + exponent)|
  {
    hide *;
    whole := WholeOf(text, i);
    GapInside(text, i, whole);
    fraction := FractionOf(text, i + |whole|);
    GapInside(text, i + |whole|, fraction);
    exponent := ExponentOf(text, i + |whole| + |fraction|);
    FollowsConcat(text, i + |whole|, fraction, exponent);
    FollowsConcat(text, i, whole, fraction + exponent);
    NumeralParts(whole, fraction, exponent);
  }

  lemma NumeralParts(whole: string, fraction: string, exponent: string)
    requires Digits(whole) && (whole[0] == '0' ==> whole == "0")
    requires fraction == "" || (fraction[0] == '.' && Digits(fraction[1..]))
    requires WellFormedExponent(exponent)
    ensures WellFormedNumeral(whole, fraction, exponent)
  {
    hide WellFormedExponent, Digits;
  }

  lemma NumeralOf(text: string, p: nat) returns (minus: bool, whole: string, fraction: string, exponent: string)
    requires p <= |text| && TokenAt(text, p).token == ValueNumber
    ensures WellFormedNumeral(whole, fraction, exponent) && Follows(text, p, NumeralText(minus, whole, fraction, exponent))
    ensures TokenAt(text, p).cursor == p + |NumeralText(minus, whole, fraction, exponent)|
  {
    NumberToken(text, p);
    minus := CharAt(text, p) == '-';
    whole, fraction, exponent := UnsignedOf(text, if minus then p + 1 else p);
    hide TokenAt, NumberEnd, WellFormedNumeral, Follows;
    var digits := whole + (fraction + exponent);
    if minus {
      FollowsExactly(text, p, "-");
      FollowsConcat(text, p, "-", digits);
    } else {
      assert "" + digits == digits;
    }
  }

  lemma NumberToken(text: string, p: nat)
    requires p <= |text| && TokenAt(text, p).token == ValueNumber
    ensures var i := if CharAt(text, p) == '-' then p + 1 else p;
      i < |text| && IsDigit(CharAt(text, i)) && TokenAt(text, p).cursor == NumberEnd(text, i)
  {
    hide NumberEnd, StringEnd;
    SingleText(text, p);
  }

  /** The parsed value is the one that the tree behind the gap denotes. */
  predicate IsTree(lib: Libc, text: string, p: nat, gap: string, t: Tree) {
    && Blanks(gap) && WellFormed(t) && Follows(text, p, gap + TextOf(t)) && Denoted(lib, t).Ok?
    && ParseValue(lib, text, Scan(text, p)) == ParsedAt(text, Denoted(lib, t), p + |gap| + |TextOf(t)|)
  }

  /** What a value that parses starts with. */
  lemma ValueTokens(lib: Libc, text: string, at: Scanned)
    requires IsScanned(text, at) && ParseValue(lib, text, at).Ok?
    ensures OpensValue(at.token)
    ensures var next := Scan(text, at.cursor);
      && (at.token == BeginArray && next.token != EndArray ==>
            next.token != ValueSeparator && ParseElements(lib, text, next, []).Ok?)
      && (at.token == BeginObject && next.token != EndObject ==>
            next.token != ValueSeparator && ParseMembers(lib, text, next, map[]).Ok?)
  {
    hide Scan, ParseElements, ParseMembers, StringValue, NumberValue;
  }

  lemma FromGap(text: string, p: nat, gap: string, t: Tree)
    requires Follows(text, p, gap) && Blanks(gap) && Follows(text, p + |gap|, TextOf(t))
    ensures Follows(text, p, gap + TextOf(t)) && Scan(text, p) == Scan(text, p + |gap|)
  {
    hide *;
    FollowsConcat(text, p, gap, TextOf(t));
    ScanGap(text, p, gap);
  }

  lemma TreeIs(lib: Libc, text: string, p: nat, gap: string, t: Tree)
    requires Blanks(gap) && WellFormed(t) && Follows(text, p, gap) && Follows(text, p + |gap|, TextOf(t))
    requires ParseValue(lib, text, Scan(text, p)).Ok?
    requires ParseValue(lib, text, Scan(text, p + |gap|)) == ParsedAt(text, Denoted(lib, t), p + |gap| + |TextOf(t)|)
    ensures IsTree(lib, text, p, gap, t)
  {
    hide Blanks, WellFormed, Follows, TextOf, Denoted, ParseValue, Scan;
    FromGap(text, p, gap, t);
  }

  lemma WordOf(lib: Libc, text: string, q: nat) returns (t: Tree)
    requires q <= |text| && TokenAt(text, q).token in {LiteralTrue, LiteralFalse, LiteralNull}
    ensures WellFormed(t) && Follows(text, q, TextOf(t))
    ensures ParseValue(lib, text, Scan(text, q)) == ParsedAt(text, Denoted(lib, t), q + |TextOf(t)|)
  {
    hide *;
    TokenText(text, q);
    var token := TokenAt(text, q).token;
    t := Word(if token == LiteralTrue then Boolean(true) else if token == LiteralFalse then Boolean(false) else Null);
    WordTree(lib, t);
    WordIs(t.constant);
    WordParsed(lib, text, q, TextOf(t));
    OkParsed(text, t.constant, q + |TextOf(t)|);
  }

  lemma WordTree(lib: Libc, t: Tree)
    requires t.Word? && t.constant in {Null, Boolean(true), Boolean(false)}
    ensures WellFormed(t) && TextOf(t) == WordText(t.constant) && Denoted(lib, t) == Ok(t.constant)
    ensures TextOf(t) == if t.constant == Boolean(true) then "true" else if t.constant == Boolean(false) then "false" else "null"
  {
  }

  lemma NumeralTree(lib: Libc, text: string, q: nat) returns (t: Tree)
    requires q <= |text| && Scan(text, q) == TokenAt(text, q) && TokenAt(text, q).token == ValueNumber
    ensures WellFormed(t) && Follows(text, q, TextOf(t))
    ensures ParseValue(lib, text, Scan(text, q)) == ParsedAt(text, Denoted(lib, t), q + |TextOf(t)|)
  {
    hide *;
    var minus, whole, fraction, exponent := NumeralOf(text, q);
    t := Numeral(minus, whole, fraction, exponent);
    NumeralIs(t);
    TreeCases(lib, t);
    NumeralValue(lib, minus, whole, fraction, exponent);
    FollowsText(text, q, TextOf(t));
    ScanIsScanned(text, q);
    ParseNumberToken(lib, text, Scan(text, q));
    OkParsed(text, NumeralMeaning(lib, minus, whole, fraction, exponent), q + |TextOf(t)|);
    TokenStarts(text, q);
  }

  lemma TokenStarts(text: string, q: nat)
    ensures TokenAt(text, q).start == q
  {
  }

  lemma NumeralIs(t: Tree)
    requires t.Numeral? && WellFormedNumeral(t.whole, t.fraction, t.exponent)
    ensures WellFormed(t)
  {
    hide WellFormedNumeral;
  }

  lemma QuotedTree(lib: Libc, text: string, q: nat) returns (t: Tree)
    requires q <= |text| && TokenAt(text, q).token == ValueString
    ensures WellFormed(t) && Follows(text, q, TextOf(t))
    ensures ParseValue(lib, text, Scan(text, q)) == ParsedAt(text, Denoted(lib, t), q + |TextOf(t)|)
  {
    hide *;
    var pieces := QuoteOf(text, q);
    t := Quoted(pieces);
    QuotedIs(t);
    TreeCases(lib, t);
    QuoteParsed(lib, text, q, pieces);
    QuotedDenoted(lib, text, pieces);
  }

  lemma QuotedIs(t: Tree)
    requires t.Quoted? && AllWellFormed(t.pieces)
    ensures WellFormed(t)
  {
    hide AllWellFormed;
  }

  /** The empty containers. */
  lemma EmptyOf(lib: Libc, text: string, q: nat, isList: bool) returns (t: Tree)
    requires q < |text| && Follows(text, q, if isList then "[" else "{")
    requires Scan(text, q + 1).token == if isList then EndArray else EndObject
    ensures WellFormed(t) && Follows(text, q, TextOf(t))
    ensures ParseValue(lib, text, Scan(text, q)) == ParsedAt(text, Denoted(lib, t), q + |TextOf(t)|)
  {
    hide *;
    var gap := GapBefore(text, q + 1);
    GapInside(text, q + 1, gap);
    TokenText(text, q + 1 + |gap|);
    t := if isList then EmptyList(gap) else EmptyRecord(gap);
    EmptyIs(t);
    TreeCases(lib, t);
    FollowsConcat(text, q + 1, gap, if isList then "]" else "}");
    FollowsConcat(text, q, if isList then "[" else "{", gap + if isList then "]" else "}");
    EmptyTree(lib, text, q, gap, isList);
  }

  lemma GapInside(text: string, p: nat, gap: string)
    requires Follows(text, p, gap)
    ensures p + |gap| <= |text|
  {
  }

  lemma EmptyIs(t: Tree)
    requires (t.EmptyList? || t.EmptyRecord?) && Blanks(t.gap)
    ensures WellFormed(t)
  {
    hide Blanks;
  }

  lemma {:induction false} TreeOf(lib: Libc, text: string, p: nat) returns (gap: string, t: Tree)
    requires p <= |text| && ParseValue(lib, text, Scan(text, p)).Ok?
    ensures IsTree(lib, text, p, gap, t)
    decreases Left(text, Scan(text, p)), 0
  {
    hide *;
    gap := GapBefore(text, p);
    GapInside(text, p, gap);
    ScanGap(text, p, gap);
    var q := p + |gap|;
    ScanIsScanned(text, p);
    ValueTokens(lib, text, Scan(text, p));
    TokenText(text, q);
    OpenTokens(Scan(text, p).token);
    var token := TokenAt(text, q).token;
    if token in {LiteralTrue, LiteralFalse, LiteralNull} {
      t := WordOf(lib, text, q);
    } else if token == ValueNumber {
      t := NumeralTree(lib, text, q);
    } else if token == ValueString {
      t := QuotedTree(lib, text, q);
    } else if token == BeginArray && Scan(text, q + 1).token == EndArray {
      InsideText(text, q, "[");
      t := EmptyOf(lib, text, q, true);
    } else if token == BeginObject && Scan(text, q + 1).token == EndObject {
      InsideText(text, q, "{");
      t := EmptyOf(lib, text, q, false);
    } else if token == BeginArray {
      InsideText(text, q, "[");
      Deeper(text, q);
      var items := ItemsOf(lib, text, q + 1, []);
      t := List(items);
      ListTree(lib, text, q, items);
    } else {
      InsideText(text, q, "{");
      Deeper(text, q);
      var members := MembersOf(lib, text, q + 1, map[]);
      t := Record(members);
      RecordTree(lib, text, q, members);
    }
    TreeIs(lib, text, p, gap, t);
  }

  lemma OpenTokens(token: Token)
    ensures OpensValue(token) <==>
      token in {LiteralTrue, LiteralFalse, LiteralNull, ValueString, ValueNumber, BeginArray, BeginObject}
  {
  }

  lemma InsideText(text: string, q: nat, bracket: string)
    requires |bracket| == 1 && Follows(text, q, bracket)
    ensures q < |text|
  {
  }

  /** Less text is left behind a bracket. */
  lemma Deeper(text: string, q: nat)
    requires q < |text| && Scan(text, q).cursor == q + 1
    ensures Left(text, Scan(text, q + 1)) < Left(text, Scan(text, q))
  {
    hide Scan;
  }

  lemma ListTree(lib: Libc, text: string, q: nat, items: Items)
    requires Follows(text, q, "[") && WellFormedItems(items) && Follows(text, q + 1, TextOfItems(items))
    ensures WellFormed(List(items)) && Follows(text, q, TextOf(List(items)))
    ensures ParseValue(lib, text, Scan(text, q)) == ParsedAt(text, Denoted(lib, List(items)), q + |TextOf(List(items))|)
  {
    hide *;
    var t := List(items);
    ContainerIs(t);
    TreeCases(lib, t);
    FollowsConcat(text, q, "[", TextOfItems(items));
    Opening(text, q, '[', TextOfItems(items));
    ItemReached(text, q + 1, items);
    ListOpens(lib, text, q);
    ItemsParsed(lib, text, q + 1, items, []);
    ListDenoted(lib, text, items, q + |TextOf(t)|);
  }

  lemma RecordTree(lib: Libc, text: string, q: nat, members: Members)
    requires Follows(text, q, "{") && WellFormedMembers(members) && Follows(text, q + 1, TextOfMembers(members))
    ensures WellFormed(Record(members)) && Follows(text, q, TextOf(Record(members)))
    ensures ParseValue(lib, text, Scan(text, q)) == ParsedAt(text, Denoted(lib, Record(members)), q + |TextOf(Record(members))|)
  {
    hide *;
    var t := Record(members);
    ContainerIs(t);
    TreeCases(lib, t);
    FollowsConcat(text, q, "{", TextOfMembers(members));
    Opening(text, q, '{', TextOfMembers(members));
    MemberReached(text, q + 1, members);
    RecordOpens(lib, text, q);
    MembersParsed(lib, text, q + 1, members, map[]);
    RecordDenoted(lib, text, members, q + |TextOf(t)|);
  }

  lemma ContainerIs(t: Tree)
    requires t.List? ==> WellFormedItems(t.items)
    requires t.Record? ==> WellFormedMembers(t.members)
    ensures t.List? || t.Record? ==> WellFormed(t)
  {
    hide WellFormedItems, WellFormedMembers;
  }

  /** One successful round of the loop over elements. */
  lemma RoundOfElements(lib: Libc, text: string, p: nat, acc: seq<Value>)
    requires Scan(text, p).token != ValueSeparator && ParseElements(lib, text, Scan(text, p), acc).Ok?
    ensures var r := ParseValue(lib, text, Scan(text, p));
      && r.Ok? && r.value.next.token in {ValueSeparator, EndArray}
      && Left(text, r.value.next) < Left(text, Scan(text, p))
      && (r.value.next.token == ValueSeparator ==>
            && var after := Scan(text, r.value.next.cursor);
            && Left(text, after) < Left(text, Scan(text, p))
            && after.token != ValueSeparator && ParseElements(lib, text, after, acc + [r.value.value]).Ok?)
  {
    ScanIsScanned(text, p);
    var r := ParseValue(lib, text, Scan(text, p));
    if r.Ok? && r.value.next.token == ValueSeparator {
      SeparatedElement(lib, text, r.value.next, acc + [r.value.value]);
    }
    hide Scan, ParseValue;
  }

  lemma SeparatedElement(lib: Libc, text: string, at: Scanned, acc: seq<Value>)
    requires IsScanned(text, at) && at.token == ValueSeparator && ParseElements(lib, text, at, acc).Ok?
    ensures var after := Scan(text, at.cursor);
      && after.token != ValueSeparator && ParseElements(lib, text, after, acc).Ok?
      && Left(text, after) <= Left(text, at)
  {
    var after := Scan(text, at.cursor);
    ScanIsScanned(text, at.cursor);
    assert ParseValue(lib, text, after).Ok?;
    ValueTokens(lib, text, after);
    AtCommaToken(after.token);
    hide Scan, ParseValue;
  }

  lemma AtCommaToken(token: Token)
    ensures OpensValue(token) ==> token != ValueSeparator
  {
  }

  lemma {:induction false} ItemsOf(lib: Libc, text: string, p: nat, acc: seq<Value>) returns (items: Items)
    requires p <= |text| && Scan(text, p).token != ValueSeparator && ParseElements(lib, text, Scan(text, p), acc).Ok?
    ensures WellFormedItems(items) && Follows(text, p, TextOfItems(items))
    decreases Left(text, Scan(text, p)), 1
  {
    hide *;
    RoundOfElements(lib, text, p, acc);
    var before, item := TreeOf(lib, text, p);
    var r := p + |before| + |TextOf(item)|;
    TreeEnds(lib, text, p, before, item);
    var after := GapBefore(text, r);
    GapInside(text, r, after);
    var s := r + |after|;
    TokenText(text, s);
    if Scan(text, r).token == ValueSeparator {
      InsideText(text, s, ",");
      var rest := ItemsOf(lib, text, s + 1, acc + [Denoted(lib, item).value]);
      items := NextItem(before, item, after, rest);
      FollowsConcat(text, s, ",", TextOfItems(rest));
      ItemStands(text, p, items, "," + TextOfItems(rest));
    } else {
      items := LastItem(before, item, after);
      ItemStands(text, p, items, "]");
    }
  }

  /** Where a tree that has been read ends. */
  lemma TreeEnds(lib: Libc, text: string, p: nat, gap: string, t: Tree)
    requires IsTree(lib, text, p, gap, t)
    ensures var r := p + |gap| + |TextOf(t)|;
      && r <= |text| && Blanks(gap) && WellFormed(t) && Follows(text, p, gap + TextOf(t)) && Denoted(lib, t).Ok?
      && ParseValue(lib, text, Scan(text, p)) == Ok(Parsed(Denoted(lib, t).value, Scan(text, r)))
  {
    hide Blanks, WellFormed, TextOf, Denoted, ParseValue, Scan;
  }

  lemma ItemStands(text: string, p: nat, items: Items, more: string)
    requires Blanks(items.before) && WellFormed(items.item) && Blanks(items.after)
    requires items.NextItem? ==> WellFormedItems(items.rest)
    requires more == if items.NextItem? then "," + TextOfItems(items.rest) else "]"
    requires var r := p + |items.before| + |TextOf(items.item)|;
      Follows(text, p, items.before + TextOf(items.item)) && Follows(text, r, items.after)
      && Follows(text, r + |items.after|, more)
    ensures WellFormedItems(items) && Follows(text, p, TextOfItems(items))
  {
    hide *;
    ItemsAre(items);
    ItemsText(items);
    FollowsConcat(text, p, items.before, TextOf(items.item));
    var q := p + |items.before|;
    FollowsConcat(text, q + |TextOf(items.item)|, items.after, more);
    FollowsConcat(text, q, TextOf(items.item), items.after + more);
    FollowsConcat(text, p, items.before, TextOf(items.item) + (items.after + more));
  }

  lemma ItemsAre(items: Items)
    requires Blanks(items.before) && WellFormed(items.item) && Blanks(items.after)
    requires items.NextItem? ==> WellFormedItems(items.rest)
    ensures WellFormedItems(items)
  {
    hide Blanks, WellFormed;
  }

  /** The key at a string token, and the value behind the token that comes after it. */
  function KeyAt(text: string, first: Scanned): Result<string> {
    StringValue(text, first.start + 1, if first.cursor > 0 then first.cursor - 1 else 0)
  }

  function ValueAfter(lib: Libc, text: string, first: Scanned): Result<Parsed> {
    ParseValue(lib, text, Scan(text, Scan(text, first.cursor).cursor))
  }

  lemma MembersUnrolled(lib: Libc, text: string, first: Scanned, acc: map<string, Value>)
    requires IsScanned(text, first) && first.token != ValueSeparator && ParseMembers(lib, text, first, acc).Ok?
    ensures first.token == ValueString && KeyAt(text, first).Ok?
    ensures Scan(text, first.cursor).token == NameSeparator
    ensures var r := ValueAfter(lib, text, first);
      && r.Ok? && r.value.next.token in {ValueSeparator, EndObject}
      && (r.value.next.token == ValueSeparator ==>
            IsScanned(text, r.value.next) && ParseMembers(lib, text, r.value.next, acc[KeyAt(text, first).value := r.value.value]).Ok?)
  {
    ScanIsScanned(text, first.cursor);
    hide Scan, ParseValue, StringValue, Left;
  }

  lemma LeftAfter(text: string, at: Scanned)
    requires IsScanned(text, at) && at.token != EndOfInput
    ensures Left(text, Scan(text, at.cursor)) < Left(text, at) && IsScanned(text, Scan(text, at.cursor))
  {
    ScanIsScanned(text, at.cursor);
    ScanAdvances(text, at.cursor);
    hide Scan;
  }

  lemma LeftOfValue(lib: Libc, text: string, at: Scanned)
    requires IsScanned(text, at) && ParseValue(lib, text, at).Ok?
    ensures Left(text, ParseValue(lib, text, at).value.next) < Left(text, at)
    ensures IsScanned(text, ParseValue(lib, text, at).value.next)
  {
    hide *;
  }

  /** One successful round of the loop over key-value pairs. */
  lemma RoundOfMembers(lib: Libc, text: string, p: nat, acc: map<string, Value>)
    requires Scan(text, p).token != ValueSeparator && ParseMembers(lib, text, Scan(text, p), acc).Ok?
    ensures var first := Scan(text, p);
      && first.token == ValueString && KeyAt(text, first).Ok?
      && Scan(text, first.cursor).token == NameSeparator
      && Left(text, Scan(text, Scan(text, first.cursor).cursor)) < Left(text, first)
    ensures var r := ValueAfter(lib, text, Scan(text, p));
      && r.Ok? && r.value.next.token in {ValueSeparator, EndObject}
      && (r.value.next.token == ValueSeparator ==>
            NextMembers(lib, text, Scan(text, p), r.value.next, acc[KeyAt(text, Scan(text, p)).value := r.value.value]))
  {
    hide *;
    var first := Scan(text, p);
    ScanIsScanned(text, p);
    MembersUnrolled(lib, text, first, acc);
    var colon := Scan(text, first.cursor);
    LeftAfter(text, first);
    LeftAfter(text, colon);
    ValueBehind(lib, text, first);
    LeftOfValue(lib, text, Scan(text, colon.cursor));
    var r := ValueAfter(lib, text, first).value;
    if r.next.token == ValueSeparator {
      var acc' := acc[KeyAt(text, first).value := r.value];
      SeparatedMember(lib, text, r.next, acc');
      NextIs(lib, text, first, r.next, acc');
    }
  }

  /** The loop goes on behind a separator, with less text left. */
  predicate NextMembers(lib: Libc, text: string, first: Scanned, comma: Scanned, acc: map<string, Value>) {
    var next := Scan(text, comma.cursor);
    Left(text, next) < Left(text, first) && next.token == ValueString && ParseMembers(lib, text, next, acc).Ok?
  }

  lemma NextIs(lib: Libc, text: string, first: Scanned, comma: Scanned, acc: map<string, Value>)
    ensures NextMembers(lib, text, first, comma, acc) <==>
      Left(text, Scan(text, comma.cursor)) < Left(text, first) && Scan(text, comma.cursor).token == ValueString
      && ParseMembers(lib, text, Scan(text, comma.cursor), acc).Ok?
  {
    hide Scan, ParseMembers, Left;
  }

  lemma ValueBehind(lib: Libc, text: string, first: Scanned)
    ensures ValueAfter(lib, text, first) == ParseValue(lib, text, Scan(text, Scan(text, first.cursor).cursor))
  {
    hide ParseValue, Scan;
  }

  lemma ScanAdvances(text: string, p: nat)
    ensures Scan(text, p).cursor > p
  {
  }

  lemma SeparatedMember(lib: Libc, text: string, at: Scanned, acc: map<string, Value>)
    requires IsScanned(text, at) && at.token == ValueSeparator && ParseMembers(lib, text, at, acc).Ok?
    ensures var after := Scan(text, at.cursor);
      && after.token == ValueString && ParseMembers(lib, text, after, acc).Ok?
      && Left(text, after) <= Left(text, at)
  {
    ScanIsScanned(text, at.cursor);
    ScanAdvances(text, at.cursor);
    hide Scan, ParseValue, StringValue;
  }

  lemma NameOf(text: string, p: nat) returns (name: Name)
    requires p <= |text| && Scan(text, p).token == ValueString
    requires Scan(text, Scan(text, p).cursor).token == NameSeparator
    ensures WellFormedName(name) && name.gap == "" && Follows(text, p, TextOfName(name))
    ensures Scan(text, Scan(text, p).cursor).cursor == p + |TextOfName(name)|
  {
    hide *;
    var before := GapBefore(text, p);
    GapInside(text, p, before);
    var q := p + |before|;
    var key := QuoteOf(text, q);
    GapInside(text, q, Quote(key));
    var r := q + |Quote(key)|;
    var after := GapBefore(text, r);
    GapInside(text, r, after);
    var s := r + |after|;
    TokenText(text, s);
    name := Name(before, key, after, "");
    NameIs(name);
    NameText(name);
    assert ":" + "" == ":";
    FollowsConcat(text, r, after, ":");
    FollowsConcat(text, q, Quote(key), after + ":");
    FollowsConcat(text, p, before, Quote(key) + (after + ":"));
  }

  lemma NameIs(name: Name)
    requires Blanks(name.before) && AllWellFormed(name.key) && Blanks(name.after) && name.gap == ""
    ensures WellFormedName(name)
  {
    hide AllWellFormed;
  }

  lemma {:induction false} MembersOf(lib: Libc, text: string, p: nat, acc: map<string, Value>) returns (members: Members)
    requires p <= |text| && Scan(text, p).token != ValueSeparator && ParseMembers(lib, text, Scan(text, p), acc).Ok?
    ensures WellFormedMembers(members) && Follows(text, p, TextOfMembers(members))
    decreases Left(text, Scan(text, p)), 1
  {
    hide *;
    RoundOfMembers(lib, text, p, acc);
    ValueBehind(lib, text, Scan(text, p));
    var bare := NameOf(text, p);
    var q := p + |TextOfName(bare)|;
    GapInside(text, p, TextOfName(bare));
    var gap, value := TreeOf(lib, text, q);
    TreeEnds(lib, text, q, gap, value);
    var r := q + |gap| + |TextOf(value)|;
    var after := GapBefore(text, r);
    GapInside(text, r, after);
    var s := r + |after|;
    TokenText(text, s);
    var name := bare.(gap := gap);
    if Scan(text, r).token == ValueSeparator {
      InsideText(text, s, ",");
      var acc' := acc[KeyAt(text, Scan(text, p)).value := Denoted(lib, value).value];
      NextIs(lib, text, Scan(text, p), Scan(text, r), acc');
      var rest := MembersOf(lib, text, s + 1, acc');
      members := NextMember(name, value, after, rest);
      FollowsConcat(text, s, ",", TextOfMembers(rest));
      MemberStands(text, p, bare, gap, members, "," + TextOfMembers(rest));
    } else {
      members := LastMember(name, value, after);
      MemberStands(text, p, bare, gap, members, "}");
    }
  }

  lemma MemberStands(text: string, p: nat, bare: Name, gap: string, members: Members, more: string)
    requires WellFormedName(bare) && bare.gap == "" && members.name == bare.(gap := gap) && Blanks(gap)
    requires WellFormed(members.value) && Blanks(members.after)
    requires members.NextMember? ==> WellFormedMembers(members.rest)
    requires more == if members.NextMember? then "," + TextOfMembers(members.rest) else "}"
    requires var q := p + |TextOfName(bare)|;
      var r := q + |gap| + |TextOf(members.value)|;
      Follows(text, p, TextOfName(bare)) && Follows(text, q, gap + TextOf(members.value)) && Follows(text, r, members.after)
      && Follows(text, r + |members.after|, more)
    ensures WellFormedMembers(members) && Follows(text, p, TextOfMembers(members))
  {
    hide *;
    MembersAre(bare, gap, members);
    MembersText(members);
    WiderName(bare, gap);
    var name, value := TextOfName(members.name), TextOf(members.value);
    var q := p + |TextOfName(bare)|;
    FollowsConcat(text, q, gap, value);
    FollowsConcat(text, p, TextOfName(bare), gap);
    var r := q + |gap| + |value|;
    FollowsConcat(text, r, members.after, more);
    FollowsConcat(text, q + |gap|, value, members.after + more);
    FollowsConcat(text, p, name, value + (members.after + more));
  }

  lemma MembersAre(bare: Name, gap: string, members: Members)
    requires WellFormedName(bare) && members.name == bare.(gap := gap) && Blanks(gap)
    requires WellFormed(members.value) && Blanks(members.after)
    requires members.NextMember? ==> WellFormedMembers(members.rest)
    ensures WellFormedMembers(members)
  {
    hide Blanks, WellFormed, AllWellFormed;
  }

  lemma WiderName(bare: Name, gap: string)
    requires bare.gap == ""
    ensures TextOfName(bare.(gap := gap)) == TextOfName(bare) + gap
  {
    hide Quote;
    var q := Quote(bare.key);
    assert ":" + "" == ":";
    assert bare.before + (q + (bare.after + (":" + gap))) == bare.before + (q + (bare.after + ":")) + gap;
  }

  // ---------- whole texts ----------

  /** The text up to its end or first null character is one tree with gaps around it. */
  predicate IsDocument(text: string, before: string, t: Tree, after: string, tail: string) {
    && text == before + (TextOf(t) + (after + tail))
    && Blanks(before) && WellFormed(t) && Blanks(after) && (tail != "" ==> tail[0] == '\0')
  }

  lemma DocumentParsed(lib: Libc, text: string, before: string, t: Tree, after: string, tail: string)
    requires IsDocument(text, before, t, after, tail)
    ensures Parse(lib, text) == Denoted(lib, t)
  {
    hide *;
    DocumentParts(text, before, t, after, tail);
    var q := |before|;
    var r := q + |TextOf(t)|;
    FollowsParts(text, 0, before, TextOf(t) + (after + tail));
    FollowsParts(text, q, TextOf(t), after + tail);
    FollowsParts(text, r, after, tail);
    ScanGap(text, 0, before);
    ScanGap(text, r, after);
    TailEnds(text, r, after, tail);
    TreeParsed(lib, text, q, t);
    WholeResult(lib, text, Denoted(lib, t), r);
  }

  lemma DocumentParts(text: string, before: string, t: Tree, after: string, tail: string)
    requires IsDocument(text, before, t, after, tail)
    ensures Blanks(before) && WellFormed(t) && Blanks(after) && (tail != "" ==> tail[0] == '\0')
    ensures text == before + (TextOf(t) + (after + tail)) && Follows(text, 0, before + (TextOf(t) + (after + tail)))
  {
    hide Blanks, WellFormed, TextOf;
  }

  lemma TailEnds(text: string, r: nat, after: string, tail: string)
    requires Follows(text, r, after + tail) && Blanks(after) && |text| == r + |after + tail| && (tail != "" ==> tail[0] == '\0')
    ensures Ends(text, r) && Scan(text, r + |after|).token == EndOfInput
  {
    assert after != "" ==> CharAt(text, r) == after[0] by {
      if after != "" { FollowsAt(text, r, after + tail, 0); }
    }
    assert BOM <= after ==> after[0] == BOM[0];
    if tail != "" {
      FollowsAt(text, r, after + tail, |after|);
    }
    var p := r + |after|;
    assert CharAt(text, p) == '\0';
    ScanHere(text, p);
    SingleText(text, p);
    hide Scan, Blanks;
    if Follows(text, p, "true") { FollowsAt(text, p, "true", 0); }
    if Follows(text, p, "false") { FollowsAt(text, p, "false", 0); }
    if Follows(text, p, "null") { FollowsAt(text, p, "null", 0); }
  }

  lemma WholeResult(lib: Libc, text: string, r: Result<Value>, q: nat)
    requires ParseValue(lib, text, Scan(text, 0)) == ParsedAt(text, r, q) && Scan(text, q).token == EndOfInput
    ensures Parse(lib, text) == r
  {
    hide Scan, ParseValue;
  }

  lemma ParsedIsDocument(lib: Libc, text: string) returns (before: string, t: Tree, after: string, tail: string)
    requires Parse(lib, text).Ok?
    ensures IsDocument(text, before, t, after, tail)
  {
    hide *;
    WholeTokens(lib, text);
    before, t := TreeOf(lib, text, 0);
    TreeEnds(lib, text, 0, before, t);
    var r := |before| + |TextOf(t)|;
    after := GapBefore(text, r);
    GapInside(text, r, after);
    tail := text[r + |after|..];
    EndToken(text, r + |after|);
    FollowsText(text, 0, before + TextOf(t));
    FollowsText(text, r, after);
    Pieced(text, before, TextOf(t), after);
    DocumentIs(text, before, t, after, tail);
  }

  lemma Pieced(text: string, a: string, b: string, c: string)
    requires |a| + |b| + |c| <= |text|
    requires text[0..0 + |a + b|] == a + b && text[|a| + |b|..|a| + |b| + |c|] == c
    ensures text == a + (b + (c + text[|a| + |b| + |c|..]))
  {
    var r := |a| + |b|;
    assert text == text[0..r] + text[r..r + |c|] + text[r + |c|..];
  }

  lemma WholeTokens(lib: Libc, text: string)
    requires Parse(lib, text).Ok?
    ensures ParseValue(lib, text, Scan(text, 0)).Ok? && ParseValue(lib, text, Scan(text, 0)).value.next.token == EndOfInput
  {
    hide Scan, ParseValue;
  }

  lemma EndToken(text: string, p: nat)
    requires p <= |text| && TokenAt(text, p).token == EndOfInput
    ensures text[p..] != "" ==> text[p..][0] == '\0'
  {
    hide StringEnd, NumberEnd;
    SingleText(text, p);
  }

  lemma DocumentIs(text: string, before: string, t: Tree, after: string, tail: string)
    requires text == before + (TextOf(t) + (after + tail))
    requires Blanks(before) && WellFormed(t) && Blanks(after) && (tail != "" ==> tail[0] == '\0')
    ensures IsDocument(text, before, t, after, tail)
  {
    hide Blanks, WellFormed, TextOf;
  }

  /**
   `parse` accepts exactly the JSON texts: one value with blanks around it, up to the end of the
   text or its first null character, every surrogate in its strings being one of a pair; and it
   gives the value that the text denotes.
   */
  lemma ParsesExactly(lib: Libc, text: string)
    ensures Parse(lib, text).Ok? <==>
      exists before, t, after, tail :: IsDocument(text, before, t, after, tail) && Denoted(lib, t).Ok?
    ensures forall before, t, after, tail :: IsDocument(text, before, t, after, tail) ==> Parse(lib, text) == Denoted(lib, t)
  {
    hide Parse, Denoted, Blanks, WellFormed, TextOf;
    forall before, t, after, tail | IsDocument(text, before, t, after, tail)
      ensures Parse(lib, text) == Denoted(lib, t)
    {
      DocumentParsed(lib, text, before, t, after, tail);
    }
    if Parse(lib, text).Ok? {
      var before, t, after, tail := ParsedIsDocument(lib, text);
      assert IsDocument(text, before, t, after, tail) && Denoted(lib, t).Ok?;
    }
  }
}
