/** What the scanner accepts as a string literal, and what it stands for (section 7 of RFC 8259). */
module StringLiterals {
  import opened Results
  import opened Escaping
  import opened Lexer

  // ---------- string literals by their grammar ----------

  /** A character of a literal, or an escape. */
  datatype Piece = Plain(c: char) | Short(letter: char) | Unicode(digits: string)
  {
    predicate WellFormed() {
      match this
      case Plain(c) => ' ' <= c && c != '"' && c != '\\'
      case Short(letter) => letter in SHORT_ESCAPES
      case Unicode(digits) => |digits| == 4 && forall d | d in digits :: d in HEX_DIGITS
    }

    function Spelling(): string {
      match this
      case Plain(c) => [c]
      case Short(letter) => ['\\', letter]
      case Unicode(digits) => "\\u" + digits
    }

    /** The number that the four digits denote. */
    function Code(): (n: nat)
      requires Unicode? && WellFormed()
      ensures n <= 0xFFFF
    {
      assert forall d | d in digits :: HEX_DIGITS[d] < 0x10;
      HEX_DIGITS[digits[0]] * 0x1000 + HEX_DIGITS[digits[1]] * 0x100 + HEX_DIGITS[digits[2]] * 0x10 + HEX_DIGITS[digits[3]]
    }

    predicate IsHigh() {
      Unicode? && WellFormed() && 0xD800 <= Code() < 0xDC00
    }

    predicate IsLow() {
      Unicode? && WellFormed() && 0xDC00 <= Code() < 0xE000
    }
  }

  const SHORT_ESCAPES: map<char, char> :=
    map['"' := '"', '\\' := '\\', '/' := '/', 'b' := '\U{0008}', 'f' := '\U{000C}', 'n' := '\n', 'r' := '\r', 't' := '\t']

  const HEX_DIGITS: map<char, nat> :=
    map['0' := 0, '1' := 1, '2' := 2, '3' := 3, '4' := 4, '5' := 5, '6' := 6, '7' := 7, '8' := 8, '9' := 9,
        'a' := 10, 'b' := 11, 'c' := 12, 'd' := 13, 'e' := 14, 'f' := 15,
        'A' := 10, 'B' := 11, 'C' := 12, 'D' := 13, 'E' := 14, 'F' := 15]

  predicate AllWellFormed(pieces: seq<Piece>) {
    forall p | p in pieces :: p.WellFormed()
  }

  function Spelled(pieces: seq<Piece>): string {
    if pieces == [] then "" else pieces[0].Spelling() + Spelled(pieces[1..])
  }

  /** The shortest UTF-8 sequence of a code point. */
  function Utf8(c: nat): (s: string)
    requires c <= 0x10_FFFF
    ensures Utf8Value(s) == Some(c) && |s| == Utf8Length(c)
  {
    EncodedCodePoint(c);
    EncodeCodePoint(c).value
  }

  /** The text that the pieces stand for; a high surrogate must come before a low one. */
  function Meaning(pieces: seq<Piece>): Result<string>
    requires AllWellFormed(pieces)
  {
    if pieces == [] then Ok("")
    else
      assert pieces[0].WellFormed();
      match pieces[0]
      case Plain(c) => Then([c], Meaning(pieces[1..]))
      case Short(letter) => Then([SHORT_ESCAPES[letter]], Meaning(pieces[1..]))
      case Unicode(_) =>
        if !pieces[0].IsHigh() then Then(Utf8(pieces[0].Code()), Meaning(pieces[1..]))
        else if |pieces| > 1 && pieces[1].IsLow() then
          Then(Utf8(0x1_0000 + (pieces[0].Code() - 0xD800) * 0x400 + (pieces[1].Code() - 0xDC00)), Meaning(pieces[2..]))
        else Err(InvalidArgument)
  }

  // ---------- hexadecimal digits ----------

  lemma HexDigitIs(c: char)
    ensures IsHex(c) <==> c in HEX_DIGITS
    ensures IsHex(c) ==> HexValue(c) == HEX_DIGITS[c]
  {
  }

  /** Four digits of either case denote the number they spell in base 16. */
  lemma HexDenotes(text: string, i: nat)
    requires FourHex(text, i)
    ensures Hex(text, i, 4) ==
      0x1000 * HexValue(CharAt(text, i)) + 0x100 * HexValue(CharAt(text, i + 1))
      + 0x10 * HexValue(CharAt(text, i + 2)) + HexValue(CharAt(text, i + 3))
  {
    hide HexValue, IsHex, CharAt;
    assert Hex(text, i, 0) == 0;
    assert Hex(text, i, 1) == HexValue(CharAt(text, i));
    assert Hex(text, i, 2) == 0x10 * HexValue(CharAt(text, i)) + HexValue(CharAt(text, i + 1));
    assert Hex(text, i, 3) ==
      0x100 * HexValue(CharAt(text, i)) + 0x10 * HexValue(CharAt(text, i + 1)) + HexValue(CharAt(text, i + 2));
  }

  lemma ShortLetter(c: char)
    ensures c in SHORT_ESCAPES <==> c == '"' || c == '\\' || c == '/' || c == 'b' || c == 'f' || c == 'n' || c == 'r' || c == 't'
    ensures c in SHORT_ESCAPES ==> Unescaped(c) == [SHORT_ESCAPES[c]] && c != 'u'
  {
  }

  // ---------- one piece ----------

  lemma FollowsConcat(text: string, i: nat, a: string, b: string)
    ensures Follows(text, i, a + b) <==> Follows(text, i, a) && Follows(text, i + |a|, b)
  {
    if Follows(text, i, a + b) {
      assert text[i..i + |a|] == (a + b)[..|a|];
      assert text[i + |a|..i + |a| + |b|] == (a + b)[|a|..];
    }
    if Follows(text, i, a) && Follows(text, i + |a|, b) {
      assert text[i..i + |a + b|] == a + b;
    }
  }

  lemma FollowsExactly(text: string, i: nat, w: string)
    ensures Follows(text, i, w) <==> i + |w| <= |text| && forall k | 0 <= k < |w| :: CharAt(text, i + k) == w[k]
  {
    if i + |w| <= |text| && forall k | 0 <= k < |w| :: CharAt(text, i + k) == w[k] {
      assert text[i..i + |w|] == w;
    }
  }

  /** The digits of an escape that stands in the text. */
  lemma UnicodeStands(text: string, i: nat, p: Piece)
    requires p.Unicode? && p.WellFormed() && Follows(text, i, p.Spelling())
    ensures i + 6 <= |text| && CharAt(text, i) == '\\' && CharAt(text, i + 1) == 'u' && FourHex(text, i + 2)
    ensures Hex(text, i + 2, 4) == p.Code() && |p.Spelling()| == 6
  {
    hide Hex, HexValue, IsHex;
    var d, s := p.digits, p.Spelling();
    FollowsExactly(text, i, s);
    assert s[0] == '\\' && s[1] == 'u' && s[2] == d[0] && s[3] == d[1] && s[4] == d[2] && s[5] == d[3];
    forall k | 0 <= k < 4 ensures CharAt(text, i + 2 + k) == d[k] && IsHex(d[k]) && HexValue(d[k]) == HEX_DIGITS[d[k]] {
      assert CharAt(text, i + (2 + k)) == s[2 + k];
      assert d[k] in d;
      HexDigitIs(d[k]);
    }
    assert CharAt(text, i + 2) == d[0] && CharAt(text, i + 2 + 1) == d[1];
    assert CharAt(text, i + 2 + 2) == d[2] && CharAt(text, i + 2 + 3) == d[3];
    HexDenotes(text, i + 2);
  }

  lemma OneEnds(text: string, i: nat, p: Piece)
    requires p.WellFormed() && Follows(text, i, p.Spelling())
    ensures StringEnd(text, i) == StringEnd(text, i + |p.Spelling()|)
  {
    FollowsExactly(text, i, p.Spelling());
    match p
    case Plain(c) =>
      assert p.Spelling()[0] == c;
    case Short(letter) =>
      assert p.Spelling()[0] == '\\' && p.Spelling()[1] == letter;
      ShortLetter(letter);
    case Unicode(_) =>
      UnicodeStands(text, i, p);
      hide Hex, FourHex;
  }

  /** What a plain character or a short escape contributes. */
  lemma OneValue(text: string, i: nat, p: Piece, end: nat)
    requires p.WellFormed() && !p.Unicode? && Follows(text, i, p.Spelling()) && i < end
    ensures StringValue(text, i, end) ==
      Then([if p.Plain? then p.c else SHORT_ESCAPES[p.letter]], StringValue(text, i + |p.Spelling()|, end))
  {
    FollowsExactly(text, i, p.Spelling());
    match p
    case Plain(c) =>
      assert p.Spelling()[0] == c;
    case Short(letter) =>
      assert p.Spelling()[0] == '\\' && p.Spelling()[1] == letter;
      ShortLetter(letter);
      hide Unescaped;
  }

  lemma UnicodeStep(text: string, i: nat, end: nat, code: nat)
    requires i < end && CharAt(text, i) == '\\' && CharAt(text, i + 1) == 'u' && Hex(text, i + 2, 4) == code
    requires !(0xD800 <= code <= 0xDBFF) && ToUnicode(code, 0).Ok?
    ensures StringValue(text, i, end) == Then(ToUnicode(code, 0).value, StringValue(text, i + 6, end))
  {
    hide ToUnicode, Hex, CharAt, Then;
  }

  lemma PairStep(text: string, i: nat, end: nat, high: nat, low: nat)
    requires i < end && CharAt(text, i) == '\\' && CharAt(text, i + 1) == 'u' && Hex(text, i + 2, 4) == high
    requires CharAt(text, i + 6) == '\\' && CharAt(text, i + 7) == 'u' && Hex(text, i + 8, 4) == low
    requires 0xD800 <= high <= 0xDBFF
    ensures StringValue(text, i, end) ==
      if ToUnicode(high, low).Ok? then Then(ToUnicode(high, low).value, StringValue(text, i + 12, end))
      else Err(ToUnicode(high, low).error)
  {
    hide ToUnicode, Hex, CharAt, Then;
  }

  lemma Encoded(c: nat)
    requires c <= 0x10_FFFF
    ensures EncodeCodePoint(c) == Ok(Utf8(c))
  {
  }

  lemma UnicodeIsUtf8(code: nat)
    requires code <= 0xFFFF && !(0xD800 <= code <= 0xDBFF)
    ensures ToUnicode(code, 0) == Ok(Utf8(code))
  {
    hide EncodeCodePoint;
    Encoded(code);
  }

  lemma PairIsUtf8(high: nat, low: nat)
    requires 0xD800 <= high <= 0xDBFF
    ensures ToUnicode(high, low) ==
      if 0xDC00 <= low <= 0xDFFF then Ok(Utf8(0x1_0000 + (high - 0xD800) * 0x400 + (low - 0xDC00))) else Err(InvalidArgument)
  {
    hide EncodeCodePoint;
    if 0xDC00 <= low <= 0xDFFF {
      Encoded(0x1_0000 + (high - 0xD800) * 0x400 + (low - 0xDC00));
    }
  }

  /** A unicode escape that is no high surrogate contributes the UTF-8 sequence of its code point. */
  lemma UnicodeValue(text: string, i: nat, p: Piece, end: nat)
    requires p.Unicode? && p.WellFormed() && !p.IsHigh() && Follows(text, i, p.Spelling()) && i < end
    ensures p.Code() <= 0x10_FFFF
    ensures StringValue(text, i, end) == Then(Utf8(p.Code()), StringValue(text, i + 6, end))
  {
    hide EncodeCodePoint, Hex, FourHex, StringValue, HEX_DIGITS, ToUnicode, Then, Utf8;
    UnicodeStands(text, i, p);
    UnicodeIsUtf8(p.Code());
    UnicodeStep(text, i, end, p.Code());
  }

  /** A high and a low surrogate together contribute the UTF-8 sequence of their code point. */
  lemma PairValue(text: string, i: nat, p: Piece, q: Piece, end: nat)
    requires p.IsHigh() && q.IsLow() && Follows(text, i, p.Spelling()) && Follows(text, i + 6, q.Spelling()) && i < end
    ensures StringValue(text, i, end) ==
      Then(Utf8(0x1_0000 + (p.Code() - 0xD800) * 0x400 + (q.Code() - 0xDC00)), StringValue(text, i + 12, end))
  {
    hide EncodeCodePoint, Hex, FourHex, StringValue, HEX_DIGITS, ToUnicode, Then, Utf8;
    UnicodeStands(text, i, p);
    UnicodeStands(text, i + 6, q);
    assert Hex(text, i + 8, 4) == q.Code() && CharAt(text, i + 7) == 'u';
    PairIsUtf8(p.Code(), q.Code());
    PairStep(text, i, end, p.Code(), q.Code());
  }

  lemma LoneStep(text: string, i: nat, end: nat, high: nat)
    requires i < end && CharAt(text, i) == '\\' && CharAt(text, i + 1) == 'u' && Hex(text, i + 2, 4) == high
    requires 0xD800 <= high <= 0xDBFF && !(CharAt(text, i + 6) == '\\' && CharAt(text, i + 7) == 'u')
    ensures StringValue(text, i, end) == Err(InvalidArgument)
  {
    hide ToUnicode, Hex, CharAt, Then;
  }

  /** A high surrogate before anything else is refused. */
  lemma LoneValue(text: string, i: nat, p: Piece, rest: seq<Piece>, end: nat)
    requires p.IsHigh() && Follows(text, i, p.Spelling()) && i < end
    requires AllWellFormed(rest) && Follows(text, i + 6, Spelled(rest) + "\"")
    requires rest != [] ==> !rest[0].IsLow()
    ensures StringValue(text, i, end) == Err(InvalidArgument)
  {
    hide EncodeCodePoint, Hex, FourHex, StringValue, HEX_DIGITS, ToUnicode, Then, Spelled;
    UnicodeStands(text, i, p);
    NextPiece(text, i + 6, rest);
    if rest != [] && rest[0].Unicode? {
      var q := rest[0];
      assert q.WellFormed();
      UnicodeStands(text, i + 6, q);
      assert Hex(text, i + 8, 4) == q.Code() && CharAt(text, i + 7) == 'u';
      PairIsUtf8(p.Code(), q.Code());
      PairStep(text, i, end, p.Code(), q.Code());
    } else {
      LoneStep(text, i, end, p.Code());
    }
  }

  /** The two characters that come next tell a unicode escape from all else. */
  lemma NextPiece(text: string, i: nat, rest: seq<Piece>)
    requires AllWellFormed(rest) && Follows(text, i, Spelled(rest) + "\"")
    ensures rest != [] ==> Follows(text, i, rest[0].Spelling())
    ensures CharAt(text, i) == '\\' && CharAt(text, i + 1) == 'u' <==> rest != [] && rest[0].Unicode?
  {
    if rest == [] {
      FollowsExactly(text, i, "\"");
      assert Spelled(rest) + "\"" == "\"";
    } else {
      var s := rest[0].Spelling();
      assert rest[0].WellFormed();
      assert Spelled(rest) + "\"" == s + (Spelled(rest[1..]) + "\"");
      FollowsConcat(text, i, s, Spelled(rest[1..]) + "\"");
      FollowsExactly(text, i, s);
      match rest[0]
      case Plain(c) =>
        assert s[0] == c;
      case Short(letter) =>
        assert s[0] == '\\' && s[1] == letter;
        ShortLetter(letter);
      case Unicode(_) =>
        assert s[0] == '\\' && s[1] == 'u';
    }
  }

  // ---------- whole literals ----------

  lemma QuoteEnds(text: string, i: nat)
    requires Follows(text, i, "\"")
    ensures StringEnd(text, i) == Some(i + 1)
  {
    FollowsExactly(text, i, "\"");
  }

  lemma {:induction false} LiteralEnds(text: string, i: nat, pieces: seq<Piece>)
    requires AllWellFormed(pieces) && Follows(text, i, Spelled(pieces) + "\"")
    ensures StringEnd(text, i) == Some(i + |Spelled(pieces)| + 1)
    decreases |pieces|
  {
    hide *;
    NoMeaning();
    if pieces == [] {
      assert "" + "\"" == "\"";
      QuoteEnds(text, i);
    } else {
      var s, rest := pieces[0].Spelling(), pieces[1..];
      MeaningStep(pieces);
      assert Spelled(pieces) + "\"" == s + (Spelled(rest) + "\"");
      FollowsConcat(text, i, s, Spelled(rest) + "\"");
      OneEnds(text, i, pieces[0]);
      LiteralEnds(text, i + |s|, rest);
    }
  }

  lemma MeaningStep(pieces: seq<Piece>)
    requires AllWellFormed(pieces) && pieces != []
    ensures var p, rest := pieces[0], pieces[1..];
      && AllWellFormed(rest) && p.WellFormed() && Spelled(pieces) == p.Spelling() + Spelled(rest) && |p.Spelling()| > 0
      && (!p.Unicode? ==>
          Meaning(pieces) == Then([if p.Plain? then p.c else SHORT_ESCAPES[p.letter]], Meaning(rest)))
      && (p.Unicode? ==> |p.Spelling()| == 6)
      && (p.Unicode? && !p.IsHigh() ==> Meaning(pieces) == Then(Utf8(p.Code()), Meaning(rest)))
      && (p.IsHigh() && (rest == [] || !rest[0].IsLow()) ==> Meaning(pieces) == Err(InvalidArgument))
  {
    hide Utf8, HEX_DIGITS, SHORT_ESCAPES;
  }

  lemma MeaningPair(pieces: seq<Piece>)
    requires AllWellFormed(pieces) && |pieces| > 1 && pieces[0].IsHigh() && pieces[1].IsLow()
    ensures AllWellFormed(pieces[2..])
    ensures Meaning(pieces) ==
      Then(Utf8(0x1_0000 + (pieces[0].Code() - 0xD800) * 0x400 + (pieces[1].Code() - 0xDC00)), Meaning(pieces[2..]))
    ensures Spelled(pieces) == pieces[0].Spelling() + Spelled(pieces[1..])
    ensures Spelled(pieces[1..]) == pieces[1].Spelling() + Spelled(pieces[2..])
    ensures |pieces[0].Spelling()| == |pieces[1].Spelling()| == 6
  {
    assert pieces[1..][0] == pieces[1] && pieces[1..][1..] == pieces[2..];
    hide Utf8, HEX_DIGITS;
  }

  lemma NoMeaning()
    ensures AllWellFormed([]) && Meaning([]) == Ok("") && Spelled([]) == ""
  {
  }

  lemma NoValue(text: string, end: nat)
    ensures StringValue(text, end, end) == Ok("")
  {
  }

  /** `get_string` gives the text that the pieces of a literal stand for. */
  lemma {:induction false} LiteralValue(text: string, i: nat, pieces: seq<Piece>)
    requires AllWellFormed(pieces) && Follows(text, i, Spelled(pieces) + "\"")
    ensures StringValue(text, i, i + |Spelled(pieces)|) == Meaning(pieces)
    decreases |pieces|
  {
    hide *;
    NoMeaning();
    var end := i + |Spelled(pieces)|;
    if pieces == [] {
      NoValue(text, i);
    } else {
      var p, rest := pieces[0], pieces[1..];
      var s := p.Spelling();
      MeaningStep(pieces);
      assert Spelled(pieces) + "\"" == s + (Spelled(rest) + "\"");
      FollowsConcat(text, i, s, Spelled(rest) + "\"");
      if !p.Unicode? {
        OneValue(text, i, p, end);
        LiteralValue(text, i + |s|, rest);
      } else if !p.IsHigh() {
        UnicodeValue(text, i, p, end);
        LiteralValue(text, i + |s|, rest);
      } else if rest != [] && rest[0].IsLow() {
        MeaningPair(pieces);
        var after := pieces[2..];
        assert Spelled(rest) + "\"" == rest[0].Spelling() + (Spelled(after) + "\"");
        FollowsConcat(text, i + 6, rest[0].Spelling(), Spelled(after) + "\"");
        PairValue(text, i, p, rest[0], end);
        LiteralValue(text, i + 12, after);
      } else {
        LoneValue(text, i, p, rest, end);
      }
    }
  }

  /** The piece that starts at `i` in a text the scanner accepts from there on. */
  function PieceAt(text: string, i: nat): Piece
    requires i < |text|
  {
    if text[i] != '\\' then Plain(text[i])
    else if CharAt(text, i + 1) != 'u' then Short(CharAt(text, i + 1))
    else Unicode([CharAt(text, i + 2), CharAt(text, i + 3), CharAt(text, i + 4), CharAt(text, i + 5)])
  }

  lemma PieceStands(text: string, i: nat)
    requires StringEnd(text, i).Some? && text[i] != '"'
    ensures var p := PieceAt(text, i);
      && p.WellFormed() && Follows(text, i, p.Spelling()) && 0 < |p.Spelling()|
      && StringEnd(text, i) == StringEnd(text, i + |p.Spelling()|)
  {
    var p := PieceAt(text, i);
    FollowsExactly(text, i, p.Spelling());
    if p.Unicode? {
      forall k | 0 <= k < 4 ensures p.digits[k] in HEX_DIGITS {
        assert CharAt(text, i + 2 + k) == p.digits[k];
        HexDigitIs(p.digits[k]);
      }
      hide HEX_DIGITS, HexValue, IsHex;
      assert p.Spelling() == ['\\', 'u'] + p.digits;
    } else if p.Short? {
      ShortLetter(p.letter);
    }
  }

  lemma OneMore(p: Piece, rest: seq<Piece>)
    requires p.WellFormed() && AllWellFormed(rest)
    ensures AllWellFormed([p] + rest) && Spelled([p] + rest) == p.Spelling() + Spelled(rest)
  {
    assert ([p] + rest)[1..] == rest;
  }

  lemma QuoteStands(text: string, i: nat)
    requires i < |text| && text[i] == '"'
    ensures Follows(text, i, "\"") && StringEnd(text, i) == Some(i + 1)
  {
    FollowsExactly(text, i, "\"");
  }

  /** Whatever the scanner accepts is spelled by some pieces and a quote. */
  lemma {:induction false} AcceptedIsSpelled(text: string, i: nat) returns (pieces: seq<Piece>)
    requires StringEnd(text, i).Some?
    ensures AllWellFormed(pieces) && Follows(text, i, Spelled(pieces) + "\"")
    ensures StringEnd(text, i) == Some(i + |Spelled(pieces)| + 1)
    decreases |text| - i
  {
    hide *;
    if text[i] == '"' {
      pieces := [];
      NoMeaning();
      assert "" + "\"" == "\"";
      QuoteStands(text, i);
    } else {
      var p := PieceAt(text, i);
      PieceStands(text, i);
      var rest := AcceptedIsSpelled(text, i + |p.Spelling()|);
      pieces := [p] + rest;
      OneMore(p, rest);
      assert Spelled(pieces) + "\"" == p.Spelling() + (Spelled(rest) + "\"");
      FollowsConcat(text, i, p.Spelling(), Spelled(rest) + "\"");
    }
  }

  /**
   The scanner accepts exactly the well-formed string literals, up to their closing quote, and
   `get_string` gives the text they stand for: `\uXXXX` is the UTF-8 sequence of its number, a
   surrogate pair that of its code point, and a high surrogate alone is the only error.
   */
  lemma LiteralExactly(text: string, i: nat, end: nat)
    ensures StringEnd(text, i) == Some(end) <==>
      exists pieces :: AllWellFormed(pieces) && Follows(text, i, Spelled(pieces) + "\"") && end == i + |Spelled(pieces)| + 1
    ensures forall pieces :: AllWellFormed(pieces) && Follows(text, i, Spelled(pieces) + "\"") ==>
      StringValue(text, i, i + |Spelled(pieces)|) == Meaning(pieces)
  {
    hide *;
    forall pieces | AllWellFormed(pieces) && Follows(text, i, Spelled(pieces) + "\"")
      ensures StringEnd(text, i) == Some(i + |Spelled(pieces)| + 1)
      ensures StringValue(text, i, i + |Spelled(pieces)|) == Meaning(pieces)
    {
      LiteralEnds(text, i, pieces);
      LiteralValue(text, i, pieces);
    }
    if StringEnd(text, i).Some? {
      var pieces := AcceptedIsSpelled(text, i);
    }
  }
}
