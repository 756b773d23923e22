/** `ChatMessage(parse(m.toString()))` against `m`. */
module ChatLaw {
  import opened Results
  import opened Text
  import opened Json
  import opened Escaping
  import opened Lexer
  import opened Parser
  import opened Dump
  import opened ParseDump
  import opened Chat

  // ---------- dumped texts have no null character ----------

  predicate NoNull(s: string) {
    '\0' !in s
  }

  lemma {:induction false} CStrWhole(s: string)
    requires NoNull(s)
    ensures CStr(s) == s
  {
    if s != "" {
      CStrWhole(s[1..]);
    }
  }

  lemma {:induction false} EscapedNoNull(s: string)
    ensures NoNull(Escaped(s))
  {
    EscapedIsClean(s);
  }

  lemma IntegerNoNull(i: int)
    ensures NoNull(IntegerText(i))
  {
    var d := Decimal(if i < 0 then -i else i);
    assert forall c | c in d :: IsDigit(c);
  }

  lemma {:induction false} TextNoNull(lib: Libc, v: Value, style: Style, indent: nat)
    requires NoFloats(v)
    ensures NoNull(ValueText(lib, v, style, indent))
    decreases v, 1, 0
  {
    match v
    case Array(xs) => if xs != [] { ElementsNoNull(lib, v, 0, style, indent); }
    case Object(m) => if m != map[] { MembersNoNull(lib, v, Sorted(m.Keys), 0, style, indent); }
    case String(s) => EscapedNoNull(s);
    case Integer(i) => IntegerNoNull(i);
    case Unsigned(u) => IntegerNoNull(u);
    case _ =>
  }

  lemma {:induction false} ElementsNoNull(lib: Libc, v: Value, i: nat, style: Style, indent: nat)
    requires v.Array? && i <= |v.elems| && NoFloats(v)
    ensures NoNull(ElementsText(lib, v, i, style, indent))
    decreases v, 0, |v.elems| - i
  {
    if i < |v.elems| {
      ElementsUnfold(lib, v, i, style, indent);
      TextNoNull(lib, v.elems[i], style, style.Inner(indent));
      ElementsNoNull(lib, v, i + 1, style, indent);
    }
  }

  lemma {:induction false} MembersNoNull(lib: Libc, v: Value, keys: seq<string>, i: nat, style: Style, indent: nat)
    requires v.Object? && i <= |keys| && NoFloats(v) && forall k | k in keys :: k in v.members
    ensures NoNull(MembersText(lib, v, keys, i, style, indent))
    decreases v, 0, |keys| - i
  {
    if i < |keys| {
      MembersUnfold(lib, v, keys, i, style, indent);
      EscapedNoNull(keys[i]);
      TextNoNull(lib, v.members[keys[i]], style, style.Inner(indent));
      MembersNoNull(lib, v, keys, i + 1, style, indent);
    }
  }

  // ---------- normal values ----------

  lemma {:induction false} NormalTwice(v: Value)
    ensures Normal(Normal(v)) == Normal(v)
  {
    match v
    case Array(xs) =>
      forall i | 0 <= i < |xs| ensures Normal(Normal(xs[i])) == Normal(xs[i]) { NormalTwice(xs[i]); }
    case Object(m) =>
      forall k | k in m ensures Normal(Normal(m[k])) == Normal(m[k]) { NormalTwice(m[k]); }
      assert Normal(Normal(v)).members == Normal(v).members;
    case _ =>
  }

  lemma {:induction false} NormalNoFloats(v: Value)
    requires NoFloats(v)
    ensures NoFloats(Normal(v))
  {
    match v
    case Array(xs) => forall i | 0 <= i < |xs| ensures NoFloats(Normal(xs[i])) { NormalNoFloats(xs[i]); }
    case Object(m) => forall k | k in m ensures NoFloats(Normal(m[k])) { NormalNoFloats(m[k]); }
    case _ =>
  }

  // ---------- which messages survive ----------

  /** A hover value embedded as JSON must be the compact text of the object it denotes. */
  predicate HoverKept(lib: Libc, e: ActionEvent) {
    Embedded(e) ==> Parse(lib, e.value).Ok? && Dumped(lib, Parse(lib, e.value).value, -1) == e.value
  }

  /** No yellow, and every embedded hover value in canonical form, at any depth. */
  predicate Survives(lib: Libc, m: Message) {
    && m.color != Yellow
    && (m.hover.Some? ==> HoverKept(lib, m.hover.value))
    && forall c | c in m.children :: Survives(lib, c)
  }

  /** No embedded hover value holds a floating-point number. */
  predicate FloatFree(lib: Libc, m: Message) {
    && (m.hover.Some? && Embedded(m.hover.value) && Parse(lib, m.hover.value.value).Ok? ==>
          NoFloats(Parse(lib, m.hover.value.value).value))
    && forall c | c in m.children :: FloatFree(lib, c)
  }

  predicate RoundTrip(lib: Libc, m: Message) {
    ToText(lib, m).Ok? && FromText(lib, ToText(lib, m).value) == Ok(m)
  }

  /** The text of a printed message reads back as the object that was dumped. */
  lemma PrintedParses(lib: Libc, v: Value)
    requires NoFloats(v)
    ensures CStr(Dumped(lib, v, -1)) == Dumped(lib, v, -1)
    ensures Parse(lib, Dumped(lib, v, -1)) == Ok(Normal(v))
  {
    hide ValueText, Parse, Normal, NoFloats, Eq;
    TextNoNull(lib, v, Style(false, 0), 0);
    CStrWhole(Dumped(lib, v, -1));
    ParseDumped(lib, v, -1);
  }

  // ---------- the members of the printed object ----------

  /** The members of the object `toString` dumps, one key at a time. */
  ghost predicate Fields(m: Message, out: map<string, Value>, extra: seq<Value>, hover: Value) {
    && Styled(m, out)
    && ("extra" in out <==> extra != []) && ("extra" in out ==> out["extra"] == Array(extra))
    && ("hoverEvent" in out <==> m.hover.Some?) && ("hoverEvent" in out ==> out["hoverEvent"] == hover)
    && ("clickEvent" in out <==> m.click.Some?)
    && ("clickEvent" in out ==> out["clickEvent"] == EventJson(m.click.value.action, String(m.click.value.value)))
  }

  lemma StaysStyled(m: Message, out: map<string, Value>, key: string, v: Value)
    requires Styled(m, out) && KeyNumber(key) >= 7
    ensures Styled(m, out[key := v])
  {
    KeyNumbers();
    hide KeyNumber, ColorName;
  }

  lemma AssembledFields(m: Message, extra: seq<Value>, hover: Value)
    ensures Fields(m, Assembled(m, extra, hover), extra, hover)
  {
    KeyNumbers();
    StyleFields(m);
    hide KeyNumber, ColorName, StyleJson, Styled;
    var out1 := SetIf(StyleJson(m), extra != [], "extra", Array(extra));
    var out2 := SetIf(out1, m.hover.Some?, "hoverEvent", hover);
    StaysStyled(m, StyleJson(m), "extra", Array(extra));
    StaysStyled(m, out1, "hoverEvent", hover);
    if m.click.Some? {
      StaysStyled(m, out2, "clickEvent", EventJson(m.click.value.action, String(m.click.value.value)));
    }
  }

  // ---------- reading the fields back ----------

  function NormalAll(xs: seq<Value>): seq<Value> {
    seq(|xs|, i requires 0 <= i < |xs| => Normal(xs[i]))
  }

  lemma NormalCases(out: map<string, Value>)
    ensures Normal(Object(out)).Object? && Normal(Object(out)).members.Keys == out.Keys
    ensures forall k | k in out :: Normal(Object(out)).members[k] == Normal(out[k])
    ensures forall s :: Normal(String(s)) == String(s)
    ensures Normal(Boolean(true)) == Boolean(true)
    ensures forall xs :: Normal(Array(xs)) == Array(NormalAll(xs))
  {
  }

  lemma StyledNormal(m: Message, out: map<string, Value>)
    requires Styled(m, out)
    ensures Normal(Object(out)).Object? && Styled(m, Normal(Object(out)).members)
  {
    NormalCases(out);
    hide Normal, ColorName, NormalAll;
  }

  lemma FieldsNormal(m: Message, out: map<string, Value>, extra: seq<Value>, hover: Value)
    requires Fields(m, out, extra, hover)
    ensures Normal(Object(out)).Object? && Fields(m, Normal(Object(out)).members, NormalAll(extra), Normal(hover))
  {
    StyledNormal(m, out);
    NormalCases(out);
    assert NormalAll(extra) == [] <==> extra == [];
    if m.click.Some? {
      NormalEvent(m.click.value);
    }
    hide Normal, NormalAll, Styled, EventJson;
  }

  lemma NormalEvent(e: ActionEvent)
    ensures Normal(EventJson(e.action, String(e.value))) == EventJson(e.action, String(e.value))
  {
    var v := EventJson(e.action, String(e.value));
    assert Normal(v).members == v.members;
  }

  /** The length and the last character tell the colour names apart. */
  function Signature(s: string): int {
    if s == "" then 0 else |s| * 0x11_0000 + s[|s| - 1] as int
  }

  lemma Signatures()
    ensures Signature("black") == 5 * 0x11_0000 + 107
    ensures Signature("dark_blue") == 9 * 0x11_0000 + 101
    ensures Signature("dark_green") == 10 * 0x11_0000 + 110
    ensures Signature("dark_aqua") == 9 * 0x11_0000 + 97
    ensures Signature("dark_red") == 8 * 0x11_0000 + 100
    ensures Signature("dark_purple") == 11 * 0x11_0000 + 101
    ensures Signature("gold") == 4 * 0x11_0000 + 100
    ensures Signature("gray") == 4 * 0x11_0000 + 121
    ensures Signature("dark_gray") == 9 * 0x11_0000 + 121
    ensures Signature("blue") == 4 * 0x11_0000 + 101
    ensures Signature("green") == 5 * 0x11_0000 + 110
    ensures Signature("aqua") == 4 * 0x11_0000 + 97
    ensures Signature("red") == 3 * 0x11_0000 + 100
    ensures Signature("light_purple") == 12 * 0x11_0000 + 101
    ensures Signature("yellow") == 6 * 0x11_0000 + 119
  {
  }

  lemma NameNoNull(c: Color)
    requires c != White
    ensures NoNull(ColorName(c).value)
  {
    var s := ColorName(c).value;
    forall i | 0 <= i < |s| ensures s[i] != '\0' {
    }
  }

  lemma NameBack(s: string)
    requires CStr(s) == s
    ensures s == "black" ==> ColorOf(s) == Black
    ensures s == "dark_blue" ==> ColorOf(s) == DarkBlue
    ensures s == "dark_green" ==> ColorOf(s) == DarkGreen
    ensures s == "dark_aqua" ==> ColorOf(s) == DarkCyan
    ensures s == "dark_red" ==> ColorOf(s) == DarkRed
    ensures s == "dark_purple" ==> ColorOf(s) == Purple
    ensures s == "gold" ==> ColorOf(s) == Gold
    ensures s == "gray" ==> ColorOf(s) == Gray
    ensures s == "dark_gray" ==> ColorOf(s) == DarkGray
    ensures s == "blue" ==> ColorOf(s) == Blue
    ensures s == "green" ==> ColorOf(s) == BrightGreen
    ensures s == "aqua" ==> ColorOf(s) == Cyan
    ensures s == "red" ==> ColorOf(s) == Red
    ensures s == "light_purple" ==> ColorOf(s) == Pink
    ensures s == "yellow" ==> ColorOf(s) == White
  {
    Signatures();
    hide Signature, CStr;
  }

  /** The constructor knows every colour name but "yellow". */
  lemma ColorBack(c: Color)
    requires c != White
    ensures ColorOf(ColorName(c).value) == if c == Yellow then White else c
  {
    NameNoNull(c);
    CStrWhole(ColorName(c).value);
    NameBack(ColorName(c).value);
    hide ColorOf, CStr, NoNull;
  }

  lemma EventBack(lib: Libc, action: string, value: Value)
    ensures EventFrom(lib, EventJson(action, value)) ==
      Ok(Some(ActionEvent(action, if value.String? then value.s else Dumped(lib, value, -1))))
  {
    hide Dumped;
    assert "action"[0] != "value"[0];
  }

  lemma ReadStyle(m: Message, n: map<string, Value>)
    requires Styled(m, n)
    ensures TextField(Object(n)) == Ok(m.text)
    ensures Flag(Object(n), "bold") == Ok(m.bold) && Flag(Object(n), "italic") == Ok(m.italic)
    ensures Flag(Object(n), "obfuscated") == Ok(m.random) && Flag(Object(n), "underlined") == Ok(m.underlined)
    ensures Flag(Object(n), "strikethrough") == Ok(m.strikethrough)
    ensures ColorField(Object(n)) == Ok(if m.color == Yellow then White else m.color)
  {
    if m.color != White { ColorBack(m.color); }
    hide ColorOf, ColorName;
  }

  lemma ReadEvents(lib: Libc, m: Message, n: map<string, Value>, extra: seq<Value>, hover: Value)
    requires Fields(m, n, extra, hover)
    ensures EventField(lib, Object(n), "hoverEvent") == if m.hover.Some? then EventFrom(lib, hover) else Ok(None)
    ensures EventField(lib, Object(n), "clickEvent") == Ok(m.click)
  {
    if m.click.Some? { EventBack(lib, m.click.value.action, String(m.click.value.value)); }
    hide EventFrom, EventJson, Styled;
  }

  /** What the constructor makes of an object with the members `toString` writes. */
  lemma ReadFields(lib: Libc, m: Message, n: map<string, Value>, extra: seq<Value>, hover: Value)
    requires Fields(m, n, extra, hover)
    ensures var children := ChildrenFrom(lib, Array(extra), |extra|);
      var event := if m.hover.Some? then EventFrom(lib, hover) else Ok(None);
      if children.Err? || event.Err? then FromJson(lib, Object(n)).Err?
      else FromJson(lib, Object(n)) == Ok(m.(
        color := if m.color == Yellow then White else m.color, children := children.value, hover := event.value))
  {
    ReadStyle(m, n);
    ReadEvents(lib, m, n, extra, hover);
    ReadExtra(lib, m, n, extra, hover);
    hide ChildrenFrom, EventFrom, EventField, ColorField, TextField, Flag, Fields, Has;
  }

  lemma ReadExtra(lib: Libc, m: Message, n: map<string, Value>, extra: seq<Value>, hover: Value)
    requires Fields(m, n, extra, hover)
    ensures if Has(Object(n), "extra") then n["extra"] == Array(extra)
      else ChildrenFrom(lib, Array(extra), |extra|) == Ok([])
  {
    hide Styled, FromJson;
  }

  // ---------- events ----------

  /** A text that starts with a brace can only denote an object. */
  lemma BraceIsObject(lib: Libc, text: string)
    requires text != "" && text[0] == '{' && Parse(lib, text).Ok?
    ensures Parse(lib, text).value.Object?
  {
    hide StringValue, Left, NumberValue;
    ScanHere(text, 0);
    var at := Scan(text, 0);
    assert at.token == BeginObject;
    hide Scan, TokenAt;
    var next := Scan(text, at.cursor);
    if next.token != EndObject && next.token != ValueSeparator {
      MembersGiveObject(lib, text, next, map[]);
    }
  }

  lemma {:induction false} MembersGiveObject(lib: Libc, text: string, at: Scanned, members: map<string, Value>)
    requires IsScanned(text, at) && ParseMembers(lib, text, at, members).Ok?
    ensures ParseMembers(lib, text, at, members).value.value.Object?
    decreases Left(text, at)
  {
    hide StringValue, Scan, ParseValue;
    var first := if at.token == ValueSeparator then Scan(text, at.cursor) else at;
    var key := StringValue(text, first.start + 1, first.cursor - 1);
    var separator := Scan(text, first.cursor);
    var value := ParseValue(lib, text, Scan(text, separator.cursor));
    if value.Ok? && value.value.next.token == ValueSeparator {
      MembersGiveObject(lib, text, value.value.next, members[key.value := value.value.value]);
    }
  }

  /** A hover event comes back exactly when its value is kept. */
  lemma HoverRestored(lib: Libc, e: ActionEvent)
    requires HoverJson(lib, e).Ok?
    requires Embedded(e) ==> NoFloats(Parse(lib, e.value).value)
    ensures EventFrom(lib, Normal(HoverJson(lib, e).value)) == Ok(Some(e)) <==> HoverKept(lib, e)
    ensures NoFloats(HoverJson(lib, e).value)
  {
    if Embedded(e) {
      var v := Parse(lib, e.value).value;
      BraceIsObject(lib, e.value);
      assert Normal(EventJson(e.action, v)) == EventJson(e.action, Normal(v)) by { EventNormal(e.action, v); }
      assert Normal(v).Object?;
      EventBack(lib, e.action, Normal(v));
      NormalNoFloats(v);
      NormalTwice(v);
      EventNoFloats(e.action, v);
      hide Parse, Normal, NoFloats, Dumped, EventJson, EventFrom;
      if Dumped(lib, Normal(v), -1) == e.value {
        ParseDumped(lib, Normal(v), -1);
      }
      if Dumped(lib, v, -1) == e.value {
        ParseDumped(lib, v, -1);
      }
    } else {
      EventNormal(e.action, String(e.value));
      EventBack(lib, e.action, String(e.value));
      EventNoFloats(e.action, String(e.value));
    }
  }

  lemma EventNormal(action: string, v: Value)
    ensures Normal(EventJson(action, v)) == EventJson(action, Normal(v))
  {
    assert "action"[0] != "value"[0];
    NormalCases(EventJson(action, v).members);
    hide Normal, NormalAll;
    assert Normal(EventJson(action, v)).members == EventJson(action, Normal(v)).members;
  }

  lemma EventNoFloats(action: string, v: Value)
    requires NoFloats(v)
    ensures NoFloats(EventJson(action, v))
  {
  }

  // ---------- children ----------

  lemma {:induction false} ChildrenRestored(lib: Libc, extras: Value, children: seq<Message>, n: nat)
    requires extras.Array? && n <= |extras.elems| && n <= |children|
    ensures ChildrenFrom(lib, extras, n) == Ok(children[..n]) <==>
      forall i | 0 <= i < n :: FromJson(lib, extras.elems[i]) == Ok(children[i])
  {
    hide FromJson;
    if n > 0 {
      ChildrenRestored(lib, extras, children, n - 1);
      assert children[..n] == children[..n - 1] + [children[n - 1]];
      var r := ChildrenFrom(lib, extras, n);
      if r == Ok(children[..n]) {
        var before := ChildrenFrom(lib, extras, n - 1).value;
        assert before == r.value[..n - 1] == children[..n - 1];
        assert r.value[n - 1] == children[n - 1];
      }
    }
  }

  /** What is known of a printed child. */
  ghost predicate ChildRestored(lib: Libc, c: Message, j: Value) {
    && NoFloats(j)
    && (FromJson(lib, Normal(j)) == Ok(c) <==> Survives(lib, c))
  }

  lemma {:induction false} ChildrenPrinted(lib: Libc, m: Message, n: nat)
    requires FloatFree(lib, m) && n <= |m.children|
    ensures var r := ChildrenJson(lib, m, n);
      if r.Ok? then forall i | 0 <= i < n :: ChildRestored(lib, m.children[i], r.value[i])
      else exists c :: c in m.children && !Survives(lib, c)
    decreases m, 0, n
  {
    hide *;
    ChildrenJsonStep(lib, m, n);
    if n > 0 {
      var c := m.children[n - 1];
      FloatFreeChild(lib, m, c);
      MessagePrinted(lib, c);
      ChildPrinted(lib, c);
      ChildrenPrinted(lib, m, n - 1);
    }
  }

  lemma FloatFreeChild(lib: Libc, m: Message, c: Message)
    requires FloatFree(lib, m) && c in m.children
    ensures FloatFree(lib, c)
  {
  }

  lemma ChildrenJsonStep(lib: Libc, m: Message, n: nat)
    requires n <= |m.children|
    ensures var r := ChildrenJson(lib, m, n);
      if n == 0 then r == Ok([])
      else
        var before, text := ChildrenJson(lib, m, n - 1), ToText(lib, m.children[n - 1]);
        var read := if text.Ok? then Parse(lib, CStr(text.value)) else Err(DomainError);
        && (r.Ok? <==> before.Ok? && text.Ok? && read.Ok?)
        && (r.Ok? ==> r.value == before.value + [read.value])
  {
    hide ToText, Parse, CStr;
  }

  /** A child that survives printing is read back by the parent's parser. */
  lemma ChildPrinted(lib: Libc, c: Message)
    requires var j := ToJson(lib, c); if j.Ok? then ChildRestored(lib, c, j.value) else !Survives(lib, c)
    ensures var text := ToText(lib, c);
      if text.Ok? then
        var read := Parse(lib, CStr(text.value));
        read.Ok? && ChildRestored(lib, c, read.value)
      else !Survives(lib, c)
  {
    var j := ToJson(lib, c);
    hide Survives, FromJson, NoFloats, Normal, ToJson, Parse, Dumped, CStr;
    if j.Ok? {
      PrintedParses(lib, j.value);
      NormalTwice(j.value);
      NormalNoFloats(j.value);
    }
  }

  /** Printing fails or loses something exactly when the message does not survive. */
  lemma {:induction false} MessagePrinted(lib: Libc, m: Message)
    requires FloatFree(lib, m)
    ensures var j := ToJson(lib, m);
      if j.Ok? then ChildRestored(lib, m, j.value) else !Survives(lib, m)
    decreases m, 1, 0
  {
    ChildrenPrinted(lib, m, |m.children|);
    var extra := ChildrenJson(lib, m, |m.children|);
    if extra.Ok? {
      if m.hover.Some? && HoverJson(lib, m.hover.value).Err? {
        assert !HoverKept(lib, m.hover.value);
      } else {
        var hover := if m.hover.Some? then HoverJson(lib, m.hover.value).value else Null;
        if m.hover.Some? { HoverRestored(lib, m.hover.value); }
        var out := Assembled(m, extra.value, hover);
        assert ToJson(lib, m) == Ok(Object(out));
        MessageAssembled(lib, m, out, extra.value, hover);
      }
    }
  }

  lemma MessageAssembled(lib: Libc, m: Message, out: map<string, Value>, extra: seq<Value>, hover: Value)
    requires out == Assembled(m, extra, hover) && |extra| == |m.children|
    requires forall i | 0 <= i < |extra| :: ChildRestored(lib, m.children[i], extra[i])
    requires NoFloats(hover)
    requires m.hover.Some? ==> (EventFrom(lib, Normal(hover)) == Ok(m.hover) <==> HoverKept(lib, m.hover.value))
    ensures ChildRestored(lib, m, Object(out))
  {
    hide *;
    AssembledFields(m, extra, hover);
    FieldsNormal(m, out, extra, hover);
    forall i | 0 <= i < |extra| ensures NoFloats(extra[i]) { UnfoldRestored(lib, m.children[i], extra[i]); }
    OutNoFloats(m, extra, hover);
    var n, extra' := Normal(Object(out)).members, NormalAll(extra);
    NormalElements(extra);
    ReadFields(lib, m, n, extra', Normal(hover));
    ChildrenRestored(lib, Array(extra'), m.children, |extra'|);
    assert m.children[..|extra'|] == m.children;
    forall i | 0 <= i < |extra| ensures FromJson(lib, extra'[i]) == Ok(m.children[i]) <==> Survives(lib, m.children[i]) {
      UnfoldRestored(lib, m.children[i], extra[i]);
    }
    UnfoldSurvives(lib, m);
    UnfoldRestored(lib, m, Object(out));
  }

  lemma NormalElements(xs: seq<Value>)
    ensures |NormalAll(xs)| == |xs| && forall i | 0 <= i < |xs| :: NormalAll(xs)[i] == Normal(xs[i])
  {
  }

  lemma UnfoldRestored(lib: Libc, c: Message, j: Value)
    ensures ChildRestored(lib, c, j) <==> NoFloats(j) && (FromJson(lib, Normal(j)) == Ok(c) <==> Survives(lib, c))
  {
  }

  lemma UnfoldSurvives(lib: Libc, m: Message)
    ensures Survives(lib, m) <==>
      && m.color != Yellow && (m.hover.Some? ==> HoverKept(lib, m.hover.value))
      && forall i | 0 <= i < |m.children| :: Survives(lib, m.children[i])
  {
  }

  lemma SetNoFloats(out: map<string, Value>, condition: bool, key: string, v: Value)
    requires NoFloats(Object(out)) && NoFloats(v)
    ensures NoFloats(Object(SetIf(out, condition, key, v)))
  {
  }

  lemma OutNoFloats(m: Message, extra: seq<Value>, hover: Value)
    requires NoFloats(hover) && forall i | 0 <= i < |extra| :: NoFloats(extra[i])
    ensures NoFloats(Object(Assembled(m, extra, hover)))
  {
    StyleNoFloats(m);
    assert NoFloats(Array(extra));
    SetNoFloats(StyleJson(m), extra != [], "extra", Array(extra));
    var out := SetIf(StyleJson(m), extra != [], "extra", Array(extra));
    SetNoFloats(out, m.hover.Some?, "hoverEvent", hover);
    var out' := SetIf(out, m.hover.Some?, "hoverEvent", hover);
    if m.click.Some? {
      var click := EventJson(m.click.value.action, String(m.click.value.value));
      EventNoFloats(m.click.value.action, String(m.click.value.value));
      SetNoFloats(out', true, "clickEvent", click);
    }
    hide NoFloats, StyleJson, EventJson;
  }

  lemma StyleNoFloats(m: Message)
    ensures NoFloats(Object(StyleJson(m)))
  {
    var out := map["text" := String(m.text)];
    SetNoFloats(out, m.bold, "bold", Boolean(true));
    var out1 := SetIf(out, m.bold, "bold", Boolean(true));
    SetNoFloats(out1, m.italic, "italic", Boolean(true));
    var out2 := SetIf(out1, m.italic, "italic", Boolean(true));
    SetNoFloats(out2, m.random, "obfuscated", Boolean(true));
    var out3 := SetIf(out2, m.random, "obfuscated", Boolean(true));
    SetNoFloats(out3, m.strikethrough, "strikethrough", Boolean(true));
    var out4 := SetIf(out3, m.strikethrough, "strikethrough", Boolean(true));
    SetNoFloats(out4, m.underlined, "underlined", Boolean(true));
    var out5 := SetIf(out4, m.underlined, "underlined", Boolean(true));
    if ColorName(m.color).Some? {
      SetNoFloats(out5, true, "color", String(ColorName(m.color).value));
    }
    hide NoFloats, ColorName, SetIf;
  }

  /**
   `ChatMessage(parse(m.toString())) == m`, in every field, event and child at any depth: true
   exactly of the messages that survive.
   */
  lemma MessageRoundTrip(lib: Libc, m: Message)
    requires FloatFree(lib, m)
    ensures RoundTrip(lib, m) <==> Survives(lib, m)
  {
    MessagePrinted(lib, m);
    var j := ToJson(lib, m);
    hide ToJson, FromJson, Parse, Normal, NoFloats, Survives, Dumped;
    if j.Ok? {
      PrintedParses(lib, j.value);
    }
  }

  /** Yellow is written but not read. */
  lemma YellowIsLost(lib: Libc)
    ensures var m := Message("", false, false, false, false, false, Yellow, [], None, None);
      ToText(lib, m).Ok? && !RoundTrip(lib, m)
  {
    var m := Message("", false, false, false, false, false, Yellow, [], None, None);
    MessageRoundTrip(lib, m);
  }
}
