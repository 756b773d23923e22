/** Chat messages: `ChatMessage::toString` and the constructor from JSON. */
module Chat {
  import opened Results
  import opened Json
  import opened Lexer
  import opened Parser
  import opened Dump
  import opened ParseDump

  datatype Color =
    | Black | DarkBlue | DarkGreen | DarkCyan | DarkRed | Purple | Gold | Gray
    | DarkGray | Blue | BrightGreen | Cyan | Red | Pink | Yellow | White

  datatype ActionEvent = ActionEvent(action: string, value: string)

  datatype Message = Message(
    text: string,
    bold: bool, italic: bool, random: bool, strikethrough: bool, underlined: bool,
    color: Color,
    children: seq<Message>,
    hover: Option<ActionEvent>,
    click: Option<ActionEvent>)

  /** The string strcmp and the C-string parser see. */
  function CStr(s: string): string {
    if s == "" || s[0] == '\0' then "" else [s[0]] + CStr(s[1..])
  }

  // ---------- toString ----------

  /** The colour's name; white is not written. */
  function ColorName(c: Color): Option<string> {
    match c
    case Black => Some("black")
    case DarkBlue => Some("dark_blue")
    case DarkGreen => Some("dark_green")
    case DarkCyan => Some("dark_aqua")
    case DarkRed => Some("dark_red")
    case Purple => Some("dark_purple")
    case Gold => Some("gold")
    case Gray => Some("gray")
    case DarkGray => Some("dark_gray")
    case Blue => Some("blue")
    case BrightGreen => Some("green")
    case Cyan => Some("aqua")
    case Red => Some("red")
    case Pink => Some("light_purple")
    case Yellow => Some("yellow")
    case White => None
  }

  function EventJson(action: string, value: Value): Value {
    Object(map["action" := String(action), "value" := value])
  }

  /** A hover value that looks like an object is embedded as JSON, except in achievements. */
  predicate Embedded(e: ActionEvent) {
    CStr(e.action) != "show_achievement" && e.value != "" && e.value[0] == '{'
  }

  function HoverJson(lib: Libc, e: ActionEvent): Result<Value> {
    if Embedded(e) then
      var v :- Parse(lib, e.value);
      Ok(EventJson(e.action, v))
    else Ok(EventJson(e.action, String(e.value)))
  }

  function SetIf(out: map<string, Value>, condition: bool, key: string, v: Value): map<string, Value> {
    if condition then out[key := v] else out
  }

  /** The keys that do not depend on children or events. */
  function StyleJson(m: Message): map<string, Value> {
    var out := map["text" := String(m.text)];
    var out := SetIf(out, m.bold, "bold", Boolean(true));
    var out := SetIf(out, m.italic, "italic", Boolean(true));
    var out := SetIf(out, m.random, "obfuscated", Boolean(true));
    var out := SetIf(out, m.strikethrough, "strikethrough", Boolean(true));
    var out := SetIf(out, m.underlined, "underlined", Boolean(true));
    match ColorName(m.color)
    case Some(name) => out["color" := String(name)]
    case None => out
  }

  /** The object `out` before it is dumped. */
  function ToJson(lib: Libc, m: Message): Result<Value>
    decreases m, 1, 0
  {
    var extra :- ChildrenJson(lib, m, |m.children|);
    var hover :- if m.hover.Some? then HoverJson(lib, m.hover.value) else Ok(Null);
    Ok(Object(Assembled(m, extra, hover)))
  }

  function Assembled(m: Message, extra: seq<Value>, hover: Value): map<string, Value> {
    var out := SetIf(StyleJson(m), extra != [], "extra", Array(extra));
    var out := SetIf(out, m.hover.Some?, "hoverEvent", hover);
    match m.click
    case Some(e) => out["clickEvent" := EventJson(e.action, String(e.value))]
    case None => out
  }

  /** The first `n` children, each printed and parsed again. */
  function ChildrenJson(lib: Libc, m: Message, n: nat): (r: Result<seq<Value>>)
    requires n <= |m.children|
    ensures r.Ok? ==> |r.value| == n
    decreases m, 0, n
  {
    if n == 0 then Ok([])
    else
      var before :- ChildrenJson(lib, m, n - 1);
      var text :- ToText(lib, m.children[n - 1]);
      var child :- Parse(lib, CStr(text));
      Ok(before + [child])
  }

  function ToText(lib: Libc, m: Message): Result<string>
    decreases m, 2, 0
  {
    var j :- ToJson(lib, m);
    Ok(Dumped(lib, j, -1))
  }

  // ---------- the constructor from JSON ----------

  predicate Has(raw: Value, key: string) {
    raw.Object? && key in raw.members
  }

  function AsString(v: Value): Result<string> {
    if v.String? then Ok(v.s) else Err(DomainError)
  }

  function TextField(raw: Value): Result<string> {
    if Has(raw, "text") then AsString(raw.members["text"]) else Ok("")
  }

  function Flag(raw: Value, key: string): Result<bool> {
    if !Has(raw, key) then Ok(false)
    else if raw.members[key].Boolean? then Ok(raw.members[key].b)
    else Err(DomainError)
  }

  function ColorOf(name: string): Color {
    match CStr(name)
    case "black" => Black
    case "dark_blue" => DarkBlue
    case "dark_green" => DarkGreen
    case "dark_aqua" => DarkCyan
    case "dark_red" => DarkRed
    case "dark_purple" => Purple
    case "gold" => Gold
    case "gray" => Gray
    case "dark_gray" => DarkGray
    case "blue" => Blue
    case "green" => BrightGreen
    case "aqua" => Cyan
    case "red" => Red
    case "light_purple" => Pink
    case _ => White
  }

  function ColorField(raw: Value): Result<Color> {
    if !Has(raw, "color") then Ok(White)
    else
      var name :- AsString(raw.members["color"]);
      Ok(ColorOf(name))
  }

  /** `operator[]` with a key on a value that may be changed: a missing member is null. */
  function MemberOrNull(v: Value, key: string): Result<Value> {
    match v
    case Null => Ok(Null)
    case Object(m) => Ok(if key in m then m[key] else Null)
    case _ => Err(DomainError)
  }

  function EventFrom(lib: Libc, event: Value): Result<Option<ActionEvent>> {
    var value :- MemberOrNull(event, "value");
    var actionValue :- MemberOrNull(event, "action");
    var action :- AsString(actionValue);
    Ok(Some(ActionEvent(action, if value.String? then value.s else Dumped(lib, value, -1))))
  }

  function EventField(lib: Libc, raw: Value, key: string): Result<Option<ActionEvent>> {
    if Has(raw, key) then EventFrom(lib, raw.members[key]) else Ok(None)
  }

  function FromJson(lib: Libc, raw: Value): Result<Message>
    decreases raw, 1, 0
  {
    var text :- TextField(raw);
    var bold :- Flag(raw, "bold");
    var italic :- Flag(raw, "italic");
    var random :- Flag(raw, "obfuscated");
    var underlined :- Flag(raw, "underlined");
    var strikethrough :- Flag(raw, "strikethrough");
    var color :- ColorField(raw);
    var children :-
      if !Has(raw, "extra") then Ok([])
      else if !raw.members["extra"].Array? then Err(DomainError)
      else ChildrenFrom(lib, raw.members["extra"], |raw.members["extra"].elems|);
    var hover :- EventField(lib, raw, "hoverEvent");
    var click :- EventField(lib, raw, "clickEvent");
    Ok(Message(text, bold, italic, random, strikethrough, underlined, color, children, hover, click))
  }

  function ChildrenFrom(lib: Libc, extras: Value, n: nat): (r: Result<seq<Message>>)
    requires extras.Array? && n <= |extras.elems|
    ensures r.Ok? ==> |r.value| == n
    decreases extras, 0, n
  {
    if n == 0 then Ok([])
    else
      var before :- ChildrenFrom(lib, extras, n - 1);
      var child :- FromJson(lib, extras.elems[n - 1]);
      Ok(before + [child])
  }

  function FromText(lib: Libc, text: string): Result<Message> {
    var raw :- Parse(lib, text);
    FromJson(lib, raw)
  }

  // ---------- which field decides which key ----------

  /** The keys of the first part of `toString`. */
  ghost predicate Styled(m: Message, out: map<string, Value>) {
    && "text" in out && out["text"] == String(m.text)
    && FlagField(out, "bold", m.bold) && FlagField(out, "italic", m.italic) && FlagField(out, "obfuscated", m.random)
    && FlagField(out, "strikethrough", m.strikethrough) && FlagField(out, "underlined", m.underlined)
    && ("color" in out <==> m.color != White)
    && ("color" in out ==> out["color"] == String(ColorName(m.color).value))
  }

  ghost predicate FlagField(out: map<string, Value>, key: string, flag: bool) {
    (key in out <==> flag) && (flag ==> out[key] == Boolean(true))
  }

  /** A number for each key, which tells them apart. */
  function KeyNumber(key: string): nat {
    if key == "text" then 0
    else if key == "bold" then 1
    else if key == "italic" then 2
    else if key == "obfuscated" then 3
    else if key == "strikethrough" then 4
    else if key == "underlined" then 5
    else if key == "color" then 6
    else if key == "extra" then 7
    else if key == "hoverEvent" then 8
    else if key == "clickEvent" then 9
    else 10
  }

  lemma KeyNumbers()
    ensures KeyNumber("text") == 0
    ensures KeyNumber("bold") == 1
    ensures KeyNumber("italic") == 2
    ensures KeyNumber("obfuscated") == 3
    ensures KeyNumber("strikethrough") == 4
    ensures KeyNumber("underlined") == 5
    ensures KeyNumber("color") == 6
    ensures KeyNumber("extra") == 7
    ensures KeyNumber("hoverEvent") == 8
    ensures KeyNumber("clickEvent") == 9
  {
    assert "bold"[0] != "text"[0] && "extra"[0] != "color"[0] && "underlined"[0] != "obfuscated"[0];
    assert "hoverEvent"[0] != "obfuscated"[0] && "hoverEvent"[0] != "underlined"[0];
    assert "clickEvent"[0] != "obfuscated"[0] && "clickEvent"[0] != "underlined"[0] && "clickEvent"[0] != "hoverEvent"[0];
  }

  lemma WhiteUnnamed(c: Color)
    ensures ColorName(c).None? <==> c == White
  {
  }

  lemma StyleFields(m: Message)
    ensures Styled(m, StyleJson(m))
    ensures "extra" !in StyleJson(m) && "hoverEvent" !in StyleJson(m) && "clickEvent" !in StyleJson(m)
  {
    KeyNumbers();
    WhiteUnnamed(m.color);
    hide KeyNumber, ColorName;
  }

  lemma StyleHasNoOtherKey(m: Message)
    ensures forall key | key in StyleJson(m) :: KeyNumber(key) <= 6
  {
    KeyNumbers();
    hide KeyNumber, ColorName;
  }

  // ---------- the loops of the source ----------

  /** The first part of `toString`. */
  method FillStyle(m: Message) returns (out: map<string, Value>)
    ensures out == StyleJson(m)
    ensures Styled(m, out)
    ensures forall key | key in out :: KeyNumber(key) <= 6
  {
    StyleFields(m);
    StyleHasNoOtherKey(m);
    hide Styled, KeyNumber, ColorName;
    out := map["text" := String(m.text)];
    if m.bold { out := out["bold" := Boolean(true)]; }
    if m.italic { out := out["italic" := Boolean(true)]; }
    if m.random { out := out["obfuscated" := Boolean(true)]; }
    if m.strikethrough { out := out["strikethrough" := Boolean(true)]; }
    if m.underlined { out := out["underlined" := Boolean(true)]; }
    var name := ColorName(m.color);
    if name.Some? { out := out["color" := String(name.value)]; }
  }

  /** The loop of `toString` over the children. */
  method PrintChildren(lib: Libc, m: Message) returns (r: Result<seq<Value>>)
    ensures r == ChildrenJson(lib, m, |m.children|)
    decreases m, 0
  {
    var extra: seq<Value> := [];
    for i := 0 to |m.children|
      invariant ChildrenJson(lib, m, i) == Ok(extra)
    {
      var text := ToStringLoop(lib, m.children[i]);
      if text.Err? {
        ChildrenFail(lib, m, i + 1, |m.children|);
        return Err(text.error);
      }
      var child := Parse(lib, CStr(text.value));
      if child.Err? {
        ChildrenFail(lib, m, i + 1, |m.children|);
        return Err(child.error);
      }
      extra := extra + [child.value];
    }
    return Ok(extra);
  }

  /** `toString`: fill `out` key by key, then dump it. */
  method ToStringLoop(lib: Libc, m: Message) returns (r: Result<string>)
    ensures r == ToText(lib, m)
    decreases m, 1
  {
    var out := FillStyle(m);
    var extra := PrintChildren(lib, m);
    if extra.Err? {
      return Err(extra.error);
    }
    if extra.value != [] { out := out["extra" := Array(extra.value)]; }
    if m.hover.Some? {
      var hover := HoverJson(lib, m.hover.value);
      if hover.Err? {
        return Err(hover.error);
      }
      out := out["hoverEvent" := hover.value];
    }
    if m.click.Some? {
      out := out["clickEvent" := EventJson(m.click.value.action, String(m.click.value.value))];
    }
    var text := DumpTo(lib, Object(out), Style(false, 0), 0, "");
    assert "" + Dumped(lib, Object(out), -1) == Dumped(lib, Object(out), -1);
    return Ok(text);
  }

  lemma {:induction false} ChildrenFail(lib: Libc, m: Message, i: nat, n: nat)
    requires i <= n <= |m.children| && ChildrenJson(lib, m, i).Err?
    ensures ChildrenJson(lib, m, n) == ChildrenJson(lib, m, i)
    decreases n
  {
    if i < n {
      ChildrenFail(lib, m, i, n - 1);
    }
  }

  /** The loop of the constructor over the entries of "extra". */
  method ConstructChildren(lib: Libc, extras: Value) returns (children: Result<seq<Message>>)
    requires extras.Array?
    ensures children == ChildrenFrom(lib, extras, |extras.elems|)
    decreases extras, 0
  {
    var built: seq<Message> := [];
    for i := 0 to |extras.elems|
      invariant ChildrenFrom(lib, extras, i) == Ok(built)
    {
      var child := Construct(lib, extras.elems[i]);
      if child.Err? {
        ConstructionFails(lib, extras, i + 1, |extras.elems|);
        return Err(child.error);
      }
      built := built + [child.value];
    }
    return Ok(built);
  }

  lemma {:induction false} ConstructionFails(lib: Libc, extras: Value, i: nat, n: nat)
    requires extras.Array? && i <= n <= |extras.elems| && ChildrenFrom(lib, extras, i).Err?
    ensures ChildrenFrom(lib, extras, n) == ChildrenFrom(lib, extras, i)
    decreases n
  {
    if i < n {
      ConstructionFails(lib, extras, i, n - 1);
    }
  }

  /** The constructor `ChatMessage(json)`. */
  method Construct(lib: Libc, raw: Value) returns (r: Result<Message>)
    ensures r == FromJson(lib, raw)
    decreases raw, 1
  {
    var text := TextField(raw);
    if text.Err? { return Err(text.error); }
    var bold, italic, random := Flag(raw, "bold"), Flag(raw, "italic"), Flag(raw, "obfuscated");
    if bold.Err? { return Err(bold.error); }
    if italic.Err? { return Err(italic.error); }
    if random.Err? { return Err(random.error); }
    var underlined, strikethrough := Flag(raw, "underlined"), Flag(raw, "strikethrough");
    if underlined.Err? { return Err(underlined.error); }
    if strikethrough.Err? { return Err(strikethrough.error); }
    var color := ColorField(raw);
    if color.Err? { return Err(color.error); }
    var children: Result<seq<Message>> := Ok([]);
    if Has(raw, "extra") {
      if !raw.members["extra"].Array? { return Err(DomainError); }
      children := ConstructChildren(lib, raw.members["extra"]);
      if children.Err? { return Err(children.error); }
    }
    var hover := EventField(lib, raw, "hoverEvent");
    if hover.Err? { return Err(hover.error); }
    var click := EventField(lib, raw, "clickEvent");
    if click.Err? { return Err(click.error); }
    return Ok(Message(text.value, bold.value, italic.value, random.value, strikethrough.value, underlined.value,
                      color.value, children.value, hover.value, click.value));
  }
}
