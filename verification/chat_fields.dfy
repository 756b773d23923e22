/** What the constructor of a chat message accepts, and what each field of its result is (ChatMessage.cpp:92-163). */
module ChatFields {
  import opened Results
  import opened Json
  import opened Lexer
  import opened Parser
  import opened Dump
  import opened ParseDump
  import opened Chat
  import opened ChatLaw

  // ---------- acceptance ----------

  predicate IsStringIfAny(raw: Value, key: string) {
    Has(raw, key) ==> raw.members[key].String?
  }

  predicate IsBooleanIfAny(raw: Value, key: string) {
    Has(raw, key) ==> raw.members[key].Boolean?
  }

  /** An event needs an action that is a string; its value may be of any type, or absent. */
  predicate IsEventIfAny(raw: Value, key: string) {
    Has(raw, key) ==>
      var event := raw.members[key];
      Has(event, "action") && event.members["action"].String?
  }

  /** The fields other than the children have the types that the constructor asks for. */
  predicate WellTyped(raw: Value) {
    && IsStringIfAny(raw, "text") && IsStringIfAny(raw, "color")
    && IsBooleanIfAny(raw, "bold") && IsBooleanIfAny(raw, "italic") && IsBooleanIfAny(raw, "obfuscated")
    && IsBooleanIfAny(raw, "underlined") && IsBooleanIfAny(raw, "strikethrough")
    && IsEventIfAny(raw, "hoverEvent") && IsEventIfAny(raw, "clickEvent")
  }

  /** So have those of the children, at any depth. A value that is no object has no fields at all. */
  predicate Accepted(raw: Value)
    decreases raw
  {
    && WellTyped(raw)
    && (Has(raw, "extra") ==>
          raw.members["extra"].Array?
          && forall i | 0 <= i < |raw.members["extra"].elems| :: Accepted(raw.members["extra"].elems[i]))
  }

  // ---------- the fields of the result ----------

  predicate FlagRead(raw: Value, key: string, flag: bool) {
    flag <==> Has(raw, key) && raw.members[key] == Boolean(true)
  }

  /** The colour that has the name, up to a zero byte; white for all other names, of which "yellow" is one. */
  predicate ColorRead(raw: Value, color: Color) {
    if !Has(raw, "color") || !raw.members["color"].String? then color == White
    else if color == White then forall c | c != Yellow :: ColorName(c) != Some(CStr(raw.members["color"].s))
    else color != Yellow && ColorName(color) == Some(CStr(raw.members["color"].s))
  }

  /** The value of an event is its string, or the dump of whatever else it is, null if it is absent. */
  predicate EventRead(lib: Libc, raw: Value, key: string, event: Option<ActionEvent>) {
    if !Has(raw, key) then event == None
    else
      var m := raw.members[key];
      && event.Some?
      && Has(m, "action") && m.members["action"] == String(event.value.action)
      && (Has(m, "value") && m.members["value"].String? ==> m.members["value"] == String(event.value.value))
      && (Has(m, "value") && !m.members["value"].String? ==> event.value.value == Dumped(lib, m.members["value"], -1))
      && (!Has(m, "value") ==> event.value.value == "null")
  }

  /** The message has the fields of the object. */
  predicate FieldsRead(lib: Libc, raw: Value, m: Message) {
    && (if Has(raw, "text") then raw.members["text"] == String(m.text) else m.text == "")
    && FlagRead(raw, "bold", m.bold) && FlagRead(raw, "italic", m.italic) && FlagRead(raw, "obfuscated", m.random)
    && FlagRead(raw, "underlined", m.underlined) && FlagRead(raw, "strikethrough", m.strikethrough)
    && ColorRead(raw, m.color)
    && EventRead(lib, raw, "hoverEvent", m.hover) && EventRead(lib, raw, "clickEvent", m.click)
  }

  /** So have its children, one for each entry of "extra". */
  predicate MessageRead(lib: Libc, raw: Value, m: Message)
    decreases raw
  {
    && FieldsRead(lib, raw, m)
    && if !Has(raw, "extra") || !raw.members["extra"].Array? then m.children == []
       else
         var extra := raw.members["extra"].elems;
         && |m.children| == |extra|
         && forall i | 0 <= i < |extra| :: MessageRead(lib, extra[i], m.children[i])
  }

  // ---------- one field ----------

  lemma TextReads(raw: Value)
    ensures var r := TextField(raw);
      if IsStringIfAny(raw, "text") then r.Ok? && if Has(raw, "text") then raw.members["text"] == String(r.value) else r.value == ""
      else r == Err(DomainError)
  {
  }

  lemma FlagReads(raw: Value, key: string)
    ensures var r := Flag(raw, key);
      if IsBooleanIfAny(raw, key) then r.Ok? && FlagRead(raw, key, r.value) else r == Err(DomainError)
  {
  }

  lemma ColorReads(raw: Value)
    ensures var r := ColorField(raw);
      if IsStringIfAny(raw, "color") then r.Ok? && ColorRead(raw, r.value) else r == Err(DomainError)
  {
    hide CStr, ColorOf, ColorName;
    if Has(raw, "color") && raw.members["color"].String? {
      NamedColor(raw.members["color"].s);
    }
  }

  lemma NamedColor(name: string)
    ensures var color := ColorOf(name);
      if color == White then forall c | c != Yellow :: ColorName(c) != Some(CStr(name))
      else color != Yellow && ColorName(color) == Some(CStr(name))
  {
    hide CStr;
  }

  lemma NullDumped(lib: Libc)
    ensures Dumped(lib, Null, -1) == "null"
  {
  }

  lemma EventReads(lib: Libc, raw: Value, key: string)
    ensures var r := EventField(lib, raw, key);
      if IsEventIfAny(raw, key) then r.Ok? && EventRead(lib, raw, key, r.value) else r == Err(DomainError)
  {
    NullDumped(lib);
    hide Dumped;
  }

  // ---------- the whole constructor ----------

  /** Once the fields and the children are read, the message is there. */
  lemma Assembles(lib: Libc, raw: Value)
    requires WellTyped(raw)
    ensures var r := FromJson(lib, raw);
      if !Has(raw, "extra") then r.Ok? && FieldsRead(lib, raw, r.value) && r.value.children == []
      else if !raw.members["extra"].Array? then r == Err(DomainError)
      else
        var children := ChildrenFrom(lib, raw.members["extra"], |raw.members["extra"].elems|);
        if children.Err? then r == Err(children.error)
        else r.Ok? && FieldsRead(lib, raw, r.value) && r.value.children == children.value
  {
    AllRead(lib, raw);
    hide TextField, Flag, ColorField, EventField, FlagRead, ColorRead, EventRead, ChildrenFrom;
  }

  lemma AllRead(lib: Libc, raw: Value)
    requires WellTyped(raw)
    ensures TextField(raw).Ok? && if Has(raw, "text") then raw.members["text"] == String(TextField(raw).value) else TextField(raw).value == ""
    ensures Flag(raw, "bold").Ok? && FlagRead(raw, "bold", Flag(raw, "bold").value)
    ensures Flag(raw, "italic").Ok? && FlagRead(raw, "italic", Flag(raw, "italic").value)
    ensures Flag(raw, "obfuscated").Ok? && FlagRead(raw, "obfuscated", Flag(raw, "obfuscated").value)
    ensures Flag(raw, "underlined").Ok? && FlagRead(raw, "underlined", Flag(raw, "underlined").value)
    ensures Flag(raw, "strikethrough").Ok? && FlagRead(raw, "strikethrough", Flag(raw, "strikethrough").value)
    ensures ColorField(raw).Ok? && ColorRead(raw, ColorField(raw).value)
    ensures EventField(lib, raw, "hoverEvent").Ok? && EventRead(lib, raw, "hoverEvent", EventField(lib, raw, "hoverEvent").value)
    ensures EventField(lib, raw, "clickEvent").Ok? && EventRead(lib, raw, "clickEvent", EventField(lib, raw, "clickEvent").value)
  {
    hide *;
    TypedFields(raw);
    TextReads(raw);
    FlagReads(raw, "bold");
    FlagReads(raw, "italic");
    FlagReads(raw, "obfuscated");
    FlagReads(raw, "underlined");
    FlagReads(raw, "strikethrough");
    ColorReads(raw);
    EventReads(lib, raw, "hoverEvent");
    EventReads(lib, raw, "clickEvent");
  }

  lemma TypedFields(raw: Value)
    ensures WellTyped(raw) <==>
      && IsStringIfAny(raw, "text") && IsStringIfAny(raw, "color")
      && IsBooleanIfAny(raw, "bold") && IsBooleanIfAny(raw, "italic") && IsBooleanIfAny(raw, "obfuscated")
      && IsBooleanIfAny(raw, "underlined") && IsBooleanIfAny(raw, "strikethrough")
      && IsEventIfAny(raw, "hoverEvent") && IsEventIfAny(raw, "clickEvent")
  {
  }

  /** A field of the wrong type is an error, whatever the others are; only children can throw before it. */
  lemma Refuses(lib: Libc, raw: Value)
    requires !WellTyped(raw)
    ensures FromJson(lib, raw).Err?
    ensures !(Has(raw, "extra") && raw.members["extra"].Array?
              && ChildrenFrom(lib, raw.members["extra"], |raw.members["extra"].elems|).Err?) ==>
      FromJson(lib, raw) == Err(DomainError)
    ensures Has(raw, "extra") && raw.members["extra"].Array? ==>
      FromJson(lib, raw) == Err(DomainError)
      || FromJson(lib, raw).error == ChildrenFrom(lib, raw.members["extra"], |raw.members["extra"].elems|).error
  {
    TypedFields(raw);
    TextReads(raw);
    FlagReads(raw, "bold");
    FlagReads(raw, "italic");
    FlagReads(raw, "obfuscated");
    FlagReads(raw, "underlined");
    FlagReads(raw, "strikethrough");
    ColorReads(raw);
    EventReads(lib, raw, "hoverEvent");
    EventReads(lib, raw, "clickEvent");
    hide TextField, Flag, ColorField, EventField, FlagRead, ColorRead, EventRead, ChildrenFrom, WellTyped,
         IsStringIfAny, IsBooleanIfAny, IsEventIfAny;
  }

  lemma {:induction false} ChildrenRead(lib: Libc, extras: Value, n: nat)
    requires extras.Array? && n <= |extras.elems|
    ensures var r := ChildrenFrom(lib, extras, n);
      if forall i | 0 <= i < n :: Accepted(extras.elems[i])
      then r.Ok? && forall i | 0 <= i < n :: MessageRead(lib, extras.elems[i], r.value[i])
      else r == Err(DomainError)
    decreases extras, 0, n
  {
    hide Accepted, MessageRead, FromJson;
    if n > 0 {
      ChildrenRead(lib, extras, n - 1);
      ConstructorReads(lib, extras.elems[n - 1]);
    }
  }

  lemma AcceptedParts(raw: Value)
    ensures Accepted(raw) <==>
      && WellTyped(raw)
      && (Has(raw, "extra") ==>
            raw.members["extra"].Array?
            && forall i | 0 <= i < |raw.members["extra"].elems| :: Accepted(raw.members["extra"].elems[i]))
  {
    hide WellTyped;
  }

  lemma ReadParts(lib: Libc, raw: Value, m: Message)
    requires FieldsRead(lib, raw, m)
    requires if !Has(raw, "extra") || !raw.members["extra"].Array? then m.children == []
      else
        var extra := raw.members["extra"].elems;
        && |m.children| == |extra|
        && forall i | 0 <= i < |extra| :: MessageRead(lib, extra[i], m.children[i])
    ensures MessageRead(lib, raw, m)
  {
    hide FieldsRead;
  }

  /**
   The constructor accepts exactly the values whose fields have the right types, at any depth, and
   then every field of the message is what the object says; anything else is a domain error.
   */
  lemma {:induction false} ConstructorReads(lib: Libc, raw: Value)
    ensures var r := FromJson(lib, raw);
      if Accepted(raw) then r.Ok? && MessageRead(lib, raw, r.value) else r == Err(DomainError)
    decreases raw, 1, 0
  {
    hide Accepted, WellTyped, FieldsRead, FromJson, MessageRead, ChildrenFrom;
    AcceptedParts(raw);
    if Has(raw, "extra") && raw.members["extra"].Array? {
      ChildrenRead(lib, raw.members["extra"], |raw.members["extra"].elems|);
    }
    if WellTyped(raw) {
      Assembles(lib, raw);
      var r := FromJson(lib, raw);
      if Accepted(raw) {
        ReadParts(lib, raw, r.value);
      }
    } else {
      Refuses(lib, raw);
    }
  }

  // ---------- what is printed ----------

  /** The names of the colours in the order of their codes, '0' to 'e' (ChatColor.h:14-48); white is not written. */
  lemma ColorNames()
    ensures var colors := [Black, DarkBlue, DarkGreen, DarkCyan, DarkRed, Purple, Gold, Gray,
                           DarkGray, Blue, BrightGreen, Cyan, Red, Pink, Yellow];
      var names := ["black", "dark_blue", "dark_green", "dark_aqua", "dark_red", "dark_purple", "gold", "gray",
                    "dark_gray", "blue", "green", "aqua", "red", "light_purple", "yellow"];
      |colors| == |names| && (forall i | 0 <= i < |names| :: ColorName(colors[i]) == Some(names[i]))
      && ColorName(White) == None
  {
  }

  /** A hover value is meant as JSON if it starts with a brace and the action is not that of an achievement. */
  predicate MeantAsJson(e: ActionEvent) {
    e.value != "" && e.value[0] == '{'
    && !(e.action == "show_achievement" || "show_achievement\0" <= e.action)
  }

  /** A printed event has its action, and its value as a string or as the JSON it spells. */
  predicate EventPrinted(lib: Libc, e: ActionEvent, hover: bool, printed: Value) {
    && printed.Object? && printed.members.Keys == {"action", "value"}
    && printed.members["action"] == String(e.action)
    && if hover && MeantAsJson(e) then Parse(lib, e.value) == Ok(printed.members["value"])
       else printed.members["value"] == String(e.value)
  }

  lemma {:induction false} CStrIs(s: string, t: string)
    requires NoNull(t)
    ensures CStr(s) == t <==> s == t || t + "\0" <= s
    decreases |t|
  {
    if s != "" {
      if t == "" {
        assert s[0] == '\0' <==> "\0" <= s;
      } else if s[0] == t[0] {
        CStrIs(s[1..], t[1..]);
        assert s == [s[0]] + s[1..] && t == [t[0]] + t[1..];
        assert t + "\0" <= s <==> t[1..] + "\0" <= s[1..] by {
          assert (t + "\0")[1..] == t[1..] + "\0";
          PrefixTails(t + "\0", s);
        }
        assert CStr(s) == [s[0]] + CStr(s[1..]);
      } else {
        assert s[0] == '\0' ==> CStr(s) == "";
      }
    }
  }

  lemma PrefixTails(a: string, b: string)
    requires a != "" && b != "" && a[0] == b[0]
    ensures a <= b <==> a[1..] <= b[1..]
  {
    if a[1..] <= b[1..] {
      assert a == [a[0]] + a[1..] && b == [b[0]] + b[1..];
      assert b[..|a|] == [b[0]] + b[1..][..|a| - 1];
    }
  }

  lemma EmbeddedIsMeant(e: ActionEvent)
    ensures Embedded(e) <==> MeantAsJson(e)
  {
    assert forall i | 0 <= i < |"show_achievement"| :: "show_achievement"[i] >= '_';
    CStrIs(e.action, "show_achievement");
    assert "show_achievement" + "\0" == "show_achievement\0";
    hide CStr;
  }

  lemma EventJsonIs(action: string, value: Value)
    ensures EventJson(action, value).Object? && EventJson(action, value).members.Keys == {"action", "value"}
    ensures EventJson(action, value).members["action"] == String(action)
    ensures EventJson(action, value).members["value"] == value
  {
  }

  lemma HoverPrinted(lib: Libc, e: ActionEvent)
    ensures var r := HoverJson(lib, e);
      if MeantAsJson(e) && Parse(lib, e.value).Err? then r == Err(Parse(lib, e.value).error)
      else r.Ok? && EventPrinted(lib, e, true, r.value)
  {
    EmbeddedIsMeant(e);
    EventJsonIs(e.action, String(e.value));
    if Parse(lib, e.value).Ok? {
      EventJsonIs(e.action, Parse(lib, e.value).value);
    }
    hide Embedded, MeantAsJson, Parse, EventJson;
  }

  /** A child is printed, and its text parsed again. */
  function Reparsed(lib: Libc, c: Message): Result<Value> {
    var text :- ToText(lib, c);
    Parse(lib, CStr(text))
  }

  lemma LastChild(lib: Libc, m: Message, n: nat)
    requires n <= |m.children|
    ensures var r := ChildrenJson(lib, m, n);
      if n == 0 then r == Ok([])
      else
        var before, last := ChildrenJson(lib, m, n - 1), Reparsed(lib, m.children[n - 1]);
        && (r.Ok? <==> before.Ok? && last.Ok?)
        && (r.Ok? ==> r.value == before.value + [last.value])
  {
    hide ToText, Parse, CStr;
  }

  /** The first children as they are printed, or a failure if one of them cannot be. */
  predicate PrintedChildren(lib: Libc, children: seq<Message>, n: nat, r: Result<seq<Value>>)
    requires n <= |children|
  {
    && (r.Ok? <==> forall i | 0 <= i < n :: Reparsed(lib, children[i]).Ok?)
    && (r.Ok? ==> |r.value| == n && forall i | 0 <= i < n :: Reparsed(lib, children[i]) == Ok(r.value[i]))
  }

  lemma OneMorePrinted(lib: Libc, children: seq<Message>, n: nat, before: Result<seq<Value>>, r: Result<seq<Value>>)
    requires 0 < n <= |children| && PrintedChildren(lib, children, n - 1, before)
    requires var last := Reparsed(lib, children[n - 1]);
      (r.Ok? <==> before.Ok? && last.Ok?) && (r.Ok? ==> r.value == before.value + [last.value])
    ensures PrintedChildren(lib, children, n, r)
  {
    hide Reparsed;
  }

  lemma NonePrinted(lib: Libc, children: seq<Message>)
    ensures PrintedChildren(lib, children, 0, Ok([]))
  {
  }

  lemma {:induction false} ChildrenArePrinted(lib: Libc, m: Message, n: nat)
    requires n <= |m.children|
    ensures PrintedChildren(lib, m.children, n, ChildrenJson(lib, m, n))
    decreases n
  {
    hide *;
    LastChild(lib, m, n);
    if n == 0 {
      NonePrinted(lib, m.children);
    } else {
      ChildrenArePrinted(lib, m, n - 1);
      OneMorePrinted(lib, m.children, n, ChildrenJson(lib, m, n - 1), ChildrenJson(lib, m, n));
    }
  }

  /** The printed object, key by key: style, children, hover and click event, each only if there is one. */
  lemma PrintedObject(lib: Libc, m: Message)
    requires ToJson(lib, m).Ok?
    ensures var j := ToJson(lib, m).value;
      && j.Object? && Styled(m, j.members)
      && ("extra" in j.members <==> m.children != [])
      && (m.children != [] ==>
            && j.members["extra"].Array?
            && PrintedChildren(lib, m.children, |m.children|, Ok(j.members["extra"].elems)))
      && ("hoverEvent" in j.members <==> m.hover.Some?)
      && (m.hover.Some? ==> EventPrinted(lib, m.hover.value, true, j.members["hoverEvent"]))
      && ("clickEvent" in j.members <==> m.click.Some?)
      && (m.click.Some? ==> EventPrinted(lib, m.click.value, false, j.members["clickEvent"]))
  {
    var extra := ChildrenJson(lib, m, |m.children|);
    var hover := if m.hover.Some? then HoverJson(lib, m.hover.value) else Ok(Null);
    assert extra.Ok? && hover.Ok? && ToJson(lib, m) == Ok(Object(Assembled(m, extra.value, hover.value)));
    hide *;
    AssembledFields(m, extra.value, hover.value);
    FieldsMean(m, Assembled(m, extra.value, hover.value), extra.value, hover.value);
    ChildrenArePrinted(lib, m, |m.children|);
    if m.hover.Some? {
      HoverPrinted(lib, m.hover.value);
    }
    if m.click.Some? {
      ClickPrinted(lib, m.click.value);
    }
  }

  lemma ClickPrinted(lib: Libc, e: ActionEvent)
    ensures EventPrinted(lib, e, false, EventJson(e.action, String(e.value)))
  {
    EventJsonIs(e.action, String(e.value));
    hide EventJson;
  }

  lemma FieldsMean(m: Message, out: map<string, Value>, extra: seq<Value>, hover: Value)
    requires Fields(m, out, extra, hover)
    ensures Styled(m, out)
    ensures ("extra" in out <==> extra != []) && ("extra" in out ==> out["extra"] == Array(extra))
    ensures ("hoverEvent" in out <==> m.hover.Some?) && ("hoverEvent" in out ==> out["hoverEvent"] == hover)
    ensures ("clickEvent" in out <==> m.click.Some?)
    ensures "clickEvent" in out ==> out["clickEvent"] == EventJson(m.click.value.action, String(m.click.value.value))
  {
    hide Styled, EventJson;
  }
}
