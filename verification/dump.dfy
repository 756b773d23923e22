/** Serialization: `dump`, compact or pretty-printed. */
module Dump {
  import opened Text
  import opened Json
  import opened Escaping
  import opened Lexer

  /** `pretty_print` and `indent_step`. */
  datatype Style = Style(pretty: bool, step: nat) {
    function Break(): string {
      if pretty then "\n" else ""
    }

    function Separator(): string {
      if pretty then ",\n" else ","
    }

    function Colon(): string {
      if pretty then "\": " else "\":"
    }

    function Inner(indent: nat): nat {
      if pretty then indent + step else indent
    }
  }

  function Spaces(n: nat): string {
    seq(n, _ => ' ')
  }

  function IntegerText(i: int): string {
    if i < 0 then "-" + Decimal(-i) else Decimal(i)
  }

  /** What `dump` writes to the stream at the given indentation. */
  function ValueText(lib: Libc, v: Value, style: Style, indent: nat): string
    decreases v, 1, 0
  {
    match v
    case Object(m) =>
      if m == map[] then "{}"
      else "{" + (style.Break() + MembersText(lib, v, Sorted(m.Keys), 0, style, indent))
    case Array(xs) =>
      if xs == [] then "[]" else "[" + (style.Break() + ElementsText(lib, v, 0, style, indent))
    case String(s) => "\"" + Escaped(s) + "\""
    case Boolean(b) => if b then "true" else "false"
    case Integer(i) => IntegerText(i)
    case Unsigned(u) => IntegerText(u)
    case Float(f) => lib.show(f)
    case Null => "null"
  }

  /** The elements from `i` on, with the closing bracket. */
  function ElementsText(lib: Libc, v: Value, i: nat, style: Style, indent: nat): string
    requires v.Array? && i <= |v.elems|
    decreases v, 0, |v.elems| - i
  {
    if i == |v.elems| then style.Break() + Spaces(indent) + "]"
    else
      ElementHead(i, style, indent)
      + ValueText(lib, v.elems[i], style, style.Inner(indent))
      + ElementsText(lib, v, i + 1, style, indent)
  }

  function ElementHead(i: nat, style: Style, indent: nat): string {
    (if i > 0 then style.Separator() else "") + Spaces(style.Inner(indent))
  }

  /** The members from key `i` on, with the closing brace. */
  function MembersText(lib: Libc, v: Value, keys: seq<string>, i: nat, style: Style, indent: nat): string
    requires v.Object? && i <= |keys| && forall k | k in keys :: k in v.members
    decreases v, 0, |keys| - i
  {
    if i == |keys| then style.Break() + Spaces(indent) + "}"
    else
      ElementHead(i, style, indent) + ("\"" + Escaped(keys[i]) + style.Colon())
      + ValueText(lib, v.members[keys[i]], style, style.Inner(indent))
      + MembersText(lib, v, keys, i + 1, style, indent)
  }

  /** `dump(indent)`: compact for a negative argument. */
  function Dumped(lib: Libc, v: Value, indent: int): string {
    ValueText(lib, v, if indent >= 0 then Style(true, indent) else Style(false, 0), 0)
  }

  lemma Regroup3(o: string, a: string, b: string, c: string)
    ensures o + (a + b + c) == (o + a + b) + c
  {
  }

  lemma Opened(o: string, bracket: string, br: string, rest: string)
    ensures o + (bracket + (br + rest)) == o + bracket + br + rest
  {
  }

  /** The recursion of `dump` with its loops, writing to the stream `o`. */
  method DumpTo(lib: Libc, v: Value, style: Style, indent: nat, o0: string) returns (o: string)
    ensures o == o0 + ValueText(lib, v, style, indent)
    decreases v, 1
  {
    match v
    case Object(m) =>
      if m == map[] {
        o := o0 + "{}";
      } else {
        o := DumpMembers(lib, v, style, indent, o0 + "{" + style.Break());
        Opened(o0, "{", style.Break(), MembersText(lib, v, Sorted(m.Keys), 0, style, indent));
      }
    case Array(xs) =>
      if xs == [] {
        o := o0 + "[]";
      } else {
        o := DumpElements(lib, v, style, indent, o0 + "[" + style.Break());
        Opened(o0, "[", style.Break(), ElementsText(lib, v, 0, style, indent));
      }
    case String(s) =>
      var escaped := EscapeString(s);
      o := o0 + ("\"" + escaped + "\"");
    case Boolean(b) => o := o0 + if b then "true" else "false";
    case Integer(i) => o := o0 + IntegerText(i);
    case Unsigned(u) => o := o0 + IntegerText(u);
    case Float(f) => o := o0 + lib.show(f);
    case Null => o := o0 + "null";
  }

  method DumpElements(lib: Libc, v: Value, style: Style, indent: nat, o0: string) returns (o: string)
    requires v.Array?
    ensures o == o0 + ElementsText(lib, v, 0, style, indent)
    decreases v, 0
  {
    o := o0;
    for i := 0 to |v.elems|
      invariant o + ElementsText(lib, v, i, style, indent) == o0 + ElementsText(lib, v, 0, style, indent)
    {
      var head := ElementHead(i, style, indent);
      Regroup3(o, head, ValueText(lib, v.elems[i], style, style.Inner(indent)), ElementsText(lib, v, i + 1, style, indent));
      o := DumpTo(lib, v.elems[i], style, style.Inner(indent), o + head);
    }
    o := o + (style.Break() + Spaces(indent) + "]");
  }

  method DumpMembers(lib: Libc, v: Value, style: Style, indent: nat, o0: string) returns (o: string)
    requires v.Object?
    ensures o == o0 + MembersText(lib, v, Sorted(v.members.Keys), 0, style, indent)
    decreases v, 0
  {
    var keys := Sorted(v.members.Keys);
    o := o0;
    for i := 0 to |keys|
      invariant o + MembersText(lib, v, keys, i, style, indent) == o0 + MembersText(lib, v, keys, 0, style, indent)
    {
      var escaped := EscapeString(keys[i]);
      var head := ElementHead(i, style, indent) + ("\"" + escaped + style.Colon());
      Regroup3(o, head, ValueText(lib, v.members[keys[i]], style, style.Inner(indent)), MembersText(lib, v, keys, i + 1, style, indent));
      o := DumpTo(lib, v.members[keys[i]], style, style.Inner(indent), o + head);
    }
    o := o + (style.Break() + Spaces(indent) + "}");
  }
}
