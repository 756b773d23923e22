/** The layout of dumped values: what stands between and around the parts of a container (json.hpp:6360-6498). */
module DumpLaw {
  import opened Text
  import opened Json
  import opened Escaping
  import opened Lexer
  import opened Dump

  /** The parts with the separator between each two of them. */
  function Joined(parts: seq<string>, separator: string): string {
    if parts == [] then ""
    else if |parts| == 1 then parts[0]
    else parts[0] + separator + Joined(parts[1..], separator)
  }

  /** Each element on a line of its own, or right after the separator. */
  function ElementParts(lib: Libc, v: Value, i: nat, style: Style, indent: nat): seq<string>
    requires v.Array? && i <= |v.elems|
  {
    seq(|v.elems| - i, n requires 0 <= n < |v.elems| - i =>
      Spaces(style.Inner(indent)) + ValueText(lib, v.elems[i + n], style, style.Inner(indent)))
  }

  function MemberParts(lib: Libc, v: Value, keys: seq<string>, i: nat, style: Style, indent: nat): seq<string>
    requires v.Object? && i <= |keys| && forall k | k in keys :: k in v.members
  {
    seq(|keys| - i, n requires 0 <= n < |keys| - i =>
      Spaces(style.Inner(indent)) + "\"" + Escaped(keys[i + n]) + style.Colon()
      + ValueText(lib, v.members[keys[i + n]], style, style.Inner(indent)))
  }

  lemma JoinedStep(head: string, parts: seq<string>, separator: string)
    ensures Joined([head] + parts, separator) == head + (if parts == [] then "" else separator + Joined(parts, separator))
  {
    assert ([head] + parts)[1..] == parts;
    if parts == [] {
      assert [head] + parts == [head];
      assert head + "" == head;
    }
  }

  lemma Regrouped(a: string, b: string, c: string, d: string)
    ensures a + b + (c + d) == a + (b + (c + d)) && a + b + c + d == a + (b + c) + d
  {
  }

  /** What the loop over the elements writes from element `i` on. */
  lemma {:induction false} ElementsJoined(lib: Libc, v: Value, i: nat, style: Style, indent: nat)
    requires v.Array? && i <= |v.elems|
    ensures ElementsText(lib, v, i, style, indent) ==
      (if 0 < i < |v.elems| then style.Separator() else "")
      + Joined(ElementParts(lib, v, i, style, indent), style.Separator())
      + (style.Break() + Spaces(indent) + "]")
    decreases |v.elems| - i
  {
    var close := style.Break() + Spaces(indent) + "]";
    ElementsStep(lib, v, i, style, indent);
    hide *;
    if i == |v.elems| {
      NoParts(lib, v, style, indent);
      assert "" + "" + close == close;
    } else {
      ElementsJoined(lib, v, i + 1, style, indent);
      ElementPartsStep(lib, v, i, style, indent);
      var here := Spaces(style.Inner(indent)) + ValueText(lib, v.elems[i], style, style.Inner(indent));
      var more := ElementParts(lib, v, i + 1, style, indent);
      JoinedStep(here, more, style.Separator());
      Assembled(if i > 0 then style.Separator() else "", here, more, style.Separator(), close, i + 1 < |v.elems|);
    }
  }

  lemma Assembled(before: string, here: string, more: seq<string>, separator: string, close: string, last: bool)
    requires last <==> more != []
    requires Joined([here] + more, separator) == here + (if more == [] then "" else separator + Joined(more, separator))
    ensures before + here + ((if last then separator else "") + Joined(more, separator) + close) ==
      before + Joined([here] + more, separator) + close
  {
    var j := Joined(more, separator);
    if more == [] {
      assert j == "";
      assert before + here + ("" + "" + close) == before + (here + "") + close;
    } else {
      assert before + here + (separator + j + close) == before + (here + (separator + j)) + close;
    }
  }

  lemma NoParts(lib: Libc, v: Value, style: Style, indent: nat)
    requires v.Array?
    ensures Joined(ElementParts(lib, v, |v.elems|, style, indent), style.Separator()) == ""
  {
  }

  lemma ElementsStep(lib: Libc, v: Value, i: nat, style: Style, indent: nat)
    requires v.Array? && i <= |v.elems|
    ensures ElementsText(lib, v, i, style, indent) ==
      if i == |v.elems| then style.Break() + Spaces(indent) + "]"
      else
        (if i > 0 then style.Separator() else "")
        + (Spaces(style.Inner(indent)) + ValueText(lib, v.elems[i], style, style.Inner(indent)))
        + ElementsText(lib, v, i + 1, style, indent)
  {
    hide ValueText, Spaces;
    if i < |v.elems| {
      Regrouped(if i > 0 then style.Separator() else "", Spaces(style.Inner(indent)),
                ValueText(lib, v.elems[i], style, style.Inner(indent)), ElementsText(lib, v, i + 1, style, indent));
    }
  }

  lemma ElementPartsStep(lib: Libc, v: Value, i: nat, style: Style, indent: nat)
    requires v.Array? && i < |v.elems|
    ensures ElementParts(lib, v, i, style, indent) ==
      [Spaces(style.Inner(indent)) + ValueText(lib, v.elems[i], style, style.Inner(indent))]
      + ElementParts(lib, v, i + 1, style, indent)
    ensures ElementParts(lib, v, i + 1, style, indent) != [] <==> i + 1 < |v.elems|
  {
    hide ValueText, Spaces;
  }

  lemma {:induction false} MembersJoined(lib: Libc, v: Value, keys: seq<string>, i: nat, style: Style, indent: nat)
    requires v.Object? && i <= |keys| && forall k | k in keys :: k in v.members
    ensures MembersText(lib, v, keys, i, style, indent) ==
      (if 0 < i < |keys| then style.Separator() else "")
      + Joined(MemberParts(lib, v, keys, i, style, indent), style.Separator())
      + (style.Break() + Spaces(indent) + "}")
    decreases |keys| - i
  {
    var close := style.Break() + Spaces(indent) + "}";
    MembersStep(lib, v, keys, i, style, indent);
    hide *;
    if i == |keys| {
      NoMemberParts(lib, v, keys, style, indent);
      assert "" + "" + close == close;
    } else {
      MembersJoined(lib, v, keys, i + 1, style, indent);
      MemberPartsStep(lib, v, keys, i, style, indent);
      var here := Spaces(style.Inner(indent)) + "\"" + Escaped(keys[i]) + style.Colon()
        + ValueText(lib, v.members[keys[i]], style, style.Inner(indent));
      var more := MemberParts(lib, v, keys, i + 1, style, indent);
      JoinedStep(here, more, style.Separator());
      Assembled(if i > 0 then style.Separator() else "", here, more, style.Separator(), close, i + 1 < |keys|);
    }
  }

  lemma NoMemberParts(lib: Libc, v: Value, keys: seq<string>, style: Style, indent: nat)
    requires v.Object? && forall k | k in keys :: k in v.members
    ensures Joined(MemberParts(lib, v, keys, |keys|, style, indent), style.Separator()) == ""
  {
  }

  lemma MembersStep(lib: Libc, v: Value, keys: seq<string>, i: nat, style: Style, indent: nat)
    requires v.Object? && i <= |keys| && forall k | k in keys :: k in v.members
    ensures MembersText(lib, v, keys, i, style, indent) ==
      if i == |keys| then style.Break() + Spaces(indent) + "}"
      else
        (if i > 0 then style.Separator() else "")
        + (Spaces(style.Inner(indent)) + "\"" + Escaped(keys[i]) + style.Colon()
           + ValueText(lib, v.members[keys[i]], style, style.Inner(indent)))
        + MembersText(lib, v, keys, i + 1, style, indent)
  {
    if i < |keys| {
      MemberRegrouped(if i > 0 then style.Separator() else "", Spaces(style.Inner(indent)), Escaped(keys[i]), style.Colon(),
                      ValueText(lib, v.members[keys[i]], style, style.Inner(indent)), MembersText(lib, v, keys, i + 1, style, indent));
    }
    hide ValueText, Spaces, Escaped, Style.Colon, Style.Inner, Style.Separator;
  }

  lemma MemberRegrouped(a: string, b: string, key: string, colon: string, c: string, d: string)
    ensures (a + b) + ("\"" + key + colon) + c + d == a + (b + "\"" + key + colon + c) + d
  {
    assert (a + b) + ("\"" + key + colon) == a + (b + "\"" + key + colon);
  }

  lemma MemberPartsStep(lib: Libc, v: Value, keys: seq<string>, i: nat, style: Style, indent: nat)
    requires v.Object? && i < |keys| && forall k | k in keys :: k in v.members
    ensures MemberParts(lib, v, keys, i, style, indent) ==
      [Spaces(style.Inner(indent)) + "\"" + Escaped(keys[i]) + style.Colon()
       + ValueText(lib, v.members[keys[i]], style, style.Inner(indent))]
      + MemberParts(lib, v, keys, i + 1, style, indent)
    ensures MemberParts(lib, v, keys, i + 1, style, indent) != [] <==> i + 1 < |keys|
  {
    hide ValueText, Spaces, Escaped;
  }

  // ---------- the two layouts ----------

  /** The text of a value without any layout. */
  function Compact(lib: Libc, v: Value): string {
    Dumped(lib, v, -1)
  }

  /** The text of a value in a pretty-printed document, at the given indentation. */
  function Pretty(lib: Libc, v: Value, step: nat, indent: nat): string {
    ValueText(lib, v, Style(true, step), indent)
  }

  lemma JoinedSame(a: seq<string>, b: seq<string>, separator: string)
    requires |a| == |b| && forall i | 0 <= i < |a| :: a[i] == b[i]
    ensures Joined(a, separator) == Joined(b, separator)
  {
    assert a == b;
  }

  /** A compact array is its elements between commas and brackets, with no blank added. */
  lemma CompactArray(lib: Libc, xs: seq<Value>)
    ensures Compact(lib, Array(xs)) ==
      "[" + Joined(seq(|xs|, i requires 0 <= i < |xs| => Compact(lib, xs[i])), ",") + "]"
  {
    var v, style := Array(xs), Style(false, 0);
    ElementsJoined(lib, v, 0, style, 0);
    var parts := seq(|xs|, i requires 0 <= i < |xs| => Compact(lib, xs[i]));
    hide ElementsText;
    forall i | 0 <= i < |xs| ensures ElementParts(lib, v, 0, style, 0)[i] == parts[i] {
      assert Spaces(0) + ValueText(lib, xs[i], style, 0) == ValueText(lib, xs[i], style, 0);
    }
    assert Spaces(0) == "";
    JoinedSame(ElementParts(lib, v, 0, style, 0), parts, ",");
    hide Joined, ElementParts;
    if xs == [] {
      Nothing();
      assert "[" + Joined(parts, ",") + "]" == "[]";
    } else {
      var j := Joined(parts, ",");
      assert "[" + ("" + ("" + j + ("" + "" + "]"))) == "[" + j + "]";
    }
  }

  lemma Nothing()
    ensures Joined([], ",") == ""
  {
  }

  lemma ObjectIs(lib: Libc, m: map<string, Value>, style: Style, indent: nat)
    ensures ValueText(lib, Object(m), style, indent) ==
      if m == map[] then "{}"
      else "{" + (style.Break() + MembersText(lib, Object(m), Sorted(m.Keys), 0, style, indent))
  {
    hide MembersText, Sorted;
  }

  lemma CompactIs(lib: Libc, v: Value)
    ensures Compact(lib, v) == ValueText(lib, v, Style(false, 0), 0)
  {
    hide ValueText;
  }

  lemma PrettyIs(lib: Libc, v: Value, step: nat, indent: nat)
    ensures Pretty(lib, v, step, indent) == ValueText(lib, v, Style(true, step), indent)
  {
    hide ValueText;
  }

  /** The members with the given keys, without any layout. */
  function CompactMembers(lib: Libc, m: map<string, Value>, keys: seq<string>): seq<string>
    requires forall k | k in keys :: k in m
  {
    seq(|keys|, i requires 0 <= i < |keys| => "\"" + Escaped(keys[i]) + "\":" + Compact(lib, m[keys[i]]))
  }

  lemma CompactParts(lib: Libc, m: map<string, Value>, keys: seq<string>)
    requires forall k | k in keys :: k in m
    ensures MemberParts(lib, Object(m), keys, 0, Style(false, 0), 0) == CompactMembers(lib, m, keys)
  {
    hide ValueText, Escaped, Compact;
    var style := Style(false, 0);
    forall i | 0 <= i < |keys|
      ensures MemberParts(lib, Object(m), keys, 0, style, 0)[i] == CompactMembers(lib, m, keys)[i]
    {
      CompactIs(lib, m[keys[i]]);
      var t := ValueText(lib, m[keys[i]], style, 0);
      assert style.Inner(0) == 0 && style.Colon() == "\":" && keys[0 + i] == keys[i];
      assert MemberParts(lib, Object(m), keys, 0, style, 0)[i] == Spaces(0) + "\"" + Escaped(keys[i]) + "\":" + t;
      assert Spaces(0) + "\"" == "\"";
      assert CompactMembers(lib, m, keys)[i] == "\"" + Escaped(keys[i]) + "\":" + t;
    }
  }

  lemma SortedIn(m: map<string, Value>)
    ensures forall k | k in Sorted(m.Keys) :: k in m
  {
  }

  lemma CompactPunctuation()
    ensures Style(false, 0).Break() == "" && Style(false, 0).Separator() == "," && Spaces(0) == ""
  {
  }

  /** A compact object is its members in key order between commas and braces, with no blank added. */
  lemma CompactObject(lib: Libc, m: map<string, Value>)
    ensures forall k | k in Sorted(m.Keys) :: k in m
    ensures Compact(lib, Object(m)) == "{" + Joined(CompactMembers(lib, m, Sorted(m.Keys)), ",") + "}"
  {
    var style, keys := Style(false, 0), Sorted(m.Keys);
    hide *;
    CompactIs(lib, Object(m));
    SortedIn(m);
    ObjectIs(lib, m, style, 0);
    MembersJoined(lib, Object(m), keys, 0, style, 0);
    CompactParts(lib, m, keys);
    CompactPunctuation();
    var parts := CompactMembers(lib, m, keys);
    if m == map[] {
      NoKeys(m);
      NoMembers(lib, m);
      Nothing();
      assert "{" + "" + "}" == "{}";
    } else {
      CompactClosed("{", Joined(parts, ","), "}");
    }
  }

  lemma CompactClosed(open: string, j: string, close: string)
    ensures open + ("" + ("" + j + ("" + "" + close))) == open + j + close
  {
  }

  lemma NoKeys(m: map<string, Value>)
    requires m == map[]
    ensures Sorted(m.Keys) == []
  {
  }

  lemma NoMembers(lib: Libc, m: map<string, Value>)
    ensures CompactMembers(lib, m, []) == []
  {
  }

  /** A pretty-printed array has each element on its own line, one step further in. */
  lemma PrettyArray(lib: Libc, xs: seq<Value>, step: nat, indent: nat)
    ensures Pretty(lib, Array(xs), step, indent) ==
      if xs == [] then "[]"
      else "[\n" + Joined(seq(|xs|, i requires 0 <= i < |xs| =>
                                Spaces(indent + step) + Pretty(lib, xs[i], step, indent + step)), ",\n")
           + "\n" + Spaces(indent) + "]"
  {
    hide *;
    var style := Style(true, step);
    PrettyIs(lib, Array(xs), step, indent);
    ArrayIs(lib, xs, style, indent);
    if xs != [] {
      ElementsJoined(lib, Array(xs), 0, style, indent);
      PrettyElements(lib, xs, step, indent);
      PrettyPunctuation(step);
      var parts := seq(|xs|, i requires 0 <= i < |xs| => Spaces(indent + step) + Pretty(lib, xs[i], step, indent + step));
      Closed("[", Joined(parts, ",\n"), Spaces(indent), "]");
    }
  }

  lemma ArrayIs(lib: Libc, xs: seq<Value>, style: Style, indent: nat)
    ensures ValueText(lib, Array(xs), style, indent) ==
      if xs == [] then "[]" else "[" + (style.Break() + ElementsText(lib, Array(xs), 0, style, indent))
  {
    hide ElementsText;
  }

  lemma PrettyElements(lib: Libc, xs: seq<Value>, step: nat, indent: nat)
    ensures ElementParts(lib, Array(xs), 0, Style(true, step), indent) ==
      seq(|xs|, i requires 0 <= i < |xs| => Spaces(indent + step) + Pretty(lib, xs[i], step, indent + step))
  {
    hide ValueText, Spaces;
    var style := Style(true, step);
    assert style.Inner(indent) == indent + step;
    forall i | 0 <= i < |xs|
      ensures ElementParts(lib, Array(xs), 0, style, indent)[i] == Spaces(indent + step) + Pretty(lib, xs[i], step, indent + step)
    {
      PrettyIs(lib, xs[i], step, indent + step);
      assert xs[0 + i] == xs[i];
    }
  }

  lemma Closed(open: string, j: string, pad: string, close: string)
    ensures open + ("\n" + ("" + j + ("\n" + pad + close))) == open + "\n" + j + "\n" + pad + close
  {
  }

  /** The members with the given keys, each on its own line, with a blank after the colon. */
  function PrettyMembers(lib: Libc, m: map<string, Value>, keys: seq<string>, step: nat, indent: nat): seq<string>
    requires forall k | k in keys :: k in m
  {
    seq(|keys|, i requires 0 <= i < |keys| =>
      Spaces(indent) + "\"" + Escaped(keys[i]) + "\": " + Pretty(lib, m[keys[i]], step, indent))
  }

  lemma PrettyParts(lib: Libc, m: map<string, Value>, keys: seq<string>, step: nat, indent: nat)
    requires forall k | k in keys :: k in m
    ensures MemberParts(lib, Object(m), keys, 0, Style(true, step), indent) == PrettyMembers(lib, m, keys, step, indent + step)
  {
    hide ValueText, Escaped, Spaces;
  }

  lemma PrettyPunctuation(step: nat)
    ensures Style(true, step).Break() == "\n" && Style(true, step).Separator() == ",\n"
  {
  }

  /** So has a pretty-printed object each member. */
  lemma PrettyObject(lib: Libc, m: map<string, Value>, step: nat, indent: nat)
    ensures forall k | k in Sorted(m.Keys) :: k in m
    ensures Pretty(lib, Object(m), step, indent) ==
      if m == map[] then "{}"
      else "{\n" + Joined(PrettyMembers(lib, m, Sorted(m.Keys), step, indent + step), ",\n") + "\n" + Spaces(indent) + "}"
  {
    var style, keys := Style(true, step), Sorted(m.Keys);
    hide *;
    PrettyIs(lib, Object(m), step, indent);
    SortedIn(m);
    ObjectIs(lib, m, style, indent);
    if m != map[] {
      NotEmpty(m);
      MembersJoined(lib, Object(m), keys, 0, style, indent);
      PrettyParts(lib, m, keys, step, indent);
      PrettyPunctuation(step);
      Closed("{", Joined(PrettyMembers(lib, m, keys, step, indent + step), ",\n"), Spaces(indent), "}");
    }
  }

  lemma NotEmpty(m: map<string, Value>)
    requires m != map[]
    ensures Sorted(m.Keys) != []
  {
    assert |Sorted(m.Keys)| == |m.Keys|;
  }

  /** Scalars look the same in every layout: words, decimal numbers, and strings escaped in quotes. */
  lemma Scalars(lib: Libc, style: Style, indent: nat, b: bool, n: uint64, i: int64, s: string, f: real)
    ensures ValueText(lib, Null, style, indent) == "null"
    ensures ValueText(lib, Boolean(b), style, indent) == if b then "true" else "false"
    ensures ValueText(lib, Unsigned(n), style, indent) == Decimal(n)
    ensures ValueText(lib, Integer(i), style, indent) == if i < 0 then "-" + Decimal(0 - i) else Decimal(i)
    ensures ValueText(lib, String(s), style, indent) == "\"" + Escaped(s) + "\""
    ensures ValueText(lib, Float(f), style, indent) == lib.show(f)
    ensures Dumped(lib, Float(f), -1) == lib.show(f)
  {
  }

  /** A negative argument of `dump` asks for compact text, any other one for that many blanks a level. */
  lemma DumpStyles(lib: Libc, v: Value, indent: int)
    ensures indent < 0 ==> Dumped(lib, v, indent) == Compact(lib, v)
    ensures indent >= 0 ==> Dumped(lib, v, indent) == Pretty(lib, v, indent, 0)
  {
    hide ValueText;
  }
}
