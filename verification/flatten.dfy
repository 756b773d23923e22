/**
 `flatten` and `unflatten`: a value against the object that maps the pointer of each leaf to
 that leaf.
 */
module Flatten {
  import opened Results
  import opened Text
  import opened Json
  import opened Pointer

  // ---------- flatten ----------

  /** The object `flatten` accumulates in `result`, starting from what is already there. */
  function FlattenInto(reference: string, value: Value, result: map<string, Value>): map<string, Value>
    decreases value, 1, 0
  {
    match value
    case Array(xs) =>
      if xs == [] then result[reference := Null] else FlattenElements(reference, value, |xs|, result)
    case Object(m) =>
      if m == map[] then result[reference := Null]
      else FlattenMembers(reference, value, Sorted(m.Keys), result)
    case _ => result[reference := value]
  }

  /** The first `n` elements, in order. */
  function FlattenElements(reference: string, value: Value, n: nat, result: map<string, Value>): map<string, Value>
    requires value.Array? && n <= |value.elems|
    decreases value, 0, n
  {
    if n == 0 then result
    else
      var before := FlattenElements(reference, value, n - 1, result);
      FlattenInto(reference + "/" + Decimal(n - 1), value.elems[n - 1], before)
  }

  /** The members with the given keys, in order. */
  function FlattenMembers(reference: string, value: Value, keys: seq<string>, result: map<string, Value>): map<string, Value>
    requires value.Object? && forall k | k in keys :: k in value.members
    decreases value, 0, |keys|
  {
    if keys == [] then result
    else
      var last := keys[|keys| - 1];
      var before := FlattenMembers(reference, value, keys[..|keys| - 1], result);
      FlattenInto(reference + "/" + Escape(last), value.members[last], before)
  }

  function Flattened(j: Value): map<string, Value> {
    FlattenInto("", j, map[])
  }

  lemma FlattenMembersStep(reference: string, value: Value, keys: seq<string>, i: nat, result: map<string, Value>)
    requires value.Object? && i < |keys| && forall k | k in keys :: k in value.members
    ensures FlattenMembers(reference, value, keys[..i + 1], result) ==
      FlattenInto(reference + "/" + Escape(keys[i]), value.members[keys[i]],
        FlattenMembers(reference, value, keys[..i], result))
  {
    assert keys[..i + 1][..i] == keys[..i];
  }

  /** The recursion of `flatten`, with the loops over elements and members. */
  method FlattenTo(reference: string, value: Value, result0: map<string, Value>) returns (result: map<string, Value>)
    ensures result == FlattenInto(reference, value, result0)
    decreases value
  {
    result := result0;
    match value
    case Array(xs) =>
      if xs == [] {
        result := result[reference := Null];
      } else {
        for i := 0 to |xs|
          invariant result == FlattenElements(reference, value, i, result0)
        {
          result := FlattenTo(reference + "/" + Decimal(i), xs[i], result);
        }
      }
    case Object(m) =>
      if m == map[] {
        result := result[reference := Null];
      } else {
        var keys := Sorted(m.Keys);
        for i := 0 to |keys|
          invariant result == FlattenMembers(reference, value, keys[..i], result0)
        {
          FlattenMembersStep(reference, value, keys, i, result0);
          result := FlattenTo(reference + "/" + Escape(keys[i]), m[keys[i]], result);
        }
        assert keys[..|keys|] == keys;
      }
    case _ =>
      result := result[reference := value];
  }

  // ---------- the leaves of a value ----------

  /** A leaf with the pointer to it. An empty container counts as a null leaf. */
  datatype Entry = Entry(tokens: Tokens, leaf: Value)

  function Under(t: string, es: seq<Entry>): seq<Entry> {
    seq(|es|, i requires 0 <= i < |es| => Entry([t] + es[i].tokens, es[i].leaf))
  }

  /** All leaves, in the order `flatten` reaches them. */
  function Entries(j: Value): seq<Entry>
    decreases j, 1, 0
  {
    match j
    case Array(xs) => if xs == [] then [Entry([], Null)] else ElementEntries(j, |xs|)
    case Object(m) => if m == map[] then [Entry([], Null)] else MemberEntries(j, Sorted(m.Keys))
    case _ => [Entry([], j)]
  }

  function ElementEntries(j: Value, n: nat): seq<Entry>
    requires j.Array? && n <= |j.elems|
    decreases j, 0, n
  {
    if n == 0 then []
    else ElementEntries(j, n - 1) + Under(Decimal(n - 1), Entries(j.elems[n - 1]))
  }

  function MemberEntries(j: Value, keys: seq<string>): seq<Entry>
    requires j.Object? && forall k | k in keys :: k in j.members
    decreases j, 0, |keys|
  {
    if keys == [] then []
    else
      var last := keys[|keys| - 1];
      MemberEntries(j, keys[..|keys| - 1]) + Under(last, Entries(j.members[last]))
  }

  /** Record each leaf under its pointer, as `result[reference_string] = value` does. */
  function AddAll(result: map<string, Value>, at: Tokens, es: seq<Entry>): map<string, Value> {
    if es == [] then result
    else
      var last := es[|es| - 1];
      AddAll(result, at, es[..|es| - 1])[ToString(at + last.tokens) := last.leaf]
  }

  lemma {:induction false} AddAllConcat(result: map<string, Value>, at: Tokens, a: seq<Entry>, b: seq<Entry>)
    ensures AddAll(result, at, a + b) == AddAll(AddAll(result, at, a), at, b)
  {
    if b == [] {
      assert a + b == a;
    } else {
      assert (a + b)[..|a + b| - 1] == a + b[..|b| - 1];
      AddAllConcat(result, at, a, b[..|b| - 1]);
    }
  }

  lemma {:induction false} AddAllUnder(result: map<string, Value>, at: Tokens, t: string, es: seq<Entry>)
    ensures AddAll(result, at, Under(t, es)) == AddAll(result, at + [t], es)
  {
    if es != [] {
      var front, last := es[..|es| - 1], es[|es| - 1];
      assert Under(t, es)[..|es| - 1] == Under(t, front);
      AddAllUnder(result, at, t, front);
      assert at + ([t] + last.tokens) == at + [t] + last.tokens;
    }
  }

  lemma ToStringSnoc(at: Tokens, t: string)
    ensures ToString(at + [t]) == ToString(at) + "/" + Escape(t)
  {
    assert (at + [t])[..|at|] == at;
  }

  lemma {:induction false} EscapeDigits(s: string)
    requires AllDigits(s)
    ensures Escape(s) == s
  {
    if s != "" {
      assert IsDigit(s[0]);
      EscapeCons(s[0], s[1..]);
      EscapeDigits(s[1..]);
      assert s == [s[0]] + s[1..];
    }
  }

  /** `flatten` records exactly the leaves. */
  lemma {:induction false} FlattenAddsEntries(at: Tokens, j: Value, result: map<string, Value>)
    ensures FlattenInto(ToString(at), j, result) == AddAll(result, at, Entries(j))
    decreases j, 1, 0
  {
    assert at + [] == at;
    match j
    case Array(xs) =>
      if xs == [] { AddAllOne(result, at, Null); } else { ElementsAddEntries(at, j, |xs|, result); }
    case Object(m) =>
      if m == map[] { AddAllOne(result, at, Null); } else { MembersAddEntries(at, j, Sorted(m.Keys), result); }
    case _ => AddAllOne(result, at, j);
  }

  lemma AddAllOne(result: map<string, Value>, at: Tokens, leaf: Value)
    ensures AddAll(result, at, [Entry([], leaf)]) == result[ToString(at) := leaf]
  {
    assert [Entry([], leaf)][..0] == [];
    assert at + [] == at;
  }

  lemma {:induction false} ElementsAddEntries(at: Tokens, j: Value, n: nat, result: map<string, Value>)
    requires j.Array? && n <= |j.elems|
    ensures FlattenElements(ToString(at), j, n, result) == AddAll(result, at, ElementEntries(j, n))
    decreases j, 0, n
  {
    if n > 0 {
      var t, before := Decimal(n - 1), ElementEntries(j, n - 1);
      ElementsAddEntries(at, j, n - 1, result);
      EscapeDigits(t);
      ToStringSnoc(at, t);
      FlattenAddsEntries(at + [t], j.elems[n - 1], AddAll(result, at, before));
      AddAllUnder(AddAll(result, at, before), at, t, Entries(j.elems[n - 1]));
      AddAllConcat(result, at, before, Under(t, Entries(j.elems[n - 1])));
    }
  }

  lemma {:induction false} MembersAddEntries(at: Tokens, j: Value, keys: seq<string>, result: map<string, Value>)
    requires j.Object? && forall k | k in keys :: k in j.members
    ensures FlattenMembers(ToString(at), j, keys, result) == AddAll(result, at, MemberEntries(j, keys))
    decreases j, 0, |keys|
  {
    if keys != [] {
      var front, t := keys[..|keys| - 1], keys[|keys| - 1];
      var before := MemberEntries(j, front);
      MembersAddEntries(at, j, front, result);
      ToStringSnoc(at, t);
      FlattenAddsEntries(at + [t], j.members[t], AddAll(result, at, before));
      AddAllUnder(AddAll(result, at, before), at, t, Entries(j.members[t]));
      AddAllConcat(result, at, before, Under(t, Entries(j.members[t])));
    }
  }

  // ---------- a leaf is determined by its pointer ----------

  /** The element a pointer token selects in an array, if it is the decimal of an index. */
  function Index(token: string): Option<nat> {
    if AllDigits(token) && Decimal(DecimalValue(token)) == token then Some(DecimalValue(token)) else None
  }

  function LeafAt(j: Value, tokens: Tokens): Option<Value>
    decreases j
  {
    match j
    case Array(xs) =>
      if xs == [] then (if tokens == [] then Some(Null) else None)
      else if tokens == [] then None
      else (
        match Index(tokens[0])
        case Some(i) => if i < |xs| then LeafAt(xs[i], tokens[1..]) else None
        case None => None
      )
    case Object(m) =>
      if m == map[] then (if tokens == [] then Some(Null) else None)
      else if tokens != [] && tokens[0] in m then LeafAt(m[tokens[0]], tokens[1..])
      else None
    case _ => if tokens == [] then Some(j) else None
  }

  lemma InUnder(t: string, es: seq<Entry>, e: Entry)
    ensures e in Under(t, es) <==> e.tokens != [] && e.tokens[0] == t && Entry(e.tokens[1..], e.leaf) in es
  {
    if e in Under(t, es) {
      var i :| 0 <= i < |es| && Under(t, es)[i] == e;
      assert e.tokens[1..] == es[i].tokens;
    }
    if e.tokens != [] && e.tokens[0] == t && Entry(e.tokens[1..], e.leaf) in es {
      var i :| 0 <= i < |es| && es[i] == Entry(e.tokens[1..], e.leaf);
      assert e.tokens == [t] + es[i].tokens;
      assert Under(t, es)[i] == e;
    }
  }

  /** The entries of a value are exactly its leaves. */
  lemma {:induction false} EntriesAreLeaves(j: Value, e: Entry)
    ensures e in Entries(j) <==> LeafAt(j, e.tokens) == Some(e.leaf)
    decreases j, 1, 0
  {
    match j
    case Array(xs) => if xs != [] { ElementEntriesAreLeaves(j, |xs|, e); }
    case Object(m) => if m != map[] { MemberEntriesAreLeaves(j, Sorted(m.Keys), e); }
    case _ =>
  }

  lemma {:induction false} ElementEntriesAreLeaves(j: Value, n: nat, e: Entry)
    requires j.Array? && n <= |j.elems|
    ensures e in ElementEntries(j, n) <==>
      e.tokens != [] && Index(e.tokens[0]).Some? && Index(e.tokens[0]).value < n
      && LeafAt(j.elems[Index(e.tokens[0]).value], e.tokens[1..]) == Some(e.leaf)
    decreases j, 0, n
  {
    if n > 0 {
      ElementEntriesAreLeaves(j, n - 1, e);
      InUnder(Decimal(n - 1), Entries(j.elems[n - 1]), e);
      EntriesAreLeaves(j.elems[n - 1], Entry(if e.tokens == [] then [] else e.tokens[1..], e.leaf));
    }
  }

  lemma {:induction false} MemberEntriesAreLeaves(j: Value, keys: seq<string>, e: Entry)
    requires j.Object? && forall k | k in keys :: k in j.members
    ensures e in MemberEntries(j, keys) <==>
      e.tokens != [] && e.tokens[0] in keys && LeafAt(j.members[e.tokens[0]], e.tokens[1..]) == Some(e.leaf)
    decreases j, 0, |keys|
  {
    if keys != [] {
      var front, last := keys[..|keys| - 1], keys[|keys| - 1];
      MemberEntriesAreLeaves(j, front, e);
      InUnder(last, Entries(j.members[last]), e);
      EntriesAreLeaves(j.members[last], Entry(if e.tokens == [] then [] else e.tokens[1..], e.leaf));
      assert keys == front + [last];
    }
  }

  lemma {:induction false} AddAllLookup(es: seq<Entry>, j: Value)
    requires forall e | e in es :: LeafAt(j, e.tokens) == Some(e.leaf)
    ensures forall e | e in es :: ToString(e.tokens) in AddAll(map[], [], es) && AddAll(map[], [], es)[ToString(e.tokens)] == e.leaf
    ensures forall k | k in AddAll(map[], [], es) :: exists e :: e in es && ToString(e.tokens) == k
  {
    if es != [] {
      var front, last := es[..|es| - 1], es[|es| - 1];
      assert es == front + [last];
      AddAllLookup(front, j);
      assert [] + last.tokens == last.tokens;
      forall e | e in front && ToString(e.tokens) == ToString(last.tokens) ensures e == last {
        ToStringInjective(e.tokens, last.tokens);
      }
      forall k | k in AddAll(map[], [], es) ensures exists e :: e in es && ToString(e.tokens) == k {
        if k in AddAll(map[], [], front) {
          var e :| e in front && ToString(e.tokens) == k;
          assert e in es;
        } else {
          assert last in es;
        }
      }
    }
  }

  lemma FlattenedEntries(j: Value)
    ensures Flattened(j) == AddAll(map[], [], Entries(j))
  {
    FlattenAddsEntries([], j, map[]);
  }

  /** The flattened object holds every leaf under its pointer, and nothing else. */
  lemma FlattenExact(j: Value, tokens: Tokens)
    ensures LeafAt(j, tokens).Some? ==>
      ToString(tokens) in Flattened(j) && Flattened(j)[ToString(tokens)] == LeafAt(j, tokens).value
    ensures forall k | k in Flattened(j) :: exists q :: LeafAt(j, q).Some? && ToString(q) == k
  {
    FlattenedEntries(j);
    hide *;
    forall e ensures e in Entries(j) <==> LeafAt(j, e.tokens) == Some(e.leaf) { EntriesAreLeaves(j, e); }
    AddAllLookup(Entries(j), j);
    if LeafAt(j, tokens).Some? {
      assert Entry(tokens, LeafAt(j, tokens).value) in Entries(j);
    }
    forall k | k in Flattened(j) ensures exists q :: LeafAt(j, q).Some? && ToString(q) == k {
      var e :| e in Entries(j) && ToString(e.tokens) == k;
      assert LeafAt(j, e.tokens).Some?;
    }
  }
}
