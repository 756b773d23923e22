/**
 `unflatten`, and when it undoes `flatten`. Entries are replayed in the order of their pointer
 texts, so `/10` comes before `/2`, and the first entry below a null node decides whether the
 node becomes an array or an object.
 */
module Unflatten {
  import opened Results
  import opened Text
  import opened Json
  import opened Pointer
  import opened Flatten

  // ---------- unflatten ----------

  /** `operator[](idx)` on an array: the vector is filled up with nulls. */
  function Padded(xs: seq<Value>, size: nat): seq<Value> {
    if size <= |xs| then xs else xs + seq(size - |xs|, _ => Null)
  }

  /** `json_pointer(tokens).get_and_create(j) = leaf`. */
  function Put(j: Value, tokens: Tokens, leaf: Value): Result<Value>
    decreases |tokens|
  {
    if tokens == [] then Ok(leaf)
    else
      match j
      case Null =>
        var c :- Put(Null, tokens[1..], leaf);
        // a token "0" starts a new array, any other token a new object
        Ok(if tokens[0] == "0" then Array([c]) else Object(map[tokens[0] := c]))
      case Object(m) =>
        var c :- Put(if tokens[0] in m then m[tokens[0]] else Null, tokens[1..], leaf);
        Ok(Object(m[tokens[0] := c]))
      case Array(xs) =>
        var i :- Stoi(tokens[0]);
        // a negative index becomes a size no vector can have
        if i < 0 then Err(LengthError)
        else
          var ys := Padded(xs, i + 1);
          var c :- Put(ys[i], tokens[1..], leaf);
          Ok(Array(ys[i := c]))
      case _ => Err(DomainError)
  }

  /** The members of the flattened object in the order of its keys, each put into `j`. */
  function Replay(j: Value, m: map<string, Value>, keys: seq<string>): Result<Value>
    requires forall k | k in keys :: k in m
    decreases |keys|
  {
    if keys == [] then Ok(j)
    else if !m[keys[0]].IsPrimitive() then Err(DomainError)
    else
      var tokens :- Split(keys[0]);
      var j' :- Put(j, tokens, m[keys[0]]);
      Replay(j', m, keys[1..])
  }

  function Unflattened(value: Value): Result<Value> {
    if !value.Object? then Err(DomainError)
    else Replay(Null, value.members, Sorted(value.members.Keys))
  }

  lemma ReplayStep(j: Value, m: map<string, Value>, keys: seq<string>, i: nat)
    requires i < |keys| && forall k | k in keys :: k in m
    ensures var tokens := Split(keys[i]);
      Replay(j, m, keys[i..]) ==
        if !m[keys[i]].IsPrimitive() then Err(DomainError)
        else if tokens.Err? then Err(tokens.error)
        else
          var put := Put(j, tokens.value, m[keys[i]]);
          if put.Err? then put else Replay(put.value, m, keys[i + 1..])
  {
    assert keys[i..][1..] == keys[i + 1..];
  }

  /** The loop of `unflatten`. */
  method UnflattenLoop(value: Value) returns (r: Result<Value>)
    ensures r == Unflattened(value)
  {
    if !value.Object? {
      return Err(DomainError);
    }
    var m := value.members;
    var keys := Sorted(m.Keys);
    var result: Value := Null;
    for i := 0 to |keys|
      invariant Unflattened(value) == Replay(result, m, keys[i..])
    {
      ReplayStep(result, m, keys, i);
      if !m[keys[i]].IsPrimitive() {
        return Err(DomainError);
      }
      var tokens := SplitString(keys[i]);
      if tokens.Err? {
        return Err(tokens.error);
      }
      var put := Put(result, tokens.value, m[keys[i]]);
      if put.Err? {
        return put;
      }
      result := put.value;
    }
    return Ok(result);
  }

  // ---------- replaying a list of entries ----------

  function Fold(j: Value, es: seq<Entry>): Result<Value>
    decreases |es|
  {
    if es == [] then Ok(j)
    else
      var j' :- Put(j, es[0].tokens, es[0].leaf);
      Fold(j', es[1..])
  }

  /** The entries below token `t`, seen from there. */
  function Project(es: seq<Entry>, t: string): seq<Entry> {
    if es == [] then []
    else
      var rest := Project(es[1..], t);
      if es[0].tokens != [] && es[0].tokens[0] == t then [Entry(es[0].tokens[1..], es[0].leaf)] + rest
      else rest
  }

  function FirstTokens(es: seq<Entry>): set<string>
    requires AllNested(es)
  {
    set e | e in es :: e.tokens[0]
  }

  predicate AllNested(es: seq<Entry>) {
    forall e | e in es :: e.tokens != []
  }

  function MemberOr(m: map<string, Value>, k: string): Value {
    if k in m then m[k] else Null
  }

  function ElementOr(xs: seq<Value>, i: nat): Value {
    if i < |xs| then xs[i] else Null
  }

  /** Put one entry, then replay the rest. */
  function Then(put: Result<Value>, rest: seq<Entry>): Result<Value> {
    if put.Ok? then Fold(put.value, rest) else put
  }

  lemma FoldProjectStep(j: Value, es: seq<Entry>, k: string)
    requires es != [] && AllNested(es)
    ensures Fold(j, Project(es, k)) ==
      if es[0].tokens[0] == k then Then(Put(j, es[0].tokens[1..], es[0].leaf), Project(es[1..], k))
      else Fold(j, Project(es[1..], k))
  {
    var e := es[0];
    assert e in es;
    var here := Entry(e.tokens[1..], e.leaf);
    assert ([here] + Project(es[1..], k))[1..] == Project(es[1..], k);
  }

  lemma FirstTokensStep(es: seq<Entry>)
    requires es != [] && AllNested(es)
    ensures AllNested(es[1..]) && FirstTokens(es) == {es[0].tokens[0]} + FirstTokens(es[1..])
  {
    assert es == [es[0]] + es[1..];
    assert es[0] in es && forall e | e in es[1..] :: e in es;
  }

  /** The members of `r` are those of `m`, each with the entries below it replayed on its own. */
  ghost predicate MembersReplayed(m: map<string, Value>, es: seq<Entry>, r: map<string, Value>)
    requires AllNested(es)
  {
    && r.Keys == m.Keys + FirstTokens(es)
    && forall k | k in r :: Fold(MemberOr(m, k), Project(es, k)) == Ok(r[k])
  }

  ghost predicate MembersReplayable(m: map<string, Value>, es: seq<Entry>)
    requires AllNested(es)
  {
    forall k | k in FirstTokens(es) :: Fold(MemberOr(m, k), Project(es, k)).Ok?
  }

  lemma {:induction false} FoldObject(m: map<string, Value>, es: seq<Entry>)
    requires AllNested(es)
    ensures Fold(Object(m), es).Ok? <==> MembersReplayable(m, es)
    ensures Fold(Object(m), es).Ok? ==>
      Fold(Object(m), es).value.Object? && MembersReplayed(m, es, Fold(Object(m), es).value.members)
    decreases |es|
  {
    if es != [] {
      var e, rest := es[0], es[1..];
      assert e in es;
      var k0 := e.tokens[0];
      FirstTokensStep(es);
      var c := Put(MemberOr(m, k0), e.tokens[1..], e.leaf);
      assert Put(Object(m), e.tokens, e.leaf) == if c.Ok? then Ok(Object(m[k0 := c.value])) else c;
      if c.Ok? {
        FoldObject(m[k0 := c.value], rest);
        MembersStep(m, es, c.value);
      } else {
        FoldProjectStep(MemberOr(m, k0), es, k0);
        assert k0 in FirstTokens(es);
      }
    }
  }

  lemma MembersStep(m: map<string, Value>, es: seq<Entry>, c: Value)
    requires es != [] && AllNested(es) && AllNested(es[1..])
    requires Put(MemberOr(m, es[0].tokens[0]), es[0].tokens[1..], es[0].leaf) == Ok(c)
    ensures var m' := m[es[0].tokens[0] := c];
      && (MembersReplayable(m', es[1..]) <==> MembersReplayable(m, es))
      && forall r :: MembersReplayed(m', es[1..], r) ==> MembersReplayed(m, es, r)
  {
    var k0, rest := es[0].tokens[0], es[1..];
    var m' := m[k0 := c];
    FirstTokensStep(es);
    forall k ensures Fold(MemberOr(m', k), Project(rest, k)) == Fold(MemberOr(m, k), Project(es, k)) {
      FoldProjectStep(MemberOr(m, k), es, k);
    }
    if k0 !in FirstTokens(rest) {
      NothingBelow(rest, k0);
    }
  }

  lemma {:induction false} NothingBelow(es: seq<Entry>, k: string)
    requires AllNested(es) && k !in FirstTokens(es)
    ensures Project(es, k) == []
  {
    if es != [] {
      FirstTokensStep(es);
      NothingBelow(es[1..], k);
    }
  }

  predicate Indexed(es: seq<Entry>) {
    forall e | e in es :: e.tokens != [] && Index(e.tokens[0]).Some? && Index(e.tokens[0]).value <= INT_MAX
  }

  /** The length an array grows to. */
  function GrownTo(n: nat, es: seq<Entry>): nat
    requires Indexed(es)
    decreases |es|
  {
    if es == [] then n
    else
      assert es[0] in es && forall e | e in es[1..] :: e in es;
      var i := Index(es[0].tokens[0]).value;
      GrownTo(if i < n then n else i + 1, es[1..])
  }

  lemma {:induction false} GrownToBounds(n: nat, es: seq<Entry>)
    requires Indexed(es)
    ensures n <= GrownTo(n, es)
    ensures forall e | e in es :: Index(e.tokens[0]).value < GrownTo(n, es)
    ensures GrownTo(n, es) == n || exists e :: e in es && Index(e.tokens[0]).value + 1 == GrownTo(n, es)
    decreases |es|
  {
    if es != [] {
      assert es == [es[0]] + es[1..];
      assert es[0] in es && forall e | e in es[1..] :: e in es;
      var i := Index(es[0].tokens[0]).value;
      GrownToBounds(if i < n then n else i + 1, es[1..]);
    }
  }

  ghost predicate ElementsReplayed(xs: seq<Value>, es: seq<Entry>, r: seq<Value>)
    requires Indexed(es)
  {
    && |r| == GrownTo(|xs|, es)
    && forall i | 0 <= i < |r| :: Fold(ElementOr(xs, i), Project(es, Decimal(i))) == Ok(r[i])
  }

  ghost predicate ElementsReplayable(xs: seq<Value>, es: seq<Entry>)
    requires Indexed(es)
  {
    forall i | 0 <= i < GrownTo(|xs|, es) :: Fold(ElementOr(xs, i), Project(es, Decimal(i))).Ok?
  }

  lemma PutElement(xs: seq<Value>, tokens: Tokens, leaf: Value)
    requires tokens != [] && Index(tokens[0]).Some? && Index(tokens[0]).value <= INT_MAX
    ensures var i := Index(tokens[0]).value;
      var c := Put(ElementOr(xs, i), tokens[1..], leaf);
      Put(Array(xs), tokens, leaf) == if c.Ok? then Ok(Array(Padded(xs, i + 1)[i := c.value])) else c
  {
    StoiOfDecimal(Index(tokens[0]).value);
  }

  /** Replaying below an array replays each element on its own, whatever the order of the indices. */
  lemma {:induction false} FoldArray(xs: seq<Value>, es: seq<Entry>)
    requires Indexed(es)
    ensures Fold(Array(xs), es).Ok? <==> ElementsReplayable(xs, es)
    ensures Fold(Array(xs), es).Ok? ==>
      Fold(Array(xs), es).value.Array? && ElementsReplayed(xs, es, Fold(Array(xs), es).value.elems)
    decreases |es|
  {
    if es != [] {
      var e, rest := es[0], es[1..];
      assert e in es && forall x | x in rest :: x in es;
      var i := Index(e.tokens[0]).value;
      var c := Put(ElementOr(xs, i), e.tokens[1..], e.leaf);
      PutElement(xs, e.tokens, e.leaf);
      GrownToBounds(|xs|, es);
      if c.Ok? {
        FoldArray(Padded(xs, i + 1)[i := c.value], rest);
        ElementsStep(xs, es, c.value);
      } else {
        FoldProjectStep(ElementOr(xs, i), es, Decimal(i));
        assert Fold(ElementOr(xs, i), Project(es, Decimal(i))).Err?;
      }
    }
  }

  lemma ElementsStep(xs: seq<Value>, es: seq<Entry>, c: Value)
    requires es != [] && Indexed(es) && Indexed(es[1..]) && es[0] in es
    requires Put(ElementOr(xs, Index(es[0].tokens[0]).value), es[0].tokens[1..], es[0].leaf) == Ok(c)
    ensures var i := Index(es[0].tokens[0]).value;
      var xs' := Padded(xs, i + 1)[i := c];
      && (ElementsReplayable(xs', es[1..]) <==> ElementsReplayable(xs, es))
      && forall r :: ElementsReplayed(xs', es[1..], r) ==> ElementsReplayed(xs, es, r)
  {
    var i, rest := Index(es[0].tokens[0]).value, es[1..];
    var xs' := Padded(xs, i + 1)[i := c];
    forall n: nat ensures Fold(ElementOr(xs', n), Project(rest, Decimal(n))) == Fold(ElementOr(xs, n), Project(es, Decimal(n))) {
      FoldProjectStep(ElementOr(xs, n), es, Decimal(n));
      if Decimal(n) == Decimal(i) { DecimalInjective(n, i); }
    }
  }

  /** An array never turns back into an object. */
  lemma {:induction false} FoldStaysArray(xs: seq<Value>, es: seq<Entry>)
    requires AllNested(es) && Fold(Array(xs), es).Ok?
    ensures Fold(Array(xs), es).value.Array?
    decreases |es|
  {
    if es != [] {
      assert es[0] in es && forall e | e in es[1..] :: e in es;
      var j := Put(Array(xs), es[0].tokens, es[0].leaf).value;
      FoldStaysArray(j.elems, es[1..]);
    }
  }

  /** Below an array every token must be a number std::stoi accepts. */
  lemma {:induction false} FoldNeedsIndices(xs: seq<Value>, es: seq<Entry>)
    requires AllNested(es) && Fold(Array(xs), es).Ok?
    ensures forall e | e in es :: Stoi(e.tokens[0]).Ok?
    decreases |es|
  {
    if es != [] {
      assert es == [es[0]] + es[1..];
      assert es[0] in es && forall e | e in es[1..] :: e in es;
      var j := Put(Array(xs), es[0].tokens, es[0].leaf).value;
      FoldNeedsIndices(j.elems, es[1..]);
    }
  }

  // ---------- the entries in the order of their pointers ----------

  ghost predicate InOrder(es: seq<Entry>) {
    forall i, k | 0 <= i < k < |es| :: Less(ToString(es[i].tokens), ToString(es[k].tokens))
  }

  ghost predicate Enumerates(es: seq<Entry>, j: Value) {
    InOrder(es) && forall e :: e in es <==> LeafAt(j, e.tokens) == Some(e.leaf)
  }

  lemma {:induction false} ProjectIn(es: seq<Entry>, t: string, e: Entry)
    ensures e in Project(es, t) <==> Entry([t] + e.tokens, e.leaf) in es
  {
    if es != [] {
      var x := es[0];
      assert es == [x] + es[1..];
      ProjectIn(es[1..], t, e);
      if x == Entry([t] + e.tokens, e.leaf) {
        assert x.tokens[1..] == e.tokens;
      }
      if x.tokens != [] && x.tokens[0] == t && e == Entry(x.tokens[1..], x.leaf) {
        assert [t] + e.tokens == x.tokens;
      }
    }
  }

  lemma {:induction false} ProjectInOrder(es: seq<Entry>, t: string)
    requires InOrder(es)
    ensures InOrder(Project(es, t))
  {
    if es != [] {
      var x, rest := es[0], Project(es[1..], t);
      ProjectInOrder(es[1..], t);
      if x.tokens != [] && x.tokens[0] == t {
        var here := Entry(x.tokens[1..], x.leaf);
        forall e | e in rest ensures Less(ToString(here.tokens), ToString(e.tokens)) {
          ProjectIn(es[1..], t, e);
          assert x.tokens == [t] + here.tokens;
          ToStringCons(t, here.tokens);
          ToStringCons(t, e.tokens);
          LessPrefix("/" + Escape(t), ToString(here.tokens), ToString(e.tokens));
        }
        assert Project(es, t) == [here] + rest;
      }
    }
  }

  lemma ElementEnumerated(xs: seq<Value>, es: seq<Entry>, i: nat)
    requires Enumerates(es, Array(xs)) && i < |xs|
    ensures Enumerates(Project(es, Decimal(i)), xs[i])
  {
    ProjectInOrder(es, Decimal(i));
    forall e ensures e in Project(es, Decimal(i)) <==> LeafAt(xs[i], e.tokens) == Some(e.leaf) {
      ProjectIn(es, Decimal(i), e);
      assert ([Decimal(i)] + e.tokens)[1..] == e.tokens;
      assert LeafAt(Array(xs), [Decimal(i)] + e.tokens) == LeafAt(xs[i], e.tokens);
    }
  }

  lemma MemberEnumerated(m: map<string, Value>, es: seq<Entry>, k: string)
    requires Enumerates(es, Object(m)) && k in m
    ensures Enumerates(Project(es, k), m[k])
  {
    ProjectInOrder(es, k);
    forall e ensures e in Project(es, k) <==> LeafAt(m[k], e.tokens) == Some(e.leaf) {
      ProjectIn(es, k, e);
      assert ([k] + e.tokens)[1..] == e.tokens;
      assert LeafAt(Object(m), [k] + e.tokens) == LeafAt(m[k], e.tokens);
    }
  }

  /** Every value has a leaf; it sits at the root exactly for primitives and empty containers. */
  lemma {:induction false} LeafExists(j: Value) returns (e: Entry)
    ensures LeafAt(j, e.tokens) == Some(e.leaf)
  {
    match j
    case Array(xs) =>
      if xs == [] {
        e := Entry([], Null);
      } else {
        e := LeafExists(xs[0]);
        e := Entry([Decimal(0)] + e.tokens, e.leaf);
      }
    case Object(m) =>
      if m == map[] {
        e := Entry([], Null);
      } else {
        var k :| k in m;
        e := LeafExists(m[k]);
        e := Entry([k] + e.tokens, e.leaf);
      }
    case _ =>
      e := Entry([], j);
  }

  // ---------- when unflatten undoes flatten ----------

  /** Do the pointers below member "0" have a further token? */
  predicate HasInnerLeaves(j: Value) {
    (j.Array? && j.elems != []) || (j.Object? && j.members != map[])
  }

  /** Do the pointers below member `k` come after those below member "0"? */
  predicate AfterZero(m: map<string, Value>, k: string)
    requires "0" in m
  {
    var e := Escape(k);
    && e != "" && '0' <= e[0]
    && (e[0] == '0' && |e| > 1 && HasInnerLeaves(m["0"]) ==> '/' < e[1])
  }

  /** The first entry below the object has the token "0", so it is rebuilt as an array. */
  predicate ZeroLeads(m: map<string, Value>) {
    "0" in m && forall k | k in m && k != "0" :: AfterZero(m, k)
  }

  /** No empty array or object, no object led by the key "0", and every index within std::stoi's range. */
  predicate Restorable(j: Value) {
    match j
    case Array(xs) => 0 < |xs| <= INT_MAX + 1 && forall x | x in xs :: Restorable(x)
    case Object(m) => m != map[] && !ZeroLeads(m) && forall k | k in m :: Restorable(m[k])
    case _ => true
  }

  lemma ToStringHead(tokens: Tokens)
    requires tokens != []
    ensures ToString(tokens) == "/" + (Escape(tokens[0]) + ToString(tokens[1..]))
    ensures if tokens[1..] == [] then ToString(tokens[1..]) == "" else ToString(tokens[1..]) != "" && ToString(tokens[1..])[0] == '/'
  {
    hide *;
    assert tokens == [tokens[0]] + tokens[1..];
    ToStringCons(tokens[0], tokens[1..]);
    Regroup("/", Escape(tokens[0]), ToString(tokens[1..]));
    if tokens[1..] != [] {
      var rest := tokens[1..];
      assert rest == [rest[0]] + rest[1..];
      ToStringCons(rest[0], rest[1..]);
    } else {
      assert tokens[1..] + [] == tokens[1..];
      ToStringEmpty();
    }
  }

  lemma ToStringEmpty()
    ensures ToString([]) == ""
  {
  }

  /** The text after "/" of a pointer led by "0" against one led by a token that does not start with "0". */
  lemma ZeroTextAgainst(a: string, e: string, b: string)
    requires (e == "" || e[0] != '0') && (b == "" || b[0] == '/')
    ensures if e != "" && '0' < e[0] then Less("0" + a, e + b) else Less(e + b, "0" + a)
  {
    var x, y := "0" + a, e + b;
    assert x[0] == '0';
    if e == "" {
      assert y == b;
    } else {
      assert y[0] == e[0];
    }
    LessByHead(x, y);
  }

  lemma SharedZero(a: string, b: string)
    requires b != "" && b[0] != '/' && (a == "" || a[0] == '/')
    ensures if a != "" ==> '/' < b[0] then Less("0" + a, "0" + b) else Less("0" + b, "0" + a)
  {
    LessByHead(a, b);
    LessPrefix("0", a, b);
    LessPrefix("0", b, a);
  }

  /** Texts with different first characters compare by them; the empty text comes first. */
  lemma LessByHead(a: string, b: string)
    requires b == "" || a == "" || a[0] != b[0]
    ensures Less(a, b) <==> b != "" && (a == "" || a[0] < b[0])
    ensures Less(b, a) <==> a != "" && (b == "" || b[0] < a[0])
  {
  }

  lemma ZeroPointers(e: string, a: string, b: string)
    requires e != "0" && '/' !in e
    requires (a == "" || a[0] == '/') && (b == "" || b[0] == '/')
    ensures if e != "" && '0' <= e[0] && (e[0] == '0' && |e| > 1 && a != "" ==> '/' < e[1])
      then Less("/" + ("0" + a), "/" + (e + b)) else Less("/" + (e + b), "/" + ("0" + a))
  {
    LessPrefix("/", "0" + a, e + b);
    LessPrefix("/", e + b, "0" + a);
    hide Less;
    if e != "" && e[0] == '0' {
      assert |e| == 1 ==> e == "0";
      assert e[1] in e;
      assert e + b == "0" + (e[1..] + b);
      SharedZero(a, e[1..] + b);
    } else {
      ZeroTextAgainst(a, e, b);
    }
  }

  lemma EscapedZero(k: string)
    requires k != "0"
    ensures Escape("0") == "0" && Escape(k) != "0" && '/' !in Escape(k)
  {
    EscapeDigits("0");
    EscapeIsWellFormed(k);
    UnescapeEscape(k);
    UnescapeEscape("0");
  }

  lemma InnerLeaves(j: Value, tokens: Tokens)
    requires LeafAt(j, tokens).Some?
    ensures HasInnerLeaves(j) <==> tokens != []
  {
  }

  /** `AfterZero` compares whole pointers, although it looks at two characters only. */
  lemma ZeroAgainst(m: map<string, Value>, zero: Entry, k: string, other: Entry)
    requires "0" in m && k in m && k != "0"
    requires zero.tokens != [] && zero.tokens[0] == "0" && LeafAt(m["0"], zero.tokens[1..]).Some?
    requires other.tokens != [] && other.tokens[0] == k
    ensures if AfterZero(m, k) then Less(ToString(zero.tokens), ToString(other.tokens))
      else Less(ToString(other.tokens), ToString(zero.tokens))
  {
    hide Less, LeafAt, Escape, ToString, HasInnerLeaves;
    EscapedZero(k);
    ToStringHead(zero.tokens);
    ToStringHead(other.tokens);
    InnerLeaves(m["0"], zero.tokens[1..]);
    ZeroPointers(Escape(k), ToString(zero.tokens[1..]), ToString(other.tokens[1..]));
  }

  /** The first entry of an object has the token "0" exactly when "0" leads. */
  lemma FirstEntry(m: map<string, Value>, es: seq<Entry>)
    requires m != map[] && Enumerates(es, Object(m))
    ensures AllNested(es) && es != []
    ensures es[0].tokens[0] == "0" <==> ZeroLeads(m)
    ensures FirstTokens(es) == m.Keys
  {
    forall e | e in es ensures e.tokens != [] && e.tokens[0] in m && LeafAt(m[e.tokens[0]], e.tokens[1..]).Some? {
    }
    forall k | k in m ensures k in FirstTokens(es) {
      var e := EntryBelow(m, es, k);
    }
    assert es[0] in es;
    var first := es[0].tokens[0];
    if "0" in m {
      var zero := EntryBelow(m, es, "0");
      hide AfterZero, ToString, LeafAt;
      if first == "0" {
        forall k | k in m && k != "0" ensures AfterZero(m, k) {
          var o := EntryBelow(m, es, k);
          ZeroAgainst(m, es[0], k, o);
          LessTrichotomy(ToString(es[0].tokens), ToString(o.tokens));
        }
      } else {
        ZeroAgainst(m, zero, first, es[0]);
        LessTrichotomy(ToString(es[0].tokens), ToString(zero.tokens));
      }
    }
  }

  lemma EntryBelow(m: map<string, Value>, es: seq<Entry>, k: string) returns (e: Entry)
    requires Enumerates(es, Object(m)) && k in m
    ensures e in es && e.tokens != [] && e.tokens[0] == k && LeafAt(m[k], e.tokens[1..]).Some?
  {
    var inner := LeafExists(m[k]);
    e := Entry([k] + inner.tokens, inner.leaf);
    assert e.tokens[1..] == inner.tokens;
  }

  lemma {:induction false} DigitsAfterZero(n: nat)
    requires n > 0
    ensures '0' < Decimal(n)[0]
  {
    assert IsDigit(Decimal(n)[0]);
  }

  lemma ZeroBeforeIndex(i: nat, zero: Tokens, other: Tokens)
    requires i > 0 && zero != [] && zero[0] == Decimal(0) && other != [] && other[0] == Decimal(i)
    ensures Less(ToString(zero), ToString(other))
  {
    var a, b := Decimal(0) + ToString(zero[1..]), Decimal(i) + ToString(other[1..]);
    DigitsAfterZero(i);
    EscapeDigits(Decimal(0));
    EscapeDigits(Decimal(i));
    ToStringHead(zero);
    ToStringHead(other);
    assert a[0] == '0' && b[0] == Decimal(i)[0];
    LessPrefix("/", a, b);
  }

  /** The first entry of an array has the token "0", and every index occurs. */
  lemma FirstElement(xs: seq<Value>, es: seq<Entry>)
    requires xs != [] && Enumerates(es, Array(xs))
    ensures AllNested(es) && es != [] && es[0].tokens[0] == "0"
    ensures forall i | 0 <= i < |xs| :: exists e :: e in es && e.tokens[0] == Decimal(i)
    ensures |xs| <= INT_MAX + 1 ==> Indexed(es) && GrownTo(0, es) == |xs|
  {
    forall e | e in es
      ensures e.tokens != [] && Index(e.tokens[0]).Some? && Index(e.tokens[0]).value < |xs|
    {
    }
    forall i | 0 <= i < |xs| ensures exists e :: e in es && e.tokens[0] == Decimal(i) {
      var inner := LeafExists(xs[i]);
      assert ([Decimal(i)] + inner.tokens)[1..] == inner.tokens;
      assert Entry([Decimal(i)] + inner.tokens, inner.leaf) in es;
    }
    if |xs| <= INT_MAX + 1 {
      GrownToBounds(0, es);
      var last :| last in es && last.tokens[0] == Decimal(|xs| - 1);
    }
    var zero :| zero in es && zero.tokens[0] == Decimal(0);
    assert es[0] in es;
    var i := Index(es[0].tokens[0]).value;
    if i > 0 {
      ZeroBeforeIndex(i, zero.tokens, es[0].tokens);
      LessTrichotomy(ToString(es[0].tokens), ToString(zero.tokens));
    }
  }

  /** Replaying the leaves of `j` in pointer order gives `j` back exactly when `j` is restorable. */
  lemma {:induction false} ReplayRestores(j: Value, es: seq<Entry>)
    requires Enumerates(es, j)
    ensures Fold(Null, es) == Ok(j) <==> Restorable(j)
    decreases j
  {
    match j
    case Array(xs) =>
      if xs == [] { OnlyRoot(j, Null, es); } else { ArrayRestores(xs, es); }
    case Object(m) =>
      if m == map[] { OnlyRoot(j, Null, es); } else { ObjectRestores(m, es); }
    case _ =>
      OnlyRoot(j, j, es);
  }

  lemma OnlyRoot(j: Value, leaf: Value, es: seq<Entry>)
    requires Enumerates(es, j)
    requires forall q :: LeafAt(j, q) == if q == [] then Some(leaf) else None
    ensures Fold(Null, es) == Ok(leaf)
  {
    assert Entry([], leaf) in es;
    if |es| > 1 {
      assert es[0] in es && es[1] in es;
      LessTrichotomy(ToString(es[0].tokens), ToString(es[1].tokens));
    }
    assert es == [Entry([], leaf)];
    assert Fold(leaf, es[1..]) == Ok(leaf);
  }

  lemma ArrayRestores(xs: seq<Value>, es: seq<Entry>)
    requires xs != [] && Enumerates(es, Array(xs))
    ensures Fold(Null, es) == Ok(Array(xs)) <==> Restorable(Array(xs))
    decreases xs
  {
    FirstElement(xs, es);
    NullBecomesArray(es);
    if |xs| > INT_MAX + 1 {
      var e :| e in es && e.tokens[0] == Decimal(INT_MAX + 1);
      StoiOfDecimal(INT_MAX + 1);
      if Fold(Array([]), es).Ok? { FoldNeedsIndices([], es); }
      return;
    }
    FoldArray([], es);
    forall i | 0 <= i < |xs|
      ensures Fold(Null, Project(es, Decimal(i))) == Ok(xs[i]) <==> Restorable(xs[i])
    {
      ElementEnumerated(xs, es, i);
      ReplayRestores(xs[i], Project(es, Decimal(i)));
    }
    if Restorable(Array(xs)) {
      assert ElementsReplayable([], es);
      var r := Fold(Array([]), es).value.elems;
      assert forall i | 0 <= i < |xs| :: Ok(r[i]) == Ok(xs[i]);
      assert r == xs;
    } else {
      var x :| x in xs && !Restorable(x);
      var i :| 0 <= i < |xs| && xs[i] == x;
      assert Fold(Null, Project(es, Decimal(i))) != Ok(xs[i]);
    }
  }

  /** On a null node the token "0" does what it does on an empty array, any other what it does on an empty object. */
  lemma NullBecomesArray(es: seq<Entry>)
    requires es != [] && es[0].tokens != []
    ensures Fold(Null, es) == Fold(if es[0].tokens[0] == "0" then Array([]) else Object(map[]), es)
  {
    var tokens, leaf := es[0].tokens, es[0].leaf;
    if tokens[0] == "0" {
      StoiOfDecimal(0);
      assert Padded([], 1) == [Null];
      var c := Put(Null, tokens[1..], leaf);
      assert c.Ok? ==> [Null][0 := c.value] == [c.value];
      assert Put(Null, tokens, leaf) == Put(Array([]), tokens, leaf);
    }
  }

  lemma ObjectRestores(m: map<string, Value>, es: seq<Entry>)
    requires m != map[] && Enumerates(es, Object(m))
    ensures Fold(Null, es) == Ok(Object(m)) <==> Restorable(Object(m))
    decreases Object(m), 0
  {
    FirstEntry(m, es);
    NullBecomesArray(es);
    if ZeroLeads(m) {
      if Fold(Array([]), es).Ok? { FoldStaysArray([], es); }
    } else {
      forall k | k in m ensures Fold(Null, Project(es, k)) == Ok(m[k]) <==> Restorable(m[k]) {
        MemberEnumerated(m, es, k);
        ReplayRestores(m[k], Project(es, k));
      }
      ObjectRebuilt(m, es);
    }
  }

  /** An object is rebuilt exactly when each of its members is. */
  lemma ObjectRebuilt(m: map<string, Value>, es: seq<Entry>)
    requires AllNested(es) && FirstTokens(es) == m.Keys
    ensures Fold(Object(map[]), es) == Ok(Object(m)) <==> forall k | k in m :: Fold(Null, Project(es, k)) == Ok(m[k])
  {
    FoldObject(map[], es);
    assert forall k :: MemberOr(map[], k) == Null;
    if forall k | k in m :: Fold(Null, Project(es, k)) == Ok(m[k]) {
      assert MembersReplayable(map[], es);
      var r := Fold(Object(map[]), es).value.members;
      forall k | k in m ensures r[k] == m[k] {
        assert Ok(r[k]) == Ok(m[k]);
      }
      assert r == m;
    }
  }

  // ---------- what is lost is lost under operator==, too ----------

  /** The result is there, and `operator==` finds it equal. */
  predicate Back(r: Result<Value>, j: Value) {
    r.Ok? && Eq(r.value, j)
  }

  /** A replayed value that merely equals the original is the original. */
  lemma {:induction false} EqualIsRestorable(j: Value, es: seq<Entry>)
    requires Enumerates(es, j) && Back(Fold(Null, es), j)
    ensures Restorable(j)
    decreases j
  {
    match j
    case Array(xs) =>
      if xs == [] { OnlyRoot(j, Null, es); } else { EqualArrayIsRestorable(xs, es); }
    case Object(m) =>
      if m == map[] { OnlyRoot(j, Null, es); } else { EqualObjectIsRestorable(m, es); }
    case _ =>
  }

  lemma EqualArrayIsRestorable(xs: seq<Value>, es: seq<Entry>)
    requires xs != [] && Enumerates(es, Array(xs)) && Back(Fold(Null, es), Array(xs))
    ensures Restorable(Array(xs))
    decreases xs
  {
    FirstElement(xs, es);
    NullBecomesArray(es);
    if |xs| > INT_MAX + 1 {
      var e :| e in es && e.tokens[0] == Decimal(INT_MAX + 1);
      StoiOfDecimal(INT_MAX + 1);
      FoldNeedsIndices([], es);
      assert false;
    } else {
      FoldArray([], es);
      forall i | 0 <= i < |xs| ensures Restorable(xs[i]) {
        ElementEnumerated(xs, es, i);
        EqualIsRestorable(xs[i], Project(es, Decimal(i)));
      }
    }
  }

  lemma EqualObjectIsRestorable(m: map<string, Value>, es: seq<Entry>)
    requires m != map[] && Enumerates(es, Object(m)) && Back(Fold(Null, es), Object(m))
    ensures Restorable(Object(m))
    decreases Object(m), 0
  {
    FirstEntry(m, es);
    NullBecomesArray(es);
    if ZeroLeads(m) {
      FoldStaysArray([], es);
      assert false;
    } else {
      FoldObject(map[], es);
      assert forall k :: MemberOr(map[], k) == Null;
      forall k | k in m ensures Restorable(m[k]) {
        MemberEnumerated(m, es, k);
        EqualIsRestorable(m[k], Project(es, k));
      }
    }
  }

  // ---------- the theorem on the flattened object ----------

  /** The members of the flattened object, as `unflatten` visits them. */
  function InKeyOrder(m: map<string, Value>, keys: seq<string>): seq<Entry>
    requires forall k | k in keys :: k in m && Split(k).Ok?
  {
    seq(|keys|, i requires 0 <= i < |keys| => Entry(Split(keys[i]).value, m[keys[i]]))
  }

  lemma {:induction false} ReplayIsFold(j: Value, m: map<string, Value>, keys: seq<string>)
    requires forall k | k in keys :: k in m && Split(k).Ok? && m[k].IsPrimitive()
    ensures Replay(j, m, keys) == Fold(j, InKeyOrder(m, keys))
    decreases |keys|
  {
    if keys != [] {
      assert keys[0] in keys;
      assert InKeyOrder(m, keys)[1..] == InKeyOrder(m, keys[1..]);
      var put := Put(j, Split(keys[0]).value, m[keys[0]]);
      if put.Ok? {
        ReplayIsFold(put.value, m, keys[1..]);
      }
    }
  }

  lemma {:induction false} LeavesArePrimitive(j: Value, tokens: Tokens)
    requires LeafAt(j, tokens).Some?
    ensures LeafAt(j, tokens).value.IsPrimitive()
  {
    match j
    case Array(xs) => if xs != [] { LeavesArePrimitive(xs[Index(tokens[0]).value], tokens[1..]); }
    case Object(m) => if m != map[] { LeavesArePrimitive(m[tokens[0]], tokens[1..]); }
    case _ =>
  }

  lemma FlattenedKey(j: Value, k: string)
    requires k in Flattened(j)
    ensures Split(k).Ok? && ToString(Split(k).value) == k
    ensures LeafAt(j, Split(k).value) == Some(Flattened(j)[k]) && Flattened(j)[k].IsPrimitive()
  {
    FlattenExact(j, []);
    var q :| LeafAt(j, q).Some? && ToString(q) == k;
    SplitToString(q);
    FlattenExact(j, q);
    LeavesArePrimitive(j, q);
  }

  lemma FlattenedEnumerates(j: Value)
    ensures forall k | k in Flattened(j) :: Split(k).Ok? && Flattened(j)[k].IsPrimitive()
    ensures Enumerates(InKeyOrder(Flattened(j), Sorted(Flattened(j).Keys)), j)
  {
    var m := Flattened(j);
    var keys := Sorted(m.Keys);
    hide LeafAt, Flattened, Split, ToString, Less, Sorted;
    forall k | k in m ensures Split(k).Ok? && m[k].IsPrimitive() { FlattenedKey(j, k); }
    var es := InKeyOrder(m, keys);
    forall i, n | 0 <= i < n < |es| ensures Less(ToString(es[i].tokens), ToString(es[n].tokens)) {
      FlattenedKey(j, keys[i]);
      FlattenedKey(j, keys[n]);
    }
    forall e ensures e in es <==> LeafAt(j, e.tokens) == Some(e.leaf) {
      if e in es {
        var i :| 0 <= i < |es| && es[i] == e;
        FlattenedKey(j, keys[i]);
      }
      if LeafAt(j, e.tokens) == Some(e.leaf) {
        FlattenExact(j, e.tokens);
        SplitToString(e.tokens);
        assert ToString(e.tokens) in keys;
        var i :| 0 <= i < |keys| && keys[i] == ToString(e.tokens);
        assert es[i] == e;
      }
    }
  }

  /**
   `j == j.flatten().unflatten()`: true exactly of the restorable values, which come back as they
   were; any other value gives an error or one that `operator==` tells apart.
   */
  lemma UnflattenFlatten(j: Value)
    ensures Back(Unflattened(Object(Flattened(j))), j) <==> Restorable(j)
    ensures Unflattened(Object(Flattened(j))) == Ok(j) <==> Restorable(j)
  {
    var m := Flattened(j);
    FlattenedEnumerates(j);
    ReplayIsFold(Null, m, Sorted(m.Keys));
    var es := InKeyOrder(m, Sorted(m.Keys));
    ReplayRestores(j, es);
    EqReflexive(j);
    assert Unflattened(Object(m)) == Fold(Null, es);
    hide *;
    if Back(Fold(Null, es), j) { EqualIsRestorable(j, es); }
  }

  /** An object with the single key "0" does not come back; it is rebuilt as an array. */
  lemma ZeroKeyIsLost(j: Value)
    requires j == Object(map["0" := Boolean(true)])
    ensures !Back(Unflattened(Object(Flattened(j))), j)
  {
    assert ZeroLeads(j.members);
    UnflattenFlatten(j);
  }
}
