/** `source.patch(diff(source, target)) == target`. */
module DiffLaw {
  import opened Results
  import opened Text
  import opened Json
  import opened Pointer
  import opened Flatten
  import opened Unflatten
  import opened Patch

  // ---------- editing the node a pointer resolves to ----------

  /** `doc` with the node at `at` replaced by `v`. */
  function Write(doc: Value, at: Tokens, v: Value): (r: Value)
    requires At(doc, at).Ok?
    ensures EditChecked(doc, at, Assign(v)) == Ok(r)
    decreases |at|
  {
    if at == [] then v
    else
      match doc
      case Object(m) => Object(m[at[0] := Write(m[at[0]], at[1..], v)])
      case Array(xs) =>
        var i := CheckedIndex(xs, at[0]).value;
        Array(xs[i := Write(xs[i], at[1..], v)])
  }

  /** Checked and unchecked access agree on a node that exists. */
  lemma {:induction false} EditExisting(doc: Value, at: Tokens, e: Edit)
    requires At(doc, at).Ok?
    ensures var c := Apply(e, At(doc, at).value);
      && EditChecked(doc, at, e) == (if c.Ok? then Ok(Write(doc, at, c.value)) else c)
      && EditUnchecked(doc, at, e) == EditChecked(doc, at, e)
    decreases |at|
  {
    if at != [] {
      match doc
      case Object(m) => EditExisting(m[at[0]], at[1..], e);
      case Array(xs) => EditExisting(xs[CheckedIndex(xs, at[0]).value], at[1..], e);
    }
  }

  lemma {:induction false} WriteTwice(doc: Value, at: Tokens, v: Value, w: Value)
    requires At(doc, at).Ok?
    ensures At(Write(doc, at, v), at) == Ok(v)
    ensures Write(Write(doc, at, v), at, w) == Write(doc, at, w)
    decreases |at|
  {
    if at != [] {
      match doc
      case Object(m) => WriteTwice(m[at[0]], at[1..], v, w);
      case Array(xs) => WriteTwice(xs[CheckedIndex(xs, at[0]).value], at[1..], v, w);
    }
  }

  lemma {:induction false} WriteSame(doc: Value, at: Tokens)
    requires At(doc, at).Ok?
    ensures Write(doc, at, At(doc, at).value) == doc
    decreases |at|
  {
    if at != [] {
      match doc
      case Object(m) => WriteSame(m[at[0]], at[1..]);
      case Array(xs) => WriteSame(xs[CheckedIndex(xs, at[0]).value], at[1..]);
    }
  }

  lemma {:induction false} AtPrefix(doc: Value, at: Tokens, n: nat)
    requires At(doc, at).Ok? && n <= |at|
    ensures At(doc, at[..n]).Ok?
    decreases n
  {
    if n > 0 {
      assert at[..n][1..] == at[1..][..n - 1];
      match doc
      case Object(m) => AtPrefix(m[at[0]], at[1..], n - 1);
      case Array(xs) => AtPrefix(xs[CheckedIndex(xs, at[0]).value], at[1..], n - 1);
    }
  }

  /** The child `t` of a container. */
  function Child(j: Value, t: string): Result<Value> {
    match j
    case Object(m) => if t in m then Ok(m[t]) else Err(OutOfRange)
    case Array(xs) =>
      var i :- CheckedIndex(xs, t);
      Ok(xs[i])
    case _ => Err(OutOfRange)
  }

  function WithChild(j: Value, t: string, c: Value): Value
    requires Child(j, t).Ok?
  {
    match j
    case Object(m) => Object(m[t := c])
    case Array(xs) => Array(xs[CheckedIndex(xs, t).value := c])
  }

  lemma {:induction false} WriteChild(doc: Value, at: Tokens, t: string, c: Value)
    requires At(doc, at).Ok? && Child(At(doc, at).value, t).Ok?
    ensures At(doc, at + [t]) == Child(At(doc, at).value, t)
    ensures Write(doc, at + [t], c) == Write(doc, at, WithChild(At(doc, at).value, t, c))
    decreases |at|
  {
    if at == [] {
      assert at + [t] == [t];
      assert [t][1..] == [];
    } else {
      assert (at + [t])[1..] == at[1..] + [t];
      match doc
      case Object(m) => WriteChild(m[at[0]], at[1..], t, c);
      case Array(xs) => WriteChild(xs[CheckedIndex(xs, at[0]).value], at[1..], t, c);
    }
  }

  // ---------- the operations diff produces ----------

  lemma {:induction false} RunConcat(doc: Value, a: seq<Value>, b: seq<Value>)
    ensures Run(doc, a + b) == if Run(doc, a).Ok? then Run(Run(doc, a).value, b) else Run(doc, a)
    decreases |a|
  {
    if a == [] {
      assert a + b == b;
    } else {
      assert (a + b)[1..] == a[1..] + b;
      var next := ApplyOperation(doc, a[0]);
      if next.Ok? { RunConcat(next.value, a[1..], b); }
    }
  }

  /** The operations succeed and change exactly the node at `at`, into `v`. */
  ghost predicate Becomes(doc: Value, at: Tokens, operations: seq<Value>, v: Value) {
    At(doc, at).Ok? && Run(doc, operations) == Ok(Write(doc, at, v))
  }

  lemma Nothing(doc: Value, at: Tokens)
    requires At(doc, at).Ok?
    ensures Becomes(doc, at, [], At(doc, at).value)
  {
    WriteSame(doc, at);
  }

  lemma Chain(doc: Value, at: Tokens, a: seq<Value>, v: Value, b: seq<Value>, w: Value)
    requires Becomes(doc, at, a, v) && Becomes(Write(doc, at, v), at, b, w)
    ensures Becomes(doc, at, a + b, w)
  {
    RunConcat(doc, a, b);
    WriteTwice(doc, at, v, w);
  }

  lemma InChild(doc: Value, at: Tokens, t: string, operations: seq<Value>, c: Value)
    requires At(doc, at).Ok? && Child(At(doc, at).value, t).Ok?
    requires Becomes(doc, at + [t], operations, c)
    ensures Becomes(doc, at, operations, WithChild(At(doc, at).value, t, c))
  {
    WriteChild(doc, at, t, c);
  }

  lemma ReplaceBecomes(doc: Value, at: Tokens, v: Value)
    requires At(doc, at).Ok?
    ensures Becomes(doc, at, [ReplaceOp(ToString(at), v)], v)
  {
    SplitToString(at);
    EditExisting(doc, at, Assign(v));
    assert ApplyOperation(doc, ReplaceOp(ToString(at), v)) == Replace(doc, at, v);
  }

  lemma AddBecomes(doc: Value, at: Tokens, t: string, v: Value)
    requires At(doc, at).Ok? && Apply(Insert(t, v), At(doc, at).value).Ok?
    ensures Becomes(doc, at, [AddOp(ToString(at) + "/" + Escape(t), v)], Apply(Insert(t, v), At(doc, at).value).value)
  {
    var ptr := at + [t];
    SplitToString(ptr);
    ToStringSnoc(at, t);
    assert Parent(ptr) == at && Last(ptr) == t;
    if |ptr| > 1 {
      AtPrefix(doc, at, 1);
      assert ptr[..1] == at[..1];
    }
    EditExisting(doc, at, Insert(t, v));
    assert ApplyOperation(doc, AddOp(ToString(ptr), v)) == Add(doc, ptr, v);
  }

  lemma RemoveBecomes(doc: Value, at: Tokens, t: string)
    requires At(doc, at).Ok? && Apply(Erase(t), At(doc, at).value).Ok?
    ensures Becomes(doc, at, [RemoveOp(ToString(at) + "/" + Escape(t))], Apply(Erase(t), At(doc, at).value).value)
  {
    var ptr := at + [t];
    SplitToString(ptr);
    ToStringSnoc(at, t);
    assert Parent(ptr) == at && Last(ptr) == t;
    EditExisting(doc, at, Erase(t));
    assert ApplyOperation(doc, RemoveOp(ToString(ptr))) == Remove(doc, ptr);
  }

  lemma AfterWrite(doc: Value, at: Tokens, v: Value)
    requires At(doc, at).Ok?
    ensures At(Write(doc, at, v), at) == Ok(v)
  {
    WriteTwice(doc, at, v, v);
  }

  // ---------- what the patched document is ----------

  /** The source with every difference from the target removed; equal parts keep the source's number types. */
  function Merged(source: Value, target: Value): Value
    decreases source
  {
    if Eq(source, target) then source
    else if !source.SameType(target) then target
    else
      match source
      case Array(xs) => Array(MergedElements(xs, target.elems, Min(|xs|, |target.elems|)) + target.elems[Min(|xs|, |target.elems|)..])
      case Object(m) =>
        Object(map k | k in target.members :: if k in m then Merged(m[k], target.members[k]) else target.members[k])
      case _ => target
  }

  function MergedElements(xs: seq<Value>, ys: seq<Value>, n: nat): seq<Value>
    requires n <= |xs| && n <= |ys|
    decreases xs, n
  {
    seq(n, i requires 0 <= i < n => Merged(xs[i], ys[i]))
  }

  lemma {:induction false} MergedIsTarget(source: Value, target: Value)
    ensures Eq(Merged(source, target), target)
    decreases source
  {
    EqReflexive(target);
    if !Eq(source, target) && source.SameType(target) {
      match source
      case Array(xs) => {
        var ys := target.elems;
        forall i | 0 <= i < |ys| ensures Eq(Merged(source, target).elems[i], ys[i]) {
          if i < |xs| { MergedIsTarget(xs[i], ys[i]); } else { EqReflexive(ys[i]); }
        }
      }
      case Object(m) => {
        var tm := target.members;
        forall k | k in tm ensures Eq(Merged(source, target).members[k], tm[k]) {
          if k in m { MergedIsTarget(m[k], tm[k]); } else { EqReflexive(tm[k]); }
        }
      }
      case _ =>
    }
  }

  // ---------- running the operations ----------

  /** The operations for the nodes at `at` change exactly that node, into the merged one. */
  lemma {:induction false} DiffBecomes(doc: Value, at: Tokens, source: Value, target: Value)
    requires At(doc, at) == Ok(source) && Indexable(source) && Indexable(target)
    ensures Becomes(doc, at, Diff(source, target, ToString(at)), Merged(source, target))
    decreases source, 1, 0
  {
    if Eq(source, target) {
      Nothing(doc, at);
    } else if !source.SameType(target) {
      ReplaceBecomes(doc, at, target);
    } else {
      match source
      case Array(xs) => ArrayDiffBecomes(doc, at, source, target);
      case Object(m) => ObjectDiffBecomes(doc, at, source, target);
      case _ => ReplaceBecomes(doc, at, target);
    }
  }

  /** An in-range index resolves to its element. */
  lemma CheckedDecimal(xs: seq<Value>, i: nat)
    requires i < |xs| && i <= INT_MAX
    ensures CheckedIndex(xs, Decimal(i)) == Ok(i)
  {
    StoiOfDecimal(i);
    assert IsDigit(Decimal(i)[0]);
  }

  /** The array after the first `n` elements have been treated. */
  function CommonStage(xs: seq<Value>, ys: seq<Value>, n: nat): seq<Value>
    requires n <= |xs| && n <= |ys|
  {
    MergedElements(xs, ys, n) + xs[n..]
  }

  lemma CommonStep(source: Value, target: Value, n: nat, at: Tokens)
    requires source.Array? && target.Array? && 0 < n <= |source.elems| && n <= |target.elems| && Indexable(source)
    ensures CommonDiff(source, target, n, ToString(at)) ==
      CommonDiff(source, target, n - 1, ToString(at))
      + Diff(source.elems[n - 1], target.elems[n - 1], ToString(at + [Decimal(n - 1)]))
    ensures var before := Array(CommonStage(source.elems, target.elems, n - 1));
      && Child(before, Decimal(n - 1)) == Ok(source.elems[n - 1])
      && WithChild(before, Decimal(n - 1), Merged(source.elems[n - 1], target.elems[n - 1]))
        == Array(CommonStage(source.elems, target.elems, n))
  {
    var xs, ys := source.elems, target.elems;
    EscapeDigits(Decimal(n - 1));
    ToStringSnoc(at, Decimal(n - 1));
    CheckedDecimal(CommonStage(xs, ys, n - 1), n - 1);
    assert CommonStage(xs, ys, n - 1)[n - 1 := Merged(xs[n - 1], ys[n - 1])] == CommonStage(xs, ys, n);
  }

  lemma ElementsIndexable(j: Value, i: nat)
    requires j.Array? && i < |j.elems| && Indexable(j)
    ensures Indexable(j.elems[i])
  {
  }

  lemma CommonStart(source: Value, target: Value, at: Tokens)
    requires source.Array? && target.Array?
    ensures CommonDiff(source, target, 0, ToString(at)) == []
    ensures Array(CommonStage(source.elems, target.elems, 0)) == source
  {
    assert CommonStage(source.elems, target.elems, 0) == source.elems;
  }

  /** `get_checked` goes down one token at a time. */
  lemma {:induction false} AtChild(doc: Value, at: Tokens, t: string)
    requires At(doc, at).Ok?
    ensures At(doc, at + [t]) == Child(At(doc, at).value, t)
    decreases |at|
  {
    if at == [] {
      assert at + [t] == [t];
      assert [t][1..] == [];
    } else {
      assert (at + [t])[1..] == at[1..] + [t];
      match doc
      case Object(m) => AtChild(m[at[0]], at[1..], t);
      case Array(xs) => AtChild(xs[CheckedIndex(xs, at[0]).value], at[1..], t);
    }
  }

  lemma {:induction false} CommonBecomes(doc: Value, at: Tokens, source: Value, target: Value, n: nat)
    requires source.Array? && target.Array? && n <= |source.elems| && n <= |target.elems|
    requires At(doc, at) == Ok(source) && Indexable(source) && Indexable(target)
    ensures Becomes(doc, at, CommonDiff(source, target, n, ToString(at)), Array(CommonStage(source.elems, target.elems, n)))
    decreases source, 0, n
  {
    hide *;
    if n == 0 {
      CommonStart(source, target, at);
      Nothing(doc, at);
    } else {
      var x, y, t := source.elems[n - 1], target.elems[n - 1], Decimal(n - 1);
      var before := Array(CommonStage(source.elems, target.elems, n - 1));
      var mid := Write(doc, at, before);
      CommonBecomes(doc, at, source, target, n - 1);
      CommonStep(source, target, n, at);
      ElementsIndexable(source, n - 1);
      ElementsIndexable(target, n - 1);
      AfterWrite(doc, at, before);
      AtChild(mid, at, t);
      DiffBecomes(mid, at + [t], x, y);
      InChild(mid, at, t, Diff(x, y, ToString(at + [t])), Merged(x, y));
      Chain(doc, at, CommonDiff(source, target, n - 1, ToString(at)), before,
            Diff(x, y, ToString(at + [t])), Array(CommonStage(source.elems, target.elems, n)));
    }
  }

  lemma RemovalStep(zs: seq<Value>, from: nat, at: Tokens)
    requires from < |zs|
    ensures Removals(from, |zs|, ToString(at)) ==
      [RemoveOp(ToString(at) + "/" + Escape(Decimal(|zs| - 1)))] + Removals(from, |zs| - 1, ToString(at))
  {
    EscapeDigits(Decimal(|zs| - 1));
    hide Decimal, Escape, ToString;
  }

  lemma EraseLast(zs: seq<Value>)
    requires 0 < |zs| <= INT_MAX + 1
    ensures Apply(Erase(Decimal(|zs| - 1)), Array(zs)) == Ok(Array(zs[..|zs| - 1]))
  {
    hide *;
    StoiOfDecimal(|zs| - 1);
    EraseAt(zs, Decimal(|zs| - 1), |zs| - 1);
    assert zs[..|zs| - 1] + zs[|zs| - 1 + 1..] == zs[..|zs| - 1];
  }

  lemma EraseAt(zs: seq<Value>, key: string, i: nat)
    requires Stoi(key) == Ok(i) && i < |zs|
    ensures Apply(Erase(key), Array(zs)) == Ok(Array(zs[..i] + zs[i + 1..]))
  {
    hide Stoi;
  }

  lemma {:induction false} RemovalsBecome(doc: Value, at: Tokens, zs: seq<Value>, from: nat)
    requires At(doc, at) == Ok(Array(zs)) && |zs| <= INT_MAX + 1
    ensures Becomes(doc, at, Removals(from, |zs|, ToString(at)), Array(if from <= |zs| then zs[..from] else zs))
    decreases |zs|
  {
    if |zs| <= from {
      Nothing(doc, at);
      assert from == |zs| ==> zs[..from] == zs;
    } else {
      hide *;
      var rest := zs[..|zs| - 1];
      RemovalStep(zs, from, at);
      EraseLast(zs);
      RemoveBecomes(doc, at, Decimal(|zs| - 1));
      AfterWrite(doc, at, Array(rest));
      RemovalsBecome(Write(doc, at, Array(rest)), at, rest, from);
      assert rest[..from] == zs[..from];
      Chain(doc, at, [RemoveOp(ToString(at) + "/" + Escape(Decimal(|zs| - 1)))], Array(rest),
            Removals(from, |rest|, ToString(at)), Array(zs[..from]));
    }
  }

  lemma AdditionStep(zs: seq<Value>, ys: seq<Value>, at: Tokens)
    requires |zs| < |ys|
    ensures Additions(ys, |zs|, ToString(at)) ==
      [AddOp(ToString(at) + "/" + Escape(Decimal(|zs|)), ys[|zs|])] + Additions(ys, |zs| + 1, ToString(at))
  {
    EscapeDigits(Decimal(|zs|));
  }

  lemma AdditionsEnd(ys: seq<Value>, at: Tokens)
    ensures Additions(ys, |ys|, ToString(at)) == []
  {
  }

  lemma InsertAtEnd(zs: seq<Value>, y: Value)
    requires |zs| <= INT_MAX
    ensures Apply(Insert(Decimal(|zs|), y), Array(zs)) == Ok(Array(zs + [y]))
  {
    hide *;
    StoiOfDecimal(|zs|);
    DecimalIsNoDash(|zs|);
    InsertAt(zs, Decimal(|zs|), |zs|, y);
    assert zs[..|zs|] + [y] + zs[|zs|..] == zs + [y];
  }

  lemma DecimalIsNoDash(n: nat)
    ensures Decimal(n) != "-"
  {
    assert IsDigit(Decimal(n)[0]);
  }

  lemma InsertAt(zs: seq<Value>, key: string, i: nat, y: Value)
    requires key != "-" && Stoi(key) == Ok(i) && i <= |zs|
    ensures Apply(Insert(key, y), Array(zs)) == Ok(Array(zs[..i] + [y] + zs[i..]))
  {
    hide Stoi;
  }

  lemma {:induction false} AdditionsBecome(doc: Value, at: Tokens, zs: seq<Value>, ys: seq<Value>)
    requires At(doc, at) == Ok(Array(zs)) && |ys| <= INT_MAX + 1 && |zs| <= |ys|
    ensures Becomes(doc, at, Additions(ys, |zs|, ToString(at)), Array(zs + ys[|zs|..]))
    decreases |ys| - |zs|
  {
    hide *;
    if |zs| == |ys| {
      AdditionsEnd(ys, at);
      Nothing(doc, at);
      assert zs + ys[|zs|..] == zs;
    } else {
      var more := zs + [ys[|zs|]];
      AdditionStep(zs, ys, at);
      InsertAtEnd(zs, ys[|zs|]);
      AddBecomes(doc, at, Decimal(|zs|), ys[|zs|]);
      AfterWrite(doc, at, Array(more));
      AdditionsBecome(Write(doc, at, Array(more)), at, more, ys);
      assert more + ys[|more|..] == zs + ys[|zs|..];
      Chain(doc, at, [AddOp(ToString(at) + "/" + Escape(Decimal(|zs|)), ys[|zs|])], Array(more),
            Additions(ys, |more|, ToString(at)), Array(zs + ys[|zs|..]));
    }
  }

  /** What the three parts of an array diff leave behind. */
  lemma ArrayParts(source: Value, target: Value, at: Tokens)
    requires source.Array? && target.Array? && !Eq(source, target)
    ensures var xs, ys := source.elems, target.elems;
      var n := Min(|xs|, |ys|);
      var common := CommonStage(xs, ys, n);
      && n == (if |xs| < |ys| then |xs| else |ys|) && |common| == |xs|
      && Diff(source, target, ToString(at)) ==
        CommonDiff(source, target, n, ToString(at)) + Removals(|ys|, |xs|, ToString(at)) + Additions(ys, |xs|, ToString(at))
      && Merged(source, target) == Array(if |ys| <= |xs| then common[..|ys|] else common + ys[|xs|..])
      && (|ys| <= |xs| ==> Additions(ys, |xs|, ToString(at)) == [])
  {
    var xs, ys := source.elems, target.elems;
    var n := Min(|xs|, |ys|);
    var common := CommonStage(xs, ys, n);
    if |ys| <= |xs| {
      assert common[..|ys|] == MergedElements(xs, ys, n) + ys[n..];
    } else {
      assert common == MergedElements(xs, ys, n);
    }
  }

  lemma ArraySizes(j: Value)
    requires j.Array? && Indexable(j)
    ensures |j.elems| <= INT_MAX + 1
  {
  }

  lemma {:induction false} ArrayDiffBecomes(doc: Value, at: Tokens, source: Value, target: Value)
    requires source.Array? && target.Array? && !Eq(source, target)
    requires At(doc, at) == Ok(source) && Indexable(source) && Indexable(target)
    ensures Becomes(doc, at, Diff(source, target, ToString(at)), Merged(source, target))
    decreases source, 0, |source.elems| + 1
  {
    var xs, ys, path := source.elems, target.elems, ToString(at);
    var n := Min(|xs|, |ys|);
    ArrayParts(source, target, at);
    hide *;
    var a, b, c := CommonDiff(source, target, n, path), Removals(|ys|, |xs|, path), Additions(ys, |xs|, path);
    ArraySizes(source);
    ArraySizes(target);
    var common := CommonStage(xs, ys, n);
    var kept := if |ys| <= |xs| then common[..|ys|] else common;
    CommonBecomes(doc, at, source, target, n);
    AfterWrite(doc, at, Array(common));
    RemovalsBecome(Write(doc, at, Array(common)), at, common, |ys|);
    Chain(doc, at, a, Array(common), b, Array(kept));
    AfterWrite(doc, at, Array(kept));
    if |ys| <= |xs| {
      Nothing(Write(doc, at, Array(kept)), at);
    } else {
      AdditionsBecome(Write(doc, at, Array(kept)), at, kept, ys);
    }
    Chain(doc, at, a + b, Array(kept), c, Merged(source, target));
  }

  /** The object after the source members `keys` have been treated. */
  function MemberStage(m: map<string, Value>, tm: map<string, Value>, keys: seq<string>): map<string, Value> {
    map k | k in m && (k in tm || k !in keys) :: if k in keys then Merged(m[k], tm[k]) else m[k]
  }

  /** What treating one more member does. */
  lemma MemberStep(source: Value, target: Value, keys: seq<string>, at: Tokens)
    requires source.Object? && target.Object? && keys != [] && Ascending(keys)
    requires forall k | k in keys :: k in source.members
    ensures var m, tm, path := source.members, target.members, ToString(at);
      var front, k := keys[..|keys| - 1], keys[|keys| - 1];
      var before, after := Object(MemberStage(m, tm, front)), Object(MemberStage(m, tm, keys));
      && Ascending(front) && (forall o | o in front :: o in m) && k in m
      && if k in tm then
          && MembersDiff(source, target, keys, path) ==
            MembersDiff(source, target, front, path) + Diff(m[k], tm[k], ToString(at + [k]))
          && Child(before, k) == Ok(m[k]) && WithChild(before, k, Merged(m[k], tm[k])) == after
        else
          && MembersDiff(source, target, keys, path) ==
            MembersDiff(source, target, front, path) + [RemoveOp(path + "/" + Escape(k))]
          && Apply(Erase(k), before) == Ok(after)
  {
    var m, tm := source.members, target.members;
    var front, k := keys[..|keys| - 1], keys[|keys| - 1];
    assert keys == front + [k];
    forall o | o in front ensures o != k { LessTrichotomy(o, k); }
    ToStringSnoc(at, k);
    MemberStageStep(m, tm, front, k);
    MembersDiffLast(source, target, keys, at);
    hide *;
    ObjectChild(MemberStage(m, tm, front), k);
  }

  lemma ObjectChild(o: map<string, Value>, k: string)
    requires k in o
    ensures Child(Object(o), k) == Ok(o[k]) && Apply(Erase(k), Object(o)) == Ok(Object(o - {k}))
    ensures forall c :: WithChild(Object(o), k, c) == Object(o[k := c])
  {
  }

  lemma MembersDiffLast(source: Value, target: Value, keys: seq<string>, at: Tokens)
    requires source.Object? && target.Object? && keys != [] && forall k | k in keys :: k in source.members
    ensures var front, k := keys[..|keys| - 1], keys[|keys| - 1];
      MembersDiff(source, target, keys, ToString(at)) ==
        MembersDiff(source, target, front, ToString(at))
        + if k in target.members then Diff(source.members[k], target.members[k], ToString(at + [k]))
          else [RemoveOp(ToString(at) + "/" + Escape(k))]
  {
    ToStringSnoc(at, keys[|keys| - 1]);
    hide Diff, Escape, ToString;
  }

  lemma MemberStageStep(m: map<string, Value>, tm: map<string, Value>, front: seq<string>, k: string)
    requires k in m && k !in front
    ensures var before, after := MemberStage(m, tm, front), MemberStage(m, tm, front + [k]);
      && k in before && before[k] == m[k]
      && after == if k in tm then before[k := Merged(m[k], tm[k])] else before - {k}
  {
    hide Merged;
  }

  lemma MembersIndexable(j: Value, k: string)
    requires j.Object? && k in j.members && Indexable(j)
    ensures Indexable(j.members[k])
  {
  }

  lemma MembersStart(source: Value, target: Value, at: Tokens)
    requires source.Object? && target.Object?
    ensures MembersDiff(source, target, [], ToString(at)) == []
    ensures Object(MemberStage(source.members, target.members, [])) == source
  {
    assert MemberStage(source.members, target.members, []) == source.members;
  }

  lemma {:induction false} MembersBecome(doc: Value, at: Tokens, source: Value, target: Value, keys: seq<string>)
    requires source.Object? && target.Object? && Ascending(keys) && forall k | k in keys :: k in source.members
    requires At(doc, at) == Ok(source) && Indexable(source) && Indexable(target)
    ensures Becomes(doc, at, MembersDiff(source, target, keys, ToString(at)),
                    Object(MemberStage(source.members, target.members, keys)))
    decreases source, 0, |keys|
  {
    hide *;
    var m, tm, path := source.members, target.members, ToString(at);
    if keys == [] {
      MembersStart(source, target, at);
      Nothing(doc, at);
    } else {
      var front, k := keys[..|keys| - 1], keys[|keys| - 1];
      MemberStep(source, target, keys, at);
      var before, after := Object(MemberStage(m, tm, front)), Object(MemberStage(m, tm, keys));
      var mid := Write(doc, at, before);
      MembersBecome(doc, at, source, target, front);
      AfterWrite(doc, at, before);
      if k in tm {
        MembersIndexable(source, k);
        MembersIndexable(target, k);
        AtChild(mid, at, k);
        DiffBecomes(mid, at + [k], m[k], tm[k]);
        InChild(mid, at, k, Diff(m[k], tm[k], ToString(at + [k])), Merged(m[k], tm[k]));
        Chain(doc, at, MembersDiff(source, target, front, path), before, Diff(m[k], tm[k], ToString(at + [k])), after);
      } else {
        RemoveBecomes(mid, at, k);
        Chain(doc, at, MembersDiff(source, target, front, path), before, [RemoveOp(path + "/" + Escape(k))], after);
      }
    }
  }

  /** The members added for the target keys `keys`. */
  function AddedMembers(m: map<string, Value>, tm: map<string, Value>, keys: seq<string>): map<string, Value> {
    map k | k in tm && k in keys && k !in m :: tm[k]
  }

  lemma AddedStep(o: map<string, Value>, m: map<string, Value>, tm: map<string, Value>, keys: seq<string>, path: string)
    requires keys != [] && forall k | k in keys :: k in tm
    ensures var front, k := keys[..|keys| - 1], keys[|keys| - 1];
      var before, after := Object(o + AddedMembers(m, tm, front)), Object(o + AddedMembers(m, tm, keys));
      && (forall o | o in front :: o in tm) && k in tm
      && if k in m then
          MembersAdded(m, tm, keys, path) == MembersAdded(m, tm, front, path) && after == before
        else
          && MembersAdded(m, tm, keys, path) == MembersAdded(m, tm, front, path) + [AddOp(path + "/" + Escape(k), tm[k])]
          && Apply(Insert(k, tm[k]), before) == Ok(after)
  {
    var front, k := keys[..|keys| - 1], keys[|keys| - 1];
    assert keys == front + [k];
    AddedMembersStep(o, m, tm, front, k);
    hide AddedMembers, Escape;
  }

  lemma AddedMembersStep(o: map<string, Value>, m: map<string, Value>, tm: map<string, Value>, front: seq<string>, k: string)
    requires k in tm
    ensures o + AddedMembers(m, tm, front + [k]) ==
      if k in m then o + AddedMembers(m, tm, front) else (o + AddedMembers(m, tm, front))[k := tm[k]]
  {
    if k in m {
      assert AddedMembers(m, tm, front) == AddedMembers(m, tm, front + [k]);
    }
  }

  lemma {:induction false} AddedBecome(doc: Value, at: Tokens, o: map<string, Value>, m: map<string, Value>,
                                       tm: map<string, Value>, keys: seq<string>)
    requires At(doc, at) == Ok(Object(o)) && forall k | k in keys :: k in tm
    ensures Becomes(doc, at, MembersAdded(m, tm, keys, ToString(at)), Object(o + AddedMembers(m, tm, keys)))
    decreases |keys|
  {
    if keys == [] {
      assert o + AddedMembers(m, tm, keys) == o;
      Nothing(doc, at);
    } else {
      hide *;
      var front, k := keys[..|keys| - 1], keys[|keys| - 1];
      AddedStep(o, m, tm, keys, ToString(at));
      AddedBecome(doc, at, o, m, tm, front);
      if k !in m {
        var before, after := Object(o + AddedMembers(m, tm, front)), Object(o + AddedMembers(m, tm, keys));
        AfterWrite(doc, at, before);
        AddBecomes(Write(doc, at, before), at, k, tm[k]);
        Chain(doc, at, MembersAdded(m, tm, front, ToString(at)), before, [AddOp(ToString(at) + "/" + Escape(k), tm[k])], after);
      }
    }
  }

  lemma ObjectParts(source: Value, target: Value, at: Tokens)
    requires source.Object? && target.Object? && !Eq(source, target)
    ensures var m, tm, path := source.members, target.members, ToString(at);
      Diff(source, target, path) ==
        MembersDiff(source, target, Sorted(m.Keys), path) + MembersAdded(m, tm, Sorted(tm.Keys), path)
  {
  }

  lemma MergedMember(source: Value, target: Value)
    requires source.Object? && target.Object? && !Eq(source, target)
    ensures Merged(source, target).Object? && Merged(source, target).members.Keys == target.members.Keys
    ensures forall k | k in target.members && k in source.members ::
      Merged(source, target).members[k] == Merged(source.members[k], target.members[k])
    ensures forall k | k in target.members && k !in source.members ::
      Merged(source, target).members[k] == target.members[k]
  {
  }

  lemma FinalStage(m: map<string, Value>, tm: map<string, Value>)
    ensures var stage := MemberStage(m, tm, Sorted(m.Keys));
      stage.Keys == m.Keys * tm.Keys && forall k | k in stage :: stage[k] == Merged(m[k], tm[k])
    ensures var added := AddedMembers(m, tm, Sorted(tm.Keys));
      added.Keys == tm.Keys - m.Keys && forall k | k in added :: added[k] == tm[k]
  {
    hide Sorted, Merged;
  }

  lemma MergedMembers(source: Value, target: Value)
    requires source.Object? && target.Object? && !Eq(source, target)
    ensures var m, tm := source.members, target.members;
      Merged(source, target) == Object(MemberStage(m, tm, Sorted(m.Keys)) + AddedMembers(m, tm, Sorted(tm.Keys)))
  {
    hide *;
    MergedMember(source, target);
    FinalStage(source.members, target.members);
    var m, tm := source.members, target.members;
    var stage, added := MemberStage(m, tm, Sorted(m.Keys)), AddedMembers(m, tm, Sorted(tm.Keys));
    MapsAgree(Merged(source, target).members, stage, added);
  }

  lemma MapsAgree(merged: map<string, Value>, stage: map<string, Value>, added: map<string, Value>)
    requires merged.Keys == stage.Keys + added.Keys && stage.Keys !! added.Keys
    requires (forall k | k in stage :: merged[k] == stage[k]) && (forall k | k in added :: merged[k] == added[k])
    ensures merged == stage + added
  {
  }

  lemma {:induction false} ObjectDiffBecomes(doc: Value, at: Tokens, source: Value, target: Value)
    requires source.Object? && target.Object? && !Eq(source, target)
    requires At(doc, at) == Ok(source) && Indexable(source) && Indexable(target)
    ensures Becomes(doc, at, Diff(source, target, ToString(at)), Merged(source, target))
    decreases source, 0, |source.members| + 1
  {
    var m, tm, path := source.members, target.members, ToString(at);
    var keys, targetKeys := Sorted(m.Keys), Sorted(tm.Keys);
    hide *;
    var stage := MemberStage(m, tm, keys);
    ObjectParts(source, target, at);
    MergedMembers(source, target);
    MembersBecome(doc, at, source, target, keys);
    AfterWrite(doc, at, Object(stage));
    AddedBecome(Write(doc, at, Object(stage)), at, stage, m, tm, targetKeys);
    Chain(doc, at, MembersDiff(source, target, keys, path), Object(stage), MembersAdded(m, tm, targetKeys, path), Merged(source, target));
  }

  /**
   `source.patch(diff(source, target)) == target`: no pointer fails to resolve on the way, and
   the patched document equals the target.
   */
  lemma PatchDiff(source: Value, target: Value)
    requires Indexable(source) && Indexable(target)
    ensures Patched(source, Array(Diff(source, target, ""))) == Ok(Merged(source, target))
    ensures Eq(Merged(source, target), target)
  {
    MergedIsTarget(source, target);
    DiffBecomes(source, [], source, target);
  }
}
