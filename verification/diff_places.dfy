/** `diff` emits no more than it has to: each operation names a place where source and target differ. */
module DiffPlaces {
  import opened Results
  import opened Text
  import opened Json
  import opened Pointer
  import opened Flatten
  import opened Patch
  import opened DiffLaw

  // ---------- an empty diff ----------

  lemma {:induction false} CommonDiffEmpty(source: Value, target: Value, n: nat, path: string)
    requires source.Array? && target.Array? && n <= |source.elems| && n <= |target.elems|
    ensures CommonDiff(source, target, n, path) == [] <==> forall i | 0 <= i < n :: Eq(source.elems[i], target.elems[i])
    decreases source, 0, n
  {
    if n > 0 {
      CommonDiffEmpty(source, target, n - 1, path);
      DiffEmpty(source.elems[n - 1], target.elems[n - 1], path + "/" + Decimal(n - 1));
    }
  }

  lemma {:induction false} MembersDiffEmpty(source: Value, target: Value, keys: seq<string>, path: string)
    requires source.Object? && target.Object? && forall k | k in keys :: k in source.members
    ensures MembersDiff(source, target, keys, path) == [] <==>
      forall k | k in keys :: k in target.members && Eq(source.members[k], target.members[k])
    decreases source, 0, |keys|
  {
    if keys != [] {
      var front, k := keys[..|keys| - 1], keys[|keys| - 1];
      assert keys == front + [k];
      MembersDiffEmpty(source, target, front, path);
      if k in target.members {
        DiffEmpty(source.members[k], target.members[k], path + "/" + Escape(k));
      }
      hide Diff, Escape, Eq;
    }
  }

  lemma {:induction false} MembersAddedEmpty(m: map<string, Value>, tm: map<string, Value>, keys: seq<string>, path: string)
    requires forall k | k in keys :: k in tm
    ensures MembersAdded(m, tm, keys, path) == [] <==> forall k | k in keys :: k in m
  {
    if keys != [] {
      var front, k := keys[..|keys| - 1], keys[|keys| - 1];
      assert keys == front + [k];
      MembersAddedEmpty(m, tm, front, path);
    }
  }

  /** Surplus elements leave operations. */
  lemma SurplusEmpty(xs: seq<Value>, ys: seq<Value>, path: string)
    ensures Removals(|ys|, |xs|, path) + Additions(ys, |xs|, path) == [] <==> |xs| == |ys|
  {
  }

  lemma ArrayDiffEmpty(source: Value, target: Value, path: string)
    requires source.Array? && target.Array?
    ensures CommonDiff(source, target, Min(|source.elems|, |target.elems|), path)
      + Removals(|target.elems|, |source.elems|, path) + Additions(target.elems, |source.elems|, path) == []
      <==> Eq(source, target)
    decreases source, 0, |source.elems| + 1
  {
    CommonDiffEmpty(source, target, Min(|source.elems|, |target.elems|), path);
    SurplusEmpty(source.elems, target.elems, path);
    hide CommonDiff, Removals, Additions;
  }

  lemma EqualObjects(source: Value, target: Value)
    requires source.Object? && target.Object?
    ensures Eq(source, target) <==>
      source.members.Keys == target.members.Keys && forall k | k in source.members :: Eq(source.members[k], target.members[k])
  {
  }

  lemma EqualByKeys(source: Value, target: Value)
    requires source.Object? && target.Object?
    ensures Eq(source, target) <==>
      && (forall k | k in Sorted(source.members.Keys) :: k in target.members && Eq(source.members[k], target.members[k]))
      && forall k | k in Sorted(target.members.Keys) :: k in source.members
  {
    hide *;
    var m, tm := source.members, target.members;
    var keys, targetKeys := Sorted(m.Keys), Sorted(tm.Keys);
    assert (forall k :: k in keys <==> k in m.Keys) && forall k :: k in targetKeys <==> k in tm.Keys;
    EqualObjects(source, target);
    if (forall k | k in keys :: k in tm) && forall k | k in targetKeys :: k in m {
      assert m.Keys == tm.Keys;
    }
  }

  lemma ObjectDiffEmpty(source: Value, target: Value, path: string)
    requires source.Object? && target.Object?
    ensures var keys, targetKeys := Sorted(source.members.Keys), Sorted(target.members.Keys);
      MembersDiff(source, target, keys, path) + MembersAdded(source.members, target.members, targetKeys, path) == []
      <==> Eq(source, target)
    decreases source, 0, |source.members| + 1
  {
    hide *;
    var m, tm := source.members, target.members;
    EqualByKeys(source, target);
    MembersDiffEmpty(source, target, Sorted(m.Keys), path);
    MembersAddedEmpty(m, tm, Sorted(tm.Keys), path);
  }

  /** The diff is empty if and only if the values are equal. */
  lemma {:induction false} DiffEmpty(source: Value, target: Value, path: string)
    ensures Diff(source, target, path) == [] <==> Eq(source, target)
    decreases source, 1, 0
  {
    if source.Array? && target.Array? {
      ArrayDiffEmpty(source, target, path);
    } else if source.Object? && target.Object? {
      ObjectDiffEmpty(source, target, path);
    }
    hide CommonDiff, Removals, Additions, MembersDiff, MembersAdded, Sorted, Eq;
  }

  // ---------- the places the operations name ----------

  /** The place an operation of `diff` names. */
  function Place(operation: Value): Tokens {
    if operation.Object? && "path" in operation.members && operation.members["path"].String? then
      var ptr := Split(operation.members["path"].s);
      if ptr.Ok? then ptr.value else []
    else []
  }

  /** The operation is the one that its place calls for: the two documents differ there. */
  predicate Differs(source: Value, target: Value, operation: Value) {
    var p := Place(operation);
    match (At(source, p), At(target, p))
    case (Ok(_), Err(_)) => operation == RemoveOp(ToString(p))
    case (Err(_), Ok(y)) => operation == AddOp(ToString(p), y)
    case (Ok(x), Ok(y)) =>
      && operation == ReplaceOp(ToString(p), y)
      && !Eq(x, y) && !(x.Array? && y.Array?) && !(x.Object? && y.Object?)
    case (Err(_), Err(_)) => false
  }

  /** Neither place is the other or lies within it. */
  predicate Apart(p: Tokens, q: Tokens) {
    !(p <= q) && !(q <= p)
  }

  lemma Places(p: Tokens, v: Value)
    ensures Place(RemoveOp(ToString(p))) == p
    ensures Place(AddOp(ToString(p), v)) == p
    ensures Place(ReplaceOp(ToString(p), v)) == p
  {
    SplitToString(p);
  }

  /** The operations all name differences at or below `at`, in places apart from one another. */
  ghost predicate Placed(doc: Value, goal: Value, at: Tokens, operations: seq<Value>) {
    && (forall i | 0 <= i < |operations| :: Differs(doc, goal, operations[i]) && at <= Place(operations[i]))
    && forall i, j | 0 <= i < j < |operations| :: Apart(Place(operations[i]), Place(operations[j]))
  }

  /** Moreover they are below the children with the given names. */
  ghost predicate Below(doc: Value, goal: Value, at: Tokens, operations: seq<Value>, names: set<string>) {
    && Placed(doc, goal, at, operations)
    && forall i | 0 <= i < |operations| :: |at| < |Place(operations[i])| && Place(operations[i])[|at|] in names
  }

  lemma PlacedOne(doc: Value, goal: Value, at: Tokens, operation: Value)
    requires Differs(doc, goal, operation) && at <= Place(operation)
    ensures Placed(doc, goal, at, [operation])
  {
  }

  lemma BelowChild(doc: Value, goal: Value, at: Tokens, t: string, operations: seq<Value>)
    requires Placed(doc, goal, at + [t], operations)
    ensures Below(doc, goal, at, operations, {t})
  {
    hide Differs, Place;
    forall i | 0 <= i < |operations|
      ensures |at| < |Place(operations[i])| && at <= Place(operations[i]) && Place(operations[i])[|at|] == t
    {
      Deeper(at, t, Place(operations[i]));
    }
  }

  lemma Deeper(at: Tokens, t: string, p: Tokens)
    requires at + [t] <= p
    ensures |at| < |p| && at <= p && p[|at|] == t
  {
    assert (at + [t])[|at|] == t;
  }

  lemma DifferentChildren(at: Tokens, p: Tokens, q: Tokens)
    requires at <= p && at <= q && |at| < |p| && |at| < |q| && p[|at|] != q[|at|]
    ensures Apart(p, q)
  {
  }

  /** Lists below different children can be put one after the other. */
  lemma BelowBoth(doc: Value, goal: Value, at: Tokens, a: seq<Value>, s: set<string>, b: seq<Value>, t: set<string>)
    requires Below(doc, goal, at, a, s) && Below(doc, goal, at, b, t) && s !! t
    ensures Below(doc, goal, at, a + b, s + t)
  {
    hide Differs, Place, Apart;
    forall i, j | 0 <= i < j < |a + b| ensures Apart(Place((a + b)[i]), Place((a + b)[j])) {
      if i < |a| <= j {
        DifferentChildren(at, Place(a[i]), Place(b[j - |a|]));
      }
    }
  }

  lemma BelowWider(doc: Value, goal: Value, at: Tokens, a: seq<Value>, s: set<string>, t: set<string>)
    requires Below(doc, goal, at, a, s) && s <= t
    ensures Below(doc, goal, at, a, t)
  {
    hide Differs, Place, Apart;
  }

  // ---------- arrays ----------

  function Indices(from: nat, to: nat): set<string> {
    set i | from <= i < to :: Decimal(i)
  }

  lemma IndicesApart(from: nat, mid: nat, to: nat)
    requires from <= mid <= to
    ensures Indices(from, mid) !! Indices(mid, to) && Indices(from, mid) + Indices(mid, to) == Indices(from, to)
  {
    forall i, j | from <= i < mid <= j < to ensures Decimal(i) != Decimal(j) {
      if Decimal(i) == Decimal(j) { DecimalInjective(i, j); }
    }
  }

  lemma OneIndex(i: nat)
    ensures Indices(i, i + 1) == {Decimal(i)}
  {
  }

  /** What a document has below an array. */
  lemma ElementAt(doc: Value, at: Tokens, xs: seq<Value>, i: nat)
    requires At(doc, at) == Ok(Array(xs)) && i <= INT_MAX
    ensures At(doc, at + [Decimal(i)]) == if i < |xs| then Ok(xs[i]) else Err(OutOfRange)
  {
    hide At, Decimal;
    AtChild(doc, at, Decimal(i));
    DecimalIsNoDash(i);
    StoiOfDecimal(i);
  }

  lemma IndexPath(at: Tokens, i: nat)
    ensures ToString(at) + "/" + Decimal(i) == ToString(at + [Decimal(i)])
  {
    EscapeDigits(Decimal(i));
    ToStringSnoc(at, Decimal(i));
  }

  lemma NothingBelow(doc: Value, goal: Value, at: Tokens, names: set<string>)
    ensures Below(doc, goal, at, [], names)
  {
  }

  lemma RemovalBelow(doc: Value, goal: Value, at: Tokens, t: string)
    requires At(doc, at + [t]).Ok? && At(goal, at + [t]).Err?
    ensures Below(doc, goal, at, [RemoveOp(ToString(at + [t]))], {t})
  {
    hide At, RemoveOp, ToString, Place;
    Places(at + [t], Null);
    PlacedOne(doc, goal, at + [t], RemoveOp(ToString(at + [t])));
    BelowChild(doc, goal, at, t, [RemoveOp(ToString(at + [t]))]);
  }

  lemma AdditionBelow(doc: Value, goal: Value, at: Tokens, t: string, y: Value)
    requires At(doc, at + [t]).Err? && At(goal, at + [t]) == Ok(y)
    ensures Below(doc, goal, at, [AddOp(ToString(at + [t]), y)], {t})
  {
    hide At, AddOp, ToString, Place;
    Places(at + [t], y);
    PlacedOne(doc, goal, at + [t], AddOp(ToString(at + [t]), y));
    BelowChild(doc, goal, at, t, [AddOp(ToString(at + [t]), y)]);
  }

  lemma ReplacementPlaced(doc: Value, goal: Value, at: Tokens, x: Value, y: Value)
    requires At(doc, at) == Ok(x) && At(goal, at) == Ok(y) && !Eq(x, y)
    requires !(x.Array? && y.Array?) && !(x.Object? && y.Object?)
    ensures Placed(doc, goal, at, [ReplaceOp(ToString(at), y)])
  {
    hide At, ReplaceOp, ToString, Place, Eq;
    Places(at, y);
    PlacedOne(doc, goal, at, ReplaceOp(ToString(at), y));
  }

  lemma {:induction false} CommonPlaced(doc: Value, goal: Value, at: Tokens, source: Value, target: Value, n: nat)
    requires source.Array? && target.Array? && n <= |source.elems| && n <= |target.elems|
    requires At(doc, at) == Ok(source) && At(goal, at) == Ok(target) && Indexable(source) && Indexable(target)
    ensures Below(doc, goal, at, CommonDiff(source, target, n, ToString(at)), Indices(0, n))
    decreases source, 0, n
  {
    if n == 0 {
      NothingBelow(doc, goal, at, Indices(0, 0));
    } else {
      var x, y, t := source.elems[n - 1], target.elems[n - 1], Decimal(n - 1);
      CommonDiffLast(source, target, n, at);
      hide *;
      CommonPlaced(doc, goal, at, source, target, n - 1);
      ElementsIndexable(source, n - 1);
      ElementsIndexable(target, n - 1);
      ArraySizes(source);
      ElementAt(doc, at, source.elems, n - 1);
      ElementAt(goal, at, target.elems, n - 1);
      DiffPlaced(doc, goal, at + [t], x, y);
      BelowChild(doc, goal, at, t, Diff(x, y, ToString(at + [t])));
      IndicesApart(0, n - 1, n);
      OneIndex(n - 1);
      BelowBoth(doc, goal, at, CommonDiff(source, target, n - 1, ToString(at)), Indices(0, n - 1),
                Diff(x, y, ToString(at + [t])), {t});
    }
  }

  lemma CommonDiffLast(source: Value, target: Value, n: nat, at: Tokens)
    requires source.Array? && target.Array? && 0 < n <= |source.elems| && n <= |target.elems|
    ensures CommonDiff(source, target, n, ToString(at)) ==
      CommonDiff(source, target, n - 1, ToString(at))
      + Diff(source.elems[n - 1], target.elems[n - 1], ToString(at + [Decimal(n - 1)]))
  {
    IndexPath(at, n - 1);
    hide Diff, ToString, Decimal;
  }

  lemma RemovalsLast(from: nat, to: nat, at: Tokens)
    requires from < to
    ensures Removals(from, to, ToString(at)) ==
      [RemoveOp(ToString(at + [Decimal(to - 1)]))] + Removals(from, to - 1, ToString(at))
  {
    IndexPath(at, to - 1);
    hide RemoveOp, ToString, Decimal;
  }

  lemma RemovalsNone(from: nat, to: nat, at: Tokens)
    requires to <= from
    ensures Removals(from, to, ToString(at)) == []
  {
  }

  lemma {:induction false} RemovalsPlaced(doc: Value, goal: Value, at: Tokens, xs: seq<Value>, ys: seq<Value>, size: nat)
    requires At(doc, at) == Ok(Array(xs)) && At(goal, at) == Ok(Array(ys)) && size <= |xs| <= INT_MAX + 1
    ensures Below(doc, goal, at, Removals(|ys|, size, ToString(at)), Indices(|ys|, size))
    decreases size
  {
    hide *;
    if size <= |ys| {
      RemovalsNone(|ys|, size, at);
      NothingBelow(doc, goal, at, Indices(|ys|, size));
    } else {
      var t := Decimal(size - 1);
      RemovalsLast(|ys|, size, at);
      RemovalsPlaced(doc, goal, at, xs, ys, size - 1);
      ElementAt(doc, at, xs, size - 1);
      ElementAt(goal, at, ys, size - 1);
      RemovalBelow(doc, goal, at, t);
      IndicesApart(|ys|, size - 1, size);
      OneIndex(size - 1);
      assert {t} + Indices(|ys|, size - 1) == Indices(|ys|, size);
      BelowBoth(doc, goal, at, [RemoveOp(ToString(at + [t]))], {t},
                Removals(|ys|, size - 1, ToString(at)), Indices(|ys|, size - 1));
    }
  }

  lemma AdditionsFirst(ys: seq<Value>, from: nat, at: Tokens)
    requires from < |ys|
    ensures Additions(ys, from, ToString(at)) ==
      [AddOp(ToString(at + [Decimal(from)]), ys[from])] + Additions(ys, from + 1, ToString(at))
  {
    IndexPath(at, from);
    hide AddOp, ToString, Decimal;
  }

  lemma AdditionsNone(ys: seq<Value>, from: nat, at: Tokens)
    requires |ys| <= from
    ensures Additions(ys, from, ToString(at)) == []
  {
  }

  lemma {:induction false} AdditionsPlaced(doc: Value, goal: Value, at: Tokens, xs: seq<Value>, ys: seq<Value>, from: nat)
    requires At(doc, at) == Ok(Array(xs)) && At(goal, at) == Ok(Array(ys)) && |xs| <= from && |ys| <= INT_MAX + 1
    ensures Below(doc, goal, at, Additions(ys, from, ToString(at)), Indices(from, |ys|))
    decreases |ys| - from
  {
    hide *;
    if |ys| <= from {
      AdditionsNone(ys, from, at);
      NothingBelow(doc, goal, at, Indices(from, |ys|));
    } else {
      var t := Decimal(from);
      AdditionsFirst(ys, from, at);
      AdditionsPlaced(doc, goal, at, xs, ys, from + 1);
      ElementAt(doc, at, xs, from);
      ElementAt(goal, at, ys, from);
      AdditionBelow(doc, goal, at, t, ys[from]);
      IndicesApart(from, from + 1, |ys|);
      OneIndex(from);
      BelowBoth(doc, goal, at, [AddOp(ToString(at + [t]), ys[from])], {t},
                Additions(ys, from + 1, ToString(at)), Indices(from + 1, |ys|));
    }
  }

  lemma IndexRanges(n: nat, m: nat, l: nat)
    requires n == Min(m, l)
    ensures Indices(0, n) !! Indices(l, m) && (Indices(0, n) + Indices(l, m)) !! Indices(m, l)
  {
    hide Indices;
    NoIndices(l, m);
    NoIndices(m, l);
    if l <= m {
      IndicesApart(0, l, m);
    } else {
      IndicesApart(0, m, l);
    }
  }

  lemma NoIndices(from: nat, to: nat)
    ensures to <= from ==> Indices(from, to) == {}
  {
  }

  lemma ArrayPlaced(doc: Value, goal: Value, at: Tokens, source: Value, target: Value)
    requires source.Array? && target.Array? && !Eq(source, target)
    requires At(doc, at) == Ok(source) && At(goal, at) == Ok(target) && Indexable(source) && Indexable(target)
    ensures Placed(doc, goal, at, Diff(source, target, ToString(at)))
    decreases source, 0, |source.elems| + 1
  {
    var xs, ys, path := source.elems, target.elems, ToString(at);
    var n := Min(|xs|, |ys|);
    ArrayParts(source, target, at);
    hide *;
    var a, b, c := CommonDiff(source, target, n, path), Removals(|ys|, |xs|, path), Additions(ys, |xs|, path);
    ArraySizes(source);
    ArraySizes(target);
    CommonPlaced(doc, goal, at, source, target, n);
    RemovalsPlaced(doc, goal, at, xs, ys, |xs|);
    AdditionsPlaced(doc, goal, at, xs, ys, |xs|);
    IndexRanges(n, |xs|, |ys|);
    BelowBoth(doc, goal, at, a, Indices(0, n), b, Indices(|ys|, |xs|));
    BelowBoth(doc, goal, at, a + b, Indices(0, n) + Indices(|ys|, |xs|), c, Indices(|xs|, |ys|));
    BelowPlaced(doc, goal, at, a + b + c, Indices(0, n) + Indices(|ys|, |xs|) + Indices(|xs|, |ys|));
  }

  lemma BelowPlaced(doc: Value, goal: Value, at: Tokens, operations: seq<Value>, names: set<string>)
    requires Below(doc, goal, at, operations, names)
    ensures Placed(doc, goal, at, operations)
  {
  }

  // ---------- objects ----------

  lemma MemberAt(doc: Value, at: Tokens, m: map<string, Value>, k: string)
    requires At(doc, at) == Ok(Object(m))
    ensures At(doc, at + [k]) == if k in m then Ok(m[k]) else Err(OutOfRange)
  {
    AtChild(doc, at, k);
  }

  function Names(keys: seq<string>): set<string> {
    set k | k in keys
  }

  lemma LastName(keys: seq<string>)
    requires keys != [] && Ascending(keys)
    ensures var front, k := keys[..|keys| - 1], keys[|keys| - 1];
      Names(keys) == Names(front) + {k} && Names(front) !! {k} && Ascending(front) && Names(front) <= Names(keys)
  {
    var front, k := keys[..|keys| - 1], keys[|keys| - 1];
    assert keys == front + [k];
    forall o | o in front ensures o != k { LessTrichotomy(o, k); }
  }

  lemma FrontKeys(keys: seq<string>, m: map<string, Value>)
    requires keys != [] && forall k | k in keys :: k in m
    ensures keys[|keys| - 1] in m && forall k | k in keys[..|keys| - 1] :: k in m
  {
  }

  lemma {:induction false} MembersPlaced(doc: Value, goal: Value, at: Tokens, source: Value, target: Value, keys: seq<string>)
    requires source.Object? && target.Object? && Ascending(keys) && forall k | k in keys :: k in source.members
    requires At(doc, at) == Ok(source) && At(goal, at) == Ok(target) && Indexable(source) && Indexable(target)
    ensures Below(doc, goal, at, MembersDiff(source, target, keys, ToString(at)), Names(keys))
    decreases source, 0, |keys|
  {
    hide *;
    if keys == [] {
      MembersStart(source, target, at);
      NothingBelow(doc, goal, at, Names(keys));
    } else {
      var m, tm := source.members, target.members;
      var front, k := keys[..|keys| - 1], keys[|keys| - 1];
      LastName(keys);
      FrontKeys(keys, m);
      MembersPlaced(doc, goal, at, source, target, front);
      MembersDiffLast(source, target, keys, at);
      MemberAt(doc, at, m, k);
      MemberAt(goal, at, tm, k);
      if k in tm {
        MembersIndexable(source, k);
        MembersIndexable(target, k);
        DiffPlaced(doc, goal, at + [k], m[k], tm[k]);
        BelowChild(doc, goal, at, k, Diff(m[k], tm[k], ToString(at + [k])));
        BelowBoth(doc, goal, at, MembersDiff(source, target, front, ToString(at)), Names(front),
                  Diff(m[k], tm[k], ToString(at + [k])), {k});
      } else {
        ToStringSnoc(at, k);
        RemovalBelow(doc, goal, at, k);
        BelowBoth(doc, goal, at, MembersDiff(source, target, front, ToString(at)), Names(front),
                  [RemoveOp(ToString(at + [k]))], {k});
      }
    }
  }

  /** The names that only the target has. */
  function NewNames(m: map<string, Value>, keys: seq<string>): set<string> {
    set k | k in keys && k !in m
  }

  lemma AddedLast(m: map<string, Value>, tm: map<string, Value>, keys: seq<string>, at: Tokens)
    requires keys != [] && Ascending(keys) && forall k | k in keys :: k in tm
    ensures var front, k := keys[..|keys| - 1], keys[|keys| - 1];
      && (forall o | o in front :: o in tm) && k in tm && Ascending(front)
      && if k in m then
          && MembersAdded(m, tm, keys, ToString(at)) == MembersAdded(m, tm, front, ToString(at))
          && NewNames(m, keys) == NewNames(m, front)
        else
          && MembersAdded(m, tm, keys, ToString(at)) ==
            MembersAdded(m, tm, front, ToString(at)) + [AddOp(ToString(at + [k]), tm[k])]
          && NewNames(m, keys) == NewNames(m, front) + {k} && NewNames(m, front) !! {k}
  {
    var front, k := keys[..|keys| - 1], keys[|keys| - 1];
    assert keys == front + [k];
    LastName(keys);
    assert forall o | o in front :: o in Names(front);
    ToStringSnoc(at, k);
    hide AddOp, Escape, ToString;
  }

  lemma AddedNone(m: map<string, Value>, tm: map<string, Value>, at: Tokens)
    ensures MembersAdded(m, tm, [], ToString(at)) == []
  {
  }

  lemma {:induction false} AddedPlaced(doc: Value, goal: Value, at: Tokens, m: map<string, Value>,
                                       tm: map<string, Value>, keys: seq<string>)
    requires At(doc, at) == Ok(Object(m)) && At(goal, at) == Ok(Object(tm))
    requires Ascending(keys) && forall k | k in keys :: k in tm
    ensures Below(doc, goal, at, MembersAdded(m, tm, keys, ToString(at)), NewNames(m, keys))
    decreases |keys|
  {
    hide *;
    if keys == [] {
      AddedNone(m, tm, at);
      NothingBelow(doc, goal, at, NewNames(m, keys));
    } else {
      var front, k := keys[..|keys| - 1], keys[|keys| - 1];
      AddedLast(m, tm, keys, at);
      AddedPlaced(doc, goal, at, m, tm, front);
      if k !in m {
        MemberAt(doc, at, m, k);
        MemberAt(goal, at, tm, k);
        AdditionBelow(doc, goal, at, k, tm[k]);
        BelowBoth(doc, goal, at, MembersAdded(m, tm, front, ToString(at)), NewNames(m, front),
                  [AddOp(ToString(at + [k]), tm[k])], {k});
      }
    }
  }

  lemma NamesApart(m: map<string, Value>, keys: seq<string>, targetKeys: seq<string>)
    requires forall k | k in keys :: k in m
    ensures Names(keys) !! NewNames(m, targetKeys)
  {
  }

  lemma SortedKeys(m: map<string, Value>)
    ensures Ascending(Sorted(m.Keys)) && forall k | k in Sorted(m.Keys) :: k in m
  {
  }

  lemma ObjectPlaced(doc: Value, goal: Value, at: Tokens, source: Value, target: Value)
    requires source.Object? && target.Object? && !Eq(source, target)
    requires At(doc, at) == Ok(source) && At(goal, at) == Ok(target) && Indexable(source) && Indexable(target)
    ensures Placed(doc, goal, at, Diff(source, target, ToString(at)))
    decreases source, 0, |source.members| + 1
  {
    var m, tm, path := source.members, target.members, ToString(at);
    var keys, targetKeys := Sorted(m.Keys), Sorted(tm.Keys);
    ObjectParts(source, target, at);
    hide *;
    SortedKeys(m);
    SortedKeys(tm);
    MembersPlaced(doc, goal, at, source, target, keys);
    AddedPlaced(doc, goal, at, m, tm, targetKeys);
    NamesApart(m, keys, targetKeys);
    BelowBoth(doc, goal, at, MembersDiff(source, target, keys, path), Names(keys),
              MembersAdded(m, tm, targetKeys, path), NewNames(m, targetKeys));
    BelowPlaced(doc, goal, at, MembersDiff(source, target, keys, path) + MembersAdded(m, tm, targetKeys, path),
                Names(keys) + NewNames(m, targetKeys));
  }

  // ---------- the law ----------

  /** Inside any two documents, the operations for the nodes at `at` name differences at or below it. */
  lemma {:induction false} DiffPlaced(doc: Value, goal: Value, at: Tokens, source: Value, target: Value)
    requires At(doc, at) == Ok(source) && At(goal, at) == Ok(target) && Indexable(source) && Indexable(target)
    ensures Placed(doc, goal, at, Diff(source, target, ToString(at)))
    decreases source, 1, 0
  {
    DiffCases(source, target, ToString(at));
    hide *;
    if Eq(source, target) {
      NothingBelow(doc, goal, at, {});
      BelowPlaced(doc, goal, at, [], {});
    } else if source.Array? && target.Array? {
      ArrayPlaced(doc, goal, at, source, target);
    } else if source.Object? && target.Object? {
      ObjectPlaced(doc, goal, at, source, target);
    } else {
      ReplacementPlaced(doc, goal, at, source, target);
    }
  }

  lemma DiffCases(source: Value, target: Value, path: string)
    ensures Eq(source, target) ==> Diff(source, target, path) == []
    ensures !Eq(source, target) && !(source.Array? && target.Array?) && !(source.Object? && target.Object?) ==>
      Diff(source, target, path) == [ReplaceOp(path, target)]
  {
  }

  /**
   Every operation of a diff is called for: it removes what only the source has, adds what only
   the target has, or replaces a value by an unequal one that is not a container of the same kind.
   No two operations touch the same place or a place within the other's.
   */
  lemma DiffIsMinimal(source: Value, target: Value)
    requires Indexable(source) && Indexable(target)
    ensures forall op | op in Diff(source, target, "") :: Differs(source, target, op)
    ensures var ops := Diff(source, target, "");
      forall i, j | 0 <= i < j < |ops| :: Apart(Place(ops[i]), Place(ops[j]))
  {
    RootText();
    hide Diff, Differs, Place;
    DiffPlaced(source, target, [], source, target);
  }

  lemma RootText()
    ensures ToString([]) == ""
  {
  }
}
