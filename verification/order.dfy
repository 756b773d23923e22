/** `operator<` on JSON values (json.hpp:5407-5428, 5638-5714). */
module Order {
  import opened Text
  import opened Json

  /** The rank of a value's type in the order of `operator<(value_t, value_t)`. */
  function TypeRank(v: Value): nat {
    match v
    case Null => 0
    case Boolean(_) => 1
    case Integer(_) => 2
    case Unsigned(_) => 2
    case Float(_) => 2
    case Object(_) => 3
    case Array(_) => 4
    case String(_) => 5
  }

  // ---------- how much there is to compare ----------

  function Weight(v: Value): nat
    decreases v, 1
  {
    match v
    case Array(xs) => 1 + WeightOfElements(xs)
    case Object(m) => 1 + WeightOfMembers(m, Sorted(m.Keys))
    case _ => 0
  }

  function WeightOfElements(xs: seq<Value>): nat
    decreases xs, 1
  {
    if xs == [] then 0 else 1 + Weight(xs[0]) + WeightOfElements(xs[1..])
  }

  function WeightOfMembers(m: map<string, Value>, keys: seq<string>): nat
    requires forall k | k in keys :: k in m
    decreases Object(m), 0, |keys|
  {
    if keys == [] then 0 else 1 + Weight(m[keys[0]]) + WeightOfMembers(m, keys[1..])
  }

  // ---------- the comparison ----------

  predicate LessThan(a: Value, b: Value)
    decreases Weight(a) + Weight(b), 1
  {
    match (a, b)
    case (Array(xs), Array(ys)) => ElementsLess(xs, ys)
    case (Object(m), Object(n)) => MembersLess(m, Sorted(m.Keys), n, Sorted(n.Keys))
    case (Null, Null) => false
    case (String(s), String(t)) => Less(s, t)
    case (Boolean(p), Boolean(q)) => !p && q
    case (Integer(x), Integer(y)) => x < y
    case (Unsigned(x), Unsigned(y)) => x < y
    case (Float(x), Float(y)) => x < y
    case (Integer(x), Float(y)) => x as real < y
    case (Float(x), Integer(y)) => x < y as real
    case (Unsigned(x), Float(y)) => x as real < y
    case (Float(x), Unsigned(y)) => x < y as real
    case (Integer(x), Unsigned(y)) => x < ToSigned(y)
    case (Unsigned(x), Integer(y)) => ToSigned(x) < y
    case _ => TypeRank(a) < TypeRank(b)
  }

  /** `std::vector::operator<`: std::lexicographical_compare of the elements. */
  predicate ElementsLess(xs: seq<Value>, ys: seq<Value>)
    decreases WeightOfElements(xs) + WeightOfElements(ys), 0
  {
    ys != [] &&
    (xs == [] ||
     LessThan(xs[0], ys[0]) ||
     (!LessThan(ys[0], xs[0]) && ElementsLess(xs[1..], ys[1..])))
  }

  /** `std::map::operator<`: std::lexicographical_compare of the (key, value) pairs. */
  predicate MembersLess(m: map<string, Value>, ms: seq<string>, n: map<string, Value>, ns: seq<string>)
    requires forall k | k in ms :: k in m
    requires forall k | k in ns :: k in n
    decreases WeightOfMembers(m, ms) + WeightOfMembers(n, ns), 0
  {
    ns != [] &&
    (ms == [] ||
     PairLess(ms[0], m[ms[0]], ns[0], n[ns[0]]) ||
     (!PairLess(ns[0], n[ns[0]], ms[0], m[ms[0]]) && MembersLess(m, ms[1..], n, ns[1..])))
  }

  /** `std::pair::operator<`. */
  predicate PairLess(j: string, a: Value, k: string, b: Value)
    decreases Weight(a) + Weight(b), 2
  {
    Less(j, k) || (!Less(k, j) && LessThan(a, b))
  }

  // ---------- where it is an order ----------

  /** No floats, and every number fits a signed 64-bit integer. */
  predicate Comparable(v: Value) {
    match v
    case Float(_) => false
    case Unsigned(u) => u < TWO63
    case Array(xs) => forall x | x in xs :: Comparable(x)
    case Object(m) => forall k | k in m :: Comparable(m[k])
    case _ => true
  }

  /** Neither is less than the other: what sorted containers take for equality. */
  predicate Incomparable(a: Value, b: Value) {
    !LessThan(a, b) && !LessThan(b, a)
  }

  lemma {:induction false} Trichotomy(a: Value, b: Value)
    requires Comparable(a) && Comparable(b)
    ensures !(LessThan(a, b) && LessThan(b, a))
    ensures Incomparable(a, b) <==> Eq(a, b)
    decreases Weight(a) + Weight(b), 1
  {
    match (a, b)
    case (Array(xs), Array(ys)) => ElementsTrichotomy(xs, ys);
    case (Object(m), Object(n)) =>
      MembersTrichotomy(m, Sorted(m.Keys), n, Sorted(n.Keys));
      if Sorted(m.Keys) == Sorted(n.Keys) {
        assert forall k :: k in m.Keys <==> k in Sorted(m.Keys);
        assert m.Keys == n.Keys;
      }
    case (String(s), String(t)) => LessTrichotomy(s, t);
    case _ =>
  }

  lemma {:induction false} ElementsTrichotomy(xs: seq<Value>, ys: seq<Value>)
    requires forall x | x in xs :: Comparable(x)
    requires forall y | y in ys :: Comparable(y)
    ensures !(ElementsLess(xs, ys) && ElementsLess(ys, xs))
    ensures !ElementsLess(xs, ys) && !ElementsLess(ys, xs)
       <==> |xs| == |ys| && forall n | 0 <= n < |xs| :: Eq(xs[n], ys[n])
    decreases WeightOfElements(xs) + WeightOfElements(ys), 0
  {
    if xs != [] && ys != [] {
      Trichotomy(xs[0], ys[0]);
      ElementsTrichotomy(xs[1..], ys[1..]);
      assert forall n | 1 <= n < |xs| :: xs[n] == xs[1..][n - 1];
      assert forall n | 1 <= n < |ys| :: ys[n] == ys[1..][n - 1];
    }
  }

  lemma {:induction false} MembersTrichotomy(
    m: map<string, Value>, ms: seq<string>, n: map<string, Value>, ns: seq<string>)
    requires forall k | k in ms :: k in m && Comparable(m[k])
    requires forall k | k in ns :: k in n && Comparable(n[k])
    ensures !(MembersLess(m, ms, n, ns) && MembersLess(n, ns, m, ms))
    ensures !MembersLess(m, ms, n, ns) && !MembersLess(n, ns, m, ms)
       <==> ms == ns && forall k | k in ms :: Eq(m[k], n[k])
    decreases WeightOfMembers(m, ms) + WeightOfMembers(n, ns), 0
  {
    MembersStep(m, ms, n, ns);
    MembersStep(n, ns, m, ms);
    if ms != [] && ns != [] {
      var j, k := ms[0], ns[0];
      LessTrichotomy(j, k);
      Trichotomy(m[j], n[k]);
      MembersTrichotomy(m, ms[1..], n, ns[1..]);
      assert ms == [j] + ms[1..] && ns == [k] + ns[1..];
    }
    hide LessThan, MembersLess, Eq, Comparable, Less;
  }

  /** "Not greater" is transitive, and strict as soon as one of its two steps is. */
  lemma {:induction false} Transitivity(a: Value, b: Value, c: Value)
    requires Comparable(a) && Comparable(b) && Comparable(c)
    requires !LessThan(b, a) && !LessThan(c, b)
    ensures !LessThan(c, a)
    ensures LessThan(a, b) || LessThan(b, c) ==> LessThan(a, c)
    decreases Weight(a) + Weight(b) + Weight(c), 1
  {
    match (a, b, c)
    case (Array(xs), Array(ys), Array(zs)) => ElementsTransitivity(xs, ys, zs);
    case (Object(m), Object(n), Object(o)) =>
      MembersTransitivity(m, Sorted(m.Keys), n, Sorted(n.Keys), o, Sorted(o.Keys));
    case (String(s), String(t), String(u)) => StringTransitivity(s, t, u);
    case _ =>
  }

  lemma StringTransitivity(s: string, t: string, u: string)
    requires !Less(t, s) && !Less(u, t)
    ensures !Less(u, s)
    ensures Less(s, t) || Less(t, u) ==> Less(s, u)
  {
    LessTrichotomy(s, t);
    LessTrichotomy(t, u);
    LessTrichotomy(s, u);
    if Less(s, t) && Less(t, u) { LessTransitive(s, t, u); }
  }

  lemma {:induction false} ElementsTransitivity(xs: seq<Value>, ys: seq<Value>, zs: seq<Value>)
    requires forall x | x in xs :: Comparable(x)
    requires forall y | y in ys :: Comparable(y)
    requires forall z | z in zs :: Comparable(z)
    requires !ElementsLess(ys, xs) && !ElementsLess(zs, ys)
    ensures !ElementsLess(zs, xs)
    ensures ElementsLess(xs, ys) || ElementsLess(ys, zs) ==> ElementsLess(xs, zs)
    decreases WeightOfElements(xs) + WeightOfElements(ys) + WeightOfElements(zs), 0
  {
    if xs != [] && ys != [] && zs != [] {
      Transitivity(xs[0], ys[0], zs[0]);
      Trichotomy(xs[0], ys[0]);
      Trichotomy(ys[0], zs[0]);
      if !LessThan(xs[0], ys[0]) && !LessThan(ys[0], zs[0]) {
        Transitivity(zs[0], ys[0], xs[0]);
        ElementsTransitivity(xs[1..], ys[1..], zs[1..]);
      }
    }
  }

  lemma {:induction false} MembersTransitivity(
    m: map<string, Value>, ms: seq<string>, n: map<string, Value>, ns: seq<string>,
    o: map<string, Value>, os: seq<string>)
    requires forall k | k in ms :: k in m && Comparable(m[k])
    requires forall k | k in ns :: k in n && Comparable(n[k])
    requires forall k | k in os :: k in o && Comparable(o[k])
    requires !MembersLess(n, ns, m, ms) && !MembersLess(o, os, n, ns)
    ensures !MembersLess(o, os, m, ms)
    ensures MembersLess(m, ms, n, ns) || MembersLess(n, ns, o, os) ==> MembersLess(m, ms, o, os)
    decreases WeightOfMembers(m, ms) + WeightOfMembers(n, ns) + WeightOfMembers(o, os), 0
  {
    if ms != [] && ns != [] && os != [] {
      var i, j, k := ms[0], ns[0], os[0];
      var a, b, c := m[i], n[j], o[k];
      PairTransitivity(i, a, j, b, k, c);
      if !PairLess(i, a, j, b) && !PairLess(j, b, k, c) {
        PairTransitivity(k, c, j, b, i, a);
        MembersTransitivity(m, ms[1..], n, ns[1..], o, os[1..]);
      }
    }
  }

  lemma {:induction false} PairTransitivity(i: string, a: Value, j: string, b: Value, k: string, c: Value)
    requires Comparable(a) && Comparable(b) && Comparable(c)
    requires !PairLess(j, b, i, a) && !PairLess(k, c, j, b)
    ensures !PairLess(k, c, i, a)
    ensures PairLess(i, a, j, b) || PairLess(j, b, k, c) ==> PairLess(i, a, k, c)
    decreases Weight(a) + Weight(b) + Weight(c), 2
  {
    LessTrichotomy(i, j);
    LessTrichotomy(j, k);
    StringTransitivity(i, j, k);
    if i == j == k {
      Transitivity(a, b, c);
    }
  }

  /** On comparable values `operator<` is a strict weak order, and its ties are exactly `operator==`. */
  lemma StrictWeakOrder(a: Value, b: Value, c: Value)
    requires Comparable(a) && Comparable(b) && Comparable(c)
    ensures !LessThan(a, a)
    ensures LessThan(a, b) ==> !LessThan(b, a)
    ensures LessThan(a, b) && LessThan(b, c) ==> LessThan(a, c)
    ensures Incomparable(a, b) && Incomparable(b, c) ==> Incomparable(a, c)
    ensures Incomparable(a, b) <==> Eq(a, b)
    ensures LessThan(a, b) || Eq(a, b) || LessThan(b, a)
  {
    Trichotomy(a, b);
    Trichotomy(b, c);
    EqReflexive(a);
    Trichotomy(a, a);
    if LessThan(a, b) && LessThan(b, c) { Transitivity(a, b, c); }
    if Incomparable(a, b) && Incomparable(b, c) {
      Transitivity(a, b, c);
      Transitivity(c, b, a);
    }
  }

  /** The types in their documented order, whatever the values hold. */
  lemma DocumentedOrder(b: bool, number: Value, m: map<string, Value>, xs: seq<Value>, s: string)
    requires number.Integer? || number.Unsigned? || number.Float?
    ensures LessThan(Null, Boolean(b)) && LessThan(Boolean(b), number) && LessThan(number, Object(m))
    ensures LessThan(Object(m), Array(xs)) && LessThan(Array(xs), String(s))
  {
  }

  /** Three values that are each less than the next, the outer two being comparable ones. */
  predicate Cycle(x: Value, v: Value, y: Value) {
    Comparable(x) && Comparable(y) && LessThan(x, v) && LessThan(v, y) && LessThan(y, x)
  }

  lemma {:induction false} ElementsLessAfter(p: seq<Value>, xs: seq<Value>, ys: seq<Value>)
    requires forall x | x in p :: Comparable(x)
    requires ElementsLess(xs, ys)
    ensures ElementsLess(p + xs, p + ys)
    decreases p
  {
    if p == [] {
      assert p + xs == xs && p + ys == ys;
    } else {
      Trichotomy(p[0], p[0]);
      ElementsLessAfter(p[1..], xs, ys);
      assert (p + xs)[1..] == p[1..] + xs && (p + ys)[1..] == p[1..] + ys;
    }
  }

  lemma {:induction false} MembersLessAfter(
    m: map<string, Value>, ms: seq<string>, n: map<string, Value>, ns: seq<string>, p: seq<string>)
    requires forall k | k in ms :: k in m
    requires forall k | k in ns :: k in n
    requires forall k | k in p :: k in m && k in n && m[k] == n[k] && Comparable(m[k])
    requires MembersLess(m, ms, n, ns)
    ensures MembersLess(m, p + ms, n, p + ns)
    decreases p
  {
    if p == [] {
      assert p + ms == ms && p + ns == ns;
    } else {
      Trichotomy(m[p[0]], n[p[0]]);
      EqReflexive(m[p[0]]);
      LessTrichotomy(p[0], p[0]);
      MembersLessAfter(m, ms, n, ns, p[1..]);
      assert (p + ms)[1..] == p[1..] + ms && (p + ns)[1..] == p[1..] + ns;
    }
  }

  /** The first value of the list that is not comparable. */
  lemma {:induction false} FirstBad(xs: seq<Value>) returns (n: nat)
    requires exists x :: x in xs && !Comparable(x)
    ensures n < |xs| && !Comparable(xs[n]) && forall x | x in xs[..n] :: Comparable(x)
  {
    if !Comparable(xs[0]) {
      n := 0;
    } else {
      n := FirstBad(xs[1..]);
      n := n + 1;
      assert xs[..n] == [xs[0]] + xs[1..][..n - 1];
    }
  }

  /** A float-free value that is not comparable closes a cycle: `operator<` has no order to place it in. */
  lemma {:induction false} BadValueCycles(v: Value) returns (x: Value, y: Value)
    requires NoFloats(v) && !Comparable(v)
    ensures Cycle(x, v, y)
    decreases v, 1
  {
    hide LessThan;
    match v
    case Unsigned(u) =>
      x, y := Unsigned(1), Integer(0);
      LargeUnsignedCycles(u);
    case Array(xs) => x, y := BadElementCycles(xs);
    case Object(m) => x, y := BadMemberCycles(m);
  }

  lemma LargeUnsignedCycles(u: uint64)
    requires TWO63 <= u
    ensures Cycle(Unsigned(1), Unsigned(u), Integer(0))
  {
  }

  lemma {:induction false} BadElementCycles(xs: seq<Value>) returns (x: Value, y: Value)
    requires NoFloats(Array(xs)) && !Comparable(Array(xs))
    ensures Cycle(x, Array(xs), y)
    decreases Array(xs), 0
  {
    hide LessThan;
    var n := FirstBad(xs);
    assert xs[n] in xs;
    var a, b := BadValueCycles(xs[n]);
    hide *;
    x, y := Array(xs[..n] + [a]), Array(xs[..n] + [b]);
    assert xs == xs[..n] + ([xs[n]] + xs[n + 1..]);
    ElementsCycle(xs[..n], a, xs[n], b, xs[n + 1..]);
  }

  /** The first key whose value is not comparable. */
  lemma FirstBadKey(m: map<string, Value>, keys: seq<string>) returns (n: nat)
    requires keys == Sorted(m.Keys) && NoFloats(Object(m)) && !Comparable(Object(m))
    ensures n < |keys| && keys[n] in m && NoFloats(m[keys[n]]) && !Comparable(m[keys[n]])
    ensures forall k | k in keys[..n] :: Comparable(m[k])
  {
    var bad :| bad in m && !Comparable(m[bad]);
    hide Sorted, Comparable;
    var values := seq(|keys|, i requires 0 <= i < |keys| => m[keys[i]]);
    var at :| 0 <= at < |keys| && keys[at] == bad;
    assert values[at] in values;
    n := FirstBad(values);
    forall q | q in keys[..n] ensures Comparable(m[q]) {
      var i :| 0 <= i < n && keys[i] == q;
      assert values[i] in values[..n];
    }
    assert keys[n] in keys;
  }

  lemma ElementsCycle(p: seq<Value>, a: Value, bad: Value, b: Value, s: seq<Value>)
    requires Cycle(a, bad, b) && forall v | v in p :: Comparable(v)
    ensures Cycle(Array(p + [a]), Array(p + ([bad] + s)), Array(p + [b]))
  {
    ElementsLessAfter(p, [a], [bad] + s);
    ElementsLessAfter(p, [bad] + s, [b]);
    ElementsLessAfter(p, [b], [a]);
  }

  lemma {:induction false} BadMemberCycles(m: map<string, Value>) returns (x: Value, y: Value)
    requires NoFloats(Object(m)) && !Comparable(Object(m))
    ensures Cycle(x, Object(m), y)
    decreases Object(m), 0
  {
    hide *;
    var keys := Sorted(m.Keys);
    var n := FirstBadKey(m, keys);
    var k := keys[n];
    var a, b := BadValueCycles(m[k]);
    CycleIsComparable(a, m[k], b);
    var left := CutBefore(m, keys, n, a);
    var right := CutBefore(m, keys, n, b);
    x, y := Object(left), Object(right);
    assert keys == keys[..n] + ([k] + keys[n + 1..]);
    CutsCycle(left, m, right, keys[..n], k, keys[n + 1..]);
  }

  lemma CycleIsComparable(x: Value, v: Value, y: Value)
    requires Cycle(x, v, y)
    ensures Comparable(x) && Comparable(y)
  {
  }

  lemma CutsCycle(
    left: map<string, Value>, m: map<string, Value>, right: map<string, Value>,
    p: seq<string>, k: string, s: seq<string>)
    requires Sorted(m.Keys) == p + ([k] + s)
    requires IsCut(left, m, p, k) && IsCut(right, m, p, k)
    requires k in m && Cycle(left[k], m[k], right[k])
    ensures Cycle(Object(left), Object(m), Object(right))
  {
    hide Sorted, Comparable, LessThan, MembersLess;
    CutOrder(left, [k], m, [k] + s, p, k);
    CutOrder(m, [k] + s, right, [k], p, k);
    CutOrder(right, [k], left, [k], p, k);
  }

  /** Comparable members that agree with the others on the keys before the last one. */
  predicate IsCut(r: map<string, Value>, m: map<string, Value>, p: seq<string>, k: string) {
    && Sorted(r.Keys) == p + [k]
    && k in r
    && Comparable(Object(r))
    && forall j | j in p :: j in m && j in r && r[j] == m[j] && Comparable(m[j])
  }

  lemma CutBefore(m: map<string, Value>, keys: seq<string>, n: nat, v: Value) returns (r: map<string, Value>)
    requires n < |keys| && keys == Sorted(m.Keys)
    requires Comparable(v) && forall k | k in keys[..n] :: Comparable(m[k])
    ensures IsCut(r, m, keys[..n], keys[n]) && r[keys[n]] == v
  {
    hide Sorted, Ascending;
    var p, last := keys[..n], keys[n];
    assert forall k | k in p :: k in keys;
    r := (map k | k in p :: m[k])[last := v];
    CutKeys(keys, n, r);
    assert last !in p;
  }

  lemma CutKeys(keys: seq<string>, n: nat, r: map<string, Value>)
    requires n < |keys| && Ascending(keys)
    requires forall k :: k in r <==> k == keys[n] || k in keys[..n]
    ensures Sorted(r.Keys) == keys[..n] + [keys[n]]
    ensures keys[n] !in keys[..n]
  {
    hide Sorted;
    LessTrichotomy(keys[n], keys[n]);
    var cut := keys[..n] + [keys[n]];
    assert cut == keys[..n + 1];
    AscendingUnique(cut, Sorted(r.Keys));
  }

  lemma CutOrder(
    m: map<string, Value>, ms: seq<string>, n: map<string, Value>, ns: seq<string>, p: seq<string>, k: string)
    requires ms != [] && ns != [] && ms[0] == ns[0] == k && k in m && k in n && LessThan(m[k], n[k])
    requires forall j | j in ms :: j in m
    requires forall j | j in ns :: j in n
    requires forall j | j in p :: j in m && j in n && m[j] == n[j] && Comparable(m[j])
    ensures MembersLess(m, p + ms, n, p + ns)
    ensures Sorted(m.Keys) == p + ms && Sorted(n.Keys) == p + ns ==> LessThan(Object(m), Object(n))
  {
    LessTrichotomy(k, k);
    MembersLessAfter(m, ms, n, ns, p);
  }

  /** Among float-free values, exactly the comparable ones are free of cycles. */
  lemma ComparableExactly(v: Value)
    requires NoFloats(v)
    ensures Comparable(v) <==> !exists x, y :: Cycle(x, v, y)
  {
    if Comparable(v) {
      forall x, y ensures !Cycle(x, v, y) {
        if Cycle(x, v, y) {
          StrictWeakOrder(x, v, y);
          StrictWeakOrder(x, y, x);
        }
      }
    } else {
      var x, y := BadValueCycles(v);
    }
  }

  // ---------- the first difference decides ----------

  /** After `n` places that tie, the first list ends before the second, or its next element is less. */
  predicate DecidedAt(xs: seq<Value>, ys: seq<Value>, n: nat) {
    && n <= |xs| && n < |ys|
    && (forall i | 0 <= i < n :: Incomparable(xs[i], ys[i]))
    && (n == |xs| || LessThan(xs[n], ys[n]))
  }

  lemma FirstTies(xs: seq<Value>, ys: seq<Value>)
    ensures forall n | DecidedAt(xs, ys, n) && n > 0 :: xs != [] && ys != [] && Incomparable(xs[0], ys[0])
  {
    hide LessThan;
  }

  lemma DecidedTail(xs: seq<Value>, ys: seq<Value>, n: nat)
    requires xs != [] && ys != [] && Incomparable(xs[0], ys[0])
    ensures DecidedAt(xs[1..], ys[1..], n) <==> DecidedAt(xs, ys, n + 1)
  {
    hide LessThan;
    if DecidedAt(xs, ys, n + 1) {
      forall i | 0 <= i < n ensures Incomparable(xs[1..][i], ys[1..][i]) {
        assert Incomparable(xs[i + 1], ys[i + 1]);
      }
    }
    if DecidedAt(xs[1..], ys[1..], n) {
      forall i | 0 <= i < n + 1 ensures Incomparable(xs[i], ys[i]) {
        if i > 0 {
          assert Incomparable(xs[1..][i - 1], ys[1..][i - 1]);
        }
      }
    }
  }

  /** Arrays are compared lexicographically: a proper prefix is less, otherwise the first pair that does not tie decides. */
  lemma {:induction false} ArraysByFirstDifference(xs: seq<Value>, ys: seq<Value>)
    ensures LessThan(Array(xs), Array(ys)) <==> exists n :: DecidedAt(xs, ys, n)
    decreases |xs|
  {
    ElementsStep(xs, ys);
    hide LessThan, ElementsLess;
    if xs == [] || ys == [] {
      assert ys != [] ==> DecidedAt(xs, ys, 0);
    } else if LessThan(xs[0], ys[0]) {
      assert DecidedAt(xs, ys, 0);
    } else if LessThan(ys[0], xs[0]) {
      FirstTies(xs, ys);
      assert !DecidedAt(xs, ys, 0);
    } else {
      ArraysByFirstDifference(xs[1..], ys[1..]);
      if n :| DecidedAt(xs[1..], ys[1..], n) {
        DecidedTail(xs, ys, n);
      } else {
        forall n: nat ensures !DecidedAt(xs, ys, n) {
          if n > 0 {
            DecidedTail(xs, ys, n - 1);
          }
        }
      }
    }
  }

  lemma ElementsStep(xs: seq<Value>, ys: seq<Value>)
    ensures LessThan(Array(xs), Array(ys)) <==>
      ys != [] && (xs == [] || LessThan(xs[0], ys[0])
        || (!LessThan(ys[0], xs[0]) && LessThan(Array(xs[1..]), Array(ys[1..]))))
  {
  }

  /** The same for the members of two objects, given by their keys in order. */
  predicate DecidedAtKey(m: map<string, Value>, ms: seq<string>, n: map<string, Value>, ns: seq<string>, k: nat)
    requires (forall key | key in ms :: key in m) && forall key | key in ns :: key in n
  {
    && k <= |ms| && k < |ns|
    && (forall i | 0 <= i < k :: ms[i] == ns[i] && Incomparable(m[ms[i]], n[ns[i]]))
    && (k == |ms| || Less(ms[k], ns[k]) || (ms[k] == ns[k] && LessThan(m[ms[k]], n[ns[k]])))
  }

  lemma FirstKeyTies(m: map<string, Value>, ms: seq<string>, n: map<string, Value>, ns: seq<string>)
    requires (forall key | key in ms :: key in m) && forall key | key in ns :: key in n
    ensures forall k | DecidedAtKey(m, ms, n, ns, k) && k > 0 ::
      ms != [] && ns != [] && ms[0] == ns[0] && Incomparable(m[ms[0]], n[ns[0]])
  {
    hide LessThan, Less;
  }

  lemma DecidedKeyTail(m: map<string, Value>, ms: seq<string>, n: map<string, Value>, ns: seq<string>, k: nat)
    requires (forall key | key in ms :: key in m) && forall key | key in ns :: key in n
    requires ms != [] && ns != [] && ms[0] == ns[0] && Incomparable(m[ms[0]], n[ns[0]])
    ensures DecidedAtKey(m, ms[1..], n, ns[1..], k) <==> DecidedAtKey(m, ms, n, ns, k + 1)
  {
    hide LessThan, Less;
    if DecidedAtKey(m, ms, n, ns, k + 1) {
      forall i | 0 <= i < k ensures ms[1..][i] == ns[1..][i] && Incomparable(m[ms[1..][i]], n[ns[1..][i]]) {
        assert ms[i + 1] == ns[i + 1] && Incomparable(m[ms[i + 1]], n[ns[i + 1]]);
      }
    }
    if DecidedAtKey(m, ms[1..], n, ns[1..], k) {
      forall i | 0 <= i < k + 1 ensures ms[i] == ns[i] && Incomparable(m[ms[i]], n[ns[i]]) {
        if i > 0 {
          assert ms[1..][i - 1] == ns[1..][i - 1];
        }
      }
    }
  }

  lemma MembersStep(m: map<string, Value>, ms: seq<string>, n: map<string, Value>, ns: seq<string>)
    requires (forall key | key in ms :: key in m) && forall key | key in ns :: key in n
    ensures MembersLess(m, ms, n, ns) <==>
      ns != [] && (ms == [] || Less(ms[0], ns[0]) || (ms[0] == ns[0] && LessThan(m[ms[0]], n[ns[0]]))
        || (ms[0] == ns[0] && Incomparable(m[ms[0]], n[ns[0]]) && MembersLess(m, ms[1..], n, ns[1..])))
    ensures ms != [] && ns != [] && ms[0] == ns[0] && LessThan(n[ns[0]], m[ms[0]]) && !LessThan(m[ms[0]], n[ns[0]]) ==>
      !MembersLess(m, ms, n, ns)
  {
    if ms != [] && ns != [] {
      LessTrichotomy(ms[0], ns[0]);
    }
    hide Less, LessThan;
  }

  lemma {:induction false} KeysByFirstDifference(m: map<string, Value>, ms: seq<string>, n: map<string, Value>, ns: seq<string>)
    requires (forall key | key in ms :: key in m) && forall key | key in ns :: key in n
    ensures MembersLess(m, ms, n, ns) <==> exists k :: DecidedAtKey(m, ms, n, ns, k)
    decreases |ms|
  {
    MembersStep(m, ms, n, ns);
    hide LessThan, MembersLess, PairLess, Less;
    if ms == [] || ns == [] {
      assert ns != [] ==> DecidedAtKey(m, ms, n, ns, 0);
    } else if Less(ms[0], ns[0]) || (ms[0] == ns[0] && LessThan(m[ms[0]], n[ns[0]])) {
      assert DecidedAtKey(m, ms, n, ns, 0);
    } else if ms[0] == ns[0] && Incomparable(m[ms[0]], n[ns[0]]) {
      KeysByFirstDifference(m, ms[1..], n, ns[1..]);
      if k :| DecidedAtKey(m, ms[1..], n, ns[1..], k) {
        DecidedKeyTail(m, ms, n, ns, k);
      } else {
        forall k: nat ensures !DecidedAtKey(m, ms, n, ns, k) {
          if k > 0 {
            DecidedKeyTail(m, ms, n, ns, k - 1);
          }
        }
      }
    } else {
      FirstKeyTies(m, ms, n, ns);
      assert !DecidedAtKey(m, ms, n, ns, 0);
    }
  }

  /** Objects are compared lexicographically by their members in key order, first by key, then by value. */
  lemma ObjectsByFirstDifference(m: map<string, Value>, n: map<string, Value>)
    ensures LessThan(Object(m), Object(n)) <==> exists k :: DecidedAtKey(m, Sorted(m.Keys), n, Sorted(n.Keys), k)
  {
    assert LessThan(Object(m), Object(n)) <==> MembersLess(m, Sorted(m.Keys), n, Sorted(n.Keys));
    KeysByFirstDifference(m, Sorted(m.Keys), n, Sorted(n.Keys));
    hide LessThan, MembersLess, Sorted;
  }

  // ---------- scalars ----------

  /** A number below 2^63, or a float, as the number it is. */
  function NumberOf(v: Value): real
    requires v.Integer? || v.Unsigned? || v.Float?
  {
    match v
    case Integer(x) => x as real
    case Unsigned(x) => x as real
    case Float(x) => x
  }

  /** Numbers of any two types are ordered by size, as long as unsigned ones fit a signed integer. */
  lemma NumbersBySize(a: Value, b: Value)
    requires (a.Integer? || a.Unsigned? || a.Float?) && (b.Integer? || b.Unsigned? || b.Float?)
    requires (a.Unsigned? ==> a.u < TWO63) && (b.Unsigned? ==> b.u < TWO63)
    ensures LessThan(a, b) <==> NumberOf(a) < NumberOf(b)
  {
  }

  /** The texts agree up to position `n`, where the first one ends or has the smaller byte. */
  predicate DecidedAtByte(s: string, t: string, n: nat) {
    n <= |s| && n < |t| && s[..n] == t[..n] && (n == |s| || s[n] < t[n])
  }

  lemma {:induction false} TextByFirstDifference(s: string, t: string)
    ensures Less(s, t) <==> exists n :: DecidedAtByte(s, t, n)
  {
    if s == "" || t == "" || s[0] < t[0] {
      assert t != "" ==> DecidedAtByte(s, t, 0);
    } else if s[0] > t[0] {
      forall n: nat ensures !DecidedAtByte(s, t, n) {
        assert n > 0 && n <= |s| && n <= |t| ==> s[..n][0] == s[0] && t[..n][0] == t[0];
      }
    } else {
      TextByFirstDifference(s[1..], t[1..]);
      forall n: nat ensures DecidedAtByte(s[1..], t[1..], n) <==> DecidedAtByte(s, t, n + 1) {
        if n < |s| && n < |t| {
          assert s[..n + 1] == [s[0]] + s[1..][..n] && t[..n + 1] == [t[0]] + t[1..][..n];
          assert s[1..][..n] == s[..n + 1][1..] && t[1..][..n] == t[..n + 1][1..];
        }
      }
      assert !DecidedAtByte(s, t, 0);
      assert forall n: nat | n > 0 && DecidedAtByte(s, t, n) :: DecidedAtByte(s[1..], t[1..], n - 1);
    }
  }

  /** Strings are compared byte by byte, and false is less than true. */
  lemma StringsByFirstDifference(s: string, t: string, p: bool, q: bool)
    ensures LessThan(String(s), String(t)) <==> exists n :: DecidedAtByte(s, t, n)
    ensures LessThan(Boolean(p), Boolean(q)) <==> !p && q
    ensures !LessThan(Null, Null)
  {
    TextByFirstDifference(s, t);
    hide Less, DecidedAtByte;
  }
}
