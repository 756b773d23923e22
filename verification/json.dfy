/** JSON values as `basic_json` holds them, and its notion of equality. */
module Json {
  import opened Text

  const TWO63 := 0x8000_0000_0000_0000
  const TWO64 := 0x1_0000_0000_0000_0000

  type int64 = x: int | -TWO63 <= x < TWO63
  type uint64 = x: int | 0 <= x < TWO64

  /** An array is a std::vector, an object a std::map keyed by strings. Floats are always finite. */
  datatype Value =
    | Null
    | Boolean(b: bool)
    | Integer(i: int64)
    | Unsigned(u: uint64)
    | Float(f: real)
    | String(s: string)
    | Array(elems: seq<Value>)
    | Object(members: map<string, Value>)
  {
    predicate IsPrimitive() {
      !Array? && !Object?
    }

    /** `type() == type()`: the eight value types, the three numeric ones being different types. */
    predicate SameType(other: Value) {
      && Null? == other.Null?
      && Boolean? == other.Boolean?
      && Integer? == other.Integer?
      && Unsigned? == other.Unsigned?
      && Float? == other.Float?
      && String? == other.String?
      && Array? == other.Array?
    }
  }

  /** `static_cast<int64_t>` of an unsigned 64-bit number. */
  function ToSigned(u: uint64): int64 {
    if u < TWO63 then u else u - TWO64
  }

  /** `operator==`: numbers of different types are converted before they are compared. */
  predicate Eq(a: Value, b: Value)
    decreases a
  {
    match a
    case Null => b.Null?
    case Boolean(x) => b.Boolean? && x == b.b
    case String(s) => b.String? && s == b.s
    case Array(xs) =>
      b.Array? && |xs| == |b.elems| && forall n | 0 <= n < |xs| :: Eq(xs[n], b.elems[n])
    case Object(m) =>
      b.Object? && m.Keys == b.members.Keys && forall k | k in m :: Eq(m[k], b.members[k])
    case Integer(x) =>
      match b {
        case Integer(y) => x == y
        case Unsigned(y) => x == ToSigned(y)
        case Float(y) => x as real == y
        case _ => false
      }
    case Unsigned(x) =>
      match b {
        case Integer(y) => ToSigned(x) == y
        case Unsigned(y) => x == y
        case Float(y) => x as real == y
        case _ => false
      }
    case Float(x) =>
      match b {
        case Integer(y) => x == y as real
        case Unsigned(y) => x == y as real
        case Float(y) => x == y
        case _ => false
      }
  }

  lemma {:induction false} EqReflexive(a: Value)
    ensures Eq(a, a)
  {
    match a
    case Array(xs) =>
      forall n | 0 <= n < |xs| ensures Eq(xs[n], xs[n]) { EqReflexive(xs[n]); }
    case Object(m) =>
      forall k | k in m ensures Eq(m[k], m[k]) { EqReflexive(m[k]); }
    case _ =>
  }

  predicate NoFloats(v: Value) {
    match v
    case Float(_) => false
    case Array(xs) => forall x | x in xs :: NoFloats(x)
    case Object(m) => forall k | k in m :: NoFloats(m[k])
    case _ => true
  }

  /** Every array index of the value fits the `int` that std::stoi yields. */
  predicate Indexable(j: Value) {
    match j
    case Array(xs) => |xs| <= INT_MAX + 1 && forall x | x in xs :: Indexable(x)
    case Object(m) => forall k | k in m :: Indexable(m[k])
    case _ => true
  }

  lemma {:induction false} EqSymmetric(a: Value, b: Value)
    requires Eq(a, b)
    ensures Eq(b, a)
  {
    match a
    case Array(xs) =>
      forall n | 0 <= n < |xs| ensures Eq(b.elems[n], xs[n]) { EqSymmetric(xs[n], b.elems[n]); }
    case Object(m) =>
      forall k | k in m ensures Eq(b.members[k], m[k]) { EqSymmetric(m[k], b.members[k]); }
    case _ =>
  }

  /** Without floats, `operator==` is transitive, although it compares numbers modulo 2^64. */
  lemma {:induction false} EqTransitive(a: Value, b: Value, c: Value)
    requires NoFloats(a) && NoFloats(b) && NoFloats(c)
    requires Eq(a, b) && Eq(b, c)
    ensures Eq(a, c)
  {
    match a
    case Array(xs) =>
      forall n | 0 <= n < |xs| ensures Eq(xs[n], c.elems[n]) {
        assert xs[n] in xs && b.elems[n] in b.elems && c.elems[n] in c.elems;
        EqTransitive(xs[n], b.elems[n], c.elems[n]);
      }
    case Object(m) =>
      forall k | k in m ensures Eq(m[k], c.members[k]) { EqTransitive(m[k], b.members[k], c.members[k]); }
    case _ =>
  }

  /** With floats it is not: -2^63 equals the unsigned 2^63 cast to a signed number, which equals its float. */
  lemma EqNotTransitive()
    ensures exists a, b, c :: Eq(a, b) && Eq(b, c) && !Eq(a, c)
  {
    var a, b, c := Integer(-TWO63), Unsigned(TWO63), Float(TWO63 as real);
    assert Eq(a, b) && Eq(b, c) && !Eq(a, c);
  }
}
