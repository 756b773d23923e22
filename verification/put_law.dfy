/** What `get_and_create` does on its way down, on values of any kind (json.hpp:9380-9434). */
module PutLaw {
  import opened Results
  import opened Text
  import opened Json
  import opened Pointer
  import opened Flatten
  import opened Unflatten

  /** The value that the tokens lead to, array indices being read with std::stoi. */
  function Reached(j: Value, tokens: Tokens): Option<Value>
    decreases |tokens|
  {
    if tokens == [] then Some(j)
    else
      match j
      case Object(m) => if tokens[0] in m then Reached(m[tokens[0]], tokens[1..]) else None
      case Array(xs) =>
        var i := Stoi(tokens[0]);
        if i.Ok? && 0 <= i.value < |xs| then Reached(xs[i.value], tokens[1..]) else None
      case _ => None
  }

  /** Two places part at a key of an object, or at an index of an array that has both. */
  predicate Parted(j: Value, p: Tokens, q: Tokens)
    decreases |p|
  {
    p != [] && q != [] &&
    match j
    case Object(m) => p[0] != q[0] || (p[0] in m && Parted(m[p[0]], p[1..], q[1..]))
    case Array(xs) =>
      var (i, k) := (Stoi(p[0]), Stoi(q[0]));
      i.Ok? && k.Ok? && 0 <= i.value && 0 <= k.value < |xs|
      && (i.value != k.value || Parted(xs[k.value], p[1..], q[1..]))
    case _ => false
  }

  lemma ZeroIsIndex()
    ensures Stoi("0") == Ok(0)
  {
    assert Decimal(0) == "0";
    StoiOfDecimal(0);
  }

  /** What has been put is found where it was put. */
  lemma {:induction false} PutReaches(j: Value, tokens: Tokens, leaf: Value)
    requires Put(j, tokens, leaf).Ok?
    ensures Reached(Put(j, tokens, leaf).value, tokens) == Some(leaf)
    decreases |tokens|
  {
    if tokens != [] {
      match j
      case Null =>
        PutReaches(Null, tokens[1..], leaf);
        ZeroIsIndex();
      case Object(m) => PutReaches(MemberOr(m, tokens[0]), tokens[1..], leaf);
      case Array(xs) =>
        var i := Stoi(tokens[0]).value;
        PutReaches(Padded(xs, i + 1)[i], tokens[1..], leaf);
    }
  }

  /** Whatever was to be found elsewhere still is. */
  lemma {:induction false} PutKeeps(j: Value, tokens: Tokens, leaf: Value, q: Tokens)
    requires Put(j, tokens, leaf).Ok? && Parted(j, tokens, q)
    ensures Reached(Put(j, tokens, leaf).value, q) == Reached(j, q)
    decreases |tokens|
  {
    match j
    case Object(m) =>
      if tokens[0] == q[0] { PutKeeps(m[tokens[0]], tokens[1..], leaf, q[1..]); }
    case Array(xs) =>
      var i := Stoi(tokens[0]).value;
      if i == Stoi(q[0]).value { PutKeeps(xs[i], tokens[1..], leaf, q[1..]); }
  }

  /** The text of a token that starts an array below a null value: exactly "0". */
  lemma NullGrows(t: string, rest: Tokens, leaf: Value)
    ensures var r, c := Put(Null, [t] + rest, leaf), Put(Null, rest, leaf);
      if c.Err? then r == c
      else if t == "0" then r == Ok(Array([c.value]))
      else r == Ok(Object(map[t := c.value]))
  {
    assert ([t] + rest)[1..] == rest;
  }

  /** The way is blocked: by a value that is no container, or by a token that is no index. */
  predicate Blocked(j: Value, tokens: Tokens)
    decreases |tokens|
  {
    tokens != [] &&
    match j
    case Null => false
    case Object(m) => tokens[0] in m && Blocked(m[tokens[0]], tokens[1..])
    case Array(xs) =>
      var i := Stoi(tokens[0]);
      i.Err? || i.value < 0 || (i.value < |xs| && Blocked(xs[i.value], tokens[1..]))
    case _ => true
  }

  /** A value can be put everywhere but where the way is blocked. */
  lemma {:induction false} PutFailsExactly(j: Value, tokens: Tokens, leaf: Value)
    ensures Put(j, tokens, leaf).Err? <==> Blocked(j, tokens)
    ensures tokens != [] && j.IsPrimitive() && j != Null ==> Put(j, tokens, leaf) == Err(DomainError)
    ensures tokens != [] && j.Array? && Stoi(tokens[0]).Ok? && Stoi(tokens[0]).value < 0 ==> Put(j, tokens, leaf) == Err(LengthError)
    decreases |tokens|
  {
    if tokens != [] {
      match j
      case Null => PutFailsExactly(Null, tokens[1..], leaf);
      case Object(m) => PutFailsExactly(MemberOr(m, tokens[0]), tokens[1..], leaf);
      case Array(xs) =>
        var i := Stoi(tokens[0]);
        if i.Ok? && i.value >= 0 { PutFailsExactly(Padded(xs, i.value + 1)[i.value], tokens[1..], leaf); }
      case _ =>
    }
  }

  /** `unflatten` refuses what is no object, and a member that is no scalar or has no pointer for a key. */
  lemma UnflattenRefuses(j: Value)
    ensures !j.Object? ==> Unflattened(j) == Err(DomainError)
    ensures j.Object? && Unflattened(j).Ok? ==> forall k | k in j.members :: j.members[k].IsPrimitive() && Split(k).Ok?
  {
    if j.Object? && Unflattened(j).Ok? {
      var keys := Sorted(j.members.Keys);
      ReplayedMembers(Null, j.members, keys);
      assert forall k | k in j.members :: k in keys;
      hide Sorted;
    }
  }

  lemma {:induction false} ReplayedMembers(j: Value, m: map<string, Value>, keys: seq<string>)
    requires (forall k | k in keys :: k in m) && Replay(j, m, keys).Ok?
    ensures forall k | k in keys :: m[k].IsPrimitive() && Split(k).Ok?
    decreases |keys|
  {
    if keys != [] {
      ReplayedMembers(Put(j, Split(keys[0]).value, m[keys[0]]).value, m, keys[1..]);
      assert forall k | k in keys :: k == keys[0] || k in keys[1..];
      hide Split, Put;
    }
  }
}
