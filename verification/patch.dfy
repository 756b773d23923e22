/** `patch` and `diff` of JSON values (RFC 6902). */
module Patch {
  import opened Results
  import opened Text
  import opened Json
  import opened Pointer
  import opened Flatten
  import opened Unflatten

  // ---------- resolving a pointer ----------

  /** The vector index a checked pointer token selects. */
  function CheckedIndex(xs: seq<Value>, token: string): (r: Result<nat>)
    ensures r.Ok? ==> r.value < |xs|
  {
    if token == "-" then Err(OutOfRange)
    else if |token| > 1 && token[0] == '0' then Err(DomainError)
    else
      var i :- Stoi(token);
      if 0 <= i < |xs| then Ok(i) else Err(OutOfRange)
  }

  /** `get_checked`. */
  function At(j: Value, tokens: Tokens): Result<Value>
    decreases |tokens|
  {
    if tokens == [] then Ok(j)
    else
      match j
      case Object(m) => if tokens[0] in m then At(m[tokens[0]], tokens[1..]) else Err(OutOfRange)
      case Array(xs) =>
        var i :- CheckedIndex(xs, tokens[0]);
        At(xs[i], tokens[1..])
      case _ => Err(OutOfRange)
  }

  /** What an operation does to the node its pointer resolves to. */
  datatype Edit =
    | Insert(key: string, val: Value)   // operation_add, on the parent
    | Erase(key: string)                // operation_remove, on the parent
    | Assign(val: Value)

  function Apply(e: Edit, node: Value): Result<Value> {
    match e
    case Assign(val) => Ok(val)
    case Insert(key, val) => (
      match node
      case Null => Ok(Object(map[key := val]))
      case Object(m) => Ok(Object(m[key := val]))
      case Array(xs) =>
        if key == "-" then Ok(Array(xs + [val]))
        else
          var i :- Stoi(key);
          if 0 <= i <= |xs| then Ok(Array(xs[..i] + [val] + xs[i..])) else Err(OutOfRange)
      case _ => Err(AssertionFailure)
    )
    case Erase(key) => (
      match node
      case Object(m) => if key in m then Ok(Object(m - {key})) else Err(OutOfRange)
      case Array(xs) =>
        var i :- Stoi(key);
        if 0 <= i < |xs| then Ok(Array(xs[..i] + xs[i + 1..])) else Err(OutOfRange)
      case _ => Ok(node)
    )
  }

  /** Apply `e` to the node `get_checked` finds. */
  function EditChecked(j: Value, tokens: Tokens, e: Edit): Result<Value>
    decreases |tokens|
  {
    if tokens == [] then Apply(e, j)
    else
      match j
      case Object(m) =>
        if tokens[0] !in m then Err(OutOfRange)
        else
          var c :- EditChecked(m[tokens[0]], tokens[1..], e);
          Ok(Object(m[tokens[0] := c]))
      case Array(xs) =>
        var i :- CheckedIndex(xs, tokens[0]);
        var c :- EditChecked(xs[i], tokens[1..], e);
        Ok(Array(xs[i := c]))
      case _ => Err(OutOfRange)
  }

  /** Apply `e` to the node `get_unchecked` finds or creates. */
  function EditUnchecked(j: Value, tokens: Tokens, e: Edit): Result<Value>
    decreases |tokens|
  {
    if tokens == [] then Apply(e, j)
    else
      match j
      case Object(m) =>
        var c :- EditUnchecked(MemberOr(m, tokens[0]), tokens[1..], e);
        Ok(Object(m[tokens[0] := c]))
      case Array(xs) =>
        if |tokens[0]| > 1 && tokens[0][0] == '0' then Err(DomainError)
        else
          var i :- if tokens[0] == "-" then Ok(|xs|) else Stoi(tokens[0]);
          if i < 0 then Err(LengthError)
          else
            var ys := Padded(xs, i + 1);
            var c :- EditUnchecked(ys[i], tokens[1..], e);
            Ok(Array(ys[i := c]))
      case _ => Err(OutOfRange)
  }

  // ---------- patch ----------

  function Last(tokens: Tokens): string
    requires tokens != []
  {
    tokens[|tokens| - 1]
  }

  function Parent(tokens: Tokens): Tokens
    requires tokens != []
  {
    tokens[..|tokens| - 1]
  }

  function Add(doc: Value, ptr: Tokens, val: Value): Result<Value> {
    if ptr == [] then Ok(val)
    else
      // the first token must already lead somewhere
      var _ :- if |ptr| > 1 then At(doc, ptr[..1]) else Ok(doc);
      EditUnchecked(doc, Parent(ptr), Insert(Last(ptr), val))
  }

  function Remove(doc: Value, ptr: Tokens): Result<Value> {
    if ptr == [] then Err(DomainError) else EditChecked(doc, Parent(ptr), Erase(Last(ptr)))
  }

  function Replace(doc: Value, ptr: Tokens, val: Value): Result<Value> {
    EditChecked(doc, ptr, Assign(val))
  }

  /** `get_value` without and with the string check. */
  function Member(op: map<string, Value>, name: string): Result<Value> {
    if name in op then Ok(op[name]) else Err(InvalidArgument)
  }

  function StringMember(op: map<string, Value>, name: string): Result<string> {
    var v :- Member(op, name);
    if v.String? then Ok(v.s) else Err(InvalidArgument)
  }

  /** One round of the loop of `patch`. */
  function ApplyOperation(doc: Value, operation: Value): Result<Value> {
    if !operation.Object? then Err(InvalidArgument)
    else
      var members := operation.members;
      var op :- StringMember(members, "op");
      var path :- StringMember(members, "path");
      var ptr :- Split(path);
      match op
      case "add" =>
        var val :- Member(members, "value");
        Add(doc, ptr, val)
      case "remove" => Remove(doc, ptr)
      case "replace" =>
        var val :- Member(members, "value");
        Replace(doc, ptr, val)
      case "move" =>
        var fromPath :- StringMember(members, "from");
        var from :- Split(fromPath);
        var val :- At(doc, from);
        var removed :- Remove(doc, from);
        Add(removed, ptr, val)
      case "copy" =>
        var fromPath :- StringMember(members, "from");
        var from :- Split(fromPath);
        var val :- At(doc, from);
        EditUnchecked(doc, ptr, Assign(val))
      case "test" =>
        var val :- Member(members, "value");
        var found := At(doc, ptr);
        if found.Err? && found.error != OutOfRange then found
        else if found.Ok? && Eq(found.value, val) then Ok(doc)
        else Err(DomainError)
      case _ => Err(InvalidArgument)
  }

  function Run(doc: Value, operations: seq<Value>): Result<Value>
    decreases |operations|
  {
    if operations == [] then Ok(doc)
    else
      var next :- ApplyOperation(doc, operations[0]);
      Run(next, operations[1..])
  }

  function Patched(doc: Value, patch: Value): Result<Value> {
    if patch.Array? then Run(doc, patch.elems) else Err(InvalidArgument)
  }

  /** The loop of `patch`, working on a copy of the document. */
  method PatchLoop(doc: Value, patch: Value) returns (r: Result<Value>)
    ensures r == Patched(doc, patch)
  {
    if !patch.Array? {
      return Err(InvalidArgument);
    }
    var result := doc;
    for i := 0 to |patch.elems|
      invariant Patched(doc, patch) == Run(result, patch.elems[i..])
    {
      assert patch.elems[i..][1..] == patch.elems[i + 1..];
      var next := ApplyOperation(result, patch.elems[i]);
      if next.Err? {
        return next;
      }
      result := next.value;
    }
    return Ok(result);
  }

  // ---------- diff ----------

  function AddOp(path: string, val: Value): Value {
    Object(map["op" := String("add"), "path" := String(path), "value" := val])
  }

  function RemoveOp(path: string): Value {
    Object(map["op" := String("remove"), "path" := String(path)])
  }

  function ReplaceOp(path: string, val: Value): Value {
    Object(map["op" := String("replace"), "path" := String(path), "value" := val])
  }

  function Min(a: nat, b: nat): nat {
    if a < b then a else b
  }

  /** The operations `diff` produces for the nodes at `path`. */
  function Diff(source: Value, target: Value, path: string): seq<Value>
    decreases source, 1, 0
  {
    if Eq(source, target) then []
    else if !source.SameType(target) then [ReplaceOp(path, target)]
    else
      match source
      case Array(xs) =>
        CommonDiff(source, target, Min(|xs|, |target.elems|), path)
        + Removals(|target.elems|, |xs|, path)
        + Additions(target.elems, |xs|, path)
      case Object(m) =>
        MembersDiff(source, target, Sorted(m.Keys), path)
        + MembersAdded(m, target.members, Sorted(target.members.Keys), path)
      case _ => [ReplaceOp(path, target)]
  }

  /** The first `n` elements, which both arrays have. */
  function CommonDiff(source: Value, target: Value, n: nat, path: string): seq<Value>
    requires source.Array? && target.Array? && n <= |source.elems| && n <= |target.elems|
    decreases source, 0, n
  {
    if n == 0 then []
    else
      CommonDiff(source, target, n - 1, path)
      + Diff(source.elems[n - 1], target.elems[n - 1], path + "/" + Decimal(n - 1))
  }

  /** Remove the elements `from..to`, the last one first. */
  function Removals(from: nat, to: nat, path: string): seq<Value>
    decreases to
  {
    if to <= from then []
    else [RemoveOp(path + "/" + Decimal(to - 1))] + Removals(from, to - 1, path)
  }

  /** Add the elements of `ys` from `from` on. */
  function Additions(ys: seq<Value>, from: nat, path: string): seq<Value>
    decreases |ys| - from
  {
    if from >= |ys| then []
    else [AddOp(path + "/" + Decimal(from), ys[from])] + Additions(ys, from + 1, path)
  }

  /** The members of the source with the given keys: change or remove them. */
  function MembersDiff(source: Value, target: Value, keys: seq<string>, path: string): seq<Value>
    requires source.Object? && target.Object? && forall k | k in keys :: k in source.members
    decreases source, 0, |keys|
  {
    if keys == [] then []
    else
      var k := keys[|keys| - 1];
      var here := path + "/" + Escape(k);
      MembersDiff(source, target, keys[..|keys| - 1], path)
      + if k in target.members then Diff(source.members[k], target.members[k], here) else [RemoveOp(here)]
  }

  /** The members of the target with the given keys that the source lacks. */
  function MembersAdded(m: map<string, Value>, tm: map<string, Value>, keys: seq<string>, path: string): seq<Value>
    requires forall k | k in keys :: k in tm
  {
    if keys == [] then []
    else
      var k := keys[|keys| - 1];
      MembersAdded(m, tm, keys[..|keys| - 1], path)
      + if k in m then [] else [AddOp(path + "/" + Escape(k), tm[k])]
  }

  lemma MembersDiffStep(source: Value, target: Value, keys: seq<string>, i: nat, path: string)
    requires source.Object? && target.Object? && i < |keys| && forall k | k in keys :: k in source.members
    ensures MembersDiff(source, target, keys[..i + 1], path) ==
      MembersDiff(source, target, keys[..i], path)
      + if keys[i] in target.members
        then Diff(source.members[keys[i]], target.members[keys[i]], path + "/" + Escape(keys[i]))
        else [RemoveOp(path + "/" + Escape(keys[i]))]
  {
    assert keys[..i + 1][..i] == keys[..i];
  }

  lemma MembersAddedStep(m: map<string, Value>, tm: map<string, Value>, keys: seq<string>, i: nat, path: string)
    requires i < |keys| && forall k | k in keys :: k in tm
    ensures MembersAdded(m, tm, keys[..i + 1], path) ==
      MembersAdded(m, tm, keys[..i], path)
      + if keys[i] in m then [] else [AddOp(path + "/" + Escape(keys[i]), tm[keys[i]])]
  {
    assert keys[..i + 1][..i] == keys[..i];
  }

  lemma Regrouped<T>(a: seq<T>, b: seq<T>, c: seq<T>)
    ensures a + (b + c) == a + b + c
  {
  }

  /** The recursion of `diff`. */
  method DiffLoop(source: Value, target: Value, path: string) returns (result: seq<Value>)
    ensures result == Diff(source, target, path)
    decreases source, 1
  {
    if Eq(source, target) {
      return [];
    }
    if !source.SameType(target) {
      return [ReplaceOp(path, target)];
    }
    match source
    case Array(_) => result := DiffArrays(source, target, path);
    case Object(_) => result := DiffObjects(source, target, path);
    case _ => result := [ReplaceOp(path, target)];
  }

  /** The three loops over arrays; a removal is inserted before the removals found so far. */
  method DiffArrays(source: Value, target: Value, path: string) returns (result: seq<Value>)
    requires source.Array? && target.Array?
    ensures result ==
      CommonDiff(source, target, Min(|source.elems|, |target.elems|), path)
      + Removals(|target.elems|, |source.elems|, path)
      + Additions(target.elems, |source.elems|, path)
    decreases source, 0
  {
    hide Diff, Decimal;
    var xs, ys := source.elems, target.elems;
    result := [];
    var i := 0;
    while i < |xs| && i < |ys|
      invariant i <= |xs| && i <= |ys|
      invariant result == CommonDiff(source, target, i, path)
    {
      var tempDiff := DiffLoop(xs[i], ys[i], path + "/" + Decimal(i));
      result := result + tempDiff;
      i := i + 1;
    }
    ghost var common := result;
    var endIndex := |result|;
    while i < |xs|
      invariant Min(|xs|, |ys|) <= i <= |xs|
      invariant result == common + Removals(|ys|, i, path)
    {
      assert result[..endIndex] == common && result[endIndex..] == Removals(|ys|, i, path);
      Regrouped(common, [RemoveOp(path + "/" + Decimal(i))], Removals(|ys|, i, path));
      result := result[..endIndex] + [RemoveOp(path + "/" + Decimal(i))] + result[endIndex..];
      i := i + 1;
    }
    ghost var removed := result;
    while i < |ys|
      invariant |xs| <= i && (i <= |ys| || i == |xs|)
      invariant result + Additions(ys, i, path) == removed + Additions(ys, |xs|, path)
    {
      Regrouped(result, [AddOp(path + "/" + Decimal(i), ys[i])], Additions(ys, i + 1, path));
      result := result + [AddOp(path + "/" + Decimal(i), ys[i])];
      i := i + 1;
    }
  }

  /** The two loops over objects. */
  method DiffObjects(source: Value, target: Value, path: string) returns (result: seq<Value>)
    requires source.Object? && target.Object?
    ensures result ==
      MembersDiff(source, target, Sorted(source.members.Keys), path)
      + MembersAdded(source.members, target.members, Sorted(target.members.Keys), path)
    decreases source, 0
  {
    hide Diff, Escape, Sorted;
    var m, tm := source.members, target.members;
    result := [];
    var keys := Sorted(m.Keys);
    for i := 0 to |keys|
      invariant result == MembersDiff(source, target, keys[..i], path)
    {
      MembersDiffStep(source, target, keys, i, path);
      var key := Escape(keys[i]);
      if keys[i] in tm {
        var tempDiff := DiffLoop(m[keys[i]], tm[keys[i]], path + "/" + key);
        result := result + tempDiff;
      } else {
        result := result + [RemoveOp(path + "/" + key)];
      }
    }
    assert keys[..|keys|] == keys;
    ghost var changed := result;
    var targetKeys := Sorted(tm.Keys);
    for i := 0 to |targetKeys|
      invariant result == changed + MembersAdded(m, tm, targetKeys[..i], path)
    {
      MembersAddedStep(m, tm, targetKeys, i, path);
      if targetKeys[i] !in m {
        Regrouped(changed, MembersAdded(m, tm, targetKeys[..i], path), [AddOp(path + "/" + Escape(targetKeys[i]), tm[targetKeys[i]])]);
        result := result + [AddOp(path + "/" + Escape(targetKeys[i]), tm[targetKeys[i]])];
      }
    }
    assert targetKeys[..|targetKeys|] == targetKeys;
  }
}
