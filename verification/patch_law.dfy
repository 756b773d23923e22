/** What each operation of a patch does to the document (RFC 6902, section 4), and where it throws. */
module PatchLaw {
  import opened Results
  import opened Text
  import opened Json
  import opened Pointer
  import opened Flatten
  import opened Unflatten
  import opened Patch
  import opened DiffLaw

  // ---------- operations as objects ----------

  /** An operation with a name and a path that is a pointer to the place. */
  predicate Names(operation: Value, op: string, ptr: Tokens) {
    && operation.Object?
    && "op" in operation.members && operation.members["op"] == String(op)
    && "path" in operation.members && operation.members["path"].String?
    && Split(operation.members["path"].s) == Ok(ptr)
  }

  predicate HasValue(operation: Value, val: Value) {
    operation.Object? && "value" in operation.members && operation.members["value"] == val
  }

  predicate HasFrom(operation: Value, from: Tokens) {
    && operation.Object?
    && "from" in operation.members && operation.members["from"].String?
    && Split(operation.members["from"].s) == Ok(from)
  }

  /**
   What makes an operation ill-formed: it is no object, has no string "op" or no pointer "path", its
   "op" is none of the six, or the member it needs is missing.
   */
  predicate IllFormed(operation: Value) {
    || !operation.Object?
    || !("op" in operation.members && operation.members["op"].String?)
    || !("path" in operation.members && operation.members["path"].String?)
    || operation.members["op"].s !in {"add", "remove", "replace", "move", "copy", "test"}
    || (operation.members["op"].s in {"add", "replace", "test"} && "value" !in operation.members)
    || (operation.members["op"].s in {"move", "copy"} && !("from" in operation.members && operation.members["from"].String?))
  }

  /** An ill-formed operation throws invalid_argument, unless its path is no pointer, which is noticed before. */
  lemma IllFormedThrows(doc: Value, operation: Value)
    requires IllFormed(operation)
    ensures var r := ApplyOperation(doc, operation);
      || r == Err(InvalidArgument)
      || (operation.Object? && "path" in operation.members && operation.members["path"].String?
          && Split(operation.members["path"].s).Err? && r == Err(Split(operation.members["path"].s).error))
  {
    hide Split, Add, Remove, Replace, At, EditUnchecked, Eq;
  }

  lemma AddIs(doc: Value, operation: Value, ptr: Tokens, val: Value)
    requires Names(operation, "add", ptr) && HasValue(operation, val)
    ensures ApplyOperation(doc, operation) == Add(doc, ptr, val)
  {
    hide Add, Remove, Replace, At, EditUnchecked, Eq, Split;
  }

  lemma RemoveIs(doc: Value, operation: Value, ptr: Tokens)
    requires Names(operation, "remove", ptr)
    ensures ApplyOperation(doc, operation) == Remove(doc, ptr)
  {
    hide Add, Remove, Replace, At, EditUnchecked, Eq, Split;
  }

  lemma ReplaceIs(doc: Value, operation: Value, ptr: Tokens, val: Value)
    requires Names(operation, "replace", ptr) && HasValue(operation, val)
    ensures ApplyOperation(doc, operation) == Replace(doc, ptr, val)
  {
    hide Add, Remove, Replace, At, EditUnchecked, Eq, Split;
  }

  // ---------- editing below a node that exists ----------

  /** Unchecked access goes down to an existing node first. */
  lemma {:induction false} EditBelow(doc: Value, at: Tokens, rest: Tokens, e: Edit)
    requires At(doc, at).Ok?
    ensures var c := EditUnchecked(At(doc, at).value, rest, e);
      EditUnchecked(doc, at + rest, e) == if c.Ok? then Ok(Write(doc, at, c.value)) else c
    decreases |at|
  {
    if at == [] {
      assert at + rest == rest;
    } else {
      assert (at + rest)[1..] == at[1..] + rest && (at + rest)[0] == at[0];
      match doc
      case Object(m) => EditBelow(m[at[0]], at[1..], rest, e);
      case Array(xs) => EditBelow(xs[CheckedIndex(xs, at[0]).value], at[1..], rest, e);
    }
  }

  lemma {:induction false} CheckedFails(doc: Value, at: Tokens, e: Edit)
    requires At(doc, at).Err?
    ensures EditChecked(doc, at, e) == Err(At(doc, at).error)
    decreases |at|
  {
    match doc
    case Object(m) => if at[0] in m { CheckedFails(m[at[0]], at[1..], e); }
    case Array(xs) =>
      if CheckedIndex(xs, at[0]).Ok? { CheckedFails(xs[CheckedIndex(xs, at[0]).value], at[1..], e); }
    case _ =>
  }

  lemma LastToken(at: Tokens, t: string)
    ensures Parent(at + [t]) == at && Last(at + [t]) == t && at + [t] != []
  {
  }

  lemma AddToParent(doc: Value, at: Tokens, t: string, val: Value)
    requires At(doc, at).Ok?
    ensures var c := Apply(Insert(t, val), At(doc, at).value);
      Add(doc, at + [t], val) == if c.Ok? then Ok(Write(doc, at, c.value)) else Err(c.error)
  {
    var ptr := at + [t];
    LastToken(at, t);
    if |ptr| > 1 {
      AtPrefix(doc, at, 1);
      assert ptr[..1] == at[..1];
    }
    EditExisting(doc, at, Insert(t, val));
    hide EditChecked, EditUnchecked, At, Apply;
  }

  lemma RemoveFromParent(doc: Value, at: Tokens, t: string)
    ensures var parent := At(doc, at);
      if parent.Err? then Remove(doc, at + [t]) == Err(parent.error)
      else
        var c := Apply(Erase(t), parent.value);
        Remove(doc, at + [t]) == if c.Ok? then Ok(Write(doc, at, c.value)) else Err(c.error)
  {
    LastToken(at, t);
    if At(doc, at).Ok? { EditExisting(doc, at, Erase(t)); } else { CheckedFails(doc, at, Erase(t)); }
    hide EditChecked, EditUnchecked, At, Apply;
  }

  // ---------- add ----------

  /** The elements of an array after one has been put in before position `i`. */
  predicate InsertedAt(xs: seq<Value>, i: nat, val: Value, ys: seq<Value>) {
    && |ys| == |xs| + 1 && i <= |xs| && ys[i] == val
    && (forall k | 0 <= k < i :: ys[k] == xs[k])
    && forall k | i <= k < |xs| :: ys[k + 1] == xs[k]
  }

  predicate RemovedAt(xs: seq<Value>, i: nat, ys: seq<Value>) {
    i < |xs| && InsertedAt(ys, i, xs[i], xs)
  }

  /**
   "add" puts a member into an object, or an element into an array before the index, after the last
   one for "-" or the length; a bad index throws, and no other part of the document changes.
   */
  lemma AddPuts(doc: Value, operation: Value, at: Tokens, t: string, val: Value)
    requires Names(operation, "add", at + [t]) && HasValue(operation, val) && At(doc, at).Ok?
    ensures var r, parent := ApplyOperation(doc, operation), At(doc, at).value;
      && (parent.Object? ==> r == Ok(Write(doc, at, Object(parent.members[t := val]))))
      && (parent.Null? ==> r == Ok(Write(doc, at, Object(map[t := val]))))
      && (parent.Array? ==>
            var i := if t == "-" then Ok(|parent.elems|) else Stoi(t);
            if i.Err? then r == Err(i.error)
            else if !(0 <= i.value <= |parent.elems|) then r == Err(OutOfRange)
            else exists ys :: InsertedAt(parent.elems, i.value, val, ys) && r == Ok(Write(doc, at, Array(ys))))
      && (!parent.Object? && !parent.Null? && !parent.Array? ==> r == Err(AssertionFailure))
  {
    AddIs(doc, operation, at + [t], val);
    AddToParent(doc, at, t, val);
    var parent := At(doc, at).value;
    hide At, Write, Add, ApplyOperation, Stoi, Names, HasValue;
    if parent.Array? && (t == "-" || (Stoi(t).Ok? && 0 <= Stoi(t).value <= |parent.elems|)) {
      var i := if t == "-" then |parent.elems| else Stoi(t).value;
      assert parent.elems[..|parent.elems|] + [val] + parent.elems[|parent.elems|..] == parent.elems + [val];
      assert InsertedAt(parent.elems, i, val, parent.elems[..i] + [val] + parent.elems[i..]);
    }
  }

  /** At the root it replaces the document. */
  lemma AddAtRoot(doc: Value, operation: Value, val: Value)
    requires Names(operation, "add", []) && HasValue(operation, val)
    ensures ApplyOperation(doc, operation) == Ok(val)
  {
    AddIs(doc, operation, [], val);
  }

  /** Below a missing member it creates the object, unless that member would be at the top, where it throws. */
  lemma AddBelowMissing(doc: Value, operation: Value, at: Tokens, k: string, t: string, val: Value)
    requires Names(operation, "add", at + [k] + [t]) && HasValue(operation, val)
    requires At(doc, at).Ok? && At(doc, at).value.Object? && k !in At(doc, at).value.members
    ensures ApplyOperation(doc, operation) ==
      if at == [] then Err(OutOfRange)
      else Ok(Write(doc, at, Object(At(doc, at).value.members[k := Object(map[t := val])])))
  {
    var ptr := at + [k] + [t];
    AddIs(doc, operation, ptr, val);
    LastToken(at + [k], t);
    EditBelow(doc, at, [k], Insert(t, val));
    if at != [] {
      AtPrefix(doc, at, 1);
      assert ptr[..1] == at[..1];
    } else {
      assert ptr[..1] == [k];
    }
    assert [k][1..] == [];
    hide ApplyOperation, Names, HasValue;
  }

  // ---------- remove, replace ----------

  /** "remove" takes out a member or an element, the later ones moving down, and throws if there is none. */
  lemma RemoveTakesOut(doc: Value, operation: Value, at: Tokens, t: string)
    requires Names(operation, "remove", at + [t])
    ensures var r := ApplyOperation(doc, operation);
      if At(doc, at).Err? then r == Err(At(doc, at).error)
      else
        var parent := At(doc, at).value;
        && (parent.Object? ==>
              r == if t in parent.members then Ok(Write(doc, at, Object(parent.members - {t}))) else Err(OutOfRange))
        && (parent.Array? ==>
              if Stoi(t).Err? then r == Err(Stoi(t).error)
              else if !(0 <= Stoi(t).value < |parent.elems|) then r == Err(OutOfRange)
              else exists ys :: RemovedAt(parent.elems, Stoi(t).value, ys) && r == Ok(Write(doc, at, Array(ys))))
        && (parent.IsPrimitive() ==> r == Ok(Write(doc, at, parent)))
  {
    RemoveIs(doc, operation, at + [t]);
    RemoveFromParent(doc, at, t);
    hide At, Write, Remove, ApplyOperation, Stoi, Names;
    if At(doc, at).Ok? && At(doc, at).value.Array? {
      var xs := At(doc, at).value.elems;
      if Stoi(t).Ok? && 0 <= Stoi(t).value < |xs| {
        var i := Stoi(t).value;
        assert RemovedAt(xs, i, xs[..i] + xs[i + 1..]);
      }
    }
  }

  lemma RemoveAtRoot(doc: Value, operation: Value)
    requires Names(operation, "remove", [])
    ensures ApplyOperation(doc, operation) == Err(DomainError)
  {
    RemoveIs(doc, operation, []);
  }

  /** "replace" changes a value that is there, and only that. */
  lemma ReplaceChanges(doc: Value, operation: Value, ptr: Tokens, val: Value)
    requires Names(operation, "replace", ptr) && HasValue(operation, val)
    ensures ApplyOperation(doc, operation) ==
      if At(doc, ptr).Ok? then Ok(Write(doc, ptr, val)) else Err(At(doc, ptr).error)
  {
    ReplaceIs(doc, operation, ptr, val);
    if At(doc, ptr).Ok? { EditExisting(doc, ptr, Assign(val)); } else { CheckedFails(doc, ptr, Assign(val)); }
    hide At, Write, EditChecked, EditUnchecked, ApplyOperation, Names, HasValue;
  }

  // ---------- move, copy, test ----------

  /** A patch of two operations. */
  function Two(a: Value, b: Value): Value {
    Array([a, b])
  }

  lemma RunTwo(doc: Value, a: Value, b: Value)
    ensures Patched(doc, Two(a, b)) ==
      if ApplyOperation(doc, a).Ok? then ApplyOperation(ApplyOperation(doc, a).value, b) else ApplyOperation(doc, a)
  {
    assert [a, b][1..] == [b] && [b][1..] == [];
    hide ApplyOperation;
    if ApplyOperation(doc, a).Ok? {
      var next := ApplyOperation(doc, a).value;
      assert Run(next, [b]) == if ApplyOperation(next, b).Ok? then Run(ApplyOperation(next, b).value, []) else ApplyOperation(next, b);
    }
  }

  /** "move" is "remove" of what is at the one place, then "add" of it at the other; it throws if nothing is there. */
  lemma MoveIsRemoveThenAdd(doc: Value, operation: Value, from: Tokens, ptr: Tokens)
    requires Names(operation, "move", ptr) && HasFrom(operation, from)
    ensures var r, found := ApplyOperation(doc, operation), At(doc, from);
      r == if found.Err? then Err(found.error)
           else Patched(doc, Two(RemoveOp(ToString(from)), AddOp(ToString(ptr), found.value)))
  {
    MoveIs(doc, operation, from, ptr);
    if At(doc, from).Ok? {
      var val := At(doc, from).value;
      SplitToString(from);
      SplitToString(ptr);
      var a, b := RemoveOp(ToString(from)), AddOp(ToString(ptr), val);
      RunTwo(doc, a, b);
      RemoveIs(doc, a, from);
      if Remove(doc, from).Ok? { AddIs(Remove(doc, from).value, b, ptr, val); }
    }
    hide Add, Remove, At, ApplyOperation, Patched, Split, ToString;
  }

  lemma MoveIs(doc: Value, operation: Value, from: Tokens, ptr: Tokens)
    requires Names(operation, "move", ptr) && HasFrom(operation, from)
    ensures ApplyOperation(doc, operation) ==
      if At(doc, from).Err? then Err(At(doc, from).error)
      else if Remove(doc, from).Err? then Remove(doc, from)
      else Add(Remove(doc, from).value, ptr, At(doc, from).value)
  {
    hide Add, Remove, Replace, At, EditUnchecked, Eq, Split;
  }

  lemma CopyIs(doc: Value, operation: Value, from: Tokens, ptr: Tokens)
    requires Names(operation, "copy", ptr) && HasFrom(operation, from)
    ensures ApplyOperation(doc, operation) ==
      if At(doc, from).Err? then Err(At(doc, from).error) else EditUnchecked(doc, ptr, Assign(At(doc, from).value))
  {
    hide Add, Remove, Replace, At, EditUnchecked, Eq, Split;
  }

  /**
   "copy" assigns what is at the one place to the other: it replaces a value that is there, an array
   element included, and adds a member that an object lacks.
   */
  lemma CopyAssigns(doc: Value, operation: Value, from: Tokens, ptr: Tokens)
    requires Names(operation, "copy", ptr) && HasFrom(operation, from)
    ensures var r, found := ApplyOperation(doc, operation), At(doc, from);
      && (found.Err? ==> r == Err(found.error))
      && (found.Ok? && At(doc, ptr).Ok? ==> r == Ok(Write(doc, ptr, found.value)))
      && (found.Ok? && ptr != [] && At(doc, Parent(ptr)).Ok? && At(doc, Parent(ptr)).value.Object? ==>
            var parent := At(doc, Parent(ptr)).value;
            r == Ok(Write(doc, Parent(ptr), Object(parent.members[Last(ptr) := found.value]))))
  {
    CopyIs(doc, operation, from, ptr);
    if At(doc, from).Ok? {
      var val := At(doc, from).value;
      if At(doc, ptr).Ok? { EditExisting(doc, ptr, Assign(val)); }
      if ptr != [] && At(doc, Parent(ptr)).Ok? && At(doc, Parent(ptr)).value.Object? {
        assert ptr == Parent(ptr) + [Last(ptr)];
        EditBelow(doc, Parent(ptr), [Last(ptr)], Assign(val));
        AssignMember(At(doc, Parent(ptr)).value, Last(ptr), val);
      }
    }
    hide At, Write, EditChecked, EditUnchecked, ApplyOperation, Names, HasFrom, Parent, Last;
  }

  lemma AssignMember(j: Value, k: string, val: Value)
    requires j.Object?
    ensures EditUnchecked(j, [k], Assign(val)) == Ok(Object(j.members[k := val]))
  {
    assert [k][1..] == [];
  }

  /** The elements after an assignment to position `i`, with nulls put in up to there. */
  predicate AssignedAt(xs: seq<Value>, i: nat, val: Value, ys: seq<Value>) {
    && |ys| == (if i < |xs| then |xs| else i + 1) && ys[i] == val
    && (forall k | 0 <= k < |xs| && k != i :: ys[k] == xs[k])
    && forall k | |xs| <= k < i :: ys[k] == Null
  }

  /** "copy" to an array position, "-" standing for the one after the last, fills the array up with nulls. */
  lemma CopyToArray(doc: Value, operation: Value, from: Tokens, at: Tokens, t: string)
    requires Names(operation, "copy", at + [t]) && HasFrom(operation, from)
    requires At(doc, from).Ok? && At(doc, at).Ok? && At(doc, at).value.Array?
    ensures var r, xs := ApplyOperation(doc, operation), At(doc, at).value.elems;
      if |t| > 1 && t[0] == '0' then r == Err(DomainError)
      else
        var i := if t == "-" then Ok(|xs|) else Stoi(t);
        if i.Err? then r == Err(i.error)
        else if i.value < 0 then r == Err(LengthError)
        else exists ys :: AssignedAt(xs, i.value, At(doc, from).value, ys) && r == Ok(Write(doc, at, Array(ys)))
  {
    var val, xs := At(doc, from).value, At(doc, at).value.elems;
    CopyIs(doc, operation, from, at + [t]);
    EditBelow(doc, at, [t], Assign(val));
    AssignElement(xs, t, val);
    hide At, Write, EditUnchecked, ApplyOperation, Names, HasFrom, Stoi, AssignedAt;
  }

  lemma AssignElement(xs: seq<Value>, t: string, val: Value)
    ensures var r := EditUnchecked(Array(xs), [t], Assign(val));
      if |t| > 1 && t[0] == '0' then r == Err(DomainError)
      else
        var i := if t == "-" then Ok(|xs|) else Stoi(t);
        if i.Err? then r == Err(i.error)
        else if i.value < 0 then r == Err(LengthError)
        else exists ys :: AssignedAt(xs, i.value, val, ys) && r == Ok(Array(ys))
  {
    assert [t][1..] == [];
    hide Stoi;
    if !(|t| > 1 && t[0] == '0') {
      var i := if t == "-" then Ok(|xs|) else Stoi(t);
      if i.Ok? && i.value >= 0 {
        var ys := Padded(xs, i.value + 1)[i.value := val];
        assert AssignedAt(xs, i.value, val, ys);
        assert EditUnchecked(Padded(xs, i.value + 1)[i.value], [], Assign(val)) == Ok(val);
        assert EditUnchecked(Array(xs), [t], Assign(val)) == Ok(Array(ys));
      }
    }
  }

  /**
   "test" leaves the document alone if the value at the path equals the given one, and throws in
   every other case: a domain error, or what a malformed index throws.
   */
  lemma TestCompares(doc: Value, operation: Value, ptr: Tokens, val: Value)
    requires Names(operation, "test", ptr) && HasValue(operation, val)
    ensures var r, found := ApplyOperation(doc, operation), At(doc, ptr);
      && (r.Ok? <==> found.Ok? && Eq(found.value, val))
      && (r.Ok? ==> r.value == doc)
      && (found.Ok? && !Eq(found.value, val) ==> r == Err(DomainError))
      && (found.Err? ==> r == Err(if found.error == OutOfRange then DomainError else found.error))
  {
    hide Add, Remove, Replace, At, EditUnchecked, Eq, Split;
  }

  /** Checked access finds a value exactly below the containers that have the key, or the index without leading zeros. */
  lemma AtFinds(doc: Value, at: Tokens, t: string)
    requires At(doc, at).Ok?
    ensures var parent, r := At(doc, at).value, At(doc, at + [t]);
      && (parent.Object? ==> r == if t in parent.members then Ok(parent.members[t]) else Err(OutOfRange))
      && (parent.Array? && t != "-" && !(|t| > 1 && t[0] == '0') ==>
            r == if Stoi(t).Err? then Err(Stoi(t).error)
                 else if 0 <= Stoi(t).value < |parent.elems| then Ok(parent.elems[Stoi(t).value])
                 else Err(OutOfRange))
      && (parent.Array? && t == "-" ==> r == Err(OutOfRange))
      && (parent.Array? && |t| > 1 && t[0] == '0' ==> r == Err(DomainError))
      && (parent.IsPrimitive() ==> r == Err(OutOfRange))
  {
    AtChild(doc, at, t);
    hide Stoi, At;
  }

  /** `Stoi` reads decimal digits with an optional sign after optional white space, and ignores what follows. */
  lemma {:induction false} StoiReads(blanks: string, sign: string, digits: string, rest: string)
    requires (forall c | c in blanks :: IsSpace(c)) && sign in {"", "-", "+"}
    requires AllDigits(digits) && digits != "" && (rest != "" ==> !IsDigit(rest[0]))
    ensures var n := if sign == "-" then 0 - DecimalValue(digits) else DecimalValue(digits);
      Stoi(blanks + (sign + (digits + rest))) == if INT_MIN <= n <= INT_MAX then Ok(n) else Err(OutOfRange)
    decreases |blanks|
  {
    var s := sign + (digits + rest);
    if blanks == "" {
      assert blanks + s == s;
      DigitsThenRest(digits, rest);
      assert !IsSpace(digits[0]);
      if sign == "" {
        assert s == digits + rest && s[0] == digits[0];
      } else {
        assert s[0] == sign[0] && s[1..] == digits + rest;
      }
      hide DigitPrefix, DecimalValue;
    } else {
      assert (blanks + s)[0] == blanks[0] && (blanks + s)[1..] == blanks[1..] + s;
      StoiReads(blanks[1..], sign, digits, rest);
      assert SkipSpace(blanks + s) == SkipSpace(blanks[1..] + s);
      hide DigitPrefix, DecimalValue, SkipSpace;
    }
  }

  lemma {:induction false} DigitsThenRest(digits: string, rest: string)
    requires AllDigits(digits) && (rest != "" ==> !IsDigit(rest[0]))
    ensures DigitPrefix(digits + rest) == digits
  {
    if digits == "" {
      assert digits + rest == rest;
    } else {
      assert (digits + rest)[0] == digits[0] && (digits + rest)[1..] == digits[1..] + rest;
      DigitsThenRest(digits[1..], rest);
    }
  }
}
