/**
 The wire format that `DataBuffer` reads and writes (DataBuffer.h:58-212), as functions over the
 bytes still to be read.
 */
module Wire {
  import opened Results

  type byte = x: int | 0 <= x < 256
  type uint16 = x: int | 0 <= x < 0x1_0000
  type uint32 = x: int | 0 <= x < 0x1_0000_0000
  type uint64 = x: int | 0 <= x < 0x1_0000_0000_0000_0000

  /** The `int` values that `writeVarInt` handles. */
  type varint = x: int | 0 <= x < 0x8000_0000

  const MAX_STRING := 35000

  /** What a reader has before it: no buffer at all, or the unread bytes of one. */
  datatype View = Missing | Bytes(unread: seq<byte>)

  /** The outcome of a read and what it leaves unread. */
  datatype Read<T> = Read(result: Result<T>, rest: View)

  const SHORT_BUFFER := Exception("Cant read n bytes!")
  const NULL_BUFFER := Exception("Buffer is null")
  const VARINT_TOO_BIG := ExceptionPointer("VarInt too big")
  const STRING_TOO_LONG := ExceptionPointer("Try to read a too long string!")

  // ---------- raw bytes ----------

  /** `read()`: without a buffer every byte is zero. */
  function NextByte(v: View): Read<byte> {
    match v
    case Missing => Read(Ok(0), v)
    case Bytes(s) => if s == [] then Read(Err(SHORT_BUFFER), v) else Read(Ok(s[0]), Bytes(s[1..]))
  }

  /** `read(buffer, length)`. */
  function NextBytes(v: View, length: nat): Read<seq<byte>> {
    match v
    case Missing => Read(Err(NULL_BUFFER), v)
    case Bytes(s) =>
      if |s| < length then Read(Err(SHORT_BUFFER), v) else Read(Ok(s[..length]), Bytes(s[length..]))
  }

  // ---------- fixed-width fields ----------

  function Power256(n: nat): nat {
    if n == 0 then 1 else 256 * Power256(n - 1)
  }

  function BigEndian(s: seq<byte>): nat {
    if s == [] then 0 else 256 * BigEndian(s[..|s| - 1]) + s[|s| - 1]
  }

  /** The low `width` bytes of a number, the most significant one first. */
  function Fixed(n: nat, width: nat): (s: seq<byte>)
    ensures |s| == width
  {
    if width == 0 then [] else Fixed(n / 256, width - 1) + [n % 256]
  }

  lemma {:induction false} BigEndianFixed(n: nat, width: nat)
    requires n < Power256(width)
    ensures BigEndian(Fixed(n, width)) == n
  {
    if width > 0 {
      var s := Fixed(n, width);
      assert s[..width - 1] == Fixed(n / 256, width - 1);
      BigEndianFixed(n / 256, width - 1);
    }
  }

  lemma {:induction false} BigEndianBounds(s: seq<byte>)
    ensures BigEndian(s) < Power256(|s|)
  {
    if s != [] { BigEndianBounds(s[..|s| - 1]); }
  }

  lemma {:induction false} FixedBigEndian(s: seq<byte>)
    ensures Fixed(BigEndian(s), |s|) == s
  {
    if s != [] {
      FixedBigEndian(s[..|s| - 1]);
      assert s == s[..|s| - 1] + [s[|s| - 1]];
    }
  }

  function NextFixed(v: View, width: nat): Read<nat> {
    var r := NextBytes(v, width);
    match r.result
    case Ok(s) => Read(Ok(BigEndian(s)), r.rest)
    case Err(e) => Read(Err(e), r.rest)
  }

  // ---------- VarInts ----------

  /** The factor of the i-th group of seven bits. */
  function Power128(i: nat): nat {
    if i == 0 then 1 else 128 * Power128(i - 1)
  }

  function EncodeVarInt(n: nat): (s: seq<byte>)
    ensures s != []
  {
    if n < 128 then [n] else [n % 128 + 128] + EncodeVarInt(n / 128)
  }

  /** The groups that `readVarInt` takes after the first `i`, the lowest one first: it refuses a sixth byte. */
  function Groups(v: View, i: nat): (r: Read<nat>)
    requires i <= 5
    decreases 5 - i
  {
    var next := NextByte(v);
    match next.result
    case Err(e) => Read(Err(e), next.rest)
    case Ok(b) =>
      if i == 5 then Read(Err(VARINT_TOO_BIG), next.rest)
      else if b < 128 then Read(Ok(b), next.rest)
      else
        var more := Groups(next.rest, i + 1);
        Read(Map(more.result, n => b - 128 + 128 * n), more.rest)
  }

  /** `readVarInt`: bits beyond the 32nd are lost. */
  function NextVarInt(v: View): Read<uint32> {
    var r := Groups(v, 0);
    Read(Map(r.result, n => n % 0x1_0000_0000), r.rest)
  }

  lemma {:induction false} GroupsOfEncoded(n: nat, suffix: seq<byte>, i: nat)
    requires i <= 4 && n * Power128(i) < 0x8_0000_0000
    ensures Groups(Bytes(EncodeVarInt(n) + suffix), i) == Read(Ok(n), Bytes(suffix))
    decreases 4 - i
  {
    Power128Values();
    var s := EncodeVarInt(n) + suffix;
    if n < 128 {
      assert s[0] == n && s[1..] == suffix;
    } else {
      assert s[0] == n % 128 + 128 && s[1..] == EncodeVarInt(n / 128) + suffix;
      if i < 4 {
        assert Power128(i + 1) == 128 * Power128(i);
        assert n / 128 * Power128(i + 1) <= n * Power128(i);
        GroupsOfEncoded(n / 128, suffix, i + 1);
      }
    }
  }

  lemma Power128Values()
    ensures Power128(0) == 1 && Power128(1) == 0x80 && Power128(2) == 0x4000
    ensures Power128(3) == 0x20_0000 && Power128(4) == 0x1000_0000
  {
    assert Power128(2) == 128 * Power128(1);
    assert Power128(3) == 128 * Power128(2);
    assert Power128(4) == 128 * Power128(3);
  }

  /** What `writeVarInt` writes for a non-negative `int`, `readVarInt` takes back, and nothing more. */
  lemma VarIntRoundTrip(n: varint, suffix: seq<byte>)
    ensures NextVarInt(Bytes(EncodeVarInt(n) + suffix)) == Read(Ok(n), Bytes(suffix))
  {
    Power128Values();
    GroupsOfEncoded(n, suffix, 0);
  }

  lemma NextOfGroups(v: View, n: uint32, rest: View)
    requires Groups(v, 0) == Read(Ok(n), rest)
    ensures NextVarInt(v) == Read(Ok(n), rest)
  {
    hide Groups;
  }

  lemma GroupsOfAny(n: uint32, suffix: seq<byte>)
    ensures Groups(Bytes(EncodeVarInt(n) + suffix), 0) == Read(Ok(n), Bytes(suffix))
  {
    hide EncodeVarInt, Groups;
    Power128Values();
    GroupsOfEncoded(n, suffix, 0);
  }

  /** Five groups spell any 32 bits, such as those of a negative `int`. */
  lemma AnyVarInt(n: uint32, suffix: seq<byte>)
    ensures NextVarInt(Bytes(EncodeVarInt(n) + suffix)) == Read(Ok(n), Bytes(suffix))
  {
    hide *;
    GroupsOfAny(n, suffix);
    NextOfGroups(Bytes(EncodeVarInt(n) + suffix), n, Bytes(suffix));
  }

  /** A view whose unread bytes are a tail of another one's, between `least` and `most` bytes shorter. */
  predicate TakenFrom(rest: View, v: View, least: nat, most: nat) {
    && rest.Missing? == v.Missing?
    && (v.Bytes? ==>
          && |rest.unread| + least <= |v.unread| <= |rest.unread| + most
          && rest.unread == v.unread[|v.unread| - |rest.unread|..])
  }

  lemma {:induction false} GroupsStop(v: View, i: nat)
    requires i <= 5
    ensures TakenFrom(Groups(v, i).rest, v, 0, 6 - i)
    ensures Groups(v, i).result.Ok? ==> i < 5 && TakenFrom(Groups(v, i).rest, v, 1, 5 - i)
    decreases 5 - i
  {
    var next := NextByte(v);
    if next.result.Ok? && i < 5 && next.result.value >= 128 {
      GroupsStop(next.rest, i + 1);
    }
  }

  /** Whatever the input, `readVarInt` takes at most six bytes, all from the front; one to five if it succeeds. */
  lemma VarIntStops(v: View)
    ensures TakenFrom(NextVarInt(v).rest, v, 0, 6)
    ensures NextVarInt(v).result.Ok? ==> TakenFrom(NextVarInt(v).rest, v, 1, 5)
  {
    GroupsStop(v, 0);
  }

  lemma {:induction false} GroupsTooBig(v: View, i: nat)
    requires i <= 5 && v.Bytes?
    ensures Groups(v, i).result == Err(VARINT_TOO_BIG)
       <==> |v.unread| >= 6 - i && forall k | 0 <= k < 5 - i :: v.unread[k] >= 128
    decreases 5 - i
  {
    var s := v.unread;
    if i < 5 && s != [] && s[0] >= 128 {
      GroupsTooBig(Bytes(s[1..]), i + 1);
      forall k | 1 <= k < 5 - i && k < |s| ensures s[k] == s[1..][k - 1] {}
      assert forall k | 0 <= k < 4 - i && k < |s| - 1 :: s[1..][k] == s[k + 1];
    }
  }

  /** `readVarInt` throws its own exception exactly on six bytes of which the first five ask for another one. */
  lemma VarIntTooBigExactly(s: seq<byte>)
    ensures NextVarInt(Bytes(s)).result == Err(VARINT_TOO_BIG)
       <==> |s| >= 6 && forall k | 0 <= k < 5 :: s[k] >= 128
  {
    GroupsTooBig(Bytes(s), 0);
  }

  /** The number that groups of seven bits spell, the lowest group first. */
  function GroupsValue(s: seq<byte>): nat {
    if s == [] then 0 else GroupsValue(s[..|s| - 1]) + (s[|s| - 1] as int) % 128 * Power128(|s| - 1)
  }

  /** Every byte but the last asks for another one. */
  predicate IsVarInt(s: seq<byte>) {
    s != [] && s[|s| - 1] < 128 && forall k | 0 <= k < |s| - 1 :: s[k] >= 128
  }

  lemma {:induction false} GroupsValueCons(b: byte, s: seq<byte>)
    ensures GroupsValue([b] + s) == (b as int) % 128 + 128 * GroupsValue(s)
  {
    if s == [] {
      assert [b] + s == [b] && [b][..0] == [];
    } else {
      var front := s[..|s| - 1];
      assert ([b] + s)[..|s|] == [b] + front;
      GroupsValueCons(b, front);
      var last := (s[|s| - 1] as int) % 128;
      assert last * Power128(|s|) == 128 * (last * Power128(|s| - 1));
    }
  }

  lemma EncodeFirst(n: nat)
    requires n >= 128
    ensures EncodeVarInt(n) == [n % 128 + 128] + EncodeVarInt(n / 128)
  {
  }

  /** `writeVarInt` writes the groups of the number, the lowest one first. */
  lemma {:induction false} VarIntSpells(n: nat)
    ensures IsVarInt(EncodeVarInt(n)) && GroupsValue(EncodeVarInt(n)) == n
  {
    if n < 128 {
      assert [n][..0] == [];
    } else {
      VarIntSpells(n / 128);
      var low: byte, rest := n % 128 + 128, EncodeVarInt(n / 128);
      EncodeFirst(n);
      GroupsValueCons(low, rest);
      hide EncodeVarInt, GroupsValue;
      assert (low as int) % 128 == n % 128;
    }
  }

  lemma GroupsCons(b: byte, s: seq<byte>, i: nat)
    requires i < 5
    ensures b < 128 ==> Groups(Bytes([b] + s), i) == Read(Ok(b), Bytes(s))
    ensures b >= 128 ==>
      var more := Groups(Bytes(s), i + 1);
      more.result.Ok? ==> Groups(Bytes([b] + s), i) == Read(Ok(b - 128 + 128 * more.result.value), more.rest)
  {
    assert ([b] + s)[1..] == s;
  }

  lemma {:induction false} GroupsMean(s: seq<byte>, suffix: seq<byte>, i: nat)
    requires IsVarInt(s) && |s| + i <= 5
    ensures Groups(Bytes(s + suffix), i) == Read(Ok(GroupsValue(s)), Bytes(suffix))
    decreases |s|
  {
    hide Groups, GroupsValue, Power128;
    assert s + suffix == [s[0]] + (s[1..] + suffix) && s == [s[0]] + s[1..];
    GroupsValueCons(s[0], s[1..]);
    GroupsCons(s[0], s[1..] + suffix, i);
    if |s| == 1 {
      NoGroups();
      assert s[1..] + suffix == suffix;
    } else {
      GroupsMean(s[1..], suffix, i + 1);
    }
  }

  lemma NoGroups()
    ensures GroupsValue([]) == 0
  {
  }

  /** `readVarInt` gives the number that up to five groups spell, modulo 2^32, and leaves what follows them. */
  lemma VarIntMeans(s: seq<byte>, suffix: seq<byte>)
    requires IsVarInt(s) && |s| <= 5
    ensures NextVarInt(Bytes(s + suffix)) == Read(Ok(GroupsValue(s) % 0x1_0000_0000), Bytes(suffix))
  {
    GroupsMean(s, suffix, 0);
  }

  /** `getVarIntSize`: the masks have 32 bits, so the upper half of the argument is ignored. */
  function VarIntSize(n: uint64): (size: nat)
    ensures 1 <= size <= 5
  {
    var low := n % 0x1_0000_0000;
    if low < 0x80 then 1
    else if low < 0x4000 then 2
    else if low < 0x20_0000 then 3
    else if low < 0x1000_0000 then 4
    else 5
  }

  lemma VarIntSizeExact(n: varint)
    ensures |EncodeVarInt(n)| == VarIntSize(n)
  {
    if n >= 0x80 {
      if n / 128 >= 0x80 {
        if n / 128 / 128 >= 0x80 {
          assert n / 128 / 128 / 128 < 0x400;
          assert |EncodeVarInt(n / 128 / 128 / 128 / 128)| == 1;
        }
      }
    }
  }

  /** One round of the loop in `writeVarInt`: `>>=` on an `int` rounds towards minus infinity. */
  function ShiftedBy7(n: int, rounds: nat): int
    decreases rounds
  {
    if rounds == 0 then n else ShiftedBy7(n / 128, rounds - 1)
  }

  /** The loop guard `(val & 0xFFFFFF80) != 0` on a 32-bit two's complement value. */
  predicate HasMoreGroups(n: int) {
    !(0 <= n < 128)
  }

  lemma {:induction false} NegativeStaysNegative(n: int, rounds: nat)
    requires n < 0
    ensures ShiftedBy7(n, rounds) < 0
    decreases rounds
  {
    if rounds > 0 { NegativeStaysNegative(n / 128, rounds - 1); }
  }

  /** `writeVarInt` comes to an end exactly for the values that are not negative. */
  lemma WriteVarIntStops(n: int)
    requires -0x8000_0000 <= n < 0x8000_0000
    ensures (exists rounds: nat :: !HasMoreGroups(ShiftedBy7(n, rounds))) <==> n >= 0
  {
    if n < 0 {
      forall rounds: nat ensures HasMoreGroups(ShiftedBy7(n, rounds)) { NegativeStaysNegative(n, rounds); }
    } else {
      ReachesLastGroup(n);
    }
  }

  lemma {:induction false} ReachesLastGroup(n: nat)
    ensures exists rounds: nat :: !HasMoreGroups(ShiftedBy7(n, rounds))
  {
    if n < 128 {
      assert !HasMoreGroups(ShiftedBy7(n, 0));
    } else {
      ReachesLastGroup(n / 128);
      var rounds: nat :| !HasMoreGroups(ShiftedBy7(n / 128, rounds));
      assert ShiftedBy7(n, rounds + 1) == ShiftedBy7(n / 128, rounds);
    }
  }

  // ---------- strings ----------

  /** A C string: the bytes before the first zero. */
  function CString(s: seq<byte>): (r: seq<byte>)
    ensures r <= s && 0 !in r
    ensures r == s <==> 0 !in s
  {
    if s == [] || s[0] == 0 then []
    else
      var r := CString(s[1..]);
      assert s == [s[0]] + s[1..];
      [s[0]] + r
  }

  /** The `int` that a `uint32_t` converts to. */
  function ToInt(n: uint32): int {
    if n < 0x8000_0000 then n else n - 0x1_0000_0000
  }

  /** `readString`. */
  function NextString(v: View): Read<seq<byte>> {
    var r := NextVarInt(v);
    match r.result
    case Err(e) => Read(Err(e), r.rest)
    case Ok(n) =>
      var length := ToInt(n);
      if length > MAX_STRING then Read(Err(STRING_TOO_LONG), r.rest)
      else if length < 0 then Read(Err(BadAlloc), r.rest)
      else
        var text := NextBytes(r.rest, length);
        match text.result
        case Err(e) => Read(Err(e), text.rest)
        case Ok(s) => Read(Ok(CString(s)), text.rest)
  }

  function EncodeString(s: seq<byte>): seq<byte> {
    EncodeVarInt(|s|) + s
  }

  /** A string comes back exactly if it holds no zero byte and is no longer than the limit. */
  lemma StringRoundTrip(s: seq<byte>, suffix: seq<byte>)
    requires |s| < 0x8000_0000
    ensures NextString(Bytes(EncodeString(s) + suffix)).result == Ok(s) <==> |s| <= MAX_STRING && 0 !in s
    ensures |s| <= MAX_STRING ==>
              NextString(Bytes(EncodeString(s) + suffix)) == Read(Ok(CString(s)), Bytes(suffix))
  {
    assert EncodeString(s) + suffix == EncodeVarInt(|s|) + (s + suffix);
    VarIntRoundTrip(|s|, s + suffix);
    assert (s + suffix)[..|s|] == s && (s + suffix)[|s|..] == suffix;
  }

  /**
   A string is a VarInt with its length and that many bytes, cut at the first zero. One that is
   announced as too long, as negative or as longer than what is left is refused.
   */
  lemma StringReads(n: uint32, rest: seq<byte>)
    ensures var r := NextString(Bytes(EncodeVarInt(n) + rest));
      && (n <= MAX_STRING && n <= |rest| ==> r == Read(Ok(CString(rest[..n])), Bytes(rest[n..])))
      && (MAX_STRING < n < 0x8000_0000 ==> r.result == Err(STRING_TOO_LONG))
      && (n >= 0x8000_0000 ==> r.result == Err(BadAlloc))
      && (n <= MAX_STRING && |rest| < n ==> r.result == Err(SHORT_BUFFER))
  {
    AnyVarInt(n, rest);
    hide EncodeVarInt, NextVarInt, CString;
  }

  // ---------- typed fields ----------

  /** `readByte`, `readShort`/`readInt`/`readLong` (2, 4 and 8 bytes), `readVarInt`, `readString`, `readUUID`. */
  datatype Kind = ByteKind | FixedKind(width: nat) | VarIntKind | StringKind | UuidKind

  datatype Field =
    | ByteField(b: byte)
    | FixedField(width: nat, n: nat)
    | VarIntField(v: uint32)
    | StringField(s: seq<byte>)
    | UuidField(id: seq<byte>)
  {
    function Kind(): Kind {
      match this
      case ByteField(_) => ByteKind
      case FixedField(width, _) => FixedKind(width)
      case VarIntField(_) => VarIntKind
      case StringField(_) => StringKind
      case UuidField(_) => UuidKind
    }

    /** The arguments the writers are made for: numbers of their width, non-negative VarInts. */
    predicate Writable() {
      match this
      case ByteField(_) => true
      case FixedField(width, n) => n < Power256(width)
      case VarIntField(n) => n < 0x8000_0000
      case StringField(s) => |s| < 0x8000_0000
      case UuidField(id) => |id| == 16
    }

    /** What the reader of a string lets through. */
    predicate Readable() {
      StringField? ==> |s| <= MAX_STRING && 0 !in s
    }
  }

  function Encode(f: Field): seq<byte> {
    match f
    case ByteField(b) => [b]
    case FixedField(width, n) => Fixed(n, width)
    case VarIntField(n) => EncodeVarInt(n)
    case StringField(s) => EncodeString(s)
    case UuidField(id) => id
  }

  function EncodeAll(fields: seq<Field>): seq<byte> {
    if fields == [] then [] else EncodeAll(fields[..|fields| - 1]) + Encode(fields[|fields| - 1])
  }

  function Next(kind: Kind, v: View): Read<Field> {
    match kind
    case ByteKind => var r := NextByte(v); Read(Map(r.result, b => ByteField(b)), r.rest)
    case FixedKind(width) => var r := NextFixed(v, width); Read(Map(r.result, n => FixedField(width, n)), r.rest)
    case VarIntKind => var r := NextVarInt(v); Read(Map(r.result, n => VarIntField(n)), r.rest)
    case StringKind => var r := NextString(v); Read(Map(r.result, s => StringField(s)), r.rest)
    case UuidKind => var r := NextBytes(v, 16); Read(Map(r.result, s => UuidField(s)), r.rest)
  }

  /** Reads field after field until one of them throws. */
  function NextAll(kinds: seq<Kind>, v: View): Read<seq<Field>> {
    if kinds == [] then Read(Ok([]), v)
    else
      var first := NextAll(kinds[..|kinds| - 1], v);
      match first.result
      case Err(e) => first
      case Ok(fields) =>
        var last := Next(kinds[|kinds| - 1], first.rest);
        Read(Map(last.result, f => fields + [f]), last.rest)
  }

  function Kinds(fields: seq<Field>): seq<Kind> {
    seq(|fields|, i requires 0 <= i < |fields| => fields[i].Kind())
  }

  lemma FieldRoundTrip(f: Field, suffix: seq<byte>)
    requires f.Writable()
    ensures Next(f.Kind(), Bytes(Encode(f) + suffix)).result == Ok(f) <==> f.Readable()
    ensures f.Readable() ==> Next(f.Kind(), Bytes(Encode(f) + suffix)).rest == Bytes(suffix)
  {
    var s := Encode(f) + suffix;
    match f
    case FixedField(width, n) =>
      BigEndianFixed(n, width);
      assert s[..width] == Fixed(n, width) && s[width..] == suffix;
    case VarIntField(n) => VarIntRoundTrip(n, suffix);
    case StringField(t) => StringRoundTrip(t, suffix);
    case UuidField(id) => assert s[..16] == id && s[16..] == suffix;
    case ByteField(b) => assert s[0] == b && s[1..] == suffix;
  }

  /**
   Reading a list of fields back with the readers of the same types yields the list and takes
   exactly the bytes written, whatever follows; and it does so only for lists of readable fields.
   */
  lemma {:induction false} FieldsRoundTrip(fields: seq<Field>, suffix: seq<byte>)
    requires forall f | f in fields :: f.Writable()
    ensures var r := NextAll(Kinds(fields), Bytes(EncodeAll(fields) + suffix));
            && (r.result == Ok(fields) <==> forall f | f in fields :: f.Readable())
            && (r.result == Ok(fields) ==> r.rest == Bytes(suffix))
  {
    if fields != [] {
      var first, last := fields[..|fields| - 1], fields[|fields| - 1];
      assert fields == first + [last];
      assert Kinds(fields)[..|fields| - 1] == Kinds(first);
      assert EncodeAll(fields) + suffix == EncodeAll(first) + (Encode(last) + suffix);
      FieldsRoundTrip(first, Encode(last) + suffix);
      FieldRoundTrip(last, suffix);
      forall other: seq<Field>, f ensures other + [f] == fields <==> other == first && f == last {
        if other + [f] == fields { assert fields[..|other|] == other; }
      }
    }
  }

  function Map<T, U>(r: Result<T>, f: T -> U): Result<U> {
    match r
    case Ok(x) => Ok(f(x))
    case Err(e) => Err(e)
  }
}
