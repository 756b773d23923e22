/** Lists of typed fields written to a buffer and read back from it, as the packets do. */
module Fields {
  import opened Results
  import opened Wire
  import opened Buffers

  /** There are writers and readers of two, four and eight bytes. */
  predicate HasWidth(kind: Kind) {
    kind.FixedKind? ==> kind.width == 2 || kind.width == 4 || kind.width == 8
  }

  method WriteField(buffer: DataBuffer, f: Field)
    requires buffer.Valid() && f.Writable() && HasWidth(f.Kind())
    modifies buffer`buffer, buffer`bufferLength, buffer`writerindex, buffer.buffer
    ensures buffer.Appended(Encode(f))
  {
    hide EncodeVarInt, EncodeString, Fixed, Snapshot.Append;
    match f
    case ByteField(b) => buffer.WriteByte(b);
    case FixedField(width, n) =>
      Widths();
      if width == 2 {
        buffer.WriteShort(n);
      } else if width == 4 {
        buffer.WriteInt(n);
      } else {
        buffer.WriteLong(n);
      }
    case VarIntField(v) => buffer.WriteVarInt(v);
    case StringField(s) => buffer.WriteString(s);
    case UuidField(id) => buffer.WriteUuid(id);
  }

  lemma Widths()
    ensures Power256(2) == 0x1_0000 && Power256(4) == 0x1_0000_0000 && Power256(8) == 0x1_0000_0000_0000_0000
  {
    assert Power256(4) == 256 * (256 * Power256(2));
    assert Power256(8) == 256 * (256 * (256 * (256 * Power256(4))));
  }

  method WriteFields(buffer: DataBuffer, fields: seq<Field>)
    requires buffer.Valid() && forall f | f in fields :: f.Writable() && HasWidth(f.Kind())
    modifies buffer`buffer, buffer`bufferLength, buffer`writerindex, buffer.buffer
    ensures buffer.Valid() && (buffer.buffer == old(buffer.buffer) || (buffer.buffer != null && fresh(buffer.buffer)))
    ensures buffer.Layout() == old(buffer.Layout()).Append(EncodeAll(fields))
    ensures fields != [] ==> buffer.buffer != null
  {
    hide Encode, EncodeAll, Snapshot.Append;
    ghost var s := buffer.Layout();
    AppendTwice(s, [], []);
    EncodeNone();
    for i := 0 to |fields|
      invariant buffer.Valid()
      invariant buffer.buffer == old(buffer.buffer) || (buffer.buffer != null && fresh(buffer.buffer))
      invariant buffer.Layout() == s.Append(EncodeAll(fields[..i]))
      invariant i > 0 ==> buffer.buffer != null
    {
      EncodeOneMore(fields[..i], fields[i]);
      assert fields[..i + 1] == fields[..i] + [fields[i]];
      AppendTwice(s, EncodeAll(fields[..i]), Encode(fields[i]));
      WriteField(buffer, fields[i]);
    }
    assert fields[..|fields|] == fields;
  }

  lemma EncodeNone()
    ensures EncodeAll([]) == []
  {
  }

  lemma EncodeOneMore(fields: seq<Field>, f: Field)
    ensures EncodeAll(fields + [f]) == EncodeAll(fields) + Encode(f)
  {
    assert (fields + [f])[..|fields|] == fields;
  }

  method ReadField(buffer: DataBuffer, kind: Kind) returns (r: Result<Field>)
    requires buffer.Valid() && HasWidth(kind)
    modifies buffer`readerindex
    ensures buffer.Valid()
    ensures Wire.Read(r, buffer.Unread()) == Next(kind, old(buffer.Unread()))
  {
    hide NextBytes, NextVarInt, NextString, NextFixed, NextByte;
    match kind
    case ByteKind =>
      var b :- buffer.ReadByte();
      r := Ok(ByteField(b));
    case FixedKind(width) =>
      if width == 2 {
        var n :- buffer.ReadShort();
        r := Ok(FixedField(width, n));
      } else if width == 4 {
        var n :- buffer.ReadInt();
        r := Ok(FixedField(width, n));
      } else {
        var n :- buffer.ReadLong();
        r := Ok(FixedField(width, n));
      }
    case VarIntKind =>
      var v :- buffer.ReadVarInt();
      r := Ok(VarIntField(v));
    case StringKind =>
      var s :- buffer.ReadString();
      r := Ok(StringField(s));
    case UuidKind =>
      var id :- buffer.ReadUuid();
      r := Ok(UuidField(id));
  }

  method ReadFields(buffer: DataBuffer, kinds: seq<Kind>) returns (r: Result<seq<Field>>)
    requires buffer.Valid() && forall k | k in kinds :: HasWidth(k)
    modifies buffer`readerindex
    ensures buffer.Valid()
    ensures Wire.Read(r, buffer.Unread()) == NextAll(kinds, old(buffer.Unread()))
  {
    hide Next, NextAll;
    ghost var v := buffer.Unread();
    NextNone(v);
    var fields: seq<Field> := [];
    for i := 0 to |kinds|
      invariant buffer.Valid()
      invariant NextAll(kinds[..i], v) == Wire.Read(Ok(fields), buffer.Unread())
    {
      NextOneMore(kinds[..i], kinds[i], v);
      assert kinds[..i + 1] == kinds[..i] + [kinds[i]];
      var f := ReadField(buffer, kinds[i]);
      if f.Err? {
        NextFails(kinds, i + 1, v);
        assert kinds[..|kinds|] == kinds;
        return Err(f.error);
      }
      fields := fields + [f.value];
    }
    assert kinds[..|kinds|] == kinds;
    r := Ok(fields);
  }

  lemma NextNone(v: View)
    ensures NextAll([], v) == Wire.Read(Ok([]), v)
  {
  }

  lemma NextOneMore(kinds: seq<Kind>, kind: Kind, v: View)
    ensures var first := NextAll(kinds, v);
            NextAll(kinds + [kind], v) ==
              if first.result.Err? then first
              else
                var last := Next(kind, first.rest);
                Wire.Read(Map(last.result, f => first.result.value + [f]), last.rest)
  {
    hide Next;
    assert (kinds + [kind])[..|kinds|] == kinds;
  }

  /** Once a field has failed, the rest is not read. */
  lemma {:induction false} NextFails(kinds: seq<Kind>, n: nat, v: View)
    requires n <= |kinds| && NextAll(kinds[..n], v).result.Err?
    ensures NextAll(kinds, v) == NextAll(kinds[..n], v)
    decreases |kinds|
  {
    if n == |kinds| {
      assert kinds[..n] == kinds;
    } else {
      assert kinds[..|kinds| - 1][..n] == kinds[..n];
      NextFails(kinds[..|kinds| - 1], n, v);
    }
  }

  /**
   Fields written to a fresh buffer come back from it, to its last byte, through the readers of their
   types, if and only if all of them are readable.
   */
  method WriteThenRead(fields: seq<Field>) returns (r: Result<seq<Field>>, buffer: DataBuffer)
    requires forall f | f in fields :: f.Writable() && HasWidth(f.Kind())
    ensures fresh(buffer) && buffer.Valid()
    ensures fields != [] ==> (r == Ok(fields) <==> forall f | f in fields :: f.Readable())
    ensures fields != [] && r == Ok(fields) ==> buffer.Unread() == Bytes([])
    ensures fields == [] ==> r == Ok([])
  {
    hide EncodeAll, NextAll, Next, Encode;
    buffer := new DataBuffer();
    var kinds := Kinds(fields);
    forall k | k in kinds ensures HasWidth(k) {
      var i :| 0 <= i < |kinds| && kinds[i] == k;
      assert fields[i] in fields;
    }
    FieldsRoundTrip(fields, []);
    WriteFields(buffer, fields);
    assert fields != [] ==> buffer.Unread() == Bytes(EncodeAll(fields) + []) by {
      if fields != [] { ReadsAll(buffer, EncodeAll(fields)); }
    }
    assert fields == [] ==> kinds == [];
    NextNone(buffer.Unread());
    r := ReadFields(buffer, kinds);
  }

  lemma ReadsAll(buffer: DataBuffer, bytes: seq<byte>)
    requires buffer.Valid() && buffer.buffer != null
    requires buffer.Layout() == Snapshot([], [], 0).Append(bytes)
    ensures buffer.Unread() == Bytes(bytes + [])
  {
    assert buffer.buffer[..] == buffer.Written() + buffer.Room();
  }
}
