/** Packets with typed fields (Packets.h). */
module Packets {
  import opened Results
  import opened Wire
  import opened Buffers

  lemma EncodeTwo(a: Field, b: Field)
    ensures EncodeAll([a, b]) == Encode(a) + Encode(b)
  {
    assert [a, b][..1] == [a];
    assert [a][..0] == [];
    assert EncodeAll([a]) == Encode(a);
  }

  lemma EncodeFour(a: Field, b: Field, c: Field, d: Field)
    ensures EncodeAll([a, b, c, d]) == Encode(a) + Encode(b) + Encode(c) + Encode(d)
  {
    EncodeTwo(a, b);
    assert [a, b, c, d][..3] == [a, b, c];
    assert [a, b, c][..2] == [a, b];
  }

  lemma AppendFields(s: Snapshot, a: seq<byte>, b: seq<byte>, c: seq<byte>, d: seq<byte>)
    ensures s.Append(a).Append(b).Append(c).Append(d) == s.Append(a + b + c + d)
  {
    hide *;
    AppendTwice(s, a, b);
    AppendTwice(s, a + b, c);
    AppendTwice(s, a + b + c, d);
  }

  // ---------- the handshake ----------

  class PacketHandshake {
    var clientVersion: int
    var host: seq<byte>
    var port: uint16
    var state: int

    constructor (clientVersion: int, host: seq<byte>, port: uint16, state: int)
      ensures this.clientVersion == clientVersion && this.host == host && this.port == port && this.state == state
    {
      this.clientVersion, this.host, this.port, this.state := clientVersion, host, port, state;
    }

    /** The numbers can be written as VarInts. */
    predicate Writable()
      reads this
    {
      0 <= clientVersion < 0x8000_0000 && 0 <= state < 0x8000_0000 && |host| < 0x8000_0000
    }

    function Fields(): seq<Field>
      requires Writable()
      reads this
    {
      [VarIntField(clientVersion), StringField(host), FixedField(2, port), VarIntField(state)]
    }

    method Write(buffer: DataBuffer)
      requires Writable() && buffer.Valid()
      modifies buffer`buffer, buffer`bufferLength, buffer`writerindex, buffer.buffer
      ensures buffer.Appended(EncodeAll(Fields()))
    {
      hide EncodeVarInt, EncodeString, Fixed, EncodeAll, Snapshot.Append;
      ghost var s := buffer.Layout();
      EncodeFour(VarIntField(clientVersion), StringField(host), FixedField(2, port), VarIntField(state));
      AppendFields(s, EncodeVarInt(clientVersion), EncodeString(host), Fixed(port, 2), EncodeVarInt(state));
      buffer.WriteVarInt(clientVersion);
      buffer.WriteString(host);
      buffer.WriteShort(port);
      buffer.WriteVarInt(state);
    }

    method Read(buffer: DataBuffer) returns (r: Result<()>)
      requires buffer.Valid()
      modifies this, buffer`readerindex
      ensures buffer.Valid()
      ensures var fields := NextAll(HANDSHAKE, old(buffer.Unread()));
              match fields.result {
                case Ok(f) => r.Ok? && |f| == 4 && buffer.Unread() == fields.rest
                              && f[0].VarIntField? && clientVersion == ToInt(f[0].v)
                              && f[1] == StringField(host) && f[2] == FixedField(2, port)
                              && f[3].VarIntField? && state == ToInt(f[3].v)
                case Err(e) => r == Err(e)
              }
    {
      hide NextVarInt, NextString, NextFixed, BigEndian;
      NextHandshake(buffer.Unread());
      var version :- buffer.ReadVarInt();
      clientVersion := ToInt(version);
      host :- buffer.ReadString();
      ShortFits(buffer.Unread());
      var short :- buffer.ReadShort();
      port := short;
      var next :- buffer.ReadVarInt();
      state := ToInt(next);
      r := Ok(());
    }
  }

  const HANDSHAKE := [VarIntKind, StringKind, FixedKind(2), VarIntKind]

  lemma NextHandshake(v: View)
    ensures var a := Next(VarIntKind, v);
            var b := Next(StringKind, a.rest);
            var c := Next(FixedKind(2), b.rest);
            var d := Next(VarIntKind, c.rest);
            NextAll(HANDSHAKE, v).result ==
              if a.result.Err? then Err(a.result.error)
              else if b.result.Err? then Err(b.result.error)
              else if c.result.Err? then Err(c.result.error)
              else if d.result.Err? then Err(d.result.error)
              else Ok([a.result.value, b.result.value, c.result.value, d.result.value])
    ensures NextAll(HANDSHAKE, v).result.Ok? ==>
              NextAll(HANDSHAKE, v).rest
                == Next(VarIntKind, Next(FixedKind(2), Next(StringKind, Next(VarIntKind, v).rest).rest).rest).rest
  {
    hide Next;
    NextSnoc([], VarIntKind, v);
    NextSnoc([VarIntKind], StringKind, v);
    NextSnoc([VarIntKind, StringKind], FixedKind(2), v);
    NextSnoc([VarIntKind, StringKind, FixedKind(2)], VarIntKind, v);
    assert [] + [VarIntKind] == [VarIntKind] && [VarIntKind] + [StringKind] == [VarIntKind, StringKind];
    assert [VarIntKind, StringKind] + [FixedKind(2)] == [VarIntKind, StringKind, FixedKind(2)];
    assert [VarIntKind, StringKind, FixedKind(2)] + [VarIntKind] == HANDSHAKE;
    forall a: Field, b: Field, c: Field, d: Field
      ensures [] + [a] + [b] + [c] + [d] == [a, b, c, d]
    {
    }
  }

  lemma NextSnoc(kinds: seq<Kind>, kind: Kind, v: View)
    ensures var first := NextAll(kinds, v);
            NextAll(kinds + [kind], v) ==
              if first.result.Err? then first
              else
                var last := Next(kind, first.rest);
                Read(Map(last.result, f => first.result.value + [f]), last.rest)
  {
    hide Next;
    assert (kinds + [kind])[..|kinds|] == kinds;
  }

  lemma ShortFits(v: View)
    ensures NextFixed(v, 2).result.Ok? ==> NextFixed(v, 2).result.value < 0x1_0000
  {
    var r := NextBytes(v, 2).result;
    if r.Ok? {
      BigEndianBounds(r.value);
      assert Power256(2) == 0x1_0000;
    }
  }

  /**
   A handshake is read back as it was written, whatever follows it, exactly if its host is no longer
   than a string may be and holds no zero byte (which a host with forwarded addresses does).
   */
  lemma HandshakeRoundTrip(version: varint, host: seq<byte>, port: uint16, state: varint, suffix: seq<byte>)
    requires |host| < 0x8000_0000
    ensures var fields := [VarIntField(version), StringField(host), FixedField(2, port), VarIntField(state)];
            var read := NextAll(HANDSHAKE, Bytes(EncodeAll(fields) + suffix));
            && (read.result == Ok(fields) <==> |host| <= MAX_STRING && 0 !in host)
            && (read.result == Ok(fields) ==> read.rest == Bytes(suffix))
  {
    var fields := [VarIntField(version), StringField(host), FixedField(2, port), VarIntField(state)];
    assert Power256(2) == 0x1_0000;
    FieldsRoundTrip(fields, suffix);
    assert Kinds(fields) == HANDSHAKE;
    assert fields[1].Readable() <==> |host| <= MAX_STRING && 0 !in host;
    assert fields[1] in fields;
  }

  // ---------- the Respawn made of a Join Game ----------

  /** `PacketPlayRespawn::write`; the dimension is kept in a `uint16_t`. */
  method WriteRespawn(buffer: DataBuffer, dimension: uint16, difficulty: byte, gamemode: byte, level: seq<byte>)
    requires buffer.Valid() && |level| < 0x8000_0000
    modifies buffer`buffer, buffer`bufferLength, buffer`writerindex, buffer.buffer
    ensures buffer.Appended(EncodeAll(RespawnFields(dimension, difficulty, gamemode, level)))
  {
    hide EncodeVarInt, EncodeString, Fixed, EncodeAll, Snapshot.Append;
    EncodeFour(FixedField(4, dimension), ByteField(difficulty), ByteField(gamemode), StringField(level));
    AppendFields(buffer.Layout(), Fixed(dimension, 4), [difficulty], [gamemode], EncodeString(level));
    buffer.WriteInt(dimension);
    buffer.WriteByte(difficulty);
    buffer.WriteByte(gamemode);
    buffer.WriteString(level);
  }

  function RespawnFields(dimension: uint16, difficulty: byte, gamemode: byte, level: seq<byte>): seq<Field> {
    [FixedField(4, dimension), ByteField(difficulty), ByteField(gamemode), StringField(level)]
  }

  /** A byte as a `signed char`, and that converted to `uint16_t`. */
  function SignedByte(b: byte): int {
    if b < 0x80 then b else b - 0x100
  }

  function AsDimension(b: byte): uint16 {
    if SignedByte(b) < 0 then SignedByte(b) + 0x1_0000 else b
  }

  /**
   The client reads its dimension back from the Respawn's `int` as the one of the Join Game exactly
   if that is not negative: the Nether, -1, arrives as 65535.
   */
  lemma RespawnDimension(dim: byte, difficulty: byte, gamemode: byte, level: seq<byte>, suffix: seq<byte>)
    requires |level| < 0x8000_0000
    ensures var bytes := EncodeAll(RespawnFields(AsDimension(dim), difficulty, gamemode, level)) + suffix;
            var read := NextFixed(Bytes(bytes), 4).result;
            && read.Ok? && read.value < 0x1_0000_0000
            && (ToInt(read.value) == SignedByte(dim) <==> SignedByte(dim) >= 0)
  {
    var d := AsDimension(dim);
    var (b, c, e) := (Encode(ByteField(difficulty)), Encode(ByteField(gamemode)), Encode(StringField(level)));
    EncodeFour(FixedField(4, d), ByteField(difficulty), ByteField(gamemode), StringField(level));
    var tail := b + c + e + suffix;
    assert EncodeAll(RespawnFields(d, difficulty, gamemode, level)) + suffix == Fixed(d, 4) + tail;
    assert Power256(4) == 0x1_0000_0000;
    FieldRoundTrip(FixedField(4, d), tail);
  }

  const RESPAWN := [FixedKind(4), ByteKind, ByteKind, StringKind]

  /**
   A Respawn is read as its dimension in four bytes, the difficulty, the game mode and the level, in
   this order, whatever follows, if and only if the level can be read.
   */
  lemma RespawnReadsBack(dimension: uint16, difficulty: byte, gamemode: byte, level: seq<byte>, suffix: seq<byte>)
    requires |level| < 0x8000_0000
    ensures var read := NextAll(RESPAWN, Bytes(EncodeAll(RespawnFields(dimension, difficulty, gamemode, level)) + suffix));
            var fields := [FixedField(4, dimension), ByteField(difficulty), ByteField(gamemode), StringField(level)];
            && (read.result == Ok(fields) <==> |level| <= MAX_STRING && 0 !in level)
            && (read.result == Ok(fields) ==> read.rest == Bytes(suffix))
  {
    var fields := [FixedField(4, dimension), ByteField(difficulty), ByteField(gamemode), StringField(level)];
    assert Power256(4) == 0x1_0000_0000;
    FieldsRoundTrip(fields, suffix);
    assert Kinds(fields) == RESPAWN;
    assert fields[3].Readable() <==> |level| <= MAX_STRING && 0 !in level;
    assert fields[3] in fields;
  }
}
