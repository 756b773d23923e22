/** Rewriting entity ids between what the client and what its server know (EntityRewrite.h). */
module EntityRewrite {
  import opened Results
  import opened Wire
  import opened Buffers

  type int32 = x: int | -0x8000_0000 <= x < 0x8000_0000

  function GetEntityId(old_: int32, new_: int32, current: int32): int32 {
    if current == new_ then old_ else -1
  }

  /** A buffer whose first bytes have been overwritten with a packet id and an entity id. */
  function Rewritten(contents: seq<byte>, pid: varint, id: varint): (r: seq<byte>)
    ensures |r| >= |contents|
  {
    var head := EncodeVarInt(pid) + EncodeVarInt(id);
    head + if |head| <= |contents| then contents[|head|..] else []
  }

  /** The packet with another entity id. */
  function PacketWith(pid: varint, id: varint, tail: seq<byte>): seq<byte> {
    EncodeVarInt(pid) + EncodeVarInt(id) + tail
  }

  /**
   The overwriting turns a packet for one id into the same packet for the other exactly if both ids
   take equally many bytes, or if the new one is longer and nothing follows it.
   */
  lemma RewrittenExactly(pid: varint, from: varint, to: varint, tail: seq<byte>)
    ensures Rewritten(PacketWith(pid, from, tail), pid, to) == PacketWith(pid, to, tail)
       <==> VarIntSize(to) == VarIntSize(from) || (VarIntSize(to) > VarIntSize(from) && tail == [])
    ensures VarIntSize(to) == VarIntSize(from) ==>
              |Rewritten(PacketWith(pid, from, tail), pid, to)| == |PacketWith(pid, from, tail)|
  {
    VarIntSizeExact(from);
    VarIntSizeExact(to);
    hide EncodeVarInt, VarIntSize;
    var (p, a, b) := (EncodeVarInt(pid), EncodeVarInt(from), EncodeVarInt(to));
    var contents := p + a + tail;
    if |a| == |b| {
      assert contents[|p + b|..] == tail;
    } else if |a| < |b| && tail == [] {
      assert Rewritten(contents, pid, to) == p + b;
    } else {
      assert |Rewritten(contents, pid, to)| != |p + b + tail|;
    }
  }

  /** `int` to `uint32_t`. */
  function ToUnsigned(n: int32): uint32 {
    if n < 0 then n + 0x1_0000_0000 else n
  }

  /** The end of `replaceEntityId`: writes both ids from the front and declares the whole buffer written. */
  method Overwrite(pid: varint, buffer: DataBuffer, id: varint)
    requires buffer.Valid()
    modifies buffer, buffer.buffer
    ensures buffer.Valid() && buffer.buffer != null && (buffer.buffer == old(buffer.buffer) || fresh(buffer.buffer))
    ensures buffer.Contents() == Rewritten(old(buffer.Contents()), pid, id)
    ensures buffer.writerindex == buffer.bufferLength
  {
    hide EncodeVarInt, Snapshot.Append, Rewritten;
    buffer.writerindex := 0;
    ghost var contents, r := buffer.Contents(), buffer.readerindex;
    ghost var start := Snapshot([], contents, r);
    assert buffer.Layout() == start;
    buffer.WriteVarInt(pid);
    buffer.WriteVarInt(id);
    OverwrittenIds(contents, r, pid, id);
    assert buffer.Contents() == buffer.Layout().written + buffer.Layout().room;
    buffer.writerindex := buffer.bufferLength;
  }

  lemma OverwrittenIds(contents: seq<byte>, r: int, pid: varint, id: varint)
    ensures var after := Snapshot([], contents, r).Append(EncodeVarInt(pid)).Append(EncodeVarInt(id));
            after.written + after.room == Rewritten(contents, pid, id)
  {
    hide EncodeVarInt;
    AppendTwice(Snapshot([], contents, r), EncodeVarInt(pid), EncodeVarInt(id));
  }

  /** `replaceEntityId`, whose branches for ids of different sizes are never taken. */
  method ReplaceEntityId(pid: varint, buffer: DataBuffer, old_: int32, new_: int32) returns (r: Result<()>)
    requires buffer.Valid() && old_ >= -1
    modifies buffer, buffer.buffer
    ensures buffer.Valid() && (buffer.buffer == old(buffer.buffer) || (buffer.buffer != null && fresh(buffer.buffer)))
    ensures var found := NextVarInt(old(buffer.Unread()));
            if old_ == new_ || (found.result.Ok? && (ToInt(found.result.value) != new_ || old_ == -1)) then
              r.Ok? && buffer.Contents() == old(buffer.Contents()) && buffer.writerindex == old(buffer.writerindex)
            else if found.result.Ok? then
              && r.Ok? && buffer.Contents() == Rewritten(old(buffer.Contents()), pid, old_)
              && buffer.writerindex == buffer.bufferLength
            else r == Err(found.result.error) && buffer.Contents() == old(buffer.Contents())
  {
    hide Rewritten, NextVarInt;
    if old_ == new_ {
      return Ok(());
    }
    var current :- buffer.ReadVarInt();
    var id := GetEntityId(old_, new_, ToInt(current));
    if id == -1 {
      return Ok(());
    }
    Overwrite(pid, buffer, id);
    r := Ok(());
  }

  /** The field at an index replaced by another one of four bytes. */
  function WithInt(contents: seq<byte>, at: nat, n: uint32): (s: seq<byte>)
    requires at + 4 <= |contents|
    ensures |s| == |contents| && s[..at] == contents[..at] && s[at + 4..] == contents[at + 4..]
    ensures s[at..at + 4] == Fixed(n, 4)
  {
    contents[..at] + Fixed(n, 4) + contents[at + 4..]
  }

  /** The fixed-width branch of `entityRewrite47Server`: the id is changed where it stands, the indices stay. */
  method ReplaceFixedId(buffer: DataBuffer, old_: int32, new_: int32) returns (r: Result<()>)
    requires buffer.Valid()
    modifies buffer, buffer.buffer
    ensures buffer.Valid() && (buffer.buffer == old(buffer.buffer) || (buffer.buffer != null && fresh(buffer.buffer)))
    ensures r.Ok? ==> buffer.readerindex == old(buffer.readerindex) && buffer.writerindex == old(buffer.writerindex)
    ensures var found := NextFixed(old(buffer.Unread()), 4).result;
            if found.Err? then r == Err(found.error) && buffer.Contents() == old(buffer.Contents())
            else
              && r.Ok?
              && old(buffer.readerindex) + 4 <= |old(buffer.Contents())|
              && buffer.Contents() ==
                   if ToInt(found.value % 0x1_0000_0000) == new_ && old_ != -1 then
                     WithInt(old(buffer.Contents()), old(buffer.readerindex), ToUnsigned(old_))
                   else old(buffer.Contents())
  {
    var currentIndex, writerIndex := buffer.readerindex, buffer.writerindex;
    var n :- buffer.ReadInt();
    var current := GetEntityId(old_, new_, ToInt(n % 0x1_0000_0000));
    if current != -1 {
      buffer.writerindex := currentIndex;
      hide Fixed, WithInt;
      ghost var contents := buffer.Contents();
      buffer.WriteInt(ToUnsigned(current));
      OverwrittenInt(contents, currentIndex, ToUnsigned(current));
      assert buffer.Contents() == buffer.Layout().written + buffer.Layout().room;
    }
    buffer.writerindex := writerIndex;
    buffer.readerindex := currentIndex;
    r := Ok(());
  }

  lemma OverwrittenInt(contents: seq<byte>, at: nat, n: uint32)
    requires at + 4 <= |contents|
    ensures var after := Snapshot(contents[..at], contents[at..], at).Append(Fixed(n, 4));
            after.written + after.room == WithInt(contents, at, n)
  {
    hide Fixed;
    assert contents[at..][4..] == contents[at + 4..];
  }
}
