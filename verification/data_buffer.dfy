/** The growable buffer behind every packet (DataBuffer.h, DataBuffer.cpp). */
module Buffers {
  import opened Results
  import opened Wire

  class DataBuffer {
    var buffer: array?<byte>
    var bufferLength: int
    var readerindex: int
    var writerindex: int

    predicate Valid()
      reads this
    {
      && (buffer == null ==> bufferLength <= 0 && readerindex == 0 && writerindex == 0)
      && (buffer != null ==>
            && buffer.Length == bufferLength
            && 0 <= readerindex <= bufferLength
            && 0 <= writerindex <= bufferLength)
    }

    /** What the readers see. */
    ghost function Unread(): (v: View)
      requires Valid()
      reads this, buffer
    {
      if buffer == null then Missing else Bytes(buffer[readerindex..])
    }

    /** All bytes of the buffer. */
    function Contents(): (s: seq<byte>)
      requires Valid()
      reads this, buffer
    {
      if buffer == null then [] else buffer[..]
    }

    /** What the writers have produced. */
    ghost function Written(): (s: seq<byte>)
      requires Valid()
      reads this, buffer
    {
      if buffer == null then [] else buffer[..writerindex]
    }

    /** The bytes behind the writer index. */
    ghost function Room(): (s: seq<byte>)
      requires Valid()
      reads this, buffer
    {
      if buffer == null then [] else buffer[writerindex..]
    }

    /** Nothing is behind the last byte written. */
    ghost predicate Tight()
      reads this
    {
      buffer != null ==> writerindex == bufferLength
    }

    constructor ()
      ensures Valid() && Tight() && buffer == null
      ensures Unread() == Missing && Contents() == []
    {
      buffer, bufferLength, readerindex, writerindex := null, -1, 0, 0;
    }

    /** A buffer with room for `length` bytes, whose values are whatever malloc returned. */
    constructor WithCapacity(length: nat)
      ensures Valid() && buffer != null && fresh(buffer)
      ensures bufferLength == length && readerindex == 0 && writerindex == 0
    {
      buffer := new byte[length];
      bufferLength, readerindex, writerindex := length, 0, 0;
    }

    constructor FromBytes(bytes: seq<byte>)
      ensures Valid() && Tight() && buffer != null && fresh(buffer)
      ensures Contents() == bytes && readerindex == 0
    {
      buffer := new byte[|bytes|](i requires 0 <= i < |bytes| => bytes[i]);
      bufferLength, readerindex, writerindex := |bytes|, 0, |bytes|;
      new;
      assert buffer[..] == bytes;
    }

    // ---------- reading ----------

    /** `read(buffer, length)`. */
    method ReadBytes(length: nat) returns (r: Result<seq<byte>>)
      requires Valid()
      modifies this`readerindex
      ensures Valid()
      ensures Read(r, Unread()) == NextBytes(old(Unread()), length)
    {
      if buffer == null {
        return Err(NULL_BUFFER);
      }
      if bufferLength - readerindex < length {
        return Err(SHORT_BUFFER);
      }
      assert buffer[readerindex..][..length] == buffer[readerindex..readerindex + length];
      assert buffer[readerindex..][length..] == buffer[readerindex + length..];
      r := Ok(buffer[readerindex..readerindex + length]);
      readerindex := readerindex + length;
    }

    /** `read()`. */
    method ReadByte() returns (r: Result<byte>)
      requires Valid()
      modifies this`readerindex
      ensures Valid()
      ensures Read(r, Unread()) == NextByte(old(Unread()))
    {
      if buffer == null {
        return Ok(0);
      }
      if bufferLength - readerindex < 1 {
        return Err(SHORT_BUFFER);
      }
      readerindex := readerindex + 1;
      r := Ok(buffer[readerindex - 1]);
    }

    method ReadShort() returns (r: Result<nat>)
      requires Valid()
      modifies this`readerindex
      ensures Valid()
      ensures Read(r, Unread()) == NextFixed(old(Unread()), 2)
    {
      var b :- ReadBytes(2);
      BigEndianOfTwo(b);
      r := Ok(b[0] as int * 0x100 + b[1]);
    }

    method ReadInt() returns (r: Result<nat>)
      requires Valid()
      modifies this`readerindex
      ensures Valid()
      ensures Read(r, Unread()) == NextFixed(old(Unread()), 4)
    {
      var b :- ReadBytes(4);
      BigEndianOfFour(b);
      r := Ok(b[0] as int * 0x100_0000 + b[1] as int * 0x1_0000 + b[2] as int * 0x100 + b[3]);
    }

    method ReadLong() returns (r: Result<nat>)
      requires Valid()
      modifies this`readerindex
      ensures Valid()
      ensures Read(r, Unread()) == NextFixed(old(Unread()), 8)
    {
      var b :- ReadBytes(8);
      BigEndianOfEight(b);
      r := Ok(b[0] as int * 0x100_0000_0000_0000 + b[1] as int * 0x1_0000_0000_0000 + b[2] as int * 0x100_0000_0000
              + b[3] as int * 0x1_0000_0000 + b[4] as int * 0x100_0000 + b[5] as int * 0x1_0000 + b[6] as int * 0x100 + b[7]);
    }

    method ReadVarInt() returns (r: Result<uint32>)
      requires Valid()
      modifies this`readerindex
      ensures Valid()
      ensures Read(r, Unread()) == NextVarInt(old(Unread()))
    {
      hide Groups, Power128, FinishVarInt;
      ghost var start := Unread();
      NoMoreGroups(start, 1, 0);
      var output: uint32, byteIndex: nat := 0, 0;
      var currentByte :- ReadByte();
      output, byteIndex := currentByte % 128, 1;
      StartGroups(start);
      while currentByte >= 128
        invariant Valid() && 1 <= byteIndex <= 5
        invariant currentByte < 128 ==> NextVarInt(start) == Read(Ok(output), Unread())
        invariant currentByte >= 128 ==> NextVarInt(start) == FinishVarInt(Unread(), byteIndex, output)
        decreases 5 - byteIndex, currentByte
      {
        ghost var before := Unread();
        NoMoreGroups(before, byteIndex, output);
        currentByte :- ReadByte();
        StepGroups(before, byteIndex, output);
        output := (output + currentByte % 128 * Power128(byteIndex)) % 0x1_0000_0000;
        byteIndex := byteIndex + 1;
        if byteIndex > 5 {
          return Err(VARINT_TOO_BIG);
        }
      }
      r := Ok(output);
    }

    method ReadString() returns (r: Result<seq<byte>>)
      requires Valid()
      modifies this`readerindex
      ensures Valid()
      ensures Read(r, Unread()) == NextString(old(Unread()))
    {
      var n :- ReadVarInt();
      var length := ToInt(n);
      if length > MAX_STRING {
        return Err(STRING_TOO_LONG);
      }
      if length < 0 {
        return Err(BadAlloc);
      }
      var text :- ReadBytes(length);
      r := Ok(CString(text));
    }

    method ReadUuid() returns (r: Result<seq<byte>>)
      requires Valid()
      modifies this`readerindex
      ensures Valid()
      ensures Read(r, Unread()) == NextBytes(old(Unread()), 16)
    {
      r := ReadBytes(16);
    }

    /** `readBuffer`: a buffer of its own for the next bytes. */
    method ReadBuffer(length: nat) returns (r: Result<DataBuffer>)
      requires Valid()
      modifies this`readerindex
      ensures Valid()
      ensures Unread() == NextBytes(old(Unread()), length).rest
      ensures var read := NextBytes(old(Unread()), length).result;
              match r {
                case Ok(data) => fresh(data) && data.Valid() && fresh(data.buffer) && data.buffer != null
                                 && read == Ok(data.Contents()) && data.Tight() && data.readerindex == 0
                case Err(e) => read == Err(e)
              }
    {
      var bytes :- ReadBytes(length);
      var data := new DataBuffer.FromBytes(bytes);
      r := Ok(data);
    }

    // ---------- writing ----------

    /** `allocateBufferSize`: reallocates to exactly the size needed unless more than that is there. */
    method AllocateBufferSize(length: nat)
      requires Valid()
      modifies this`buffer, this`bufferLength
      ensures Valid() && buffer != null && (buffer == old(buffer) || fresh(buffer))
      ensures Written() == old(Written())
      ensures if old(writerindex + length < bufferLength) then buffer == old(buffer)
              else bufferLength == writerindex + length
    {
      if writerindex + length >= bufferLength {
        var oldBuffer := buffer;
        buffer := new byte[writerindex + length];
        if oldBuffer != null {
          forall i | 0 <= i < writerindex { buffer[i] := oldBuffer[i]; }
        }
        bufferLength := writerindex + length;
        assert oldBuffer != null ==> buffer[..writerindex] == oldBuffer[..writerindex];
      }
    }

    ghost function Layout(): Snapshot
      requires Valid()
      reads this, buffer
    {
      Snapshot(Written(), Room(), readerindex)
    }

    /** Bytes have been written: they follow the earlier ones and take the place of what was behind those. */
    twostate predicate Appended(bytes: seq<byte>)
      requires old(Valid())
      reads this, buffer
    {
      && Valid() && buffer != null && (buffer == old(buffer) || fresh(buffer))
      && Layout() == old(Layout()).Append(bytes)
    }

    /** A buffer that is reallocated for every write never has room left over. */
    twostate lemma AppendedKeepsTight(bytes: seq<byte>)
      requires old(Valid()) && old(Tight()) && Appended(bytes)
      ensures Tight() && bufferLength == writerindex == old(writerindex) + |bytes|
      ensures Unread() == Bytes(Written()[readerindex..])
    {
      assert Room() == [];
      assert buffer[..] == Written();
    }

    /** `write(buffer, length)`. */
    method Write(bytes: seq<byte>)
      requires Valid()
      modifies this`buffer, this`bufferLength, this`writerindex, buffer
      ensures Appended(bytes)
    {
      AllocateBufferSize(|bytes|);
      forall i | 0 <= i < |bytes| { buffer[writerindex + i] := bytes[i]; }
      writerindex := writerindex + |bytes|;
      assert Written() == old(Written()) + bytes;
      assert Room() == old(Layout()).Append(bytes).room;
    }

    /** `write(byte)`. */
    method WriteByte(b: byte)
      requires Valid()
      modifies this`buffer, this`bufferLength, this`writerindex, buffer
      ensures Appended([b])
    {
      Write([b]);
    }

    method WriteShort(n: uint16)
      requires Valid()
      modifies this`buffer, this`bufferLength, this`writerindex, buffer
      ensures Appended(Fixed(n, 2))
    {
      hide Fixed, Snapshot.Append;
      WriteByte(n / 0x100 % 0x100);
      WriteByte(n % 0x100);
      FixedOfTwo(n);
      AppendTwice(old(Layout()), [n / 0x100 % 0x100], [n % 0x100]);
      assert [n / 0x100 % 0x100] + [n % 0x100] == Fixed(n, 2);
    }

    method WriteInt(n: uint32)
      requires Valid()
      modifies this`buffer, this`bufferLength, this`writerindex, buffer
      ensures Appended(Fixed(n, 4))
    {
      hide Fixed, Snapshot.Append, FourBytes, EightBytes;
      ghost var s := old(Layout());
      var b := FourBytes(n);
      WriteByte(b[0]);
      WriteByte(b[1]);
      WriteByte(b[2]);
      WriteByte(b[3]);
      FixedOfFour(n);
      AppendFour(s, b);
    }

    method WriteLong(n: uint64)
      requires Valid()
      modifies this`buffer, this`bufferLength, this`writerindex, buffer
      ensures Appended(Fixed(n, 8))
    {
      hide Fixed, Snapshot.Append, FourBytes, EightBytes;
      ghost var s := old(Layout());
      var b := EightBytes(n);
      WriteByte(b[0]);
      WriteByte(b[1]);
      WriteByte(b[2]);
      WriteByte(b[3]);
      WriteByte(b[4]);
      WriteByte(b[5]);
      WriteByte(b[6]);
      WriteByte(b[7]);
      FixedOfEight(n);
      AppendEight(s, b);
    }

    /** `writeVarInt`: the source's loop does not end on a negative number. */
    method WriteVarInt(n: varint)
      requires Valid()
      modifies this`buffer, this`bufferLength, this`writerindex, buffer
      ensures Appended(EncodeVarInt(n))
    {
      hide Snapshot.Append, EncodeVarInt;
      var val: nat := n;
      ghost var done: seq<byte> := [];
      ghost var s := old(Layout());
      AppendTwice(s, [], []);
      while val >= 128
        invariant Valid() && Layout() == s.Append(done)
        invariant buffer == old(buffer) || (buffer != null && fresh(buffer))
        invariant EncodeVarInt(n) == done + EncodeVarInt(val)
      {
        AppendTwice(s, done, [val % 128 + 128]);
        EncodeStep(done, val);
        WriteByte(val % 128 + 128);
        done := done + [val % 128 + 128];
        val := val / 128;
      }
      AppendTwice(s, done, [val]);
      EncodeStep(done, val);
      WriteByte(val);
    }

    method WriteString(message: seq<byte>)
      requires Valid() && |message| < 0x8000_0000
      modifies this`buffer, this`bufferLength, this`writerindex, buffer
      ensures Appended(EncodeString(message))
    {
      AppendTwice(Layout(), EncodeVarInt(|message|), message);
      WriteVarInt(|message|);
      Write(message);
    }

    method WriteUuid(id: seq<byte>)
      requires Valid() && |id| == 16
      modifies this`buffer, this`bufferLength, this`writerindex, buffer
      ensures Appended(id)
    {
      Write(id);
    }

    /** `push` with a number that is not positive: drops bytes from the front of what was written. */
    method DropFront(count: nat)
      requires Valid() && (buffer != null ==> readerindex <= writerindex && count <= writerindex)
      modifies this`buffer, this`bufferLength, this`readerindex, this`writerindex
      ensures Valid() && (buffer == null <==> old(buffer) == null)
      ensures buffer == null ==> unchanged(this)
      ensures buffer != null ==>
                && fresh(buffer) && Tight()
                && Contents() == old(Written())[count..]
                && readerindex == if old(readerindex) < count then 0 else old(readerindex) - count
    {
      if buffer == null {
        return;
      }
      var oldBuffer := buffer;
      buffer := new byte[writerindex - count];
      forall i | 0 <= i < writerindex - count { buffer[i] := oldBuffer[count + i]; }
      bufferLength := writerindex - count;
      writerindex := writerindex - count;
      readerindex := if readerindex - count < 0 then 0 else readerindex - count;
      assert buffer[..] == oldBuffer[..old(writerindex)][count..];
    }
  }

  /** What a buffer holds before and behind its writer index, and where it is read. */
  datatype Snapshot = Snapshot(written: seq<byte>, room: seq<byte>, readerindex: int) {
    function Append(bytes: seq<byte>): Snapshot {
      Snapshot(written + bytes, if |bytes| <= |room| then room[|bytes|..] else [], readerindex)
    }
  }

  lemma AppendTwice(s: Snapshot, a: seq<byte>, b: seq<byte>)
    ensures s.Append(a).Append(b) == s.Append(a + b)
    ensures s.Append([]) == s
  {
    assert s.written + a + b == s.written + (a + b);
  }

  /** One round of the loop in `writeVarInt`. */
  lemma EncodeStep(done: seq<byte>, val: nat)
    ensures done + EncodeVarInt(val) ==
      if val < 128 then done + [val] else done + [val % 128 + 128] + EncodeVarInt(val / 128)
  {
  }

  lemma FixedOfTwo(n: nat)
    ensures Fixed(n, 2) == [n / 0x100 % 0x100, n % 0x100]
  {
    assert Fixed(n / 256 / 256, 0) == [];
  }

  function FourBytes(n: nat): (b: seq<byte>)
    ensures |b| == 4
  {
    [n / 0x100_0000 % 0x100, n / 0x1_0000 % 0x100, n / 0x100 % 0x100, n % 0x100]
  }

  function EightBytes(n: nat): (b: seq<byte>)
    ensures |b| == 8
  {
    [n / 0x100_0000_0000_0000 % 0x100, n / 0x1_0000_0000_0000 % 0x100,
     n / 0x100_0000_0000 % 0x100, n / 0x1_0000_0000 % 0x100,
     n / 0x100_0000 % 0x100, n / 0x1_0000 % 0x100, n / 0x100 % 0x100, n % 0x100]
  }

  lemma FixedOfFour(n: nat)
    ensures Fixed(n, 4) == FourBytes(n)
  {
    FixedOfTwo(n / 256 / 256);
    assert Fixed(n, 4) == Fixed(n / 256 / 256, 2) + [n / 256 % 256] + [n % 256];
  }

  lemma FixedOfEight(n: nat)
    ensures Fixed(n, 8) == EightBytes(n)
  {
    hide Fixed;
    FixedSplit(n);
    FixedOfFour(n / 0x1_0000_0000);
    FixedOfFour(n);
    EightIsTwiceFour(n);
  }

  lemma EightIsTwiceFour(n: nat)
    ensures EightBytes(n) == FourBytes(n / 0x1_0000_0000) + FourBytes(n)
  {
    var high := n / 0x1_0000_0000;
    assert high / 0x100_0000 == n / 0x100_0000_0000_0000;
    assert high / 0x1_0000 == n / 0x1_0000_0000_0000;
    assert high / 0x100 == n / 0x100_0000_0000;
  }

  lemma FixedUnfold(n: nat, width: nat)
    requires width > 0
    ensures Fixed(n, width) == Fixed(n / 256, width - 1) + [n % 256]
  {
  }

  lemma FixedSplit(n: nat)
    ensures Fixed(n, 8) == Fixed(n / 0x1_0000_0000, 4) + Fixed(n, 4)
  {
    hide Fixed;
    FixedUnfold(n, 8);
    FixedUnfold(n, 4);
    FixedUnfold(n / 256, 7);
    FixedUnfold(n / 256, 3);
    FixedUnfold(n / 256 / 256, 6);
    FixedUnfold(n / 256 / 256, 2);
    FixedUnfold(n / 256 / 256 / 256, 5);
    FixedUnfold(n / 256 / 256 / 256, 1);
    assert n / 256 / 256 / 256 / 256 == n / 0x1_0000_0000;
  }

  lemma AppendFour(s: Snapshot, b: seq<byte>)
    requires |b| == 4
    ensures s.Append([b[0]]).Append([b[1]]).Append([b[2]]).Append([b[3]]) == s.Append(b)
  {
    hide *;
    AppendTwice(s, [b[0]], [b[1]]);
    AppendTwice(s, [b[0]] + [b[1]], [b[2]]);
    AppendTwice(s, [b[0]] + [b[1]] + [b[2]], [b[3]]);
    assert [b[0]] + [b[1]] + [b[2]] + [b[3]] == b;
  }

  lemma AppendEight(s: Snapshot, b: seq<byte>)
    requires |b| == 8
    ensures s.Append([b[0]]).Append([b[1]]).Append([b[2]]).Append([b[3]])
             .Append([b[4]]).Append([b[5]]).Append([b[6]]).Append([b[7]]) == s.Append(b)
  {
    hide *;
    AppendFour(s, b[..4]);
    AppendFour(s.Append(b[..4]), b[4..]);
    AppendTwice(s, b[..4], b[4..]);
    assert b[..4] + b[4..] == b;
  }

  // ---------- what the readers compute ----------

  lemma BigEndianOfTwo(b: seq<byte>)
    requires |b| == 2
    ensures BigEndian(b) == b[0] as int * 0x100 + b[1]
  {
    assert b[..1][..0] == [];
    assert BigEndian(b[..1]) == 256 * BigEndian(b[..1][..0]) + b[0];
  }

  lemma PowerTimes(x: nat, n: nat)
    ensures x * Power256(n + 1) == 256 * (x * Power256(n))
  {
    assert Power256(n + 1) == 256 * Power256(n);
  }

  lemma {:induction false} BigEndianConcat(a: seq<byte>, b: seq<byte>)
    ensures BigEndian(a + b) == BigEndian(a) * Power256(|b|) + BigEndian(b)
  {
    if b == [] {
      assert a + b == a;
    } else {
      var c := b[..|b| - 1];
      assert (a + b)[..|a + b| - 1] == a + c;
      BigEndianConcat(a, c);
      assert (a + b)[|a + b| - 1] == b[|b| - 1];
      hide BigEndian;
      PowerTimes(BigEndian(a), |c|);
    }
  }

  lemma BigEndianOfFour(b: seq<byte>)
    requires |b| == 4
    ensures BigEndian(b) == b[0] as int * 0x100_0000 + b[1] as int * 0x1_0000 + b[2] as int * 0x100 + b[3]
  {
    assert b == b[..2] + b[2..];
    BigEndianConcat(b[..2], b[2..]);
    BigEndianOfTwo(b[..2]);
    BigEndianOfTwo(b[2..]);
    assert Power256(2) == 0x1_0000;
  }

  lemma BigEndianOfEight(b: seq<byte>)
    requires |b| == 8
    ensures BigEndian(b) == b[0] as int * 0x100_0000_0000_0000 + b[1] as int * 0x1_0000_0000_0000 + b[2] as int * 0x100_0000_0000
                            + b[3] as int * 0x1_0000_0000 + b[4] as int * 0x100_0000 + b[5] as int * 0x1_0000 + b[6] as int * 0x100 + b[7]
  {
    assert b == b[..4] + b[4..];
    BigEndianConcat(b[..4], b[4..]);
    BigEndianOfFour(b[..4]);
    BigEndianOfFour(b[4..]);
    assert Power256(4) == 256 * Power256(3) && Power256(3) == 256 * Power256(2) && Power256(2) == 0x1_0000;
  }

  /** What is left of `readVarInt` when `byteIndex` groups with the value `output` have been read. */
  ghost function FinishVarInt(v: View, byteIndex: nat, output: uint32): Read<uint32>
    requires byteIndex <= 5
  {
    var r := Groups(v, byteIndex);
    Read(Map(r.result, n => (output + Power128(byteIndex) * n) % 0x1_0000_0000), r.rest)
  }

  lemma StartGroups(v: View)
    requires NextByte(v).result.Ok?
    ensures var (r, b) := (NextByte(v).rest, NextByte(v).result.value);
            NextVarInt(v) == if b < 128 then Read(Ok(b), r) else FinishVarInt(r, 1, b % 128)
  {
    assert Power128(1) == 128;
  }

  lemma NoMoreGroups(v: View, i: nat, output: uint32)
    requires i <= 5
    ensures NextByte(v).result.Err? ==>
      && NextVarInt(v) == Read(Err(NextByte(v).result.error), NextByte(v).rest)
      && FinishVarInt(v, i, output) == Read(Err(NextByte(v).result.error), NextByte(v).rest)
  {
  }

  lemma AddGroup(output: nat, b: nat, p: nat, n: nat)
    ensures ((output + b * p) % 0x1_0000_0000 + 128 * p * n) % 0x1_0000_0000
         == (output + p * (b + 128 * n)) % 0x1_0000_0000
  {
    var x, y := output + b * p, 128 * p * n;
    assert p * (b + 128 * n) == b * p + y;
    assert x + y == 0x1_0000_0000 * (x / 0x1_0000_0000) + (x % 0x1_0000_0000 + y);
  }

  lemma StepGroups(v: View, i: nat, output: uint32)
    requires 1 <= i <= 5 && NextByte(v).result.Ok?
    ensures var (r, b) := (NextByte(v).rest, NextByte(v).result.value);
            var next: uint32 := (output + b % 128 * Power128(i)) % 0x1_0000_0000;
            FinishVarInt(v, i, output) ==
              if i == 5 then Read(Err(VARINT_TOO_BIG), r)
              else if b < 128 then Read(Ok(next), r)
              else FinishVarInt(r, i + 1, next)
  {
    hide Power128, Groups, NextByte;
    var b := NextByte(v).result.value;
    GroupsStep(v, i);
    assert Power128(i) * b == b * Power128(i);
    if i < 5 && b >= 128 {
      var more := Groups(NextByte(v).rest, i + 1).result;
      if more.Ok? {
        AddGroup(output, b - 128, Power128(i), more.value);
        NextPower(i);
      }
    }
  }

  lemma GroupsStep(v: View, i: nat)
    requires i <= 5 && NextByte(v).result.Ok?
    ensures var (r, b) := (NextByte(v).rest, NextByte(v).result.value);
            Groups(v, i) ==
              if i == 5 then Read(Err(VARINT_TOO_BIG), r)
              else if b < 128 then Read(Ok(b), r)
              else Read(Map(Groups(r, i + 1).result, n => b - 128 + 128 * n), Groups(r, i + 1).rest)
  {
  }

  lemma NextPower(i: nat)
    ensures Power128(i + 1) == 128 * Power128(i)
  {
  }
}
