/** Sockets and connections: how frames get on and off the wire (Connection.h, Socket.cpp, StreamedDataBuffer.cpp). */
module Connections {
  import opened Results
  import opened Wire
  import opened Buffers
  import opened Framing

  /**
   What one call of read(2) on the non-blocking descriptor meets: queued bytes (none of them when the
   peer has closed), nothing yet, nothing within the timeout, or an error.
   */
  datatype Arrival = Chunk(bytes: seq<byte>) | Again | TimedOut | Failed

  /** The bytes that arrive before anything makes the reading loop give up. */
  function Arriving(arrivals: seq<Arrival>): seq<byte> {
    if arrivals == [] then []
    else
      match arrivals[0]
      case Chunk(bytes) => if bytes == [] then [] else bytes + Arriving(arrivals[1..])
      case Again => Arriving(arrivals[1..])
      case TimedOut => []
      case Failed => []
  }

  class Socket {
    var connected: bool
    var arrivals: seq<Arrival>
    var sent: seq<byte>

    ghost function Available(): seq<byte>
      reads this
    {
      if connected then Arriving(arrivals) else []
    }

    constructor (arrivals: seq<Arrival>)
      ensures connected && this.arrivals == arrivals && sent == []
    {
      connected, this.arrivals, sent := true, arrivals, [];
    }

    /** read(2): at most `max` bytes of the first chunk; -1 stands for every error code. */
    method SystemRead(max: nat) returns (r: int, data: seq<byte>, event: Arrival)
      requires max > 0
      modifies this`arrivals
      ensures event.Chunk? ==> r == |data| && |data| <= max
      ensures !event.Chunk? ==> r == -1 && data == []
      ensures r > 0 || event.Again? ==> old(Arriving(arrivals)) == data + Arriving(arrivals)
      ensures r <= 0 && !event.Again? ==> old(Arriving(arrivals)) == []
      ensures event.Again? ==> |arrivals| < |old(arrivals)|
    {
      if arrivals == [] {
        return -1, [], TimedOut;
      }
      event := arrivals[0];
      match event
      case Chunk(bytes) =>
        if |bytes| <= max {
          r, data, arrivals := |bytes|, bytes, arrivals[1..];
        } else {
          r, data := max, bytes[..max];
          var later := arrivals[1..];
          arrivals := [Chunk(bytes[max..])] + later;
          assert arrivals[1..] == later;
          assert bytes == bytes[..max] + bytes[max..];
          assert bytes + Arriving(later) == data + (bytes[max..] + Arriving(later));
        }
      case _ =>
        r, data, arrivals := -1, [], arrivals[1..];
    }

    /** `readBytes`: collects the bytes asked for, however the system splits them. */
    method ReadBytes(buffer: array<byte>, length: nat) returns (readed: int)
      requires length <= buffer.Length
      modifies this`arrivals, buffer
      ensures length <= |old(Available())| ==>
                && readed == length
                && buffer[..length] == old(Available())[..length]
                && Available() == old(Available())[length..]
      ensures length > |old(Available())| ==> readed != length
    {
      if length == 0 {
        return 0;
      }
      if !connected {
        return 0;
      }
      readed := 0;
      ghost var all := Arriving(arrivals);
      hide Arriving;
      while readed != length
        invariant 0 <= readed <= length
        invariant all == buffer[..readed] + Arriving(arrivals)
        decreases length - readed, |arrivals|
      {
        ghost var before := buffer[..readed];
        var r, data, event := SystemRead(length - readed);
        if r > 0 {
          forall i | 0 <= i < r { buffer[readed + i] := data[i]; }
          assert buffer[..readed + r] == before + data;
          assert all == before + data + Arriving(arrivals);
          readed := readed + r;
          continue;
        }
        if event.Again? {
          continue;
        }
        if r == 0 || event.Failed? {
          return r;
        }
        return 0;
      }
    }

    /** `writeBytes`: the system takes the bytes as they are. */
    method WriteBytes(bytes: seq<byte>)
      modifies this`sent
      ensures sent == if connected then old(sent) + bytes else old(sent)
    {
      if |bytes| == 0 {
        return;
      }
      if connected {
        sent := sent + bytes;
      }
    }
  }

  const STREAM_CLOSED := Exception("Stream closed")

  /** Both or neither are caught by a handler for `Exception`. */
  predicate SameKind(e: Error, f: Error) {
    e.Exception? == f.Exception?
  }

  /** A `DataBuffer` whose bytes come from a socket. */
  class StreamedDataBuffer {
    const socket: Socket

    constructor (socket: Socket)
      ensures this.socket == socket
    {
      this.socket := socket;
    }

    /** `read(buffer, length)`. */
    method Read(length: int) returns (r: Result<seq<byte>>)
      modifies socket`arrivals
      ensures r.Ok? <==> socket.connected && length <= |old(socket.Available())|
      ensures r.Err? ==> r.error.Exception?
      ensures r.Ok? ==> var n := if length < 0 then 0 else length;
                        r.value == old(socket.Available())[..n] && socket.Available() == old(socket.Available())[n..]
    {
      if !socket.connected {
        return Err(STREAM_CLOSED);
      }
      if length <= 0 {
        return Ok([]);
      }
      var buffer := new byte[length];
      var readedBytes := socket.ReadBytes(buffer, length);
      if readedBytes != length {
        return Err(INCOMPLETE);
      }
      r := Ok(buffer[..length]);
    }

    /** The inherited `readVarInt`, taking its bytes from the socket. */
    method ReadVarInt() returns (r: Result<uint32>)
      modifies socket`arrivals
      ensures match r {
                case Ok(n) => NextVarInt(Bytes(old(socket.Available()))) == Wire.Read(Ok(n), Bytes(socket.Available()))
                case Err(e) =>
                  var expected := NextVarInt(Bytes(old(socket.Available()))).result;
                  expected.Err? && SameKind(e, expected.error)
              }
    {
      hide Arriving, Groups, Power128, FinishVarInt;
      ghost var start := Bytes(socket.Available());
      NoMoreGroups(start, 1, 0);
      var first :- Read(1);
      var currentByte, byteIndex := first[0], 1;
      var output: uint32 := currentByte % 128;
      StartGroups(start);
      while currentByte >= 128
        invariant 1 <= byteIndex <= 5
        invariant NextVarInt(start) ==
                    if currentByte < 128 then Wire.Read(Ok(output), Bytes(socket.Available()))
                    else FinishVarInt(Bytes(socket.Available()), byteIndex, output)
        decreases 5 - byteIndex, currentByte
      {
        ghost var before := Bytes(socket.Available());
        NoMoreGroups(before, byteIndex, output);
        var next :- Read(1);
        currentByte := next[0];
        StepGroups(before, byteIndex, output);
        output := (output + currentByte % 128 * Power128(byteIndex)) % 0x1_0000_0000;
        byteIndex := byteIndex + 1;
        if byteIndex > 5 {
          return Err(VARINT_TOO_BIG);
        }
      }
      r := Ok(output);
    }

    method WriteVarInt(n: varint)
      modifies socket`sent
      ensures socket.connected ==> socket.sent == old(socket.sent) + EncodeVarInt(n)
    {
      var val: nat := n;
      ghost var done: seq<byte> := [];
      while val >= 128
        invariant EncodeVarInt(n) == done + EncodeVarInt(val)
        invariant socket.connected ==> socket.sent == old(socket.sent) + done
      {
        socket.WriteBytes([val % 128 + 128]);
        done := done + [val % 128 + 128];
        val := val / 128;
      }
      socket.WriteBytes([val]);
    }

    method Write(bytes: seq<byte>)
      modifies socket`sent
      ensures socket.connected ==> socket.sent == old(socket.sent) + bytes
    {
      socket.WriteBytes(bytes);
    }
  }

  /** A buffer as the reader task has handed it on. */
  function Seen(data: DataBuffer): Delivered
    requires data.Valid()
    reads data, data.buffer
  {
    if data.buffer == null then NoBuffer else Packet(data.Contents(), data.readerindex, data.writerindex)
  }

  class Connection {
    const stream: StreamedDataBuffer
    var closed: bool
    var link: Link
    var handled: seq<Delivered>

    constructor (socket: Socket)
      ensures fresh(stream) && stream.socket == socket
      ensures !closed && link == Link(true, -1) && handled == []
    {
      stream := new StreamedDataBuffer(socket);
      closed, link, handled := false, Link(true, -1), [];
    }

    /** The part of `readerTask` that turns a payload into a packet, with compression switched on. */
    method Inflate(lib: Library, body: DataBuffer) returns (r: Result<DataBuffer>, broken: bool)
      requires lib.Fills() && body.Valid() && body.Tight() && body.readerindex == 0
      modifies body
      ensures match Inflated(lib, old(body.Unread())) {
                case Ok(t) => r.Ok? && r.value.Valid() && Taken(Seen(r.value), broken) == t
                              && (r.value == body || fresh(r.value))
                              && (r.value.buffer != null ==> fresh(r.value.buffer))
                case Err(e) => r == Err(e)
              }
    {
      ghost var view := body.Unread();
      VarIntStops(view);
      broken := false;
      var outlength :- body.ReadVarInt();
      if outlength > 0 {
        if ToInt(outlength) < 0 || body.buffer == null {
          var none := new DataBuffer();
          r, broken := Ok(none), true;
          assert Seen(none) == NoBuffer;
          return;
        }
        var source := body.buffer[body.readerindex..] + lib.beyond(body.buffer[..]);
        var inflation := lib.inflate(source, outlength);
        var out := new DataBuffer.WithCapacity(outlength);
        forall i | 0 <= i < outlength { out.buffer[i] := inflation.data[i]; }
        assert out.buffer[..] == inflation.data;
        r, broken := Ok(out), !inflation.ok;
        assert Seen(out) == Packet(inflation.data, 0, 0);
        return;
      }
      body.DropFront(1);
      r := Ok(body);
      assert view.Bytes? ==> Seen(body).bytes == view.unread[1..];
    }

    /** One round of `readerTask` up to the handler: takes a frame off the stream. */
    method ReadPacket(lib: Library) returns (r: Result<DataBuffer>, broken: bool)
      requires lib.Fills()
      modifies stream.socket`arrivals
      ensures match ReadFrame(lib, link.threshold, old(stream.socket.Available())) {
                case Ok((t, rest)) => r.Ok? && fresh(r.value) && r.value.Valid() && Taken(Seen(r.value), broken) == t
                                      && (r.value.buffer != null ==> fresh(r.value.buffer))
                                      && stream.socket.Available() == rest
                case Err(e) => r.Err? && SameKind(r.error, e)
              }
    {
      hide Inflated, NextVarInt, Arriving, Library.Fills;
      ghost var start := stream.socket.Available();
      VarIntStops(Bytes(start));
      broken := false;
      var packetLength :- stream.ReadVarInt();
      var bytes :- stream.Read(ToInt(packetLength));
      var buffer: DataBuffer;
      if ToInt(packetLength) < 0 {
        buffer := new DataBuffer();
      } else {
        buffer := new DataBuffer.FromBytes(bytes);
      }
      if link.threshold == -1 {
        return Ok(buffer), false;
      }
      r, broken := Inflate(lib, buffer);
    }

    /** What the packets of the login phase do to the connection; others leave it as it is. */
    method HandlePacket(data: DataBuffer) returns (r: Result<()>)
      requires data.Valid()
      modifies this`link, this`handled, data`readerindex
      ensures handled == old(handled) + [old(Seen(data))]
      ensures match After(old(link), old(data.Unread())) {
                case Ok(next) => r.Ok? && link == next
                case Err(e) => r == Err(e)
              }
    {
      handled := handled + [Seen(data)];
      var packetId :- data.ReadVarInt();
      if link.login {
        match packetId {
          case 0x00 =>
            var reason :- data.ReadString();
          case 0x01 => return Err(ONLINE_MODE);
          case 0x02 =>
            var uuid :- data.ReadString();
            var username :- data.ReadString();
            link := link.(login := false);
          case 0x03 =>
            var t :- data.ReadVarInt();
            link := link.(threshold := ToInt(t));
          case _ =>
        }
      }
      r := Ok(());
    }

    /**
     `readerTask`: hands packets on until the stream or a handler throws, or `uncompress` fails. What
     is thrown as a pointer escapes the catch clause, and then nothing closes the connection.
     */
    method ReaderTask(lib: Library)
      requires lib.Fills() && !closed
      modifies this`link, this`handled, this`closed, stream.socket`arrivals
      ensures var reading := Unframed(lib, old(link), old(stream.socket.Available()));
              && handled == old(handled) + reading.packets
              && (closed <==> !reading.end.Escapes())
    {
      hide ReadFrame, After, Unframed, Arriving, Library.Fills;
      ghost var reading := Unframed(lib, link, stream.socket.Available());
      ghost var end := handled + reading.packets;
      var thrown: Option<Error> := None;
      while !closed && thrown.None?
        invariant closed ==> handled == end && !reading.end.Escapes() && thrown.None?
        invariant thrown.Some? ==> !closed && handled == end && reading.end.Thrown? && SameKind(thrown.value, reading.end.error)
        invariant !closed && thrown.None? ==>
          var rest := Unframed(lib, link, stream.socket.Available());
          handled + rest.packets == end && rest.end == reading.end
        decreases !closed && thrown.None?, |stream.socket.Available()|
      {
        UnfoldUnframed(lib, link, stream.socket.Available());
        var packet, broken := ReadPacket(lib);
        if packet.Err? {
          thrown := Some(packet.error);
          break;
        }
        if broken {
          closed := true;
          handled := handled + [Seen(packet.value)];
          break;
        }
        var handling := HandlePacket(packet.value);
        if handling.Err? {
          thrown := Some(handling.error);
        }
      }
      if thrown.Some? && thrown.value.Exception? {
        closed := true;
      }
    }

    /** The call of `compress`, which fills the front of a buffer as large as the bound. */
    method Compress(lib: Library, p: seq<byte>) returns (target: DataBuffer)
      requires lib.Inverse()
      ensures fresh(target) && target.Valid() && target.buffer != null && fresh(target.buffer)
      ensures lib.Compressed(p, target.Contents())
    {
      BoundFits(lib, p);
      hide Library.Inverse;
      target := new DataBuffer.WithCapacity(lib.bound(|p|));
      var d := lib.deflate(p);
      forall i | 0 <= i < |d| { target.buffer[i] := d[i]; }
      assert target.buffer[..|d|] == d;
    }

    /** `writePacket`: frames what has been written to the packet. */
    method WritePacket(lib: Library, packetData: DataBuffer) returns (ghost target: seq<byte>)
      requires lib.Inverse() && packetData.Valid() && lib.Fits(packetData.Written())
      modifies stream.socket`sent
      ensures closed ==> stream.socket.sent == old(stream.socket.sent)
      ensures !closed && stream.socket.connected ==>
                && lib.Compressed(packetData.Written(), target)
                && stream.socket.sent == old(stream.socket.sent) + Frame(link.threshold, packetData.Written(), target)
    {
      hide Library.Inverse, Arriving, EncodeVarInt, VarIntSize;
      BoundFits(lib, packetData.Written());
      if closed {
        return [];
      }
      var p := if packetData.buffer == null then [] else packetData.buffer[..packetData.writerindex];
      if link.threshold != -1 {
        if packetData.writerindex > link.threshold {
          var compressed := Compress(lib, p);
          target := compressed.Contents();
          stream.WriteVarInt(VarIntSize(packetData.writerindex) + compressed.bufferLength);
          stream.WriteVarInt(packetData.writerindex);
          stream.Write(compressed.buffer[..]);
          SentThree(old(stream.socket.sent), EncodeVarInt(VarIntSize(|p|) + |target|), EncodeVarInt(|p|), target);
          return;
        }
        stream.WriteVarInt(packetData.writerindex + 1);
        stream.WriteVarInt(0);
        stream.Write(p);
        SentThree(old(stream.socket.sent), EncodeVarInt(|p| + 1), EncodeVarInt(0), p);
      } else {
        stream.WriteVarInt(packetData.writerindex);
        stream.Write(p);
      }
      target := AnyTarget(lib, p);
    }
  }

  lemma UnfoldUnframed(lib: Library, link: Link, s: seq<byte>)
    ensures Unframed(lib, link, s) ==
      match ReadFrame(lib, link.threshold, s)
      case Err(e) => Reading([], Thrown(e))
      case Ok((taken, rest)) =>
        if taken.broken then Reading([taken.data], Uncompressed)
        else
          match After(link, taken.data.Unread())
          case Err(e) => Reading([taken.data], Thrown(e))
          case Ok(next) =>
            var more := Unframed(lib, next, rest);
            Reading([taken.data] + more.packets, more.end)
  {
  }

  lemma SentThree(sent: seq<byte>, a: seq<byte>, b: seq<byte>, c: seq<byte>)
    ensures sent + a + b + c == sent + (a + b + c)
  {
  }

  lemma BoundFits(lib: Library, p: seq<byte>)
    requires lib.Inverse()
    ensures |lib.deflate(p)| <= lib.bound(|p|)
  {
  }

  /** Some way in which `compress` could have filled its target. */
  ghost function AnyTarget(lib: Library, p: seq<byte>): (target: seq<byte>)
    requires lib.Inverse()
    ensures lib.Compressed(p, target)
  {
    lib.deflate(p) + seq(lib.bound(|p|) - |lib.deflate(p)|, _ => 0)
  }

  // ---------- from one connection to another ----------

  /** Sends packets one after the other, each time with what the packet before has set. */
  method SendAll(lib: Library, sender: Connection, ps: seq<seq<byte>>) returns (ghost targets: seq<seq<byte>>)
    requires lib.Inverse() && !sender.closed && sender.stream.socket.connected && Acceptable(sender.link, ps)
    requires forall p | p in ps :: lib.Fits(p)
    modifies sender`link, sender.stream.socket`sent
    ensures |targets| == |ps| && forall i | 0 <= i < |ps| :: lib.Compressed(ps[i], targets[i])
    ensures sender.stream.socket.sent == old(sender.stream.socket.sent) + Stream(old(sender.link), ps, targets)
    decreases ps
  {
    hide Library.Inverse, Frame, After;
    if ps == [] {
      return [];
    }
    var packet := new DataBuffer.FromBytes(ps[0]);
    assert packet.Written() == ps[0];
    ghost var target := sender.WritePacket(lib, packet);
    ghost var head := Frame(sender.link.threshold, ps[0], target);
    var next := After(sender.link, Bytes(ps[0])).value;
    sender.link := next;
    ghost var more := SendAll(lib, sender, ps[1..]);
    targets := [target] + more;
    assert targets[1..] == more;
    assert old(sender.stream.socket.sent) + head + Stream(next, ps[1..], more)
        == old(sender.stream.socket.sent) + (head + Stream(next, ps[1..], more));
  }

  /** Bytes as a network may deliver them: in chunks of the given sizes, zero standing for a wait. */
  function Cut(bytes: seq<byte>, sizes: seq<nat>): (arrivals: seq<Arrival>)
    ensures Arriving(arrivals) == bytes
    decreases sizes
  {
    if bytes == [] then []
    else if sizes == [] then
      assert Arriving([Chunk(bytes)]) == bytes + Arriving([Chunk(bytes)][1..]);
      [Chunk(bytes)]
    else if sizes[0] == 0 then
      var more := Cut(bytes, sizes[1..]);
      assert ([Again] + more)[1..] == more;
      [Again] + more
    else
      var n := if sizes[0] < |bytes| then sizes[0] else |bytes|;
      var more := Cut(bytes[n..], sizes[1..]);
      assert ([Chunk(bytes[..n])] + more)[1..] == more;
      [Chunk(bytes[..n])] + more
  }

  /** A connection that has received the bytes and read them to the end. */
  method Receive(lib: Library, bytes: seq<byte>, sizes: seq<nat>) returns (receiver: Connection)
    requires lib.Fills()
    ensures var reading := Unframed(lib, Link(true, -1), bytes);
            fresh(receiver) && receiver.handled == reading.packets && (receiver.closed <==> !reading.end.Escapes())
  {
    hide *;
    var arrivals := Cut(bytes, sizes);
    var socket := new Socket(arrivals);
    Arrived(socket, bytes);
    receiver := new Connection(socket);
    receiver.ReaderTask(lib);
    assert [] + Unframed(lib, Link(true, -1), bytes).packets == Unframed(lib, Link(true, -1), bytes).packets;
  }

  lemma Arrived(socket: Socket, bytes: seq<byte>)
    requires socket.connected && Arriving(socket.arrivals) == bytes
    ensures socket.Available() == bytes
  {
  }

  /**
   Whatever packets `writePacket` sends on one connection, with whatever compression they switch on,
   and however the network cuts the bytes, `readerTask` hands on at the other.
   */
  method Transmit(lib: Library, ps: seq<seq<byte>>, sizes: seq<nat>) returns (receiver: Connection)
    requires lib.Inverse() && lib.Fills() && Acceptable(Link(true, -1), ps)
    requires forall p | p in ps :: lib.Fits(p)
    ensures fresh(receiver) && receiver.closed
    ensures |receiver.handled| == |ps| && forall i | 0 <= i < |ps| :: receiver.handled[i].Unread() == Bytes(ps[i])
  {
    hide Library.Inverse, Library.Fills, Unframed, Stream, Acceptable, AllReceived, Arriving;
    var socket := new Socket([]);
    var sender := new Connection(socket);
    ghost var targets := SendAll(lib, sender, ps);
    StreamRoundTrip(lib, Link(true, -1), ps, targets);
    AllReceivedContents(Link(true, -1), ps);
    assert [] + Stream(Link(true, -1), ps, targets) == Stream(Link(true, -1), ps, targets);
    receiver := Receive(lib, socket.sent, sizes);
  }
}
