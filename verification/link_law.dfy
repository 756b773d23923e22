/** What the packets of the login phase do to a connection, on their bytes (ServerPacketHandler.cpp:31-105). */
module LinkLaw {
  import opened Results
  import opened Wire
  import opened Framing

  /** The bytes of a packet: its id and what follows. */
  function PacketOf(id: varint, body: seq<byte>): seq<byte> {
    EncodeVarInt(id) + body
  }

  /** Set Compression during the login sets the threshold to its number, read as a signed `int`, and nothing else. */
  lemma CompressionIsSet(t: int, n: uint32, rest: seq<byte>)
    ensures After(Link(true, t), Bytes(PacketOf(0x03, EncodeVarInt(n) + rest))) == Ok(Link(true, ToInt(n)))
  {
    AnyVarInt(0x03, EncodeVarInt(n) + rest);
    AnyVarInt(n, rest);
    hide NextVarInt, EncodeVarInt;
  }

  /** Login Success with a readable UUID and name ends the login and keeps the threshold. */
  lemma LoginIsOver(t: int, uuid: seq<byte>, name: seq<byte>, rest: seq<byte>)
    requires |uuid| <= MAX_STRING && |name| <= MAX_STRING
    ensures After(Link(true, t), Bytes(PacketOf(0x02, EncodeString(uuid) + (EncodeString(name) + rest)))) == Ok(Link(false, t))
  {
    AnyVarInt(0x02, EncodeString(uuid) + (EncodeString(name) + rest));
    StringRoundTrip(uuid, EncodeString(name) + rest);
    StringRoundTrip(name, rest);
    hide NextVarInt, NextString, EncodeVarInt, EncodeString, CString;
  }

  /**
   No other packet changes the connection: in the play phase none does, a refusal is read and changes
   nothing, an Encryption Request is an error, and unknown ids are ignored.
   */
  lemma OtherPacketsKeepTheLink(link: Link, id: varint, body: seq<byte>)
    ensures var after := After(link, Bytes(PacketOf(id, body)));
      && (!link.login || id > 0x03 ==> after == Ok(link))
      && (link.login && id == 0x00 && NextString(Bytes(body)).result.Ok? ==> after == Ok(link))
      && (link.login && id == 0x01 ==> after == Err(ONLINE_MODE))
      && (after.Ok? && after.value != link ==> link.login && id in {0x02, 0x03})
  {
    AnyVarInt(id, body);
    hide NextVarInt, NextString, EncodeVarInt;
  }

  /** A handler throws what the first field that it cannot read throws. */
  lemma UnreadableFieldsThrow(t: int, body: seq<byte>)
    ensures var text := NextString(Bytes(body));
      && (text.result.Err? ==>
            && After(Link(true, t), Bytes(PacketOf(0x00, body))) == Err(text.result.error)
            && After(Link(true, t), Bytes(PacketOf(0x02, body))) == Err(text.result.error))
      && (text.result.Ok? && NextString(text.rest).result.Err? ==>
            After(Link(true, t), Bytes(PacketOf(0x02, body))) == Err(NextString(text.rest).result.error))
    ensures var n := NextVarInt(Bytes(body)).result;
      n.Err? ==> After(Link(true, t), Bytes(PacketOf(0x03, body))) == Err(n.error)
  {
    AnyVarInt(0x00, body);
    AnyVarInt(0x02, body);
    AnyVarInt(0x03, body);
    hide NextVarInt, NextString, EncodeVarInt;
  }

  /** After a Set Compression the next packet is framed under the new threshold. */
  lemma NextFrameIsCompressed(t: int, n: uint32, p: seq<byte>, targets: seq<seq<byte>>)
    requires |targets| == 2 && After(Link(true, ToInt(n)), Bytes(p)).Ok?
    ensures var setting := PacketOf(0x03, EncodeVarInt(n));
      && Acceptable(Link(true, t), [setting, p])
      && Stream(Link(true, t), [setting, p], targets) == Frame(t, setting, targets[0]) + Frame(ToInt(n), p, targets[1])
  {
    CompressionIsSet(t, n, []);
    var setting := PacketOf(0x03, EncodeVarInt(n));
    assert EncodeVarInt(n) + [] == EncodeVarInt(n);
    assert [setting, p][1..] == [p] && [p][1..] == [];
    hide After, Frame, EncodeVarInt;
    LastFrame(Link(true, ToInt(n)), p, targets[1]);
    assert targets[1..] == [targets[1]];
    assert Acceptable(Link(true, ToInt(n)), [p]);
  }

  lemma LastFrame(link: Link, p: seq<byte>, target: seq<byte>)
    requires After(link, Bytes(p)).Ok?
    ensures Acceptable(link, [p]) && Stream(link, [p], [target]) == Frame(link.threshold, p, target)
  {
    assert [p][1..] == [];
    hide After, Frame;
  }

  /** The connection that has read a Set Compression reads the next packet under the new threshold. */
  lemma CompressedIsRead(lib: Library, t: int, n: uint32, p: seq<byte>, targets: seq<seq<byte>>)
    requires lib.Inverse() && |targets| == 2 && After(Link(true, ToInt(n)), Bytes(p)).Ok?
    requires var setting := PacketOf(0x03, EncodeVarInt(n));
      lib.Fits(setting) && lib.Compressed(setting, targets[0]) && lib.Fits(p) && lib.Compressed(p, targets[1])
    ensures var setting := PacketOf(0x03, EncodeVarInt(n));
      Unframed(lib, Link(true, t), Frame(t, setting, targets[0]) + Frame(ToInt(n), p, targets[1])) ==
        Reading([Received(t, setting), Received(ToInt(n), p)], Thrown(SHORT_BUFFER))
  {
    var setting := PacketOf(0x03, EncodeVarInt(n));
    NextFrameIsCompressed(t, n, p, targets);
    CompressionIsSet(t, n, []);
    assert EncodeVarInt(n) + [] == EncodeVarInt(n);
    hide After, Frame, EncodeVarInt, Unframed, Library.Inverse, Received, Stream;
    StreamRoundTrip(lib, Link(true, t), [setting, p], targets);
    BothReceived(Link(true, t), setting, p);
  }

  lemma BothReceived(link: Link, setting: seq<byte>, p: seq<byte>)
    requires After(link, Bytes(setting)).Ok? && After(After(link, Bytes(setting)).value, Bytes(p)).Ok? && Acceptable(link, [setting, p])
    ensures AllReceived(link, [setting, p]) ==
      [Received(link.threshold, setting), Received(After(link, Bytes(setting)).value.threshold, p)]
  {
    var next := After(link, Bytes(setting)).value;
    assert [setting, p][1..] == [p] && [p][1..] == [];
    hide After, Received;
    assert AllReceived(next, [p]) == [Received(next.threshold, p)];
  }

  /**
   The three formats of a frame: without compression the length and the packet; with it, for a packet
   no longer than the threshold, the length, a zero and the packet; for a longer one the length of the
   rest, the length of the packet and the compressed block.
   */
  lemma FrameFormats(lib: Library, threshold: int, p: seq<byte>, target: seq<byte>)
    requires lib.Fits(p) && lib.Compressed(p, target)
    ensures threshold == -1 ==> Frame(threshold, p, target) == EncodeVarInt(|p|) + p
    ensures threshold != -1 && |p| <= threshold ==> Frame(threshold, p, target) == EncodeVarInt(|[0] + p|) + ([0] + p)
    ensures threshold != -1 && |p| > threshold ==>
      var body := EncodeVarInt(|p|) + target;
      Frame(threshold, p, target) == EncodeVarInt(|body|) + body
  {
    VarIntSizeExact(|p|);
    EncodedZero();
    hide EncodeVarInt, VarIntSize;
    if threshold != -1 && |p| > threshold {
      var body := EncodeVarInt(|p|) + target;
      assert VarIntSizeOf(|p|) + |target| == |body|;
    }
  }

  // ---------- frames that nobody has sent ----------

  /** A frame that announces more bytes than there are is an error. */
  lemma IncompleteFrame(lib: Library, threshold: int, n: varint, rest: seq<byte>)
    requires |rest| < n
    ensures ReadFrame(lib, threshold, EncodeVarInt(n) + rest) == Err(INCOMPLETE)
  {
    AnyVarInt(n, rest);
    hide NextVarInt, EncodeVarInt;
  }

  /** A block that does not inflate closes the connection; the packet handed on has the size that was announced. */
  lemma FailedInflation(lib: Library, threshold: int, n: varint, block: seq<byte>, rest: seq<byte>)
    requires threshold != -1 && n > 0 && |EncodeVarInt(n) + block| < 0x8000_0000
    requires var body := EncodeVarInt(n) + block;
      !lib.inflate(block + lib.beyond(body), n).ok
    ensures var body := EncodeVarInt(n) + block;
      var r := ReadFrame(lib, threshold, EncodeVarInt(|body|) + (body + rest));
      r.Ok? && r.value.0.broken && r.value.1 == rest && r.value.0.data == Packet(lib.inflate(block + lib.beyond(body), n).data, 0, 0)
  {
    var body := EncodeVarInt(n) + block;
    AnyVarInt(n, block);
    ReadPrefixed(lib, threshold, body, rest);
    hide NextVarInt, EncodeVarInt, ReadFrame;
  }
}
