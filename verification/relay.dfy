/**
 What the proxy makes of a packet it passes on: entity ids rewritten in place, and the bytes then
 sent (ClientPacketHandler.cpp:178-186, 289-295; ServerPacketHandler.cpp:109-117, 119-120, 172-176).
 */
module Relay {
  import opened Results
  import opened Wire
  import opened Buffers
  import opened Framing
  import opened Connections
  import opened EntityRewrite

  // ---------- which packets carry an id ----------

  /** The packets of a client whose first field is rewritten. */
  predicate FromClient(version: int, packetId: int) {
    match version
    case 210 => packetId == 0x14
    case 110 => packetId == 0x14
    case 109 => packetId == 0x14
    case 108 => packetId == 0x14
    case 107 => packetId == 0x14
    case 47 => packetId == 0x0B
    case _ => false
  }

  /** The packets of a server whose first field, a VarInt, is rewritten; version 108 has none. */
  predicate FromServer(version: int, packetId: int) {
    match version
    case 210 =>
      Common(packetId) || packetId == 0x4C
    case 110 => Common(packetId) || packetId == 0x49
    case 109 => Common(packetId) || packetId == 0x49
    case 107 => Common(packetId) || packetId == 0x49
    case 47 =>
      || packetId == 0x04
      || 0x0A <= packetId <= 0x0C
      || (0x0E <= packetId <= 0x1E && packetId != 0x1A)
      || packetId == 0x20 || packetId == 0x25 || packetId == 0x2C || packetId == 0x49
    case _ => false
  }

  predicate Common(packetId: int) {
    || 0x00 <= packetId <= 0x06
    || packetId == 0x08 || packetId == 0x1B
    || 0x25 <= packetId <= 0x28
    || packetId == 0x2F || packetId == 0x31 || packetId == 0x34 || packetId == 0x36 || packetId == 0x39
    || packetId == 0x3B || packetId == 0x3C || packetId == 0x40 || packetId == 0x4A || packetId == 0x4B
  }

  /** The packet of a server whose first field, four bytes wide, is rewritten. */
  predicate FixedFromServer(version: int, packetId: int) {
    version == 47 && packetId == 0x1A
  }

  /** The packets of a server that are rewritten under a protocol of version 1.10 or 1.9. */
  const MODERN_IDS := {0x00, 0x01, 0x02, 0x03, 0x04, 0x05, 0x06, 0x08, 0x1B, 0x25, 0x26, 0x27, 0x28, 0x2F, 0x31, 0x34, 0x36,
                       0x39, 0x3B, 0x3C, 0x40, 0x4A, 0x4B}

  /** And under that of version 1.8. */
  const OLD_IDS := {0x04, 0x0A, 0x0B, 0x0C, 0x0E, 0x0F, 0x10, 0x11, 0x12, 0x13, 0x14, 0x15, 0x16, 0x17, 0x18, 0x19,
                    0x1B, 0x1C, 0x1D, 0x1E, 0x20, 0x25, 0x2C, 0x49}

  /** The tables, listed id by id: of a client one packet in each version, of a server version 108 has none. */
  lemma RewrittenIds(version: int, n: int)
    ensures FromClient(version, n) <==>
      (version in {210, 110, 109, 108, 107} && n == 0x14) || (version == 47 && n == 0x0B)
    ensures FromServer(version, n) <==>
      || (version == 210 && n in MODERN_IDS + {0x4C})
      || (version in {110, 109, 107} && n in MODERN_IDS + {0x49})
      || (version == 47 && n in OLD_IDS)
    ensures FixedFromServer(version, n) <==> version == 47 && n == 0x1A
  {
  }

  /** Tab list and objective packets, which other handlers have read from by then, are left alone. */
  lemma TrackedPacketsAreNotRewritten(version: int)
    ensures version > 47 ==> !FromServer(version, 0x2D) && !FromServer(version, 0x3F)
    ensures version == 47 ==> !FromServer(version, 0x38) && !FromServer(version, 0x3B)
    ensures !FixedFromServer(version, 0x2D) && !FixedFromServer(version, 0x38)
    ensures !FixedFromServer(version, 0x3F) && !FixedFromServer(version, 0x3B)
  {
  }

  // ---------- what is passed on ----------

  /** The id that `replaceEntityId` writes; below -1 its loop would not end. */
  type entityId = x: int32 | -1 <= x

  /** `replaceEntityId` on a packet whose id has been read: `rest` is what is left unread. */
  function Replaced(d: Delivered, rest: View, packetId: varint, old_: entityId, new_: int32): Result<Delivered>
    requires d.Packet?
  {
    if old_ == new_ then Ok(d)
    else
      var found :- NextVarInt(rest).result;
      if ToInt(found) != new_ || old_ == -1 then Ok(d)
      else
        var bytes := Rewritten(d.bytes, packetId, old_);
        Ok(Packet(bytes, d.readerindex, |bytes|))
  }

  /** The position behind the packet id. */
  function BehindId(d: Delivered): nat
    requires d.Packet? && d.readerindex <= |d.bytes|
  {
    VarIntStops(d.Unread());
    |d.bytes| - |NextVarInt(d.Unread()).rest.unread|
  }

  /** What `writePacket` sends to the server: the bytes before the writer index. */
  function PassedToServer(version: int, playerId: entityId, serverId: int32, d: Delivered): Result<seq<byte>>
    requires d.Packet?
  {
    var id := NextVarInt(d.Unread());
    var n :- id.result;
    var out :- if FromClient(version, ToInt(n)) then Replaced(d, id.rest, n, playerId, serverId) else Ok(d);
    Ok(if out.writerindex < |out.bytes| then out.bytes[..out.writerindex] else out.bytes)
  }

  /** `entityRewrite47Server` for four-byte ids: the field at the reader index is exchanged. */
  function ReplacedFixed(d: Delivered, at: nat, rest: View, old_: int32, new_: int32): Result<Delivered>
    requires d.Packet? && rest.Bytes? && at + |rest.unread| == |d.bytes|
  {
    var found :- NextFixed(rest, 4).result;
    if ToInt(found % 0x1_0000_0000) != new_ || old_ == -1 then Ok(d)
    else Ok(d.(bytes := WithInt(d.bytes, at, ToUnsigned(old_))))
  }

  /** What is copied and sent to the client: everything from the byte before the field after the id. */
  function PassedToClient(version: int, playerId: int32, serverId: entityId, d: Delivered): Result<seq<byte>>
    requires d.Packet? && d.readerindex <= |d.bytes|
  {
    var id := NextVarInt(d.Unread());
    VarIntStops(d.Unread());
    var n :- id.result;
    var at := BehindId(d);
    var out :-
      if FromServer(version, ToInt(n)) then Replaced(d, id.rest, n, serverId, playerId)
      else if FixedFromServer(version, ToInt(n)) then ReplacedFixed(d, at, id.rest, serverId, playerId)
      else Ok(d);
    Ok(out.bytes[at - 1..])
  }

  // ---------- the client's packets ----------

  /** The rewriting hits: a packet of a rewritten kind names the server's id, and the two ids differ. */
  predicate Hits(rewritten: bool, p: seq<byte>, old_: entityId, new_: int32) {
    var id := NextVarInt(Bytes(p));
    && rewritten && id.result.Ok? && old_ != new_ && old_ != -1
    && NextVarInt(id.rest).result.Ok? && ToInt(NextVarInt(id.rest).result.value) == new_
  }

  /** The rewriting needs an id and cannot read one. */
  predicate Fails(rewritten: bool, p: seq<byte>, old_: entityId, new_: int32) {
    var id := NextVarInt(Bytes(p));
    rewritten && id.result.Ok? && old_ != new_ && NextVarInt(id.rest).result.Err?
  }

  function IdOf(p: seq<byte>): uint32
    requires NextVarInt(Bytes(p)).result.Ok?
  {
    NextVarInt(Bytes(p)).result.value
  }

  /** A rewritten packet names the other id, so it is another packet. */
  lemma RewrittenDiffers(p: seq<byte>, old_: entityId, new_: int32)
    requires Hits(true, p, old_, new_) && IdOf(p) < 0x8000_0000
    ensures Rewritten(p, IdOf(p), old_) != p
  {
    var n := IdOf(p);
    var r := Rewritten(p, n, old_);
    var tail := r[|EncodeVarInt(n) + EncodeVarInt(old_)|..];
    assert r == EncodeVarInt(n) + (EncodeVarInt(old_) + tail);
    hide EncodeVarInt, Groups;
    VarIntRoundTrip(n, EncodeVarInt(old_) + tail);
    VarIntRoundTrip(old_, tail);
  }

  lemma PassedFromClient(version: int, playerId: entityId, serverId: int32, from: int, p: seq<byte>)
    requires NextVarInt(Bytes(p)).result.Ok?
    ensures var q := PassedToServer(version, playerId, serverId, Received(from, p));
            var rewritten := FromClient(version, ToInt(IdOf(p)));
            var (fails, hits) := (Fails(rewritten, p, playerId, serverId), Hits(rewritten, p, playerId, serverId));
            && (q.Err? <==> fails)
            && (hits ==> q == Ok(Rewritten(p, IdOf(p), playerId)))
            && (q == Ok(p) <==> !fails && !hits && (from == -1 || |p| <= from))
            && (q.Ok? && q != Ok(p) && !hits ==> q == Ok([]))
  {
    hide Rewritten, Groups;
    assert p != [] by { NothingToRead(); }
    assert Received(from, p).Unread() == Bytes(p);
    if Hits(FromClient(version, ToInt(IdOf(p))), p, playerId, serverId) {
      RewrittenDiffers(p, playerId, serverId);
    }
  }

  lemma NothingToRead()
    ensures NextVarInt(Bytes([])).result.Err?
  {
  }

  /**
   What becomes of a packet from a client's stream on its way to the server's. If the rewriting hits,
   the rewritten packet arrives, compressed or not; if it fails, nothing does. Else the packet arrives
   as it was exactly if it came uncompressed, and a compressed one as an empty packet.
   */
  lemma ClientToServer(lib: Library, version: int, playerId: entityId, serverId: int32, from: int, to: int,
                       p: seq<byte>, target: seq<byte>, passed: seq<byte>, rest: seq<byte>)
    requires lib.Inverse() && lib.Fits(p) && lib.Compressed(p, target) && from >= -1 && to >= -1
    requires NextVarInt(Bytes(p)).result.Ok?
    ensures ReadFrame(lib, from, Frame(from, p, target) + rest) == Ok((Intact(from, p), rest))
    ensures var q := PassedToServer(version, playerId, serverId, Intact(from, p).data);
            var rewritten := FromClient(version, ToInt(IdOf(p)));
            var (fails, hits) := (Fails(rewritten, p, playerId, serverId), Hits(rewritten, p, playerId, serverId));
            && (q.Err? <==> fails)
            && (hits ==> q == Ok(Rewritten(p, IdOf(p), playerId)))
            && (q == Ok(p) <==> !fails && !hits && (from == -1 || |p| <= from))
            && (q.Ok? && q != Ok(p) && !hits ==> q == Ok([]))
            && (q.Ok? && lib.Fits(q.value) && lib.Compressed(q.value, passed) ==>
                  ReadFrame(lib, to, Frame(to, q.value, passed) + rest) == Ok((Intact(to, q.value), rest)))
  {
    PassedFromClient(version, playerId, serverId, from, p);
    hide ReadFrame, Frame, Library.Inverse, Library.Fits, Library.Compressed, PassedToServer, Fails, Hits, Rewritten;
    FrameRoundTrip(lib, from, p, target, rest);
    var q := PassedToServer(version, playerId, serverId, Received(from, p));
    if q.Ok? && lib.Fits(q.value) && lib.Compressed(q.value, passed) {
      FrameRoundTrip(lib, to, q.value, passed, rest);
    }
  }

  /** A compressed packet that names the server's id arrives whole, although one that does not arrives empty. */
  lemma RewritingSavesTheBytes()
    ensures PassedToServer(210, 9, 7, Received(0, [0x14, 7, 0])) == Ok([0x14, 9, 0])
    ensures PassedToServer(210, 9, 7, Received(0, [0x14, 8, 0])) == Ok([])
  {
    var hit: seq<byte> := [0x14, 7, 0];
    var miss: seq<byte> := [0x14, 8, 0];
    assert hit == [0x14, 7] + [0] && miss == [0x14, 8] + [0];
    FirstTwo(0x14, 7, [0]);
    FirstTwo(0x14, 8, [0]);
    assert Received(0, hit).Unread() == Bytes(hit) && Received(0, miss).Unread() == Bytes(miss);
    assert EncodeVarInt(0x14) == [0x14] && EncodeVarInt(9) == [9];
    assert Rewritten(hit, 0x14, 9) == [0x14, 9, 0];
    hide NextVarInt, Rewritten;
  }

  lemma FirstTwo(a: byte, b: byte, rest: seq<byte>)
    requires a < 128 && b < 128
    ensures NextVarInt(Bytes([a, b] + rest)) == Wire.Read(Ok(a), Bytes([b] + rest))
    ensures NextVarInt(Bytes([b] + rest)) == Wire.Read(Ok(b), Bytes(rest))
  {
    assert ([a, b] + rest)[1..] == [b] + rest;
    assert ([b] + rest)[1..] == rest;
  }

  // ---------- the server's packets ----------

  /** The four-byte field behind the packet id names the client's id, and the two ids differ. */
  predicate FixedHits(rewritten: bool, p: seq<byte>, old_: entityId, new_: int32) {
    var rest := NextVarInt(Bytes(p)).rest;
    && rewritten && old_ != new_ && old_ != -1
    && NextFixed(rest, 4).result.Ok? && ToInt(NextFixed(rest, 4).result.value % 0x1_0000_0000) == new_
  }

  /** A four-byte id is expected and not there. */
  predicate FixedFails(rewritten: bool, p: seq<byte>) {
    rewritten && NextFixed(NextVarInt(Bytes(p)).rest, 4).result.Err?
  }

  /** The bytes of a server's packet after the rewriting. */
  function RewrittenForClient(version: int, playerId: int32, serverId: entityId, p: seq<byte>): seq<byte>
    requires NextVarInt(Bytes(p)).result.Ok?
  {
    var n := IdOf(p);
    var at := IdSize(p);
    if Hits(FromServer(version, ToInt(n)), p, serverId, playerId) then Rewritten(p, n, serverId)
    else if FixedHits(FixedFromServer(version, ToInt(n)), p, serverId, playerId) then
      WithInt(p, at, ToUnsigned(serverId))
    else p
  }

  function IdSize(p: seq<byte>): (at: nat)
    requires NextVarInt(Bytes(p)).result.Ok?
    ensures 1 <= at <= |p| && NextVarInt(Bytes(p)).rest == Bytes(p[at..])
  {
    VarIntStops(Bytes(p));
    |p| - |NextVarInt(Bytes(p)).rest.unread|
  }

  /**
   What becomes of a packet from a server, compressed or not: a VarInt id is rewritten from the front,
   a four-byte id where it stands, and the client is sent what begins with the last byte of the
   packet id. It is the packet itself exactly if that id takes one byte and no rewriting hits.
   */
  lemma ServerToClient(version: int, playerId: int32, serverId: entityId, from: int, p: seq<byte>)
    requires NextVarInt(Bytes(p)).result.Ok?
    ensures var q := PassedToClient(version, playerId, serverId, Received(from, p));
            var n := ToInt(IdOf(p));
            var fails := Fails(FromServer(version, n), p, serverId, playerId) || FixedFails(FixedFromServer(version, n), p);
            var bytes := RewrittenForClient(version, playerId, serverId, p);
            && (q.Err? <==> fails)
            && (!fails ==> IdSize(p) <= |bytes| && q == Ok(bytes[IdSize(p) - 1..]))
            && (q == Ok(p) <==> !fails && p[0] < 128
                                && !Hits(FromServer(version, n), p, serverId, playerId)
                                && !FixedHits(FixedFromServer(version, n), p, serverId, playerId))
  {
    BytesForClient(version, playerId, serverId, from, p);
    var n := ToInt(IdOf(p));
    var at := IdSize(p);
    OneByteId(p);
    var bytes := RewrittenForClient(version, playerId, serverId, p);
    if Hits(FromServer(version, n), p, serverId, playerId) {
      RewrittenIsNotSent(p, serverId, playerId);
    } else if FixedHits(FixedFromServer(version, n), p, serverId, playerId) {
      FixedDiffers(p, serverId, playerId);
    }
    hide *;
    assert |bytes[at - 1..]| == |bytes| - (at - 1);
    assert at == 1 ==> bytes[at - 1..] == bytes;
  }

  lemma BytesForClient(version: int, playerId: int32, serverId: entityId, from: int, p: seq<byte>)
    requires NextVarInt(Bytes(p)).result.Ok?
    ensures var q := PassedToClient(version, playerId, serverId, Received(from, p));
            var n := ToInt(IdOf(p));
            var fails := Fails(FromServer(version, n), p, serverId, playerId) || FixedFails(FixedFromServer(version, n), p);
            var bytes := RewrittenForClient(version, playerId, serverId, p);
            && |bytes| >= |p|
            && (q.Err? <==> fails)
            && (!fails ==> q == Ok(bytes[IdSize(p) - 1..]))
  {
    hide Rewritten, NextVarInt, NextFixed, WithInt, FromServer, Replaced, ReplacedFixed;
    var d := Received(from, p);
    assert d.Unread() == Bytes(p);
    var at := IdSize(p);
    assert BehindId(d) == at && d.Packet? && d.bytes == p;
    NotBoth(version, ToInt(IdOf(p)));
    if FromServer(version, ToInt(IdOf(p))) { ReplacedBytes(d, p, serverId, playerId); }
    ReplacedFixedBytes(d, p, serverId, playerId);
  }

  lemma NotBoth(version: int, n: int)
    ensures FromServer(version, n) ==> 0 <= n < 128 && !FixedFromServer(version, n)
  {
  }

  lemma ReplacedBytes(d: Delivered, p: seq<byte>, old_: entityId, new_: int32)
    requires d.Packet? && d.bytes == p && NextVarInt(Bytes(p)).result.Ok? && IdOf(p) < 0x8000_0000
    ensures var out := Replaced(d, NextVarInt(Bytes(p)).rest, IdOf(p), old_, new_);
            && (out.Err? <==> Fails(true, p, old_, new_))
            && (out.Ok? ==> out.value.Packet? && |out.value.bytes| >= |p| &&
                            out.value.bytes == if Hits(true, p, old_, new_) then Rewritten(p, IdOf(p), old_) else p)
  {
    hide NextVarInt;
  }

  lemma ReplacedFixedBytes(d: Delivered, p: seq<byte>, old_: entityId, new_: int32)
    requires d.Packet? && d.bytes == p && NextVarInt(Bytes(p)).result.Ok?
    ensures var out := ReplacedFixed(d, IdSize(p), NextVarInt(Bytes(p)).rest, old_, new_);
            && (out.Err? <==> FixedFails(true, p))
            && (out.Ok? ==> out.value.Packet? && |out.value.bytes| == |p| && out.value.bytes ==
                              if FixedHits(true, p, old_, new_) then WithInt(p, IdSize(p), ToUnsigned(old_)) else p)
  {
    hide NextVarInt, BigEndian, WithInt;
    var at := IdSize(p);
    if at + 4 <= |p| {
      assert p[at..][..4] == p[at..at + 4];
      SameField(p, at);
    }
  }

  lemma SameField(p: seq<byte>, at: nat)
    requires at + 4 <= |p|
    ensures BigEndian(p[at..at + 4]) < 0x1_0000_0000
    ensures WithInt(p, at, BigEndian(p[at..at + 4])) == p
  {
    FixedBigEndian(p[at..at + 4]);
    BigEndianBounds(p[at..at + 4]);
    assert Power256(4) == 0x1_0000_0000;
    hide BigEndian, Fixed;
    assert p == p[..at] + p[at..at + 4] + p[at + 4..];
  }

  lemma OneByteId(p: seq<byte>)
    requires NextVarInt(Bytes(p)).result.Ok?
    ensures IdSize(p) == 1 <==> p[0] < 128
  {
    if p[0] >= 128 { GroupsStop(Bytes(p[1..]), 1); }
  }

  lemma {:induction false} SuffixOfEncoded(v: nat, k: nat)
    requires k < |EncodeVarInt(v)|
    ensures exists w: nat :: w <= v && EncodeVarInt(w) == EncodeVarInt(v)[k..]
  {
    if k == 0 {
      assert EncodeVarInt(v)[0..] == EncodeVarInt(v);
    } else {
      SuffixOfEncoded(v / 128, k - 1);
      assert EncodeVarInt(v)[k..] == EncodeVarInt(v / 128)[k - 1..];
    }
  }

  /** Even cut short at the front, a rewritten packet is not the one that came. */
  lemma RewrittenIsNotSent(p: seq<byte>, old_: entityId, new_: int32)
    requires Hits(true, p, old_, new_) && IdOf(p) < 128
    ensures IdSize(p) <= |Rewritten(p, IdOf(p), old_)| && Rewritten(p, IdOf(p), old_)[IdSize(p) - 1..] != p
  {
    var (n, at) := (IdOf(p), IdSize(p));
    var bytes := Rewritten(p, n, old_);
    RewrittenDiffers(p, old_, new_);
    hide EncodeVarInt, Groups;
    if at == 1 {
      assert bytes[0..] == bytes;
    } else if bytes[at - 1..] == p {
      RewrittenTail(p, n, old_, at);
      var w: nat :| w <= old_ && EncodeVarInt(w) == p;
      assert p == EncodeVarInt(w) + [];
      VarIntRoundTrip(w, []);
      NothingToRead();
    }
  }

  /** If the end of a rewritten packet is the packet, it is the end of the id written. */
  lemma RewrittenTail(p: seq<byte>, n: varint, old_: varint, at: nat)
    requires n < 128 && 2 <= at <= |p| && Rewritten(p, n, old_)[at - 1..] == p
    ensures exists w: nat :: w <= old_ && EncodeVarInt(w) == p
  {
    var e := EncodeVarInt(old_);
    OneByte(n);
    var bytes := Rewritten(p, n, old_);
    hide EncodeVarInt;
    assert |bytes| > |p|;
    assert bytes == [n] + e;
    assert p == e[at - 2..];
    SuffixOfEncoded(old_, at - 2);
  }

  lemma OneByte(n: nat)
    requires n < 128
    ensures EncodeVarInt(n) == [n]
  {
  }

  lemma FixedDiffers(p: seq<byte>, old_: entityId, new_: int32)
    requires NextVarInt(Bytes(p)).result.Ok? && FixedHits(true, p, old_, new_)
    ensures WithInt(p, IdSize(p), ToUnsigned(old_)) != p
  {
    var at := IdSize(p);
    assert p[at..][..4] == p[at..at + 4];
    assert Power256(4) == 0x1_0000_0000;
    BigEndianFixed(ToUnsigned(old_), 4);
  }

  // ---------- the direction of the rewriting ----------

  /**
   A client's packet about its own entity should name the server's id for it, and a server's packet
   about it the client's. The rewriting goes the other way: such a packet comes out right exactly if
   the two ids are the same, and one of a client moreover only if it came uncompressed.
   */
  lemma OwnEntityIsTranslated(version: int, playerId: entityId, serverId: entityId, from: int, pid: varint,
                              tail: seq<byte>)
    requires playerId >= 0 && serverId >= 0
    ensures var mine := PacketWith(pid, playerId, tail);
            FromClient(version, pid) ==>
              (PassedToServer(version, playerId, serverId, Received(from, mine)) == Ok(PacketWith(pid, serverId, tail))
               <==> playerId == serverId && (from == -1 || |mine| <= from))
    ensures FromServer(version, pid) ==>
              (PassedToClient(version, playerId, serverId, Received(from, PacketWith(pid, serverId, tail)))
                 == Ok(PacketWith(pid, playerId, tail))
               <==> playerId == serverId)
  {
    hide *;
    if FromClient(version, pid) { OwnEntityToServer(version, playerId, serverId, from, pid, tail); }
    if FromServer(version, pid) { OwnEntityToClient(version, playerId, serverId, from, pid, tail); }
  }

  lemma OwnEntityToServer(version: int, playerId: entityId, serverId: entityId, from: int, pid: varint, tail: seq<byte>)
    requires playerId >= 0 && serverId >= 0 && FromClient(version, pid)
    ensures PassedToServer(version, playerId, serverId, Received(from, PacketWith(pid, playerId, tail)))
              == Ok(PacketWith(pid, serverId, tail))
       <==> playerId == serverId && (from == -1 || |PacketWith(pid, playerId, tail)| <= from)
  {
    hide PassedToServer, Rewritten, FromClient, EncodeVarInt, NextVarInt, PacketWith;
    Canonical(pid, playerId, tail);
    Canonical(pid, serverId, tail);
    NothingToRead();
    PassedFromClient(version, playerId, serverId, from, PacketWith(pid, playerId, tail));
  }

  lemma OwnEntityToClient(version: int, playerId: entityId, serverId: entityId, from: int, pid: varint, tail: seq<byte>)
    requires playerId >= 0 && serverId >= 0 && FromServer(version, pid)
    ensures PassedToClient(version, playerId, serverId, Received(from, PacketWith(pid, serverId, tail)))
              == Ok(PacketWith(pid, playerId, tail))
       <==> playerId == serverId
  {
    NotBoth(version, pid);
    hide PassedToClient, Rewritten, RewrittenForClient, FromServer, FixedFromServer, EncodeVarInt, NextVarInt, PacketWith;
    var theirs := PacketWith(pid, serverId, tail);
    Canonical(pid, playerId, tail);
    Canonical(pid, serverId, tail);
    ServerToClient(version, playerId, serverId, from, theirs);
  }

  lemma Canonical(pid: varint, id: varint, tail: seq<byte>)
    ensures var p := PacketWith(pid, id, tail);
            && NextVarInt(Bytes(p)) == Wire.Read(Ok(pid), Bytes(EncodeVarInt(id) + tail))
            && NextVarInt(NextVarInt(Bytes(p)).rest) == Wire.Read(Ok(id), Bytes(tail))
            && (pid < 128 ==> p[0] == pid)
  {
    var p := PacketWith(pid, id, tail);
    assert p == EncodeVarInt(pid) + (EncodeVarInt(id) + tail);
    VarIntRoundTrip(pid, EncodeVarInt(id) + tail);
    VarIntRoundTrip(id, tail);
    assert pid < 128 ==> EncodeVarInt(pid) == [pid];
  }

  // ---------- the buffers ----------

  /** `entityRewrite`, and what `writePacket` then takes from the buffer. */
  method PassToServer(version: int, playerId: entityId, serverId: int32, buffer: DataBuffer)
    returns (r: Result<seq<byte>>)
    requires buffer.Valid() && buffer.buffer != null
    modifies buffer, buffer.buffer
    ensures r == PassedToServer(version, playerId, serverId, old(Seen(buffer)))
  {
    hide NextVarInt, Rewritten, FromClient;
    ghost var d := Seen(buffer);
    assert d.Unread() == buffer.Unread();
    var packetId :- buffer.ReadVarInt();
    if FromClient(version, ToInt(packetId)) {
      var done :- ReplaceEntityId(Small(version, ToInt(packetId)), buffer, playerId, serverId);
      assert buffer.Contents()[..buffer.bufferLength] == buffer.Contents();
    }
    r := Ok(buffer.buffer[..buffer.writerindex]);
    assert buffer.buffer[..] == buffer.Contents();
    assert buffer.writerindex == |buffer.Contents()| ==> r.value == buffer.Contents();
  }

  /** A packet id of the tables takes one byte. */
  function Small(version: int, n: int): (m: varint)
    requires FromClient(version, n) || FromServer(version, n)
    ensures m == n < 128
  {
    n
  }

  /** `entityRewriteServer` on a buffer whose packet id has been read. */
  method RewriteForClient(version: int, playerId: int32, serverId: entityId, packetId: uint32, buffer: DataBuffer,
                          ghost d: Delivered)
    returns (r: Result<()>)
    requires buffer.Valid() && buffer.buffer != null && d.Packet? && d.bytes == buffer.Contents()
    modifies buffer, buffer.buffer
    ensures buffer.Valid() && buffer.buffer != null
    ensures var (at, rest) := (old(buffer.readerindex), old(buffer.Unread()));
            var n := ToInt(packetId);
            var out := if FromServer(version, n) then Replaced(d, rest, Small(version, n), serverId, playerId)
                       else if FixedFromServer(version, n) then ReplacedFixed(d, at, rest, serverId, playerId)
                       else Ok(d);
            match out {
              case Ok(d') => r.Ok? && d'.Packet? && buffer.Contents() == d'.bytes && |d.bytes| <= |d'.bytes|
              case Err(e) => r == Err(e)
            }
  {
    hide NextVarInt, NextFixed, Rewritten, WithInt, FromServer;
    if FromServer(version, ToInt(packetId)) {
      r := ReplaceEntityId(Small(version, ToInt(packetId)), buffer, serverId, playerId);
    } else if FixedFromServer(version, ToInt(packetId)) {
      r := ReplaceFixedId(buffer, serverId, playerId);
    } else {
      r := Ok(());
    }
  }

  /** `entityRewriteServer`, and the copy of the buffer that is then sent. */
  method PassToClient(version: int, playerId: int32, serverId: entityId, buffer: DataBuffer)
    returns (r: Result<seq<byte>>)
    requires buffer.Valid() && buffer.buffer != null
    modifies buffer, buffer.buffer
    ensures r == PassedToClient(version, playerId, serverId, old(Seen(buffer)))
  {
    hide NextVarInt, NextFixed, Rewritten, WithInt, FromServer, FixedFromServer, Replaced, ReplacedFixed;
    ghost var d := Seen(buffer);
    assert d.Unread() == buffer.Unread();
    VarIntStops(d.Unread());
    var packetId :- buffer.ReadVarInt();
    var rindex := buffer.readerindex;
    assert rindex == BehindId(d);
    var done :- RewriteForClient(version, playerId, serverId, packetId, buffer, d);
    ghost var bytes := buffer.Contents();
    assert |bytes| == buffer.bufferLength && |d.bytes| <= |bytes|;
    buffer.readerindex := rindex - 1;
    assert buffer.Unread() == Bytes(bytes[rindex - 1..]);
    var data := buffer.ReadBuffer(buffer.bufferLength - buffer.readerindex);
    assert bytes[rindex - 1..][..|bytes| - (rindex - 1)] == bytes[rindex - 1..];
    r := Ok(data.value.Contents());
  }
}
