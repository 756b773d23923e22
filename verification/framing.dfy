/** The packet frames of a connection (Connection.h:30-71, 150-199), as functions over a byte stream. */
module Framing {
  import opened Results
  import opened Wire

  /** Whether `uncompress` has succeeded, and what its target holds in either case. */
  datatype Inflation = Inflation(ok: bool, data: seq<byte>)

  /**
   What the code takes from zlib and from the allocator: `compressBound`, `compress`, `uncompress`
   into a buffer of a given size, and the bytes that lie behind a heap block.
   */
  datatype Library = Library(
    bound: nat -> nat,
    deflate: seq<byte> -> seq<byte>,
    inflate: (seq<byte>, nat) -> Inflation,
    beyond: seq<byte> -> seq<byte>)
  {
    /** The target of `uncompress` keeps the size it was allocated with. */
    ghost predicate Fills() {
      forall s: seq<byte>, n: nat :: |inflate(s, n).data| == n
    }

    /** A compressed block fits the bound, and inflating it yields the original whatever follows it. */
    ghost predicate Inverse() {
      && (forall n: nat :: bound(n) > 0)
      && (forall p: seq<byte> :: |deflate(p)| <= bound(|p|))
      && (forall p: seq<byte>, tail: seq<byte> :: p != [] ==> inflate(deflate(p) + tail, |p|) == Inflation(true, p))
    }

    /** All lengths that `writePacket` puts on the wire fit an `int`. */
    predicate Fits(p: seq<byte>) {
      |p| + 1 < 0x8000_0000 && bound(|p|) + 5 < 0x8000_0000
    }

    /** The target buffer after `compress`: what it does not fill stays as malloc returned it. */
    predicate Compressed(p: seq<byte>, target: seq<byte>) {
      |target| == bound(|p|) && deflate(p) <= target
    }
  }

  /** `writePacket`; `target` is the buffer that `compress` has filled, if it comes to that. */
  function Frame(threshold: int, p: seq<byte>, target: seq<byte>): seq<byte> {
    if threshold == -1 then EncodeVarInt(|p|) + p
    else if |p| > threshold then
      EncodeVarInt(VarIntSizeOf(|p|) + |target|) + EncodeVarInt(|p|) + target
    else EncodeVarInt(|p| + 1) + EncodeVarInt(0) + p
  }

  function VarIntSizeOf(n: nat): nat {
    VarIntSize(n % 0x1_0000_0000_0000_0000)
  }

  /** A packet as `readerTask` hands it on: no buffer at all, or one with its two indices. */
  datatype Delivered = NoBuffer | Packet(bytes: seq<byte>, readerindex: nat, writerindex: nat) {
    function Unread(): View {
      match this
      case NoBuffer => Missing
      case Packet(bytes, r, _) => Bytes(if r <= |bytes| then bytes[r..] else [])
    }
  }

  const INCOMPLETE := Exception("Didnt readed all bytes")

  /** A packet taken off the stream; `broken` says that a failed `uncompress` has closed the channel meanwhile. */
  datatype Taken = Taken(data: Delivered, broken: bool)

  /** The payload of a frame after the length prefix, with compression switched on. */
  function Inflated(lib: Library, body: View): Result<Taken> {
    var r := NextVarInt(body);
    VarIntStops(body);
    match r.result
    case Err(e) => Err(e)
    case Ok(outlength) =>
      if outlength > 0 then
        // the size given for the source is that of the whole body, so uncompress sees bytes behind it
        if ToInt(outlength) < 0 || body.Missing? then Ok(Taken(NoBuffer, true))
        else
          var out := lib.inflate(r.rest.unread + lib.beyond(body.unread), outlength);
          Ok(Taken(Packet(out.data, 0, 0), !out.ok))
      else if body.Missing? then Ok(Taken(NoBuffer, false))
      else Ok(Taken(Packet(body.unread[1..], |body.unread| - |r.rest.unread| - 1, |body.unread| - 1), false))
  }

  /** One round of `readerTask`: the packet and the bytes after it. */
  function ReadFrame(lib: Library, threshold: int, s: seq<byte>): (r: Result<(Taken, seq<byte>)>)
    ensures r.Ok? ==> |r.value.1| < |s|
  {
    var n := NextVarInt(Bytes(s));
    VarIntStops(Bytes(s));
    match n.result
    case Err(e) => Err(e)
    case Ok(length) =>
      var rest := n.rest.unread;
      if ToInt(length) > |rest| then Err(INCOMPLETE)
      else
        var body := if ToInt(length) < 0 then Missing else Bytes(rest[..ToInt(length)]);
        var after := if ToInt(length) < 0 then rest else rest[ToInt(length)..];
        if threshold == -1 then Ok((Taken(Plain(body), false), after))
        else
          var taken :- Inflated(lib, body);
          Ok((taken, after))
  }

  function Plain(body: View): Delivered {
    match body
    case Missing => NoBuffer
    case Bytes(b) => Packet(b, 0, |b|)
  }

  // ---------- one frame ----------

  /** The length prefix counts exactly the bytes that follow it. */
  lemma PrefixCountsTheRest(lib: Library, threshold: int, p: seq<byte>, target: seq<byte>)
    requires lib.Fits(p) && lib.Compressed(p, target)
    ensures exists body :: |body| < 0x8000_0000 && Frame(threshold, p, target) == EncodeVarInt(|body|) + body
  {
    var f := Frame(threshold, p, target);
    if threshold == -1 {
      assert f == EncodeVarInt(|p|) + p;
    } else if |p| > threshold {
      var body := EncodeVarInt(|p|) + target;
      VarIntSizeExact(|p|);
      assert f == EncodeVarInt(|body|) + body;
    } else {
      var body := EncodeVarInt(0) + p;
      assert f == EncodeVarInt(|body|) + body;
    }
  }

  /** How the reader hands on a packet that came in a frame of `writePacket`. */
  function Received(threshold: int, p: seq<byte>): Delivered {
    if threshold != -1 && |p| > threshold then Packet(p, 0, 0) else Packet(p, 0, |p|)
  }

  function Intact(threshold: int, p: seq<byte>): Taken {
    Taken(Received(threshold, p), false)
  }

  /**
   The reader takes exactly one frame off the stream and hands on the packet that went in, unread
   from its first byte; the one packet that fails is an empty one under a threshold below -1.
   */
  lemma FrameRoundTrip(lib: Library, threshold: int, p: seq<byte>, target: seq<byte>, rest: seq<byte>)
    requires lib.Inverse() && lib.Fits(p) && lib.Compressed(p, target)
    ensures ReadFrame(lib, threshold, Frame(threshold, p, target) + rest) == Ok((Intact(threshold, p), rest))
       <==> threshold >= -1 || p != []
  {
    hide Inflated, ReadFrame, EncodeVarInt, Library.Inverse, VarIntSize;
    var f := Frame(threshold, p, target);
    if threshold == -1 {
      assert f + rest == EncodeVarInt(|p|) + (p + rest);
      ReadPrefixed(lib, threshold, p, rest);
    } else if |p| > threshold {
      var body := EncodeVarInt(|p|) + target;
      VarIntSizeExact(|p|);
      assert f + rest == EncodeVarInt(|body|) + (body + rest);
      ReadPrefixed(lib, threshold, body, rest);
      InflatedCompressed(lib, p, target);
    } else {
      var body := EncodeVarInt(0) + p;
      EncodedZero();
      assert f + rest == EncodeVarInt(|body|) + (body + rest);
      ReadPrefixed(lib, threshold, body, rest);
      InflatedPlain(lib, p);
    }
  }

  lemma EncodedZero()
    ensures EncodeVarInt(0) == [0]
  {
  }

  lemma ReadPrefixed(lib: Library, threshold: int, body: seq<byte>, rest: seq<byte>)
    requires |body| < 0x8000_0000
    ensures var r := ReadFrame(lib, threshold, EncodeVarInt(|body|) + (body + rest));
            if threshold == -1 then r == Ok((Taken(Packet(body, 0, |body|), false), rest))
            else match Inflated(lib, Bytes(body)) {
              case Ok(taken) => r == Ok((taken, rest))
              case Err(e) => r == Err(e)
            }
  {
    hide Inflated, Groups, EncodeVarInt;
    VarIntRoundTrip(|body|, body + rest);
    assert (body + rest)[..|body|] == body && (body + rest)[|body|..] == rest;
  }

  lemma InflatedPlain(lib: Library, p: seq<byte>)
    ensures Inflated(lib, Bytes(EncodeVarInt(0) + p)) == Ok(Taken(Packet(p, 0, |p|), false))
  {
    VarIntRoundTrip(0, p);
    assert EncodeVarInt(0) == [0];
    assert ([0] + p)[1..] == p;
  }

  lemma InflatedCompressed(lib: Library, p: seq<byte>, target: seq<byte>)
    requires lib.Inverse() && lib.Fits(p) && lib.Compressed(p, target)
    ensures Inflated(lib, Bytes(EncodeVarInt(|p|) + target)) == Ok(Taken(Packet(p, 0, 0), false)) <==> p != []
  {
    var body := EncodeVarInt(|p|) + target;
    VarIntRoundTrip(|p|, target);
    if p != [] {
      InflateTarget(lib, p, target, lib.beyond(body));
      hide Library.Inverse, Groups, EncodeVarInt;
    } else {
      assert lib.bound(0) > 0;
      hide Library.Inverse;
      assert EncodeVarInt(0) == [0];
      assert body[1..] == target;
    }
  }

  lemma InflateTarget(lib: Library, p: seq<byte>, target: seq<byte>, beyond: seq<byte>)
    requires lib.Inverse() && p != [] && lib.deflate(p) <= target
    ensures lib.inflate(target + beyond, |p|) == Inflation(true, p)
  {
    var d := lib.deflate(p);
    var junk := target[|d|..] + beyond;
    assert target + beyond == d + junk;
    assert lib.inflate(lib.deflate(p) + junk, |p|) == Inflation(true, p);
  }

  // ---------- a run of frames ----------

  /** The receiving connection: still logging in, and the compression threshold it has been told. */
  datatype Link = Link(login: bool, threshold: int)

  const ONLINE_MODE := Exception("Server is in online mode!")

  /** What a packet does to the link (ServerPacketHandler.cpp:10-28, 41-105): a handler throws where it reads too far. */
  function After(link: Link, data: View): Result<Link> {
    var id := NextVarInt(data);
    match id.result
    case Err(e) => Err(e)
    case Ok(packetId) =>
      if !link.login then Ok(link)
      else if packetId == 0x00 then
        var reason :- NextString(id.rest).result;
        Ok(link)
      else if packetId == 0x01 then Err(ONLINE_MODE)
      else if packetId == 0x02 then
        var uuid :- NextString(id.rest).result;
        var username :- NextString(NextString(id.rest).rest).result;
        Ok(link.(login := false))
      else if packetId == 0x03 then
        var t :- NextVarInt(id.rest).result;
        Ok(link.(threshold := ToInt(t)))
      else Ok(link)
  }

  /** The sender's packets, each framed under the threshold that the ones before it have set. */
  function Stream(link: Link, ps: seq<seq<byte>>, targets: seq<seq<byte>>): seq<byte>
    requires |ps| == |targets| && Acceptable(link, ps)
    decreases ps
  {
    if ps == [] then []
    else
      Frame(link.threshold, ps[0], targets[0])
      + Stream(After(link, Bytes(ps[0])).value, ps[1..], targets[1..])
  }

  /** No packet makes the receiver throw. */
  predicate Acceptable(link: Link, ps: seq<seq<byte>>)
    decreases ps
  {
    ps == [] || (After(link, Bytes(ps[0])).Ok? && Acceptable(After(link, Bytes(ps[0])).value, ps[1..]))
  }

  /** Why a reader task ends: something was thrown, or `uncompress` has failed. */
  datatype Ending = Thrown(error: Error) | Uncompressed {
    /** The catch clause takes an `Exception` only by value; anything else leaves the thread function. */
    predicate Escapes() {
      Thrown? && !error.Exception?
    }
  }

  /** The packets a reader task hands on, and how it ends. */
  datatype Reading = Reading(packets: seq<Delivered>, end: Ending)

  /** The whole of `readerTask` on a stream. */
  function Unframed(lib: Library, link: Link, s: seq<byte>): Reading
    decreases |s|
  {
    match ReadFrame(lib, link.threshold, s)
    case Err(e) => Reading([], Thrown(e))
    case Ok((taken, rest)) =>
      if taken.broken then Reading([taken.data], Uncompressed)
      else
        match After(link, taken.data.Unread())
        case Err(e) => Reading([taken.data], Thrown(e))
        case Ok(next) =>
          var more := Unframed(lib, next, rest);
          Reading([taken.data] + more.packets, more.end)
  }

  /** An over-long VarInt in the place of a length ends the task without closing its connection. */
  lemma OverlongLengthEscapes(lib: Library, link: Link, s: seq<byte>)
    requires |s| >= 6 && forall k | 0 <= k < 5 :: s[k] >= 128
    ensures Unframed(lib, link, s) == Reading([], Thrown(VARINT_TOO_BIG)) && Unframed(lib, link, s).end.Escapes()
  {
    VarIntTooBigExactly(s);
  }

  /** So does a refusal whose reason claims more bytes than a string may have. */
  lemma OverlongReasonEscapes(lib: Library, threshold: int, n: varint, s: seq<byte>)
    requires n > MAX_STRING
    ensures var packet := [0] + EncodeVarInt(n) + s;
            && After(Link(true, threshold), Bytes(packet)) == Err(STRING_TOO_LONG)
            && Thrown(STRING_TOO_LONG).Escapes()
  {
    var packet := [0] + EncodeVarInt(n) + s;
    assert packet == EncodeVarInt(0) + (EncodeVarInt(n) + s);
    VarIntRoundTrip(0, EncodeVarInt(n) + s);
    VarIntRoundTrip(n, s);
  }

  function AllReceived(link: Link, ps: seq<seq<byte>>): seq<Delivered>
    requires Acceptable(link, ps)
    decreases ps
  {
    if ps == [] then []
    else [Received(link.threshold, ps[0])] + AllReceived(After(link, Bytes(ps[0])).value, ps[1..])
  }

  /** Any number of packets, with any number of threshold changes among them, come out as they went in. */
  lemma {:induction false} StreamRoundTrip(lib: Library, link: Link, ps: seq<seq<byte>>, targets: seq<seq<byte>>)
    requires lib.Inverse() && |ps| == |targets| && Acceptable(link, ps)
    requires forall i | 0 <= i < |ps| :: lib.Fits(ps[i]) && lib.Compressed(ps[i], targets[i])
    ensures Unframed(lib, link, Stream(link, ps, targets)) == Reading(AllReceived(link, ps), Thrown(SHORT_BUFFER))
    decreases ps
  {
    if ps == [] {
      assert NextVarInt(Bytes([])).result == Err(SHORT_BUFFER);
    } else {
      var p, next := ps[0], After(link, Bytes(ps[0])).value;
      var rest := Stream(next, ps[1..], targets[1..]);
      assert p != [] by {
        assert NextVarInt(Bytes([])).result.Err?;
      }
      FrameRoundTrip(lib, link.threshold, p, targets[0], rest);
      assert Received(link.threshold, p).Unread() == Bytes(p);
      StreamRoundTrip(lib, next, ps[1..], targets[1..]);
    }
  }

  lemma {:induction false} AllReceivedContents(link: Link, ps: seq<seq<byte>>)
    requires Acceptable(link, ps)
    ensures |AllReceived(link, ps)| == |ps|
    ensures forall i | 0 <= i < |ps| :: AllReceived(link, ps)[i].Unread() == Bytes(ps[i])
    decreases ps
  {
    if ps != [] { AllReceivedContents(After(link, Bytes(ps[0])).value, ps[1..]); }
  }
}
