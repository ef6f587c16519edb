/** The decoder over a byte stream: how the bytes are cut into reads makes no difference. */
module CodecStream {
  import opened Basics
  import opened Packets
  import opened Wire
  import opened Codec
  import opened CodecRoundTrip

  type Decoder = Bytes -> Decoded

  /** A decoder that returns a packet has used some of the bytes it was given. */
  ghost predicate Progresses(decode: Decoder) {
    forall b :: decode(b).Got? ==> 0 < decode(b).size <= |b|
  }

  /** A packet or an error, once returned, is returned whatever bytes follow. */
  ghost predicate Settles(decode: Decoder) {
    forall a, b :: decode(a) != Need ==> decode(a + b) == decode(a)
  }

  /** Packets delivered, bytes not yet decoded, and the first error, after which nothing more is decoded. */
  datatype Stream = Stream(packets: seq<Packet>, rest: Bytes, error: Option<CodecError>)

  const START := Stream([], [], None)

  /** Call the decoder until it asks for more bytes or fails. */
  ghost function Drain(buffer: Bytes, decode: Decoder): Stream
    requires Progresses(decode)
    decreases |buffer|
  {
    match decode(buffer)
    case Need => Stream([], buffer, None)
    case Failed(e) => Stream([], [], Some(e))
    case Got(p, n) =>
      var later := Drain(buffer[n..], decode);
      later.(packets := [p] + later.packets)
  }

  /** One read from the connection. */
  ghost function Receive(s: Stream, chunk: Bytes, decode: Decoder): Stream
    requires Progresses(decode)
  {
    if s.error.Some? then s else
    var now := Drain(s.rest + chunk, decode);
    now.(packets := s.packets + now.packets)
  }

  ghost function ReceiveAll(chunks: seq<Bytes>, decode: Decoder): Stream
    requires Progresses(decode)
  {
    if chunks == [] then Drain([], decode)
    else Receive(ReceiveAll(chunks[..|chunks| - 1], decode), chunks[|chunks| - 1], decode)
  }

  function Concat(chunks: seq<Bytes>): Bytes {
    if chunks == [] then [] else Concat(chunks[..|chunks| - 1]) + chunks[|chunks| - 1]
  }

  // ---------- chunking, for any decoder that settles ----------

  lemma {:induction false} DrainAppend(a: Bytes, b: Bytes, decode: Decoder)
    requires Progresses(decode) && Settles(decode)
    ensures Drain(a + b, decode) == Receive(Drain(a, decode), b, decode)
    decreases |a|
  {
    match decode(a)
    case Need =>
      assert [] + Drain(a + b, decode).packets == Drain(a + b, decode).packets;
    case Failed(e) =>
    case Got(p, n) =>
      assert (a + b)[n..] == a[n..] + b;
      DrainAppend(a[n..], b, decode);
      ReceiveAfter(p, Drain(a[n..], decode), b, decode);
  }

  /** A packet in front does not change how later bytes are received. */
  lemma ReceiveAfter(p: Packet, later: Stream, b: Bytes, decode: Decoder)
    requires Progresses(decode)
    ensures var s := Receive(later, b, decode);
            Receive(later.(packets := [p] + later.packets), b, decode) == s.(packets := [p] + s.packets)
  {
    if later.error == None {
      var now := Drain(later.rest + b, decode);
      assert [p] + (later.packets + now.packets) == ([p] + later.packets) + now.packets;
    }
  }

  lemma {:induction false} SettledDecoderIgnoresChunks(chunks: seq<Bytes>, decode: Decoder)
    requires Progresses(decode) && Settles(decode)
    ensures ReceiveAll(chunks, decode) == Drain(Concat(chunks), decode)
  {
    if chunks != [] {
      SettledDecoderIgnoresChunks(chunks[..|chunks| - 1], decode);
      DrainAppend(Concat(chunks[..|chunks| - 1]), chunks[|chunks| - 1], decode);
    }
  }

  // ---------- the frame decoder settles ----------

  lemma {:induction false} LengthStable(a: Bytes, b: Bytes, k: nat)
    requires k <= 4 && RemainingLength(a, k) != Incomplete
    ensures RemainingLength(a + b, k) == RemainingLength(a, k)
    ensures RemainingLength(a, k) == Oversized ==> |a| >= 5 - k
    decreases 4 - k
  {
    if k < 4 && a[0] >= 128 {
      assert (a + b)[1..] == a[1..] + b;
      LengthStable(a[1..], b, k + 1);
    }
  }

  lemma FrameStable(a: Bytes, b: Bytes, limit: nat)
    requires NextFrame(a, limit) != Wait
    ensures NextFrame(a + b, limit) == NextFrame(a, limit)
  {
    assert (a + b)[1..] == a[1..] + b;
    LengthStable(a[1..], b, 0);
    match RemainingLength(a[1..], 0)
    case Oversized => assert (a + b)[1..5] == a[1..5];
    case Length(length, n) =>
      if |a| >= 1 + n + length {
        assert (a + b)[1 + n..1 + n + length] == a[1 + n..1 + n + length];
      }
  }

  /** A packet or an error, once returned, is returned whatever bytes follow. */
  lemma DecodeStable(a: Bytes, b: Bytes, limit: nat)
    requires Decode(a, limit) != Need
    ensures Decode(a + b, limit) == Decode(a, limit)
  {
    FrameStable(a, b, limit);
  }

  /** The frame decoder with its packet-size limit. */
  ghost function FrameDecoder(limit: nat): (decode: Decoder)
    ensures Progresses(decode)
  {
    b => Decode(b, limit)
  }

  /** Every way of cutting a stream into reads yields the same packets, the same first error and the same rest. */
  lemma ChunkingIndependent(chunks: seq<Bytes>, limit: nat)
    ensures Settles(FrameDecoder(limit))
    ensures ReceiveAll(chunks, FrameDecoder(limit)) == Drain(Concat(chunks), FrameDecoder(limit))
  {
    var decode := FrameDecoder(limit);
    forall a, b | decode(a) != Need ensures decode(a + b) == decode(a) { DecodeStable(a, b, limit); }
    SettledDecoderIgnoresChunks(chunks, decode);
  }

  // ---------- streams of packets ----------

  ghost predicate Sendable(p: Packet, limit: nat) {
    WellFormed(p) && Encode(p).Ok? && |Encode(p).value| <= limit
  }

  /** The frames of the packets, one after the other; a packet that does not encode leaves nothing. */
  function EncodeAll(packets: seq<Packet>): Bytes {
    if packets == [] then []
    else (match Encode(packets[0]) case Ok(frame) => frame case Err(_) => []) + EncodeAll(packets[1..])
  }

  lemma DrainFrame(p: Packet, later: Bytes, limit: nat)
    requires Sendable(p, limit)
    ensures var s := Drain(later, FrameDecoder(limit));
            Drain(Encode(p).value + later, FrameDecoder(limit)) == s.(packets := [p] + s.packets)
  {
    FrameRoundTrip(p, limit, later);
    var first := Encode(p).value;
    assert FrameDecoder(limit)(first + later) == Got(p, |first|);
    assert (first + later)[|first|..] == later;
  }

  lemma {:induction false} EncodedDrains(packets: seq<Packet>, limit: nat)
    requires forall i :: 0 <= i < |packets| ==> Sendable(packets[i], limit)
    ensures Drain(EncodeAll(packets), FrameDecoder(limit)) == Stream(packets, [], None)
  {
    if packets == [] {
      assert FrameDecoder(limit)([]) == Need;
    } else {
      EncodedDrains(packets[1..], limit);
      DrainOneMore(packets[0], packets[1..], EncodeAll(packets[1..]), limit);
      assert packets == [packets[0]] + packets[1..];
    }
  }

  lemma DrainOneMore(p: Packet, packets: seq<Packet>, later: Bytes, limit: nat)
    requires Sendable(p, limit) && Drain(later, FrameDecoder(limit)) == Stream(packets, [], None)
    ensures Drain(Encode(p).value + later, FrameDecoder(limit)) == Stream([p] + packets, [], None)
  {
    DrainFrame(p, later, limit);
  }

  /** What a peer encodes, packet after packet, arrives as the same packets however the bytes are cut into reads. */
  lemma PacketsArrive(packets: seq<Packet>, chunks: seq<Bytes>, limit: nat)
    requires forall i :: 0 <= i < |packets| ==> Sendable(packets[i], limit)
    requires Concat(chunks) == EncodeAll(packets)
    ensures ReceiveAll(chunks, FrameDecoder(limit)) == Stream(packets, [], None)
  {
    ChunkingIndependent(chunks, limit);
    EncodedDrains(packets, limit);
  }
}
