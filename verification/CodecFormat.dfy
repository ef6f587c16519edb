/**
 * The wire form of every other packet, with the numbers of chapter 3 of the MQTT 3.1.1 standard, and what the decoder
 * makes of bytes the encoder never writes: reserved flags, trailing bytes, subscription options, CONNACK properties.
 */
module CodecFormat {
  import opened Basics
  import opened Packets
  import opened Wire
  import opened Codec
  import opened CodecProperties
  import opened CodecConnect
  import opened CodecRoundTrip

  // ---------- the encoder writes the layout of the standard ----------

  function QosForm(qos: QoS): byte {
    match qos
    case AtMostOnce => 0
    case AtLeastOnce => 1
    case ExactlyOnce => 2
  }

  function FirstForm(p: Packet): byte {
    match p
    case Connect(_) => 0x10
    case Connack(_, _, _) => 0x20
    case Publish(m) => 0x30 + (if m.dup then 8 else 0) + 2 * (QosForm(m.qos) as int) + (if m.retain then 1 else 0)
    case Puback(_) => 0x40
    case Pubrec(_) => 0x50
    case Pubrel(_) => 0x62
    case Pubcomp(_) => 0x70
    case Subscribe(_, _) => 0x82
    case Suback(_, _) => 0x90
    case Unsubscribe(_, _) => 0xA2
    case Unsuback(_) => 0xB0
    case Pingreq => 0xC0
    case Pingresp => 0xD0
    case Disconnect => 0xE0
  }

  predicate TextsFit(p: Packet) {
    match p
    case Connect(c) => FieldsFit(c)
    case Publish(m) => |m.topic| <= 0xFFFF
    case Subscribe(_, topics) => forall i :: 0 <= i < |topics| ==> |topics[i].filter| <= 0xFFFF
    case Unsubscribe(_, filters) => forall i :: 0 <= i < |filters| ==> |filters[i]| <= 0xFFFF
    case _ => true
  }

  function TopicsForm(topics: seq<SubscribeTopic>): Bytes
    requires forall i :: 0 <= i < |topics| ==> |topics[i].filter| <= 0xFFFF
  {
    if topics == [] then [] else DataForm(topics[0].filter) + ([QosForm(topics[0].qos)] + TopicsForm(topics[1..]))
  }

  function FiltersForm(filters: seq<Text>): Bytes
    requires forall i :: 0 <= i < |filters| ==> |filters[i]| <= 0xFFFF
  {
    if filters == [] then [] else DataForm(filters[0]) + FiltersForm(filters[1..])
  }

  function BodyForm(p: Packet): Bytes
    requires TextsFit(p)
  {
    match p
    case Connect(c) =>
      PropertiesWritten(c);
      ConnectForm([0x4D, 0x51, 0x54, 0x54], c, Written(c), [])
    case Connack(present, code, level) => [if present then 1 else 0, code] + (if level == 5 then [0] else [])
    case Publish(m) =>
      DataForm(m.topic) + ((if m.packetId.Some? then TwoByteForm(m.packetId.value) else []) + m.payload)
    case Subscribe(id, topics) => TwoByteForm(id) + TopicsForm(topics)
    case Suback(id, codes) => TwoByteForm(id) + codes
    case Unsubscribe(id, filters) => TwoByteForm(id) + FiltersForm(filters)
    case Pingreq => []
    case Pingresp => []
    case Disconnect => []
    case _ => TwoByteForm(p.id)
  }

  lemma {:induction false} TopicsWritten(topics: seq<SubscribeTopic>)
    ensures PutTopics(topics).Ok? <==> forall i :: 0 <= i < |topics| ==> |topics[i].filter| <= 0xFFFF
    ensures PutTopics(topics).Ok? ==> PutTopics(topics).value == TopicsForm(topics)
  {
    if topics != [] {
      TopicsWritten(topics[1..]);
      assert forall i :: 0 <= i < |topics| - 1 ==> topics[1..][i] == topics[i + 1];
      assert forall i :: 0 < i < |topics| ==> topics[i] == topics[1..][i - 1];
    }
  }

  lemma {:induction false} FiltersWritten(filters: seq<Text>)
    ensures PutFilters(filters).Ok? <==> forall i :: 0 <= i < |filters| ==> |filters[i]| <= 0xFFFF
    ensures PutFilters(filters).Ok? ==> PutFilters(filters).value == FiltersForm(filters)
  {
    if filters != [] {
      FiltersWritten(filters[1..]);
      assert forall i :: 0 <= i < |filters| - 1 ==> filters[1..][i] == filters[i + 1];
      assert forall i :: 0 < i < |filters| ==> filters[i] == filters[1..][i - 1];
    }
  }

  lemma BodyWritten(p: Packet)
    ensures EncodeBody(p).Ok? <==> TextsFit(p)
    ensures EncodeBody(p).Ok? ==> EncodeBody(p).value == BodyForm(p)
  {
    match p {
      case Connect(c) =>
        if EncodeBody(p).Ok? { ConnectWrites(c); }
      case Subscribe(_, topics) => TopicsWritten(topics);
      case Unsubscribe(_, filters) => FiltersWritten(filters);
      case _ =>
    }
  }

  /** A packet is written as the standard lays it out, or not at all: when a text or the whole body is too long. */
  lemma FrameWritten(p: Packet)
    ensures Encode(p).Ok? <==> TextsFit(p) && |BodyForm(p)| <= 268_435_455
    ensures Encode(p).Ok? ==> Encode(p).value == [FirstForm(p)] + (PutVbi(|BodyForm(p)|) + BodyForm(p))
  {
    BodyWritten(p);
    FirstWritten(p);
  }

  lemma FirstWritten(p: Packet)
    ensures FirstByte(p) == FirstForm(p)
  {
  }

  /** A variable byte integer: seven bits a byte, low bits first, every byte but the last with its top bit set. */
  lemma {:induction false} VariableByteWritten(n: nat)
    ensures LowBits(PutVbi(n)) == n
    ensures forall i :: 0 <= i < |PutVbi(n)| ==> (PutVbi(n)[i] >= 128 <==> i < |PutVbi(n)| - 1)
    ensures |PutVbi(n)| > 1 ==> PutVbi(n)[|PutVbi(n)| - 1] != 0
  {
    if n >= 128 {
      VariableByteWritten(n / 128);
      assert PutVbi(n)[1..] == PutVbi(n / 128);
      assert forall i :: 1 <= i < |PutVbi(n)| ==> PutVbi(n)[i] == PutVbi(n / 128)[i - 1];
    } else {
      assert PutVbi(n)[1..] == [];
    }
  }

  // ---------- what else the decoder reads ----------

  /** The reserved flags are looked at in six packet types only; types 0 and 15 do not exist. */
  lemma FlagsDecide(packetType: byte, flags: byte, s: Bytes)
    requires packetType < 16 && flags < 16
    ensures packetType in {0, 15} ==> DecodePacket(16 * packetType + flags, s) == Err(InvalidPacketType(packetType))
    ensures (packetType in {6, 8, 10} && flags != 2) || (packetType in {12, 13, 14} && flags != 0)
        ==> DecodePacket(16 * packetType + flags, s) == Err(InvalidFlags(packetType, flags))
    ensures packetType in {1, 2, 4, 5, 7, 9, 11}
        ==> DecodePacket(16 * packetType + flags, s) == DecodePacket(16 * packetType, s)
  {
    var first := 16 * packetType + flags;
    assert first / 16 == packetType && first % 16 == flags;
  }

  /** A frame longer than the limit is refused as soon as its length is known, before its body has arrived. */
  lemma TooLongRefused(first: byte, n: nat, rest: Bytes, limit: nat)
    requires n < 0x1000_0000
    ensures var total := 1 + |PutVbi(n)| + n;
      total > limit ==> Decode([first] + (PutVbi(n) + rest), limit) == Failed(MalformedBody(PacketTooLong(total, limit)))
  {
    LengthRoundTrip(n, 0, rest);
    assert ([first] + (PutVbi(n) + rest))[1..] == PutVbi(n) + rest;
  }

  /** So is a length field of five bytes, with the number that its first four bytes make. */
  lemma FiveByteLengthRefused(first: byte, a: byte, b: byte, c: byte, d: byte, rest: Bytes, limit: nat)
    requires a >= 128 && b >= 128 && c >= 128 && d >= 128 && rest != []
    ensures Decode([first, a, b, c, d] + rest, limit) == Failed(InvalidRemainingLength(
      (a as int - 128) + 128 * (b as int - 128) + 16384 * (c as int - 128) + 2097152 * (d as int - 128)))
  {
    var s := [first, a, b, c, d] + rest;
    assert s[1..5] == [a, b, c, d];
    assert s[1..] == [a] + ([b] + ([c] + ([d] + rest)));
    FiveBytesOversized(a, b, c, d, rest);
    FourLowBits(a, b, c, d);
  }

  lemma FiveBytesOversized(a: byte, b: byte, c: byte, d: byte, rest: Bytes)
    requires a >= 128 && b >= 128 && c >= 128 && d >= 128 && rest != []
    ensures RemainingLength([a] + ([b] + ([c] + ([d] + rest))), 0) == Oversized
  {
    var s3, s2, s1 := [d] + rest, [c] + ([d] + rest), [b] + ([c] + ([d] + rest));
    assert s3[1..] == rest && s2[1..] == s3 && s1[1..] == s2 && ([a] + s1)[1..] == s1;
    assert RemainingLength(s3, 3) == Oversized;
    assert RemainingLength(s2, 2) == Oversized;
    assert RemainingLength(s1, 1) == Oversized;
  }

  lemma FourLowBits(a: byte, b: byte, c: byte, d: byte)
    requires a >= 128 && b >= 128 && c >= 128 && d >= 128
    ensures LowBits([a, b, c, d]) ==
      (a as int - 128) + 128 * (b as int - 128) + 16384 * (c as int - 128) + 2097152 * (d as int - 128)
  {
    assert [a, b, c, d][1..] == [b, c, d] && [b, c, d][1..] == [c, d] && [c, d][1..] == [d] && [d][1..] == [];
    assert LowBits([d]) == d as int - 128;
    assert LowBits([c, d]) == (c as int - 128) + 128 * LowBits([d]);
    assert LowBits([b, c, d]) == (b as int - 128) + 128 * LowBits([c, d]);
  }

  /** An acknowledgement is its packet id, which is never zero; bytes after it are ignored. */
  lemma AcksRead(id: u16, trailing: Bytes)
    ensures var s := TwoByteForm(id) + trailing;
      id == 0 ==> forall first :: first in {0x40, 0x50, 0x62, 0x70, 0xB0} ==>
        DecodePacket(first, s) == Err(MalformedBody(ZeroPacketId))
    ensures var s := TwoByteForm(id) + trailing;
      id != 0 ==>
        && DecodePacket(0x40, s) == Ok(Puback(id))
        && DecodePacket(0x50, s) == Ok(Pubrec(id))
        && DecodePacket(0x62, s) == Ok(Pubrel(id))
        && DecodePacket(0x70, s) == Ok(Pubcomp(id))
        && DecodePacket(0xB0, s) == Ok(Unsuback(id))
  {
    assert TwoByteForm(id) == U16(id);
    ReadBackU16(id, trailing);
  }

  /** CONNACK: only bit 0 of its flags counts, and anything after the return code must be a property section. */
  lemma ConnackReads(flags: byte, code: byte, section: Bytes, trailing: Bytes)
    requires |section| < 0x1000_0000
    ensures DecodePacket(0x20, [flags, code]) == Ok(Connack(flags % 2 == 1, code, 4))
    ensures DecodePacket(0x20, [flags, code] + (SectionForm(section) + trailing)) == Ok(Connack(flags % 2 == 1, code, 5))
  {
    var s2 := SectionForm(section) + trailing;
    var s := [flags, code] + s2;
    assert s[1..][1..] == s2 && [flags, code][1..][1..] == [];
    assert s2 == PutVbi(|section|) + (section + trailing);
    ReadBackVbi(|section|, section + trailing);
  }

  /** PUBLISH with any flags: QoS 3, DUP at QoS 0 and a zero packet id are refused, in this order. */
  lemma PublishReads(dup: bool, bits: byte, retain: bool, topic: Text, id: u16, payload: Bytes)
    requires bits < 4 && |topic| <= 0xFFFF
    ensures DecodePacket(0x30 + (if dup then 8 else 0) + 2 * (bits as int) + (if retain then 1 else 0),
                         DataForm(topic) + ((if bits == 0 then [] else TwoByteForm(id)) + payload)) ==
      if bits == 3 then Err(MalformedBody(InvalidQos(3)))
      else if bits == 0 && dup then Err(MalformedBody(DupAtQos0))
      else if bits == 0 then Ok(Publish(PublishPacket(dup, AtMostOnce, retain, topic, None, payload)))
      else if id == 0 then Err(MalformedBody(ZeroPacketId))
      else Ok(Publish(PublishPacket(dup, if bits == 1 then AtLeastOnce else ExactlyOnce, retain, topic, Some(id), payload)))
  {
    var flags := (if dup then 8 else 0) + 2 * (bits as int) + (if retain then 1 else 0);
    var s1 := (if bits == 0 then [] else TwoByteForm(id)) + payload;
    assert (0x30 + flags) / 16 == 3 && (0x30 + flags) % 16 == flags;
    PublishFlagsRead(dup, bits, retain, flags);
    TextReads(topic, s1);
    if bits == 0 {
      assert s1 == payload;
    } else {
      assert TwoByteForm(id) == U16(id);
      ReadBackU16(id, payload);
    }
    assert DecodePacket(0x30 + flags, DataForm(topic) + s1) == DecodePublish(DataForm(topic) + s1, flags);
  }

  lemma PublishFlagsRead(dup: bool, bits: byte, retain: bool, flags: byte)
    requires bits < 4 && flags == (if dup then 8 else 0) + 2 * (bits as int) + (if retain then 1 else 0)
    ensures Bit(flags, 8) == dup && flags / 2 % 4 == bits && Bit(flags, 1) == retain
  {
  }

  datatype Request = Request(filter: Text, options: byte)

  predicate RequestsFit(requests: seq<Request>) {
    forall i :: 0 <= i < |requests| ==> |requests[i].filter| <= 0xFFFF
  }

  function RequestsForm(requests: seq<Request>): Bytes
    requires RequestsFit(requests)
  {
    if requests == [] then [] else DataForm(requests[0].filter) + ([requests[0].options] + RequestsForm(requests[1..]))
  }

  /** The two low bits of the options are the maximum QoS; three is refused, the other bits are ignored. */
  function Requested(requests: seq<Request>): (r: Result<seq<SubscribeTopic>, CodecError>)
  {
    if requests == [] then Ok([])
    else match requests[0].options % 4
      case 3 => Err(MalformedBody(InvalidQos(3)))
      case bits =>
        var rest :- Requested(requests[1..]);
        Ok([SubscribeTopic(requests[0].filter,
                           if bits == 0 then AtMostOnce else if bits == 1 then AtLeastOnce else ExactlyOnce)] + rest)
  }

  lemma {:induction false} RequestsRead(requests: seq<Request>)
    requires RequestsFit(requests)
    ensures ReadTopics(RequestsForm(requests)) == Requested(requests)
  {
    if requests != [] {
      var s2 := RequestsForm(requests[1..]);
      var s1 := [requests[0].options] + s2;
      TextReads(requests[0].filter, s1);
      assert s1[1..] == s2;
      RequestsRead(requests[1..]);
      RequestReads(DataForm(requests[0].filter) + s1, requests[0], s1, s2);
    }
  }

  lemma RequestReads(s: Bytes, r: Request, s1: Bytes, s2: Bytes)
    requires s != [] && ReadString(s) == Ok((r.filter, s1)) && ReadU8(s1) == Ok((r.options, s2))
    ensures ReadTopics(s) ==
      if r.options % 4 == 3 then Err(MalformedBody(InvalidQos(3)))
      else if ReadTopics(s2).Err? then Err(ReadTopics(s2).error)
      else Ok([SubscribeTopic(r.filter, QosFromLevel(r.options % 4).value)] + ReadTopics(s2).value)
  {
  }

  /** SUBSCRIBE with any options bytes. */
  lemma SubscribeReads(id: u16, requests: seq<Request>)
    requires RequestsFit(requests) && id != 0 && requests != []
    ensures DecodePacket(0x82, TwoByteForm(id) + RequestsForm(requests)) ==
      match Requested(requests)
      case Ok(topics) => Ok(Subscribe(id, topics))
      case Err(e) => Err(e)
  {
    var s := RequestsForm(requests);
    assert TwoByteForm(id) == U16(id);
    ReadBackU16(id, s);
    RequestsRead(requests);
    SubscribeParts(TwoByteForm(id) + s, id, s);
  }

  lemma SubscribeParts(s: Bytes, id: u16, s1: Bytes)
    requires ReadPacketId(s) == Ok((id, s1)) && s1 != []
    ensures DecodePacket(0x82, s) ==
      match ReadTopics(s1)
      case Ok(topics) => Ok(Subscribe(id, topics))
      case Err(e) => Err(e)
  {
    assert DecodePacket(0x82, s) == DecodeBody(8, 2, s);
  }
}
