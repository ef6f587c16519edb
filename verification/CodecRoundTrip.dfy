/** Encoding and decoding are inverse to each other, for all 14 packet types. */
module CodecRoundTrip {
  import opened Basics
  import opened Packets
  import opened Wire
  import opened Codec
  import opened CodecConnect

  /** The packets that have a wire form of their own. */
  predicate WellFormed(p: Packet) {
    match p
    case Connect(c) =>
      && c.protocolLevel in {MQTT_3_1_LEVEL, MQTT_3_1_1_LEVEL, MQTT_5_LEVEL}
      && (c.properties.Some? <==> c.protocolLevel == MQTT_5_LEVEL)
    case Connack(_, _, level) => level in {MQTT_3_1_1_LEVEL, MQTT_5_LEVEL}
    case Publish(pub) =>
      && (pub.packetId == None <==> pub.qos == AtMostOnce)
      && pub.packetId != Some(0)
      && (pub.dup ==> pub.qos != AtMostOnce)
    case Subscribe(id, topics) => id != 0 && topics != []
    case Suback(id, _) => id != 0
    case Unsubscribe(id, filters) => id != 0 && filters != []
    case Pingreq => true
    case Pingresp => true
    case Disconnect => true
    case _ => p.id != 0
  }

  // ---------- bodies decode to what was encoded ----------

  lemma ReadBackConnect(c: ConnectPacket)
    requires WellFormed(Connect(c)) && EncodeConnect(c).Ok?
    ensures DecodeConnect(EncodeConnect(c).value) == Ok(Connect(c))
  {
    ConnectWrites(c);
    PropertiesWritten(c);
    ConnectReads(MQTT_NAME, c, Written(c), [], []);
    assert EncodeConnect(c).value + [] == EncodeConnect(c).value;
  }

  lemma ReadBackConnack(present: bool, code: byte, level: byte)
    requires level in {MQTT_3_1_1_LEVEL, MQTT_5_LEVEL}
    ensures DecodeConnack(EncodeBody(Connack(present, code, level)).value) == Ok(Connack(present, code, level))
  {
    var s := EncodeBody(Connack(present, code, level)).value;
    if level == MQTT_5_LEVEL {
      assert s[1..][1..] == PutVbi(0) + [];
      ReadBackVbi(0, []);
    } else {
      assert s[1..][1..] == [];
    }
  }

  lemma ReadBackPublish(p: PublishPacket)
    requires WellFormed(Publish(p)) && EncodePublish(p).Ok?
    ensures DecodePublish(EncodePublish(p).value, PublishFlags(p)) == Ok(Publish(p))
  {
    var flags := PublishFlags(p);
    assert Bit(flags, 8) == p.dup && flags / 2 % 4 == p.qos.Level() && Bit(flags, 1) == p.retain;
    if p.packetId.Some? {
      ReadBackString(p.topic, U16(p.packetId.value) + p.payload);
      ReadBackU16(p.packetId.value, p.payload);
    } else {
      assert [] + p.payload == p.payload;
      ReadBackString(p.topic, p.payload);
    }
  }

  lemma {:induction false} ReadBackTopics(topics: seq<SubscribeTopic>)
    requires PutTopics(topics).Ok?
    ensures ReadTopics(PutTopics(topics).value) == Ok(topics)
  {
    if topics != [] {
      var rest := PutTopics(topics[1..]).value;
      ReadBackTopics(topics[1..]);
      ReadBackString(topics[0].filter, [topics[0].qos.Level()] + rest);
      assert ([topics[0].qos.Level()] + rest)[1..] == rest;
      ReadTopicsHead(PutTopics(topics).value, topics[0], [topics[0].qos.Level()] + rest, topics[1..]);
      assert topics == [topics[0]] + topics[1..];
    }
  }

  lemma ReadTopicsHead(s: Bytes, first: SubscribeTopic, s1: Bytes, others: seq<SubscribeTopic>)
    requires s != [] && ReadString(s) == Ok((first.filter, s1))
    requires s1 != [] && s1[0] == first.qos.Level() && ReadTopics(s1[1..]) == Ok(others)
    ensures ReadTopics(s) == Ok([first] + others)
  {
    QosByte(s1[0], first.qos);
    ReadTopicsParts(s, first.filter, s1, s1[0], s1[1..], others);
  }

  lemma QosByte(b: byte, qos: QoS)
    requires b == qos.Level()
    ensures b % 4 == b && b != 3 && QosFromLevel(b) == Some(qos)
  {
  }

  lemma ReadTopicsParts(s: Bytes, filter: Text, s1: Bytes, options: byte, s2: Bytes, others: seq<SubscribeTopic>)
    requires s != [] && ReadString(s) == Ok((filter, s1)) && ReadU8(s1) == Ok((options, s2)) && ReadTopics(s2) == Ok(others)
    requires options % 4 == options && options != 3
    ensures QosFromLevel(options).Some?
    ensures ReadTopics(s) == Ok([SubscribeTopic(filter, QosFromLevel(options).value)] + others)
  {
  }

  lemma {:induction false} ReadBackFilters(filters: seq<Text>)
    requires PutFilters(filters).Ok?
    ensures ReadFilters(PutFilters(filters).value) == Ok(filters)
  {
    if filters != [] {
      ReadBackString(filters[0], PutFilters(filters[1..]).value);
      ReadBackFilters(filters[1..]);
      assert filters == [filters[0]] + filters[1..];
    }
  }

  lemma ReadBackId(id: u16)
    requires id != 0
    ensures ReadPacketId(U16(id)) == Ok((id, []))
  {
    assert U16(id) + [] == U16(id);
    ReadBackU16(id, []);
  }

  lemma ReadBackSubscribe(id: u16, topics: seq<SubscribeTopic>)
    requires WellFormed(Subscribe(id, topics)) && EncodeBody(Subscribe(id, topics)).Ok?
    ensures DecodeSubscribe(EncodeBody(Subscribe(id, topics)).value) == Ok(Subscribe(id, topics))
  {
    ReadBackU16(id, PutTopics(topics).value);
    ReadBackTopics(topics);
  }

  lemma ReadBackUnsubscribe(id: u16, filters: seq<Text>)
    requires WellFormed(Unsubscribe(id, filters)) && EncodeBody(Unsubscribe(id, filters)).Ok?
    ensures DecodeUnsubscribe(EncodeBody(Unsubscribe(id, filters)).value) == Ok(Unsubscribe(id, filters))
  {
    ReadBackU16(id, PutFilters(filters).value);
    ReadBackFilters(filters);
  }

  lemma FirstByteParts(p: Packet)
    ensures FirstByte(p) / 16 == PacketTypeOf(p) && FirstByte(p) % 16 == FlagsOf(p)
    ensures RequiredFlags(PacketTypeOf(p)) in {None, Some(FlagsOf(p))}
  {
  }

  /** Every body decodes to its packet. */
  lemma BodyRoundTrip(p: Packet)
    requires WellFormed(p) && EncodeBody(p).Ok?
    ensures DecodePacket(FirstByte(p), EncodeBody(p).value) == Ok(p)
  {
    FirstByteParts(p);
    var s := EncodeBody(p).value;
    assert DecodePacket(FirstByte(p), s) == DecodeBody(PacketTypeOf(p), FlagsOf(p), s);
    BodyDecodes(p, s);
  }

  lemma BodyDecodes(p: Packet, s: Bytes)
    requires WellFormed(p) && EncodeBody(p) == Ok(s)
    ensures DecodeBody(PacketTypeOf(p), FlagsOf(p), s) == Ok(p)
  {
    if p.Connect? {
      ReadBackConnect(p.connect);
    } else if p.Publish? {
      PublishDecodes(p, s);
    } else if p.Subscribe? {
      SubscribeDecodes(p, s);
    } else if p.Unsubscribe? {
      UnsubscribeDecodes(p, s);
    } else {
      ShortBodyDecodes(p, s);
    }
  }

  lemma PublishDecodes(p: Packet, s: Bytes)
    requires p.Publish? && WellFormed(p) && EncodeBody(p) == Ok(s)
    ensures DecodeBody(PacketTypeOf(p), FlagsOf(p), s) == Ok(p)
  {
    ReadBackPublish(p.publish);
  }

  lemma SubscribeDecodes(p: Packet, s: Bytes)
    requires p.Subscribe? && WellFormed(p) && EncodeBody(p) == Ok(s)
    ensures DecodeBody(PacketTypeOf(p), FlagsOf(p), s) == Ok(p)
  {
    Dispatches(FlagsOf(p), s);
    assert DecodeSubscribe(s) == Ok(p) by {
      ReadBackSubscribe(p.id, p.topics);
    }
  }

  lemma Dispatches(flags: byte, s: Bytes)
    ensures DecodeBody(8, flags, s) == DecodeSubscribe(s) && DecodeBody(10, flags, s) == DecodeUnsubscribe(s)
  {
  }

  lemma UnsubscribeDecodes(p: Packet, s: Bytes)
    requires p.Unsubscribe? && WellFormed(p) && EncodeBody(p) == Ok(s)
    ensures DecodeBody(PacketTypeOf(p), FlagsOf(p), s) == Ok(p)
  {
    Dispatches(FlagsOf(p), s);
    assert DecodeUnsubscribe(s) == Ok(p) by {
      ReadBackUnsubscribe(p.id, p.filters);
    }
  }

  lemma ShortBodyDecodes(p: Packet, s: Bytes)
    requires WellFormed(p) && EncodeBody(p) == Ok(s)
    requires !p.Connect? && !p.Publish? && !p.Subscribe? && !p.Unsubscribe?
    ensures DecodeBody(PacketTypeOf(p), FlagsOf(p), s) == Ok(p)
  {
    if p.Connack? {
      ReadBackConnack(p.sessionPresent, p.returnCode, p.level);
    } else if p.Suback? {
      ReadBackU16(p.id, p.returnCodes);
    } else if p.Puback? || p.Pubrec? || p.Pubrel? || p.Pubcomp? || p.Unsuback? {
      ReadBackId(p.id);
    }
  }

  // ---------- frames ----------

  lemma {:induction false} LengthRoundTrip(n: nat, k: nat, tail: Bytes)
    requires k < 4 && n < (if k == 0 then 0x1000_0000 else if k == 1 then 0x20_0000 else if k == 2 then 0x4000 else 0x80)
    ensures RemainingLength(PutVbi(n) + tail, k) == Length(n, |PutVbi(n)|)
    decreases 4 - k
  {
    if n >= 128 {
      assert (PutVbi(n) + tail)[1..] == PutVbi(n / 128) + tail;
      LengthRoundTrip(n / 128, k + 1, tail);
    }
  }

  /** A frame in front of any bytes is decoded by decoding its body. */
  lemma DecodeFrame(first: byte, body: Bytes, limit: nat, tail: Bytes)
    requires |body| <= MAX_BODY && |Frame(first, body)| <= limit
    ensures Decode(Frame(first, body) + tail, limit) ==
            match DecodePacket(first, body) case Ok(p) => Got(p, |Frame(first, body)|) case Err(e) => Failed(e)
  {
    FrameIsWhole(first, body, limit, tail);
    assert (Frame(first, body) + tail)[0] == first;
  }

  lemma FrameIsWhole(first: byte, body: Bytes, limit: nat, tail: Bytes)
    requires |body| <= MAX_BODY && |Frame(first, body)| <= limit
    ensures NextFrame(Frame(first, body) + tail, limit) == Whole(body, |Frame(first, body)|)
  {
    var length := PutVbi(|body|);
    var src := Frame(first, body) + tail;
    assert src[1..] == length + (body + tail);
    LengthRoundTrip(|body|, 0, body + tail);
    assert src[1 + |length|..1 + |length| + |body|] == body;
  }

  /** An encoded packet decodes to itself, whatever follows it in the buffer. */
  lemma FrameRoundTrip(p: Packet, limit: nat, tail: Bytes)
    requires WellFormed(p) && Encode(p).Ok? && |Encode(p).value| <= limit
    ensures Decode(Encode(p).value + tail, limit) == Got(p, |Encode(p).value|)
  {
    DecodeFrame(FirstByte(p), EncodeBody(p).value, limit, tail);
    BodyRoundTrip(p);
  }
}
