/** What the decoder accepts is well-formed and survives re-encoding, in no more bytes. */
module CodecAccepted {
  import opened Basics
  import opened Packets
  import opened Wire
  import opened Codec
  import opened CodecRoundTrip

  // ---------- bodies ----------

  lemma HeadAccepted(s: Bytes)
    requires ReadConnectHead(s).Ok?
    ensures var head := ReadConnectHead(s).value.0;
            && head.level in {MQTT_3_1_LEVEL, MQTT_3_1_1_LEVEL, MQTT_5_LEVEL}
            && (head.properties.Some? <==> head.level == MQTT_5_LEVEL)
            && |s| - |ReadConnectHead(s).value.1| >=
                 10 + (if head.properties == None then 0 else if head.properties.value.sessionExpiry == None then 1 else 6)
  {
    assert |MQTT_NAME| == 4 && |MQISDP_NAME| == 6;
  }

  lemma WillAccepted(s: Bytes, level: byte, flags: byte)
    requires ReadWill(s, level, flags).Ok?
    ensures var will := ReadWill(s, level, flags).value.0;
            && (will == None ==> ReadWill(s, level, flags).value.1 == s)
            && (will.Some? ==>
                  && |will.value.topic| <= 0xFFFF && |will.value.message| <= 0xFFFF
                  && |s| - |ReadWill(s, level, flags).value.1| >=
                     (if level == MQTT_5_LEVEL then 1 else 0) + 4 + |will.value.topic| + |will.value.message|)
  {
  }

  lemma PropertiesLength(c: ConnectPacket)
    ensures |PutProperties(c)| == if c.protocolLevel != MQTT_5_LEVEL then 0
              else if c.properties == None || c.properties.value.sessionExpiry == None then 1 else 6
  {
    assert PutVbi(0) == [0] && PutVbi(5) == [5];
  }

  lemma WillLength(c: ConnectPacket)
    requires c.will.Some? ==> |c.will.value.topic| <= 0xFFFF && |c.will.value.message| <= 0xFFFF
    ensures PutWill(c).Ok?
    ensures |PutWill(c).value| == if c.will == None then 0
              else (if c.protocolLevel == MQTT_5_LEVEL then 1 else 0) + 4 + |c.will.value.topic| + |c.will.value.message|
  {
  }

  /** The length of everything in a CONNECT body but the client id, user name and password. */
  function FixedLength(level: byte, properties: Option<ConnectProperties>, will: Option<LastWill>): nat {
    10 + (if level != MQTT_5_LEVEL then 0
          else if properties == None || properties.value.sessionExpiry == None then 1 else 6)
       + (if will == None then 0
          else (if level == MQTT_5_LEVEL then 1 else 0) + 4 + |will.value.topic| + |will.value.message|)
  }

  function FieldLength(field: Option<Bytes>): nat {
    match field
    case None => 0
    case Some(b) => 2 + |b|
  }

  ghost predicate ShortFields(c: ConnectPacket) {
    && |c.clientId| <= 0xFFFF
    && (c.will.Some? ==> |c.will.value.topic| <= 0xFFFF && |c.will.value.message| <= 0xFFFF)
    && (c.username.Some? ==> |c.username.value| <= 0xFFFF)
    && (c.password.Some? ==> |c.password.value| <= 0xFFFF)
  }

  lemma EncodeConnectLength(c: ConnectPacket)
    requires ShortFields(c)
    ensures EncodeConnect(c).Ok?
    ensures |EncodeConnect(c).value| == FixedLength(c.protocolLevel, c.properties, c.will) + 2 + |c.clientId|
                                        + FieldLength(c.username) + FieldLength(c.password)
  {
    PropertiesLength(c);
    WillLength(c);
    assert |PutString(MQTT_NAME).value| == 6;
  }

  lemma DecodeConnectLength(s: Bytes)
    requires DecodeConnect(s).Ok?
    ensures var c := DecodeConnect(s).value.connect;
            && ShortFields(c)
            && FixedLength(c.protocolLevel, c.properties, c.will) + 2 + |c.clientId|
               + FieldLength(c.username) + FieldLength(c.password) <= |s|
  {
    var (head, s1) := ReadConnectHead(s).value;
    var (clientId, s2) := ReadString(s1).value;
    var (will, s3) := ReadWill(s2, head.level, head.flags).value;
    var (username, s4) := ReadUsername(s3, head.flags).value;
    var (password, s5) := ReadPassword(s4, head.flags).value;
    assert |s| - |s1| + |s2| - |s3| >= FixedLength(head.level, head.properties, will)
        && (will.Some? ==> |will.value.topic| <= 0xFFFF && |will.value.message| <= 0xFFFF) by {
      HeadAccepted(s);
      WillAccepted(s2, head.level, head.flags);
    }
    CredentialsAccepted(s3, s4, head.flags);
  }

  lemma CredentialsAccepted(s: Bytes, s': Bytes, flags: byte)
    requires ReadUsername(s, flags).Ok? && ReadPassword(s', flags).Ok?
    ensures var (username, rest) := ReadUsername(s, flags).value;
            |s| - |rest| == FieldLength(username) <= 0x1_0001
    ensures var (password, rest) := ReadPassword(s', flags).value;
            |s'| - |rest| == FieldLength(password) <= 0x1_0001
  {
  }

  lemma ConnectAccepted(s: Bytes)
    requires DecodeConnect(s).Ok?
    ensures var p := DecodeConnect(s).value;
            WellFormed(p) && EncodeBody(p).Ok? && |EncodeBody(p).value| <= |s|
  {
    ConnectWellFormed(s);
    DecodeConnectLength(s);
    ConnectFits(DecodeConnect(s).value, |s|);
  }

  lemma ConnectWellFormed(s: Bytes)
    requires DecodeConnect(s).Ok?
    ensures DecodeConnect(s).value.Connect? && WellFormed(DecodeConnect(s).value)
  {
    HeadAccepted(s);
  }

  lemma ConnectFits(p: Packet, size: nat)
    requires p.Connect? && ShortFields(p.connect)
    requires FixedLength(p.connect.protocolLevel, p.connect.properties, p.connect.will) + 2 + |p.connect.clientId|
             + FieldLength(p.connect.username) + FieldLength(p.connect.password) <= size
    ensures EncodeBody(p).Ok? && |EncodeBody(p).value| <= size
  {
    EncodeConnectLength(p.connect);
  }

  lemma {:induction false} TopicsAccepted(s: Bytes)
    requires ReadTopics(s).Ok?
    ensures PutTopics(ReadTopics(s).value).Ok? && |PutTopics(ReadTopics(s).value).value| <= |s|
    decreases |s|
  {
    if s != [] {
      var (filter, s1) := ReadString(s).value;
      var (options, s2) := ReadU8(s1).value;
      TopicsAccepted(s2);
      var rest := ReadTopics(s2).value;
      assert ReadTopics(s).value[1..] == rest;
    }
  }

  lemma {:induction false} FiltersAccepted(s: Bytes)
    requires ReadFilters(s).Ok?
    ensures PutFilters(ReadFilters(s).value).Ok? && |PutFilters(ReadFilters(s).value).value| <= |s|
    decreases |s|
  {
    if s != [] {
      var (filter, s1) := ReadString(s).value;
      FiltersAccepted(s1);
      assert ReadFilters(s).value[1..] == ReadFilters(s1).value;
    }
  }

  lemma ConnackAccepted(s: Bytes)
    requires DecodeConnack(s).Ok?
    ensures var p := DecodeConnack(s).value;
            WellFormed(p) && EncodeBody(p).Ok? && |EncodeBody(p).value| <= |s|
  {
    assert PutVbi(0) == [0];
  }

  lemma PublishAccepted(s: Bytes, flags: byte)
    requires DecodePublish(s, flags).Ok?
    ensures var p := DecodePublish(s, flags).value;
            WellFormed(p) && EncodeBody(p).Ok? && |EncodeBody(p).value| <= |s|
  {
  }

  /** Whatever body is accepted is well-formed and encodes into no more bytes. */
  lemma BodyAccepted(first: byte, s: Bytes)
    requires DecodePacket(first, s).Ok?
    ensures var p := DecodePacket(first, s).value;
            WellFormed(p) && EncodeBody(p).Ok? && |EncodeBody(p).value| <= |s|
  {
    var packetType := first / 16;
    if packetType == 1 {
      ConnectAccepted(s);
    } else if packetType == 2 {
      ConnackAccepted(s);
    } else if packetType == 3 {
      PublishAccepted(s, first % 16);
    } else if packetType == 8 {
      TopicsAccepted(ReadPacketId(s).value.1);
    } else if packetType == 10 {
      FiltersAccepted(ReadPacketId(s).value.1);
    }
  }

  // ---------- frames ----------

  /** The remaining-length field holds at most four times seven bits, and no shorter field holds the same value. */
  lemma {:induction false} LengthAccepted(s: Bytes, k: nat)
    requires k <= 4 && RemainingLength(s, k).Length?
    ensures var r := RemainingLength(s, k);
            && |PutVbi(r.value)| <= r.size
            && r.value < (if k == 0 then 0x1000_0000 else if k == 1 then 0x20_0000 else if k == 2 then 0x4000 else 0x80)
    decreases 4 - k
  {
    if s[0] >= 128 {
      LengthAccepted(s[1..], k + 1);
      var v := RemainingLength(s[1..], k + 1).value;
      var n := s[0] - 128 + 128 * v;
      if n >= 128 {
        assert n / 128 == v;
      }
    }
  }

  /** The frame a packet came from had at least the length of the one written for it. */
  lemma FrameNoLonger(p: Packet, length: nat, size: nat)
    requires EncodeBody(p).Ok? && |EncodeBody(p).value| <= length <= MAX_BODY && |PutVbi(length)| <= size
    ensures Encode(p).Ok? && |Encode(p).value| <= 1 + size + length
  {
    PutVbiMonotone(|EncodeBody(p).value|, length);
  }

  lemma AcceptedBody(src: Bytes, limit: nat)
    requires Decode(src, limit).Got?
    ensures var p, n := Decode(src, limit).packet, Decode(src, limit).size;
            var field := RemainingLength(src[1..], 0);
            && field.Length? && n == 1 + field.size + field.value
            && WellFormed(p) && EncodeBody(p).Ok? && |EncodeBody(p).value| <= field.value
  {
    BodyAccepted(src[0], NextFrame(src, limit).body);
  }

  lemma AcceptedEncodes(src: Bytes, limit: nat)
    requires Decode(src, limit).Got?
    ensures var p, n := Decode(src, limit).packet, Decode(src, limit).size;
            WellFormed(p) && Encode(p).Ok? && |Encode(p).value| <= n
  {
    AcceptedBody(src, limit);
    var field := RemainingLength(src[1..], 0);
    LengthAccepted(src[1..], 0);
    FrameNoLonger(Decode(src, limit).packet, field.value, field.size);
  }

  /**
   * Every packet the decoder returns is well-formed, re-encodes without error into a frame no longer than the one it
   * came from, and that frame decodes to the same packet.
   */
  lemma AcceptedRoundTrip(src: Bytes, limit: nat, tail: Bytes)
    requires Decode(src, limit).Got?
    ensures var p, n := Decode(src, limit).packet, Decode(src, limit).size;
            && WellFormed(p) && Encode(p).Ok? && |Encode(p).value| <= n
            && Decode(Encode(p).value + tail, limit) == Got(p, |Encode(p).value|)
  {
    AcceptedEncodes(src, limit);
    FrameRoundTrip(Decode(src, limit).packet, limit, tail);
  }

  /** The packets that can come out of the decoder are exactly the well-formed ones whose frame fits the limit. */
  lemma DecoderImage(p: Packet, limit: nat)
    ensures (exists src :: Decode(src, limit).Got? && Decode(src, limit).packet == p)
            <==> WellFormed(p) && Encode(p).Ok? && |Encode(p).value| <= limit
  {
    if src :| Decode(src, limit).Got? && Decode(src, limit).packet == p {
      AcceptedRoundTrip(src, limit, []);
    }
    if WellFormed(p) && Encode(p).Ok? && |Encode(p).value| <= limit {
      FrameRoundTrip(p, limit, []);
      assert Decode(Encode(p).value + [], limit).packet == p;
    }
  }
}
