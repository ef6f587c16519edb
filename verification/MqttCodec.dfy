/**
 * The codec as it runs: a reader with a position, output buffers that are appended to, and the frame decoder that takes
 * frames off a receive buffer. Each method is proved against the function of Codec or Wire of the same name.
 */
module MqttCodec {
  import opened Basics
  import opened Packets
  import opened Wire
  import opened Codec

  const MAX_MULTIPLIER: nat := 128 * 128 * 128

  lemma HornerStep(m: nat, value: nat, b: byte, v: nat)
    requires b >= 128
    ensures value + m * (b as int - 128 + 128 * v) == value + (b as int % 128) * m + m * 128 * v
  {
    assert b as int % 128 == b as int - 128;
    assert m * (b as int - 128 + 128 * v) == m * (b as int - 128) + m * (128 * v);
    assert m * (128 * v) == m * 128 * v;
  }

  /** The value read so far with what remains to be read. */
  function Scaled(r: Read<nat>, value: nat, multiplier: nat): Read<nat> {
    match r
    case Ok((v, s)) => Ok((value + multiplier * v, s))
    case Err(e) => Err(e)
  }

  lemma ScaleUnit(r: Read<nat>)
    ensures Scaled(r, 0, 1) == r
  {
  }

  /** One byte of a variable byte integer. */
  lemma VbiStep(s: Bytes, k: nat, value: nat, m: nat)
    requires k < 4
    ensures s == [] ==> Scaled(ReadVbiFrom(s, k), value, m) == Err(MalformedBody(EofU8))
    ensures s != [] && s[0] < 128 ==> Scaled(ReadVbiFrom(s, k), value, m) == Ok((value + (s[0] as int % 128) * m, s[1..]))
    ensures s != [] && s[0] >= 128 ==>
              Scaled(ReadVbiFrom(s, k), value, m) ==
              if k == 3 then Err(MalformedBody(VbiOverflow))
              else Scaled(ReadVbiFrom(s[1..], k + 1), value + (s[0] as int % 128) * m, m * 128)
  {
    if s != [] && s[0] >= 128 && k < 3 && ReadVbiFrom(s[1..], k + 1).Ok? {
      HornerStep(m, value, s[0], ReadVbiFrom(s[1..], k + 1).value.0);
    }
  }

  /** The topics read so far with those that remain to be read. */
  function WithTopics(topics: seq<SubscribeTopic>, r: Result<seq<SubscribeTopic>, CodecError>)
    : Result<seq<SubscribeTopic>, CodecError>
  {
    match r
    case Ok(more) => Ok(topics + more)
    case Err(e) => Err(e)
  }

  lemma WithNone(r: Result<seq<SubscribeTopic>, CodecError>)
    ensures WithTopics([], r) == r
  {
    if r.Ok? {
      assert [] + r.value == r.value;
    }
  }

  lemma WithMore(topics: seq<SubscribeTopic>, topic: SubscribeTopic, r: Result<seq<SubscribeTopic>, CodecError>)
    ensures WithTopics(topics, WithTopics([topic], r)) == WithTopics(topics + [topic], r)
  {
    if r.Ok? {
      assert topics + ([topic] + r.value) == (topics + [topic]) + r.value;
    }
  }

  lemma TakeOne(done: Bytes, before: Bytes, b: byte, rest: Bytes)
    requires before != [] && b == before[0] && rest == before[1..]
    ensures done + before == (done + [b]) + rest
  {
  }

  // ---------- reading ----------

  lemma NoMoreProperties(s: Bytes, end: nat, props: ConnectProperties)
    requires |s| <= end
    ensures ReadProperties(s, end, props) == Ok((props, s))
  {
  }

  class Reader {
    const buf: Bytes
    var pos: nat

    constructor (buf: Bytes)
      ensures this.buf == buf && Valid() && Rest() == buf
    {
      this.buf := buf;
      pos := 0;
    }

    ghost predicate Valid()
      reads this
    {
      pos <= |buf|
    }

    ghost function Rest(): Bytes
      requires Valid()
      reads this
    {
      buf[pos..]
    }

    /** The outcome and the new position are those of the reading function. */
    ghost predicate Follows<T>(r: Result<T, CodecError>, spec: Read<T>)
      reads this
    {
      match spec
      case Ok((value, rest)) => r == Ok(value) && Valid() && Rest() == rest
      case Err(e) => r == Err(e)
    }

    function Remaining(): nat
      requires Valid()
      reads this
      ensures Remaining() == |Rest()|
    {
      |buf| - pos
    }

    method ReadU8() returns (r: Result<byte, CodecError>)
      requires Valid()
      modifies this
      ensures Valid() && Follows(r, Wire.ReadU8(old(Rest())))
    {
      if pos >= |buf| {
        return Err(MalformedBody(EofU8));
      }
      var v := buf[pos];
      pos := pos + 1;
      r := Ok(v);
    }

    method ReadU16() returns (r: Result<u16, CodecError>)
      requires Valid()
      modifies this
      ensures Valid() && Follows(r, Wire.ReadU16(old(Rest())))
    {
      if Remaining() < 2 {
        return Err(MalformedBody(EofU16));
      }
      var v := Word(buf[pos], buf[pos + 1]);
      pos := pos + 2;
      r := Ok(v);
    }

    method ReadBytes(n: nat) returns (r: Result<Bytes, CodecError>)
      requires Valid()
      modifies this
      ensures Valid() && Follows(r, Wire.ReadBytes(old(Rest()), n))
    {
      if Remaining() < n {
        return Err(MalformedBody(EofBytes(n)));
      }
      var v := buf[pos..pos + n];
      assert v == Rest()[..n];
      pos := pos + n;
      r := Ok(v);
    }

    method ReadBinary() returns (r: Result<Bytes, CodecError>)
      requires Valid()
      modifies this
      ensures Valid() && Follows(r, Wire.ReadBinary(old(Rest())))
    {
      var n :- ReadU16();
      r := ReadBytes(n);
    }

    method ReadString() returns (r: Result<Text, CodecError>)
      requires Valid()
      modifies this
      ensures Valid() && Follows(r, Wire.ReadString(old(Rest())))
    {
      var raw :- ReadBinary();
      if !ValidUtf8(raw) {
        return Err(MalformedUtf8);
      }
      r := Ok(raw);
    }

    method ReadPacketId() returns (r: Result<u16, CodecError>)
      requires Valid()
      modifies this
      ensures Valid() && Follows(r, Wire.ReadPacketId(old(Rest())))
    {
      var id :- ReadU16();
      if id == 0 {
        return Err(MalformedBody(ZeroPacketId));
      }
      r := Ok(id);
    }

    /** A variable byte integer, accumulated with a growing multiplier. */
    method ReadVbi() returns (r: Result<nat, CodecError>)
      requires Valid()
      modifies this
      ensures Valid() && Follows(r, Wire.ReadVbi(old(Rest())))
    {
      var multiplier: nat, value: nat := 1, 0;
      ghost var k: nat := 0;
      ghost var start := Rest();
      ScaleUnit(ReadVbiFrom(start, 0));
      var last := false;
      while !last
        invariant Valid() && k <= 4
        invariant !last ==> k < 4 && multiplier == Power128(k)
        invariant Wire.ReadVbi(start) ==
                  if last then Ok((value, Rest())) else Scaled(ReadVbiFrom(Rest(), k), value, multiplier)
        decreases 4 - k, !last
      {
        var next :- ReadVbiByte(value, multiplier, k);
        last, value := next.0, next.1;
        multiplier := multiplier * 128;
        k := k + 1;
      }
      r := Ok(value);
    }

    /** One byte of a variable byte integer, the k-th; whether it is the last, and the value with it. */
    method ReadVbiByte(value: nat, multiplier: nat, ghost k: nat) returns (r: Result<(bool, nat), CodecError>)
      requires Valid() && k < 4 && multiplier == Power128(k)
      modifies this
      ensures Valid()
      ensures Scaled(ReadVbiFrom(old(Rest()), k), value, multiplier) ==
              match r
              case Err(e) => Err(e)
              case Ok((last, v)) =>
                if last then Ok((v, Rest()))
                else if k == 3 then Err(MalformedBody(VbiOverflow))
                else Scaled(ReadVbiFrom(Rest(), k + 1), v, multiplier * 128)
      ensures r.Ok? && !r.value.0 ==> k < 3
    {
      PowerValues();
      VbiStep(Rest(), k, value, multiplier);
      var b :- ReadU8();
      var next := value + (b as int % 128) * multiplier;
      if b < 128 {
        return Ok((true, next));
      }
      if multiplier * 128 > MAX_MULTIPLIER {
        return Err(MalformedBody(VbiOverflow));
      }
      r := Ok((false, next));
    }

    method Skip(n: nat) returns (r: Result<(), CodecError>)
      requires Valid()
      modifies this
      ensures Valid() && r == (match Wire.ReadBytes(old(Rest()), n) case Ok(_) => Ok(()) case Err(e) => Err(e))
      ensures r.Ok? ==> Rest() == old(Rest())[n..]
    {
      var _ :- ReadBytes(n);
      r := Ok(());
    }

    /** Pass over the value of a property, by the type its identifier has. */
    method SkipPropertyValue(id: nat) returns (r: Result<(), CodecError>)
      requires Valid()
      modifies this
      ensures Valid() && r == (match SkipProperty(old(Rest()), id) case Ok(_) => Ok(()) case Err(e) => Err(e))
      ensures r.Ok? ==> Rest() == SkipProperty(old(Rest()), id).value
    {
      if id in {0x01, 0x17, 0x19, 0x22, 0x23, 0x26, 0x27, 0x28} {
        var _ :- ReadU8();
      } else if id in {0x13, 0x1E, 0x1F, 0x21} {
        var _ :- ReadU16();
      } else if id in {0x02, 0x11, 0x18, 0x25} {
        var _ :- ReadBytes(4);
      } else if id == 0x0B {
        var _ :- ReadVbi();
      } else if id in {0x03, 0x08, 0x0C, 0x12, 0x15, 0x1A, 0x1C, 0x1D, 0x09, 0x16} {
        var _ :- ReadBinary();
      } else if id == 0x24 {
        var _ :- ReadBinary();
        var _ :- ReadBinary();
      } else {
        return Err(MalformedBody(UnknownProperty(id)));
      }
      r := Ok(());
    }

    method ParseConnectProperties(size: nat) returns (r: Result<ConnectProperties, CodecError>)
      requires Valid() && size <= Remaining()
      modifies this
      ensures Valid()
      ensures Follows(r, ReadProperties(old(Rest()), |old(Rest())| - size, ConnectProperties(None)))
    {
      var props := ConnectProperties(None);
      var end := pos + size;
      ghost var rest := |Rest()| - size;
      ghost var spec := ReadProperties(Rest(), rest, props);
      while pos < end
        invariant Valid() && rest == |buf| - end
        invariant ReadProperties(Rest(), rest, props) == spec
        decreases |buf| - pos
      {
        props :- ReadProperty(props, rest);
      }
      NoMoreProperties(Rest(), rest, props);
      r := Ok(props);
    }

    /** One property: a session expiry is kept, any other is skipped. `rest` bytes follow the declared section. */
    method ReadProperty(props: ConnectProperties, ghost rest: nat) returns (r: Result<ConnectProperties, CodecError>)
      requires Valid() && |Rest()| > rest
      modifies this
      ensures Valid() && (r.Ok? ==> |Rest()| < |old(Rest())|)
      ensures ReadProperties(old(Rest()), rest, props) ==
              match r case Ok(next) => ReadProperties(Rest(), rest, next) case Err(e) => Err(e)
    {
      var id :- ReadVbi();
      if id == 0x11 {
        if Remaining() < 4 {
          return Err(MalformedBody(ExpiryTruncated));
        }
        var raw := ReadBytes(4);
        return Ok(ConnectProperties(Some(ReadU32(raw.value))));
      }
      var _ :- SkipPropertyValue(id);
      r := Ok(props);
    }

    method ReadConnectProperties() returns (r: Result<ConnectProperties, CodecError>)
      requires Valid()
      modifies this
      ensures Valid() && Follows(r, Codec.ReadConnectProperties(old(Rest())))
    {
      var size :- ReadVbi();
      if Remaining() < size {
        return Err(MalformedBody(ConnectPropertiesTruncated));
      }
      r := ParseConnectProperties(size);
    }

    method ReadProtocolLevel() returns (r: Result<byte, CodecError>)
      requires Valid()
      modifies this
      ensures Valid() && Follows(r, Codec.ReadProtocolLevel(old(Rest())))
    {
      var name :- ReadString();
      if name != MQTT_NAME && name != MQISDP_NAME {
        return Err(InvalidProtocol(name));
      }
      var level :- ReadU8();
      if level != MQTT_3_1_1_LEVEL && level != MQTT_3_1_LEVEL && level != MQTT_5_LEVEL {
        return Err(UnsupportedVersion(level));
      }
      r := Ok(level);
    }

    method ReadConnectHead() returns (r: Result<ConnectHead, CodecError>)
      requires Valid()
      modifies this
      ensures Valid() && Follows(r, Codec.ReadConnectHead(old(Rest())))
    {
      var level :- ReadProtocolLevel();
      var flags :- ReadU8();
      var keepAlive :- ReadU16();
      var properties := None;
      if level == MQTT_5_LEVEL {
        var props :- ReadConnectProperties();
        properties := Some(props);
      }
      r := Ok(ConnectHead(level, flags, keepAlive, properties));
    }

    method SkipWillProperties(level: byte) returns (r: Result<(), CodecError>)
      requires Valid()
      modifies this
      ensures Valid() && r == (match Codec.SkipWillProperties(old(Rest()), level) case Ok(_) => Ok(()) case Err(e) => Err(e))
      ensures r.Ok? ==> Rest() == Codec.SkipWillProperties(old(Rest()), level).value
    {
      if level == MQTT_5_LEVEL {
        var size :- ReadVbi();
        if Remaining() < size {
          return Err(MalformedBody(WillPropertiesTruncated));
        }
        var _ := Skip(size);
      }
      r := Ok(());
    }

    method ReadWill(level: byte, flags: byte) returns (r: Result<Option<LastWill>, CodecError>)
      requires Valid()
      modifies this
      ensures Valid() && Follows(r, Codec.ReadWill(old(Rest()), level, flags))
    {
      if !Bit(flags, 0x04) {
        return Ok(None);
      }
      var bits := flags / 8 % 4;
      if bits == 3 {
        return Err(MalformedBody(InvalidWillQos(bits)));
      }
      var _ :- SkipWillProperties(level);
      var topic :- ReadString();
      var message :- ReadBinary();
      r := Ok(Some(LastWill(topic, message, QosFromLevel(bits).value, Bit(flags, 0x20))));
    }

    method DecodeConnect() returns (r: Result<Packet, CodecError>)
      requires Valid()
      modifies this
      ensures r == Codec.DecodeConnect(old(Rest()))
    {
      var head :- ReadConnectHead();
      var clientId :- ReadString();
      var will :- ReadWill(head.level, head.flags);
      var username: Option<Text> := None;
      if Bit(head.flags, 0x80) {
        var name :- ReadString();
        username := Some(name);
      }
      var password: Option<Bytes> := None;
      if Bit(head.flags, 0x40) {
        var secret :- ReadBinary();
        password := Some(secret);
      }
      r := Ok(Connect(ConnectPacket(head.level, head.keepAlive, clientId, Bit(head.flags, 0x02), will, username,
                                    password, head.properties)));
    }

    method DecodeConnack() returns (r: Result<Packet, CodecError>)
      requires Valid()
      modifies this
      ensures r == Codec.DecodeConnack(old(Rest()))
    {
      var flags :- ReadU8();
      var code :- ReadU8();
      var level := MQTT_3_1_1_LEVEL;
      if Remaining() > 0 {
        var size :- ReadVbi();
        if Remaining() < size {
          return Err(MalformedBody(ConnackPropertiesTruncated));
        }
        var _ := Skip(size);
        level := MQTT_5_LEVEL;
      }
      r := Ok(Connack(Bit(flags, 0x01), code, level));
    }

    method DecodePublish(flags: byte) returns (r: Result<Packet, CodecError>)
      requires Valid()
      modifies this
      ensures r == Codec.DecodePublish(old(Rest()), flags)
    {
      var dup, bits, retain := Bit(flags, 0x08), flags / 2 % 4, Bit(flags, 0x01);
      if bits == 3 {
        return Err(MalformedBody(InvalidQos(bits)));
      }
      var qos := QosFromLevel(bits).value;
      if qos == AtMostOnce && dup {
        return Err(MalformedBody(DupAtQos0));
      }
      var topic :- ReadString();
      var packetId: Option<u16> := None;
      if qos != AtMostOnce {
        var id :- ReadPacketId();
        packetId := Some(id);
      }
      ghost var rest := Rest();
      var payload := ReadBytes(Remaining());
      assert payload.value == rest;
      r := Ok(Publish(PublishPacket(dup, qos, retain, topic, packetId, payload.value)));
    }

    /** One topic of SUBSCRIBE: filter and options. */
    method ReadTopic() returns (r: Result<SubscribeTopic, CodecError>)
      requires Valid() && Rest() != []
      modifies this
      ensures Valid() && (r.Ok? ==> |Rest()| < |old(Rest())|)
      ensures ReadTopics(old(Rest())) ==
              match r case Ok(topic) => WithTopics([topic], ReadTopics(Rest())) case Err(e) => Err(e)
    {
      var filter :- ReadString();
      var options :- ReadU8();
      var bits := options % 4;
      if bits == 3 {
        return Err(MalformedBody(InvalidQos(bits)));
      }
      r := Ok(SubscribeTopic(filter, QosFromLevel(bits).value));
    }

    method ReadTopicList() returns (r: Result<seq<SubscribeTopic>, CodecError>)
      requires Valid()
      modifies this
      ensures r == ReadTopics(old(Rest()))
    {
      ghost var start := Rest();
      var topics: seq<SubscribeTopic> := [];
      WithNone(ReadTopics(start));
      while Remaining() > 0
        invariant Valid()
        invariant ReadTopics(start) == WithTopics(topics, ReadTopics(Rest()))
        decreases Remaining()
      {
        ghost var before := topics;
        var topic :- ReadTopic();
        WithMore(before, topic, ReadTopics(Rest()));
        topics := topics + [topic];
      }
      assert Rest() == [] && topics + [] == topics;
      r := Ok(topics);
    }

    method DecodeSubscribe() returns (r: Result<Packet, CodecError>)
      requires Valid()
      modifies this
      ensures r == Codec.DecodeSubscribe(old(Rest()))
    {
      var id :- ReadPacketId();
      var topics :- ReadTopicList();
      if topics == [] {
        return Err(MalformedBody(SubscribeWithoutTopic));
      }
      r := Ok(Subscribe(id, topics));
    }

    method DecodeUnsubscribe() returns (r: Result<Packet, CodecError>)
      requires Valid()
      modifies this
      ensures r == Codec.DecodeUnsubscribe(old(Rest()))
    {
      var id :- ReadPacketId();
      ghost var start := Rest();
      var filters: seq<Text> := [];
      assert forall more :: filters + more == more;
      while Remaining() > 0
        invariant Valid()
        invariant ReadFilters(start) ==
                  match ReadFilters(Rest()) case Ok(more) => Ok(filters + more) case Err(e) => Err(e)
        decreases Remaining()
      {
        var filter :- ReadString();
        assert forall more :: filters + ([filter] + more) == (filters + [filter]) + more;
        filters := filters + [filter];
      }
      assert Rest() == [] && filters + [] == filters;
      if filters == [] {
        return Err(MalformedBody(UnsubscribeWithoutTopic));
      }
      r := Ok(Unsubscribe(id, filters));
    }

    method DecodeSuback() returns (r: Result<Packet, CodecError>)
      requires Valid()
      modifies this
      ensures r == DecodeBody(9, 0, old(Rest()))
    {
      var id :- ReadPacketId();
      var codes := ReadCodes();
      r := Ok(Suback(id, codes));
    }

    /** All the bytes that are left, one by one. */
    method ReadCodes() returns (codes: Bytes)
      requires Valid()
      modifies this
      ensures codes == old(Rest())
    {
      ghost var start := Rest();
      codes := [];
      while Remaining() > 0
        invariant Valid() && start == codes + Rest()
        decreases Remaining()
      {
        ghost var before := Rest();
        var code := ReadU8();
        TakeOne(codes, before, code.value, Rest());
        codes := codes + [code.value];
      }
      assert Rest() == [] && codes + [] == codes;
    }
  }

  method DecodePacketBody(first: byte, payload: Bytes) returns (r: Result<Packet, CodecError>)
    ensures r == DecodePacket(first, payload)
  {
    var packetType, flags := first / 16, first % 16;
    if packetType < 1 || packetType > 14 {
      return Err(InvalidPacketType(packetType));
    }
    if RequiredFlags(packetType) != None && RequiredFlags(packetType) != Some(flags) {
      return Err(InvalidFlags(packetType, flags));
    }
    var reader := new Reader(payload);
    if packetType == 1 {
      r := reader.DecodeConnect();
    } else if packetType == 2 {
      r := reader.DecodeConnack();
    } else if packetType == 3 {
      r := reader.DecodePublish(flags);
    } else if packetType == 8 {
      r := reader.DecodeSubscribe();
    } else if packetType == 9 {
      r := reader.DecodeSuback();
    } else if packetType == 10 {
      r := reader.DecodeUnsubscribe();
    } else if packetType >= 12 {
      r := Ok(if packetType == 12 then Pingreq else if packetType == 13 then Pingresp else Disconnect);
    } else {
      var id :- reader.ReadPacketId();
      r := Ok(if packetType == 4 then Puback(id) else if packetType == 5 then Pubrec(id)
              else if packetType == 6 then Pubrel(id) else if packetType == 7 then Pubcomp(id) else Unsuback(id));
    }
  }

  /** The remaining-length field behind the first byte: its value and the length of the whole fixed header. */
  method DecodeRemainingLength(src: Bytes) returns (r: Result<Option<(nat, nat)>, CodecError>)
    requires |src| >= 1
    ensures r == match RemainingLength(src[1..], 0)
                 case Incomplete => Ok(None)
                 case Oversized => Err(InvalidRemainingLength(LowBits(src[1..5])))
                 case Length(v, n) => Ok(Some((v, 1 + n)))
  {
    var multiplier: nat, value: nat, idx: nat := 1, 0, 1;
    while true
      invariant 1 <= idx <= |src| && idx <= 5 && multiplier == Power128(idx - 1)
      invariant LengthSoFar(src, idx, multiplier, value)
      decreases 5 - idx
    {
      PowerValues();
      if idx >= |src| {
        return Ok(None);
      }
      if multiplier > MAX_MULTIPLIER {
        return Err(InvalidRemainingLength(value));
      }
      var b := src[idx];
      if b < 128 {
        LengthEnds(src, idx, multiplier, value);
      } else {
        LengthGoesOn(src, idx, multiplier, value);
      }
      value := value + (b as int % 128) * multiplier;
      idx := idx + 1;
      if b < 128 {
        return Ok(Some((value, idx)));
      }
      multiplier := multiplier * 128;
    }
  }

  /** What the bytes up to `idx` contribute, and how the field goes on. */
  ghost predicate LengthSoFar(src: Bytes, idx: nat, multiplier: nat, value: nat)
    requires 1 <= idx <= |src| && idx <= 5
  {
    && value == LowBits(src[1..idx])
    && RemainingLength(src[1..], 0) == Lift(RemainingLength(src[idx..], idx - 1), value, multiplier, idx - 1)
  }

  /** A field whose first `k` bytes contributed `value`. */
  function Lift(field: LengthField, value: nat, multiplier: nat, k: nat): LengthField {
    match field
    case Length(v, n) => Length(value + multiplier * v, k + n)
    case other => other
  }

  /** A field in front of which stands the continued byte `b`. */
  function Behind(b: byte, field: LengthField): LengthField
    requires b >= 128
  {
    match field
    case Length(v, n) => Length(b - 128 + 128 * v, n + 1)
    case other => other
  }

  lemma LiftStep(field: LengthField, b: byte, value: nat, multiplier: nat, k: nat)
    requires b >= 128
    ensures Lift(Behind(b, field), value, multiplier, k)
         == Lift(field, value + (b as int % 128) * multiplier, multiplier * 128, k + 1)
  {
    if field.Length? {
      HornerStep(multiplier, value, b, field.value);
    }
  }

  lemma LengthEnds(src: Bytes, idx: nat, multiplier: nat, value: nat)
    requires 1 <= idx < |src| && idx <= 4 && src[idx] < 128
    requires LengthSoFar(src, idx, multiplier, value)
    ensures RemainingLength(src[1..], 0) == Length(value + (src[idx] as int % 128) * multiplier, idx)
  {
    NextLengthByte(src, idx);
    assert multiplier * (src[idx] as int % 128) == (src[idx] as int % 128) * multiplier;
  }

  lemma LengthGoesOn(src: Bytes, idx: nat, multiplier: nat, value: nat)
    requires 1 <= idx < |src| && idx <= 4 && src[idx] >= 128 && multiplier == Power128(idx - 1)
    requires LengthSoFar(src, idx, multiplier, value)
    ensures LengthSoFar(src, idx + 1, multiplier * 128, value + (src[idx] as int % 128) * multiplier)
  {
    LowBitsStep(src, idx);
    NextLengthByte(src, idx);
    LiftStep(RemainingLength(src[idx + 1..], idx), src[idx], value, multiplier, idx - 1);
  }

  lemma LowBitsStep(src: Bytes, idx: nat)
    requires 1 <= idx < |src|
    ensures LowBits(src[1..idx + 1]) == LowBits(src[1..idx]) + (src[idx] as int % 128) * Power128(idx - 1)
  {
    LowBitsAppend(src[1..idx], src[idx]);
    assert src[1..idx] + [src[idx]] == src[1..idx + 1];
  }

  lemma NextLengthByte(src: Bytes, idx: nat)
    requires 1 <= idx < |src| && idx <= 4
    ensures RemainingLength(src[idx..], idx - 1) ==
            if src[idx] < 128 then Length(src[idx] % 128, 1)
            else Behind(src[idx], RemainingLength(src[idx + 1..], idx))
  {
    assert src[idx..][1..] == src[idx + 1..];
  }

  function Power128(k: nat): nat {
    if k == 0 then 1 else 128 * Power128(k - 1)
  }

  lemma PowerValues()
    ensures Power128(0) == 1 && Power128(1) == 0x80 && Power128(2) == 0x4000 && Power128(3) == 0x20_0000
    ensures Power128(4) == 0x1000_0000
  {
    assert Power128(1) == 128 * Power128(0);
    assert Power128(2) == 128 * Power128(1);
    assert Power128(3) == 128 * Power128(2);
    assert Power128(4) == 128 * Power128(3);
  }

  lemma {:induction false} LowBitsAppend(s: Bytes, b: byte)
    ensures LowBits(s + [b]) == LowBits(s) + (b as int % 128) * Power128(|s|)
  {
    if s == [] {
      assert (s + [b])[1..] == [];
    } else {
      assert (s + [b])[1..] == s[1..] + [b];
      LowBitsAppend(s[1..], b);
      assert 128 * ((b as int % 128) * Power128(|s| - 1)) == (b as int % 128) * (128 * Power128(|s| - 1));
    }
  }

  // ---------- writing ----------

  class Buffer {
    var data: Bytes

    constructor ()
      ensures data == []
    {
      data := [];
    }

    method PutText(t: Text) returns (r: Result<(), CodecError>)
      modifies this
      ensures r == (match PutString(t) case Ok(_) => Ok(()) case Err(e) => Err(e))
      ensures r.Ok? ==> data == old(data) + PutString(t).value
    {
      if |t| > 0xFFFF {
        return Err(MalformedBody(StringTooLong(|t|)));
      }
      data := data + U16(|t|);
      data := data + t;
      r := Ok(());
    }

    method PutBlob(b: Bytes) returns (r: Result<(), CodecError>)
      modifies this
      ensures r == (match PutBinary(b) case Ok(_) => Ok(()) case Err(e) => Err(e))
      ensures r.Ok? ==> data == old(data) + PutBinary(b).value
    {
      if |b| > 0xFFFF {
        return Err(MalformedBody(BinaryTooLong(|b|)));
      }
      data := data + U16(|b|);
      data := data + b;
      r := Ok(());
    }

    /** Seven bits a byte, low bits first, until nothing is left. */
    method PutRemainingLength(n: nat)
      modifies this
      ensures data == old(data) + PutVbi(n)
    {
      var value := n;
      while true
        invariant data + PutVbi(value) == old(data) + PutVbi(n)
        decreases value
      {
        var b := value % 128;
        ghost var rest := if value < 128 then [] else PutVbi(value / 128);
        value := value / 128;
        if value > 0 {
          b := b + 128;
        }
        assert data + ([b] + rest) == (data + [b]) + rest;
        data := data + [b];
        if value == 0 {
          return;
        }
      }
    }

    method PutSubscribeTopics(topics: seq<SubscribeTopic>) returns (r: Result<(), CodecError>)
      modifies this
      ensures r == (match PutTopics(topics) case Ok(_) => Ok(()) case Err(e) => Err(e))
      ensures r.Ok? ==> data == old(data) + PutTopics(topics).value
    {
      assert topics[0..] == topics;
      for i := 0 to |topics|
        invariant PutTopics(topics[i..]).Err? ==> PutTopics(topics) == PutTopics(topics[i..])
        invariant PutTopics(topics[i..]).Ok? ==>
                    PutTopics(topics).Ok? && data + PutTopics(topics[i..]).value == old(data) + PutTopics(topics).value
      {
        assert topics[i..][1..] == topics[i + 1..];
        ghost var before := data;
        var _ :- PutText(topics[i].filter);
        data := data + [topics[i].qos.Level()];
        if PutTopics(topics[i + 1..]).Ok? {
          ghost var rest := PutTopics(topics[i + 1..]).value;
          assert before + (PutString(topics[i].filter).value + ([topics[i].qos.Level()] + rest)) == data + rest;
        }
      }
      r := Ok(());
    }

    method PutTopicFilters(filters: seq<Text>) returns (r: Result<(), CodecError>)
      modifies this
      ensures r == (match PutFilters(filters) case Ok(_) => Ok(()) case Err(e) => Err(e))
      ensures r.Ok? ==> data == old(data) + PutFilters(filters).value
    {
      assert filters[0..] == filters;
      for i := 0 to |filters|
        invariant PutFilters(filters[i..]).Err? ==> PutFilters(filters) == PutFilters(filters[i..])
        invariant PutFilters(filters[i..]).Ok? ==>
                    PutFilters(filters).Ok? && data + PutFilters(filters[i..]).value == old(data) + PutFilters(filters).value
      {
        assert filters[i..][1..] == filters[i + 1..];
        ghost var before := data;
        var _ :- PutText(filters[i]);
        if PutFilters(filters[i + 1..]).Ok? {
          ghost var rest := PutFilters(filters[i + 1..]).value;
          assert before + (PutString(filters[i]).value + rest) == data + rest;
        }
      }
      r := Ok(());
    }

    method PutFrame(first: byte, body: Bytes)
      modifies this
      ensures data == old(data) + Frame(first, body)
    {
      data := data + [first];
      PutRemainingLength(|body|);
      data := data + body;
    }

    method PutConnectHead(c: ConnectPacket)
      modifies this
      ensures data == old(data) + (PutString(MQTT_NAME).value
                + ([c.protocolLevel, ConnectFlags(c)] + (U16(c.keepAlive) + PutProperties(c))))
    {
      var _ := PutText(MQTT_NAME);
      data := data + [c.protocolLevel];
      data := data + [ConnectFlags(c)];
      data := data + U16(c.keepAlive);
      ghost var before := data;
      PutConnectProperties(c);
      assert data == before + PutProperties(c);
    }

    method PutConnectProperties(c: ConnectPacket)
      modifies this
      ensures data == old(data) + PutProperties(c)
    {
      if c.protocolLevel == MQTT_5_LEVEL {
        var props: Bytes := [];
        if c.properties.Some? && c.properties.value.sessionExpiry.Some? {
          props := [0x11] + U32(c.properties.value.sessionExpiry.value);
        }
        PutRemainingLength(|props|);
        data := data + props;
      }
    }

    method PutLastWill(c: ConnectPacket) returns (r: Result<(), CodecError>)
      modifies this
      ensures r == (match PutWill(c) case Ok(_) => Ok(()) case Err(e) => Err(e))
      ensures r.Ok? ==> data == old(data) + PutWill(c).value
    {
      if c.will.Some? {
        if c.protocolLevel == MQTT_5_LEVEL {
          PutRemainingLength(0);
        }
        var _ :- PutText(c.will.value.topic);
        var _ :- PutBlob(c.will.value.message);
      }
      r := Ok(());
    }

    method PutCredentials(c: ConnectPacket) returns (r: Result<(), CodecError>)
      modifies this
      ensures r == (if PutUsername(c).Err? then Err(PutUsername(c).error)
                    else if PutPassword(c).Err? then Err(PutPassword(c).error) else Ok(()))
      ensures r.Ok? ==> data == old(data) + (PutUsername(c).value + PutPassword(c).value)
    {
      if c.username.Some? {
        var _ :- PutText(c.username.value);
      }
      if c.password.Some? {
        var _ :- PutBlob(c.password.value);
      }
      r := Ok(());
    }

    method PutConnect(c: ConnectPacket) returns (r: Result<(), CodecError>)
      modifies this
      ensures r == (match EncodeConnect(c) case Ok(_) => Ok(()) case Err(e) => Err(e))
      ensures r.Ok? ==> data == old(data) + EncodeConnect(c).value
    {
      PutConnectHead(c);
      var _ :- PutText(c.clientId);
      var _ :- PutLastWill(c);
      var _ :- PutCredentials(c);
      ConnectPieces(c, old(data), data);
      r := Ok(());
    }

    static lemma ConnectPieces(c: ConnectPacket, before: Bytes, after: Bytes)
      requires EncodeConnect(c).Ok?
      requires after == before
                 + (PutString(MQTT_NAME).value + ([c.protocolLevel, ConnectFlags(c)] + (U16(c.keepAlive) + PutProperties(c))))
                 + PutString(c.clientId).value + PutWill(c).value + (PutUsername(c).value + PutPassword(c).value)
      ensures after == before + EncodeConnect(c).value
    {
    }

    method PutPublish(p: PublishPacket) returns (r: Result<(), CodecError>)
      modifies this
      ensures r == (match EncodePublish(p) case Ok(_) => Ok(()) case Err(e) => Err(e))
      ensures r.Ok? ==> data == old(data) + EncodePublish(p).value
    {
      var _ :- PutText(p.topic);
      if p.packetId.Some? {
        data := data + U16(p.packetId.value);
      }
      data := data + p.payload;
      r := Ok(());
    }

    /** Append the body of a packet. */
    method PutBody(p: Packet) returns (r: Result<(), CodecError>)
      modifies this
      ensures r == (match EncodeBody(p) case Ok(_) => Ok(()) case Err(e) => Err(e))
      ensures r.Ok? ==> data == old(data) + EncodeBody(p).value
    {
      r := Ok(());
      match p {
        case Connect(c) => r := PutConnect(c);
        case Connack(present, code, level) =>
          data := data + [Weight(present, 1)];
          data := data + [code];
          if level == MQTT_5_LEVEL {
            PutRemainingLength(0);
          }
        case Publish(pub) => r := PutPublish(pub);
        case Subscribe(id, topics) =>
          data := data + U16(id);
          r := PutSubscribeTopics(topics);
        case Suback(id, codes) =>
          data := data + U16(id);
          for i := 0 to |codes|
            invariant data == old(data) + (U16(id) + codes[..i])
          {
            data := data + [codes[i]];
          }
          assert codes[..|codes|] == codes;
        case Unsubscribe(id, filters) =>
          data := data + U16(id);
          r := PutTopicFilters(filters);
        case Pingreq =>
        case Pingresp =>
        case Disconnect =>
        case _ => data := data + U16(p.id);
      }
    }
  }

  // ---------- the codec ----------

  class FrameCodec {
    const maxPacketSize: nat

    constructor (maxPacketSize: nat)
      ensures this.maxPacketSize == maxPacketSize
    {
      this.maxPacketSize := maxPacketSize;
    }

    /**
     * Take one packet off the receive buffer. When more bytes are needed, or a frame is refused for its length, the
     * buffer keeps its bytes; otherwise exactly one frame is taken off, whether its body decodes or not.
     */
    method Decode(src: Buffer) returns (r: Result<Option<Packet>, CodecError>)
      modifies src
      ensures r == match Codec.Decode(old(src.data), maxPacketSize)
                   case Need => Ok(None)
                   case Got(p, _) => Ok(Some(p))
                   case Failed(e) => Err(e)
      ensures src.data == match NextFrame(old(src.data), maxPacketSize)
                          case Whole(_, size) => old(src.data)[size..]
                          case _ => old(src.data)
    {
      var frame :- TakeFrame(src);
      if frame == None {
        return Ok(None);
      }
      var packet :- DecodePacketBody(frame.value.0, frame.value.1);
      r := Ok(Some(packet));
    }

    /** First byte and body of the frame at the front of the buffer, taken off it. */
    method TakeFrame(src: Buffer) returns (r: Result<Option<(byte, Bytes)>, CodecError>)
      modifies src
      ensures match NextFrame(old(src.data), maxPacketSize)
              case Wait => r == Ok(None) && src.data == old(src.data)
              case Refuse(e) => r == Err(e) && src.data == old(src.data)
              case Whole(body, size) => r == Ok(Some((old(src.data)[0], body))) && src.data == old(src.data)[size..]
    {
      if |src.data| < 2 {
        return Ok(None);
      }
      var header :- DecodeRemainingLength(src.data);
      if header == None {
        return Ok(None);
      }
      var (remainingLen, headerLen) := header.value;
      var total := headerLen + remainingLen;
      if total > maxPacketSize {
        return Err(MalformedBody(PacketTooLong(total, maxPacketSize)));
      }
      if |src.data| < total {
        return Ok(None);
      }
      var frame := src.data[..total];
      src.data := src.data[total..];
      assert frame[headerLen..] == old(src.data)[headerLen..total];
      r := Ok(Some((frame[0], frame[headerLen..])));
    }

    /** Append the frame of a packet; after an error nothing was appended. */
    method Encode(item: Packet, dst: Buffer) returns (r: Result<(), CodecError>)
      modifies dst
      ensures r == (match Codec.Encode(item) case Ok(_) => Ok(()) case Err(e) => Err(e))
      ensures dst.data == match Codec.Encode(item) case Ok(frame) => old(dst.data) + frame case Err(_) => old(dst.data)
    {
      var body := EncodeItem(item);
      r := Append(FirstByte(item), body, dst);
    }

    static method EncodeItem(item: Packet) returns (r: Result<Bytes, CodecError>)
      ensures r == EncodeBody(item)
    {
      var body := new Buffer();
      var done := body.PutBody(item);
      assert done.Ok? ==> [] + EncodeBody(item).value == EncodeBody(item).value;
      r := if done.Ok? then Ok(body.data) else Err(done.error);
    }

    static method Append(first: byte, body: Result<Bytes, CodecError>, dst: Buffer) returns (r: Result<(), CodecError>)
      modifies dst
      ensures r == (match Seal(first, body) case Ok(_) => Ok(()) case Err(e) => Err(e))
      ensures dst.data == match Seal(first, body) case Ok(frame) => old(dst.data) + frame case Err(_) => old(dst.data)
    {
      if body.Err? {
        return Err(body.error);
      }
      if |body.value| > MAX_BODY {
        return Err(InvalidRemainingLength(|body.value|));
      }
      dst.PutFrame(first, body.value);
      r := Ok(());
    }
  }
}
