/** The MQTT 3.1.1 and 5.0 packet codec: packet bodies, frames and the incremental frame decoder. */
module Codec {
  import opened Basics
  import opened Packets
  import opened Wire

  // ---------- decoding packet bodies ----------

  const MQTT_NAME: Bytes := [77, 81, 84, 84]
  const MQISDP_NAME: Bytes := [77, 81, 73, 115, 100, 112]

  predicate Bit(flags: byte, weight: byte)
    requires weight > 0
  {
    flags / weight % 2 == 1
  }

  /** Pass over the value of a property that is not interpreted. */
  function SkipProperty(s: Bytes, id: nat): (r: Result<Bytes, CodecError>)
    ensures r.Ok? ==> |r.value| <= |s|
  {
    if id in {0x01, 0x17, 0x19, 0x22, 0x23, 0x26, 0x27, 0x28} then
      var (_, s1) :- ReadU8(s); Ok(s1)
    else if id in {0x13, 0x1E, 0x1F, 0x21} then
      var (_, s1) :- ReadU16(s); Ok(s1)
    else if id in {0x02, 0x11, 0x18, 0x25} then
      var (_, s1) :- ReadBytes(s, 4); Ok(s1)
    else if id == 0x0B then
      var (_, s1) :- ReadVbi(s); Ok(s1)
    else if id in {0x03, 0x08, 0x0C, 0x12, 0x15, 0x1A, 0x1C, 0x1D, 0x09, 0x16} then
      var (_, s1) :- ReadBinary(s); Ok(s1)
    else if id == 0x24 then
      var (_, s1) :- ReadBinary(s);
      var (_, s2) :- ReadBinary(s1); Ok(s2)
    else Err(MalformedBody(UnknownProperty(id)))
  }

  /** Properties are read while more than `end` bytes are left; the last one may reach beyond the declared section. */
  function ReadProperties(s: Bytes, end: nat, props: ConnectProperties): (r: Read<ConnectProperties>)
    ensures r.Ok? ==> |r.value.1| <= |s|
    ensures r.Ok? && r.value.0 != props ==> r.value.0.sessionExpiry.Some? && |r.value.1| + 5 <= |s|
    decreases |s|
  {
    if |s| <= end then Ok((props, s))
    else
      var (id, s1) :- ReadVbi(s);
      if id == 0x11 then
        if |s1| < 4 then Err(MalformedBody(ExpiryTruncated))
        else ReadProperties(s1[4..], end, ConnectProperties(Some(ReadU32(s1[..4]))))
      else
        var s2 :- SkipProperty(s1, id);
        ReadProperties(s2, end, props)
  }

  datatype ConnectHead = ConnectHead(level: byte, flags: byte, keepAlive: u16, properties: Option<ConnectProperties>)

  function ReadConnectProperties(s: Bytes): (r: Read<ConnectProperties>)
    ensures r.Ok? ==> |s| - |r.value.1| >= if r.value.0.sessionExpiry.Some? then 6 else 1
  {
    var (size, s1) :- ReadVbi(s);
    if |s1| < size then Err(MalformedBody(ConnectPropertiesTruncated))
    else ReadProperties(s1, |s1| - size, ConnectProperties(None))
  }

  function ReadProtocolLevel(s: Bytes): (r: Read<byte>)
    ensures r.Ok? ==> r.value.0 in {MQTT_3_1_LEVEL, MQTT_3_1_1_LEVEL, MQTT_5_LEVEL} && |s| - |r.value.1| >= 7
  {
    var (name, s1) :- ReadString(s);
    if name != MQTT_NAME && name != MQISDP_NAME then Err(InvalidProtocol(name)) else
    var (level, s2) :- ReadU8(s1);
    if level != MQTT_3_1_1_LEVEL && level != MQTT_3_1_LEVEL && level != MQTT_5_LEVEL
    then Err(UnsupportedVersion(level)) else Ok((level, s2))
  }

  /** Protocol name and level, connect flags, keep-alive and, for MQTT 5.0, the properties. */
  function ReadConnectHead(s: Bytes): (r: Read<ConnectHead>)
  {
    var (level, s1) :- ReadProtocolLevel(s);
    var (flags, s2) :- ReadU8(s1);
    var (keepAlive, s3) :- ReadU16(s2);
    if level == MQTT_5_LEVEL then
      var (props, s4) :- ReadConnectProperties(s3);
      Ok((ConnectHead(level, flags, keepAlive, Some(props)), s4))
    else Ok((ConnectHead(level, flags, keepAlive, None), s3))
  }

  function SkipWillProperties(s: Bytes, level: byte): (r: Result<Bytes, CodecError>)
    ensures r.Ok? ==> |s| - |r.value| >= if level == MQTT_5_LEVEL then 1 else 0
  {
    if level != MQTT_5_LEVEL then Ok(s) else
    var (size, s1) :- ReadVbi(s);
    if |s1| < size then Err(MalformedBody(WillPropertiesTruncated)) else Ok(s1[size..])
  }

  function ReadWill(s: Bytes, level: byte, flags: byte): (r: Read<Option<LastWill>>)
  {
    if !Bit(flags, 0x04) then Ok((None, s)) else
    var bits := flags / 8 % 4;
    if bits == 3 then Err(MalformedBody(InvalidWillQos(bits))) else
    var s1 :- SkipWillProperties(s, level);
    var (topic, s2) :- ReadString(s1);
    var (message, s3) :- ReadBinary(s2);
    Ok((Some(LastWill(topic, message, QosFromLevel(bits).value, Bit(flags, 0x20))), s3))
  }

  function ReadUsername(s: Bytes, flags: byte): (r: Read<Option<Text>>) {
    if !Bit(flags, 0x80) then Ok((None, s)) else
    var (name, s1) :- ReadString(s);
    Ok((Some(name), s1))
  }

  function ReadPassword(s: Bytes, flags: byte): (r: Read<Option<Bytes>>) {
    if !Bit(flags, 0x40) then Ok((None, s)) else
    var (password, s1) :- ReadBinary(s);
    Ok((Some(password), s1))
  }

  /** The head, then client id, will, user name and password; bytes after them are ignored. */
  function DecodeConnect(s: Bytes): Result<Packet, CodecError> {
    var (head, s1) :- ReadConnectHead(s);
    var (clientId, s2) :- ReadString(s1);
    var (will, s3) :- ReadWill(s2, head.level, head.flags);
    var (username, s4) :- ReadUsername(s3, head.flags);
    var (password, s5) :- ReadPassword(s4, head.flags);
    Ok(Connect(ConnectPacket(head.level, head.keepAlive, clientId, Bit(head.flags, 0x02), will, username, password,
                             head.properties)))
  }

  function DecodeConnack(s: Bytes): Result<Packet, CodecError> {
    var (flags, s1) :- ReadU8(s);
    var (code, s2) :- ReadU8(s1);
    if s2 == [] then Ok(Connack(Bit(flags, 0x01), code, MQTT_3_1_1_LEVEL)) else
    var (size, s3) :- ReadVbi(s2);
    if |s3| < size then Err(MalformedBody(ConnackPropertiesTruncated))
    else Ok(Connack(Bit(flags, 0x01), code, MQTT_5_LEVEL))
  }

  function DecodePublish(s: Bytes, flags: byte): Result<Packet, CodecError> {
    var dup, bits, retain := Bit(flags, 0x08), flags / 2 % 4, Bit(flags, 0x01);
    if bits == 3 then Err(MalformedBody(InvalidQos(bits))) else
    var qos := QosFromLevel(bits).value;
    if qos == AtMostOnce && dup then Err(MalformedBody(DupAtQos0)) else
    var (topic, s1) :- ReadString(s);
    if qos == AtMostOnce then Ok(Publish(PublishPacket(dup, qos, retain, topic, None, s1))) else
    var (id, s2) :- ReadPacketId(s1);
    Ok(Publish(PublishPacket(dup, qos, retain, topic, Some(id), s2)))
  }

  function ReadTopics(s: Bytes): (r: Result<seq<SubscribeTopic>, CodecError>)
    decreases |s|
  {
    if s == [] then Ok([]) else
    var (filter, s1) :- ReadString(s);
    var (options, s2) :- ReadU8(s1);
    var bits := options % 4;
    if bits == 3 then Err(MalformedBody(InvalidQos(bits))) else
    var rest :- ReadTopics(s2);
    Ok([SubscribeTopic(filter, QosFromLevel(bits).value)] + rest)
  }

  function ReadFilters(s: Bytes): (r: Result<seq<Text>, CodecError>)
    decreases |s|
  {
    if s == [] then Ok([]) else
    var (filter, s1) :- ReadString(s);
    var rest :- ReadFilters(s1);
    Ok([filter] + rest)
  }

  function DecodeSubscribe(s: Bytes): Result<Packet, CodecError> {
    var (id, s1) :- ReadPacketId(s);
    var topics :- ReadTopics(s1);
    if topics == [] then Err(MalformedBody(SubscribeWithoutTopic)) else Ok(Subscribe(id, topics))
  }

  function DecodeUnsubscribe(s: Bytes): Result<Packet, CodecError> {
    var (id, s1) :- ReadPacketId(s);
    var filters :- ReadFilters(s1);
    if filters == [] then Err(MalformedBody(UnsubscribeWithoutTopic)) else Ok(Unsubscribe(id, filters))
  }

  /** Packet types whose fixed-header flags are looked at, and the value they must have. */
  function RequiredFlags(packetType: byte): Option<byte> {
    if packetType in {6, 8, 10} then Some(2)
    else if packetType in {12, 13, 14} then Some(0)
    else None
  }

  function DecodePacket(first: byte, s: Bytes): Result<Packet, CodecError> {
    var packetType, flags := first / 16, first % 16;
    if packetType < 1 || packetType > 14 then Err(InvalidPacketType(packetType))
    else if RequiredFlags(packetType) == None || RequiredFlags(packetType) == Some(flags)
    then DecodeBody(packetType, flags, s)
    else Err(InvalidFlags(packetType, flags))
  }

  function DecodeBody(packetType: byte, flags: byte, s: Bytes): Result<Packet, CodecError>
    requires 1 <= packetType <= 14
  {
    match packetType
    case 1 => DecodeConnect(s)
    case 2 => DecodeConnack(s)
    case 3 => DecodePublish(s, flags)
    case 4 => (var (id, _) :- ReadPacketId(s); Ok(Puback(id)))
    case 5 => (var (id, _) :- ReadPacketId(s); Ok(Pubrec(id)))
    case 6 => (var (id, _) :- ReadPacketId(s); Ok(Pubrel(id)))
    case 7 => (var (id, _) :- ReadPacketId(s); Ok(Pubcomp(id)))
    case 8 => DecodeSubscribe(s)
    case 9 => (var (id, codes) :- ReadPacketId(s); Ok(Suback(id, codes)))
    case 10 => DecodeUnsubscribe(s)
    case 11 => (var (id, _) :- ReadPacketId(s); Ok(Unsuback(id)))
    case 12 => Ok(Pingreq)
    case 13 => Ok(Pingresp)
    case _ => Ok(Disconnect)
  }

  // ---------- encoding packet bodies ----------

  function Weight(on: bool, weight: byte): byte {
    if on then weight else 0
  }

  function ConnectFlags(c: ConnectPacket): byte {
    var will := match c.will
      case None => 0
      case Some(w) => 4 + 8 * (w.qos.Level() as int) + (if w.retain then 32 else 0);
    Weight(c.cleanSession, 2) as int + will + Weight(c.password.Some?, 64) as int + Weight(c.username.Some?, 128) as int
  }

  function PutProperties(c: ConnectPacket): Bytes {
    if c.protocolLevel != MQTT_5_LEVEL then [] else
    var body := if c.properties.Some? && c.properties.value.sessionExpiry.Some?
      then [0x11] + U32(c.properties.value.sessionExpiry.value) else [];
    PutVbi(|body|) + body
  }

  function PutWill(c: ConnectPacket): Result<Bytes, CodecError> {
    match c.will
    case None => Ok([])
    case Some(w) =>
      var topic :- PutString(w.topic);
      var message :- PutBinary(w.message);
      Ok((if c.protocolLevel == MQTT_5_LEVEL then PutVbi(0) else []) + (topic + message))
  }

  function PutUsername(c: ConnectPacket): Result<Bytes, CodecError> {
    match c.username
    case None => Ok([])
    case Some(name) => PutString(name)
  }

  function PutPassword(c: ConnectPacket): Result<Bytes, CodecError> {
    match c.password
    case None => Ok([])
    case Some(password) => PutBinary(password)
  }

  function EncodeConnect(c: ConnectPacket): Result<Bytes, CodecError> {
    var name :- PutString(MQTT_NAME);
    var clientId :- PutString(c.clientId);
    var will :- PutWill(c);
    var username :- PutUsername(c);
    var password :- PutPassword(c);
    Ok(name + ([c.protocolLevel, ConnectFlags(c)] + (U16(c.keepAlive) + (PutProperties(c)
       + (clientId + (will + (username + password)))))))
  }

  function EncodePublish(p: PublishPacket): Result<Bytes, CodecError> {
    var topic :- PutString(p.topic);
    Ok(topic + ((if p.packetId.Some? then U16(p.packetId.value) else []) + p.payload))
  }

  function PublishFlags(p: PublishPacket): (flags: byte)
    ensures flags < 16
  {
    Weight(p.dup, 8) as int + 2 * (p.qos.Level() as int) + Weight(p.retain, 1) as int
  }

  function PutTopics(topics: seq<SubscribeTopic>): Result<Bytes, CodecError> {
    if topics == [] then Ok([]) else
    var filter :- PutString(topics[0].filter);
    var rest :- PutTopics(topics[1..]);
    Ok(filter + ([topics[0].qos.Level()] + rest))
  }

  function PutFilters(filters: seq<Text>): Result<Bytes, CodecError> {
    if filters == [] then Ok([]) else
    var filter :- PutString(filters[0]);
    var rest :- PutFilters(filters[1..]);
    Ok(filter + rest)
  }

  function EncodeBody(p: Packet): Result<Bytes, CodecError> {
    match p
    case Connect(c) => EncodeConnect(c)
    case Connack(present, code, level) =>
      Ok([Weight(present, 1), code] + (if level == MQTT_5_LEVEL then PutVbi(0) else []))
    case Publish(pub) => EncodePublish(pub)
    case Subscribe(id, topics) => (var body :- PutTopics(topics); Ok(U16(id) + body))
    case Suback(id, codes) => Ok(U16(id) + codes)
    case Unsubscribe(id, filters) => (var body :- PutFilters(filters); Ok(U16(id) + body))
    case Pingreq => Ok([])
    case Pingresp => Ok([])
    case Disconnect => Ok([])
    case _ => Ok(U16(p.id))
  }

  function FlagsOf(p: Packet): (flags: byte)
    ensures flags < 16
  {
    match p
    case Publish(pub) => PublishFlags(pub)
    case Pubrel(_) => 2
    case Subscribe(_, _) => 2
    case Unsubscribe(_, _) => 2
    case _ => 0
  }

  // ---------- frames ----------

  const MAX_BODY: nat := 0x0FFF_FFFF

  function Frame(first: byte, body: Bytes): Bytes {
    [first] + (PutVbi(|body|) + body)
  }

  function FirstByte(p: Packet): byte {
    PacketTypeOf(p) as int * 16 + FlagsOf(p) as int
  }

  /** A body that is too long for the remaining-length field has no frame. */
  function Seal(first: byte, encoded: Result<Bytes, CodecError>): Result<Bytes, CodecError> {
    var body :- encoded;
    if |body| > MAX_BODY then Err(InvalidRemainingLength(|body|)) else Ok(Frame(first, body))
  }

  function Encode(p: Packet): Result<Bytes, CodecError> {
    Seal(FirstByte(p), EncodeBody(p))
  }

  datatype LengthField = Incomplete | Oversized | Length(value: nat, size: nat)

  /** The remaining-length field, `k` bytes of which are read. The fifth byte is refused, but only once it is there. */
  function RemainingLength(s: Bytes, k: nat): (r: LengthField)
    requires k <= 4
    ensures r.Length? ==> 1 <= r.size <= |s|
    decreases 4 - k
  {
    if s == [] then Incomplete
    else if k == 4 then Oversized
    else if s[0] < 128 then Length(s[0], 1)
    else match RemainingLength(s[1..], k + 1)
      case Length(v, n) => Length(s[0] - 128 + 128 * v, n + 1)
      case other => other
  }

  /** The value of the low seven bits of the bytes, low bits first. */
  function LowBits(s: Bytes): nat {
    if s == [] then 0 else s[0] % 128 + 128 * LowBits(s[1..])
  }

  datatype FrameStep = Wait | Refuse(error: CodecError) | Whole(body: Bytes, size: nat)

  /** Cut the first frame out of the bytes received so far. */
  function NextFrame(src: Bytes, limit: nat): (r: FrameStep)
    ensures r.Whole? ==> 2 <= r.size <= |src| && r.size <= limit
  {
    if |src| < 2 then Wait
    else match RemainingLength(src[1..], 0)
      case Incomplete => Wait
      case Oversized => Refuse(InvalidRemainingLength(LowBits(src[1..5])))
      case Length(length, n) =>
        var total := 1 + n + length;
        if total > limit then Refuse(MalformedBody(PacketTooLong(total, limit)))
        else if |src| < total then Wait
        else Whole(src[1 + n..total], total)
  }

  datatype Decoded = Need | Got(packet: Packet, size: nat) | Failed(error: CodecError)

  /** One call of the decoder on the bytes received so far. `Need` asks for more and consumes nothing. */
  function Decode(src: Bytes, limit: nat): (r: Decoded)
    ensures r.Got? ==> 2 <= r.size <= |src| && r.size <= limit
  {
    match NextFrame(src, limit)
    case Wait => Need
    case Refuse(e) => Failed(e)
    case Whole(body, size) =>
      match DecodePacket(src[0], body)
      case Ok(p) => Got(p, size)
      case Err(e) => Failed(e)
  }
}
