/** MQTT control packets and quality-of-service levels. */
module Packets {
  import opened Basics

  type byte = b: int | 0 <= b < 0x100
  type u16 = n: int | 0 <= n < 0x1_0000
  type u32 = n: int | 0 <= n < 0x1_0000_0000

  type Bytes = seq<byte>

  // ---------- text ----------

  predicate Continuation(b: byte) {
    0x80 <= b < 0xC0
  }

  /** The length of the well-formed UTF-8 sequence at the front, or 0 (table 3-7 of the Unicode standard). */
  function ScalarLength(s: Bytes): (n: nat)
    ensures n <= |s|
  {
    if s == [] then 0
    else if s[0] < 0x80 then 1
    else if 0xC2 <= s[0] < 0xE0 && |s| >= 2 && Continuation(s[1]) then 2
    else if 0xE0 <= s[0] < 0xF0 && |s| >= 3 && Continuation(s[1]) && Continuation(s[2])
            && (s[0] == 0xE0 ==> s[1] >= 0xA0) && (s[0] == 0xED ==> s[1] < 0xA0) then 3
    else if 0xF0 <= s[0] < 0xF5 && |s| >= 4 && Continuation(s[1]) && Continuation(s[2]) && Continuation(s[3])
            && (s[0] == 0xF0 ==> s[1] >= 0x90) && (s[0] == 0xF4 ==> s[1] < 0x90) then 4
    else 0
  }

  predicate ValidUtf8(s: Bytes) {
    s == [] || (ScalarLength(s) > 0 && ValidUtf8(s[ScalarLength(s)..]))
  }

  /** A string, as its UTF-8 bytes. */
  type Text = s: Bytes | ValidUtf8(s)

  // ---------- quality of service ----------

  datatype QoS = AtMostOnce | AtLeastOnce | ExactlyOnce {
    function Level(): (n: byte)
      ensures n <= 2
    {
      match this
      case AtMostOnce => 0
      case AtLeastOnce => 1
      case ExactlyOnce => 2
    }
  }

  function QosFromLevel(n: byte): Option<QoS> {
    if n == 0 then Some(AtMostOnce) else if n == 1 then Some(AtLeastOnce)
    else if n == 2 then Some(ExactlyOnce) else None
  }

  // ---------- packets ----------

  const MQTT_3_1_LEVEL: byte := 3
  const MQTT_3_1_1_LEVEL: byte := 4
  const MQTT_5_LEVEL: byte := 5

  datatype ConnectProperties = ConnectProperties(sessionExpiry: Option<u32>)

  datatype LastWill = LastWill(topic: Text, message: Bytes, qos: QoS, retain: bool)

  datatype ConnectPacket = ConnectPacket(
    protocolLevel: byte,
    keepAlive: u16,
    clientId: Text,
    cleanSession: bool,
    will: Option<LastWill>,
    username: Option<Text>,
    password: Option<Bytes>,
    properties: Option<ConnectProperties>)

  datatype PublishPacket = PublishPacket(
    dup: bool,
    qos: QoS,
    retain: bool,
    topic: Text,
    packetId: Option<u16>,
    payload: Bytes)

  datatype SubscribeTopic = SubscribeTopic(filter: Text, qos: QoS)

  datatype Packet =
    | Connect(connect: ConnectPacket)
    | Connack(sessionPresent: bool, returnCode: byte, level: byte)
    | Publish(publish: PublishPacket)
    | Puback(id: u16)
    | Pubrec(id: u16)
    | Pubrel(id: u16)
    | Pubcomp(id: u16)
    | Subscribe(id: u16, topics: seq<SubscribeTopic>)
    | Suback(id: u16, returnCodes: Bytes)
    | Unsubscribe(id: u16, filters: seq<Text>)
    | Unsuback(id: u16)
    | Pingreq
    | Pingresp
    | Disconnect

  function PacketTypeOf(p: Packet): (t: byte)
    ensures 1 <= t <= 14
  {
    match p
    case Connect(_) => 1
    case Connack(_, _, _) => 2
    case Publish(_) => 3
    case Puback(_) => 4
    case Pubrec(_) => 5
    case Pubrel(_) => 6
    case Pubcomp(_) => 7
    case Subscribe(_, _) => 8
    case Suback(_, _) => 9
    case Unsubscribe(_, _) => 10
    case Unsuback(_) => 11
    case Pingreq => 12
    case Pingresp => 13
    case Disconnect => 14
  }
}
