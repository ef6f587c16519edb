/**
 * CONNECT as section 3.1 of the MQTT standards lays it out, with any list of properties the broker reads and any will
 * properties, and the proof that the decoder reads every such body and that the encoder writes one.
 */
module CodecConnect {
  import opened Basics
  import opened Packets
  import opened Wire
  import opened Codec
  import opened CodecProperties

  // ---------- layout ----------

  const PROTOCOL_NAMES: set<Bytes> := {[0x4D, 0x51, 0x54, 0x54], [0x4D, 0x51, 0x49, 0x73, 0x64, 0x70]}

  function FlagsForm(c: ConnectPacket): byte {
    (if c.cleanSession then 0x02 else 0)
    + (match c.will
       case None => 0
       case Some(w) => 0x04 + (match w.qos case AtMostOnce => 0x00 case AtLeastOnce => 0x08 case ExactlyOnce => 0x10)
                            + (if w.retain then 0x20 else 0))
    + (if c.password.Some? then 0x40 else 0)
    + (if c.username.Some? then 0x80 else 0)
  }

  /** The fields that are preceded by their length have lengths that fit. */
  predicate FieldsFit(c: ConnectPacket) {
    && |c.clientId| <= 0xFFFF
    && (c.will.Some? ==> |c.will.value.topic| <= 0xFFFF && |c.will.value.message| <= 0xFFFF)
    && (c.username.Some? ==> |c.username.value| <= 0xFFFF)
    && (c.password.Some? ==> |c.password.value| <= 0xFFFF)
  }

  function WillForm(c: ConnectPacket, section: Bytes): Bytes
    requires FieldsFit(c)
  {
    match c.will
    case None => []
    case Some(w) => (if c.protocolLevel == 5 then SectionForm(section) else []) + (DataForm(w.topic) + DataForm(w.message))
  }

  function OptionalForm(field: Option<Bytes>): Bytes
    requires field.Some? ==> |field.value| <= 0xFFFF
  {
    match field
    case None => []
    case Some(data) => DataForm(data)
  }

  function ConnectForm(name: Bytes, c: ConnectPacket, list: seq<Property>, section: Bytes): Bytes
    requires |name| <= 0xFFFF && FieldsFit(c) && Readable(list)
  {
    DataForm(name) + ([c.protocolLevel] + ([FlagsForm(c)] + (TwoByteForm(c.keepAlive)
      + ((if c.protocolLevel == 5 then SectionForm(ListForm(list)) else [])
      + (DataForm(c.clientId) + (WillForm(c, section) + (OptionalForm(c.username) + OptionalForm(c.password))))))))
  }

  /** What the decoder keeps of the properties. */
  function Kept(level: byte, list: seq<Property>): Option<ConnectProperties> {
    if level == 5 then Some(ConnectProperties(LastExpiry(list))) else None
  }

  // ---------- reading ----------

  lemma TextReads(t: Text, tail: Bytes)
    requires |t| <= 0xFFFF
    ensures ReadString(DataForm(t) + tail) == Ok((t, tail))
  {
    ReadBackData(t, tail);
  }

  /** Exactly two protocol names and three levels are accepted, in any combination. */
  lemma ProtocolReads(name: Text, level: byte, tail: Bytes)
    requires |name| <= 0xFFFF
    ensures ReadProtocolLevel(DataForm(name) + ([level] + tail)) ==
      if name !in PROTOCOL_NAMES then Err(InvalidProtocol(name))
      else if level !in {3, 4, 5} then Err(UnsupportedVersion(level))
      else Ok((level, tail))
  {
    TextReads(name, [level] + tail);
    assert ([level] + tail)[1..] == tail;
  }

  lemma HeadReads(name: Text, level: byte, flags: byte, keepAlive: u16, list: seq<Property>, tail: Bytes)
    requires name in PROTOCOL_NAMES && level in {3, 4, 5}
    requires Readable(list) && |ListForm(list)| < 0x1000_0000
    ensures ReadConnectHead(DataForm(name) + ([level] + ([flags] + (TwoByteForm(keepAlive)
              + ((if level == 5 then SectionForm(ListForm(list)) else []) + tail)))))
         == Ok((ConnectHead(level, flags, keepAlive, Kept(level, list)), tail))
  {
    var s4 := (if level == 5 then SectionForm(ListForm(list)) else []) + tail;
    var s3 := TwoByteForm(keepAlive) + s4;
    ProtocolReads(name, level, [flags] + s3);
    assert ([flags] + s3)[1..] == s3;
    assert TwoByteForm(keepAlive) == U16(keepAlive);
    ReadBackU16(keepAlive, s4);
    if level == 5 {
      ConnectSectionReads(list, tail);
    } else {
      assert s4 == tail;
    }
  }

  lemma FlagsRead(c: ConnectPacket)
    ensures Bit(FlagsForm(c), 0x02) == c.cleanSession && Bit(FlagsForm(c), 0x04) == c.will.Some?
    ensures Bit(FlagsForm(c), 0x40) == c.password.Some? && Bit(FlagsForm(c), 0x80) == c.username.Some?
  {
  }

  lemma WillFlagsRead(c: ConnectPacket, w: LastWill)
    requires c.will == Some(w)
    ensures Bit(FlagsForm(c), 0x04) && FlagsForm(c) / 8 % 4 == w.qos.Level() && Bit(FlagsForm(c), 0x20) == w.retain
  {
    WillBits(if c.cleanSession then 2 else 0, w.qos.Level() as int, if w.retain then 1 else 0,
             (if c.password.Some? then 1 else 0) + (if c.username.Some? then 2 else 0), FlagsForm(c));
  }

  lemma WillBits(low: int, qos: int, retain: int, high: int, flags: byte)
    requires low in {0, 2} && 0 <= qos <= 2 && 0 <= retain <= 1 && 0 <= high <= 3
    requires flags as int == low + 4 + 8 * qos + 32 * retain + 64 * high
    ensures Bit(flags, 0x04) && flags / 8 % 4 == qos && Bit(flags, 0x20) == (retain == 1)
  {
    assert flags / 4 == 1 + 2 * (qos + 4 * retain + 8 * high);
    assert flags / 8 == qos + 4 * (retain + 2 * high);
    assert flags / 32 == retain + 2 * high;
  }

  lemma WillParts(s: Bytes, s1: Bytes, s2: Bytes, s3: Bytes, level: byte, flags: byte, w: LastWill)
    requires Bit(flags, 4) && flags / 8 % 4 == w.qos.Level() && Bit(flags, 32) == w.retain
    requires SkipWillProperties(s, level) == Ok(s1)
    requires ReadString(s1) == Ok((w.topic, s2)) && ReadBinary(s2) == Ok((w.message, s3))
    ensures ReadWill(s, level, flags) == Ok((Some(w), s3))
  {
  }

  lemma WillReads(c: ConnectPacket, section: Bytes, tail: Bytes)
    requires FieldsFit(c) && |section| < 0x1000_0000
    ensures ReadWill(WillForm(c, section) + tail, c.protocolLevel, FlagsForm(c)) == Ok((c.will, tail))
  {
    if c.will == None {
      FlagsRead(c);
      assert WillForm(c, section) + tail == tail;
    } else {
      var w := c.will.value;
      var s2 := DataForm(w.message) + tail;
      var s1 := DataForm(w.topic) + s2;
      var s := WillForm(c, section) + tail;
      assert s == (if c.protocolLevel == 5 then SectionForm(section) else []) + s1;
      WillSectionSkips(section, s1, c.protocolLevel);
      assert c.protocolLevel != 5 ==> s == s1;
      TextReads(w.topic, s2);
      ReadBackData(w.message, tail);
      WillFlagsRead(c, w);
      WillParts(s, s1, s2, tail, c.protocolLevel, FlagsForm(c), w);
    }
  }

  lemma CredentialsRead(c: ConnectPacket, s4: Bytes, s5: Bytes)
    requires FieldsFit(c)
    ensures ReadUsername(OptionalForm(c.username) + s4, FlagsForm(c)) == Ok((c.username, s4))
    ensures ReadPassword(OptionalForm(c.password) + s5, FlagsForm(c)) == Ok((c.password, s5))
  {
    FlagsRead(c);
    if c.username.Some? {
      TextReads(c.username.value, s4);
    } else {
      assert OptionalForm(c.username) + s4 == s4;
    }
    if c.password.Some? {
      ReadBackData(c.password.value, s5);
    } else {
      assert OptionalForm(c.password) + s5 == s5;
    }
  }

  /**
   * Every CONNECT laid out by the standard is decoded to its fields, whatever readable properties and will properties
   * it carries and whatever bytes follow it.
   */
  lemma ConnectReads(name: Text, c: ConnectPacket, list: seq<Property>, section: Bytes, trailing: Bytes)
    requires name in PROTOCOL_NAMES && c.protocolLevel in {3, 4, 5} && FieldsFit(c)
    requires Readable(list) && |ListForm(list)| < 0x1000_0000 && |section| < 0x1000_0000
    requires c.properties == Kept(c.protocolLevel, list)
    ensures DecodeConnect(ConnectForm(name, c, list, section) + trailing) == Ok(Connect(c))
  {
    var s4 := OptionalForm(c.password) + trailing;
    var s3 := OptionalForm(c.username) + s4;
    var s2 := WillForm(c, section) + s3;
    var s1 := DataForm(c.clientId) + s2;
    HeadReads(name, c.protocolLevel, FlagsForm(c), c.keepAlive, list, s1);
    Regroup(DataForm(name), [c.protocolLevel], [FlagsForm(c)], TwoByteForm(c.keepAlive),
            if c.protocolLevel == 5 then SectionForm(ListForm(list)) else [],
            DataForm(c.clientId), WillForm(c, section), OptionalForm(c.username), OptionalForm(c.password), trailing);
    TextReads(c.clientId, s2);
    WillReads(c, section, s3);
    CredentialsRead(c, s4, trailing);
    FlagsRead(c);
    ConnectParts(ConnectForm(name, c, list, section) + trailing, s1, s2, s3, s4, trailing, c, FlagsForm(c));
  }

  lemma ConnectParts(s: Bytes, s1: Bytes, s2: Bytes, s3: Bytes, s4: Bytes, s5: Bytes, c: ConnectPacket, flags: byte)
    requires ReadConnectHead(s) == Ok((ConnectHead(c.protocolLevel, flags, c.keepAlive, c.properties), s1))
    requires ReadString(s1) == Ok((c.clientId, s2)) && ReadWill(s2, c.protocolLevel, flags) == Ok((c.will, s3))
    requires ReadUsername(s3, flags) == Ok((c.username, s4)) && ReadPassword(s4, flags) == Ok((c.password, s5))
    requires Bit(flags, 0x02) == c.cleanSession
    ensures DecodeConnect(s) == Ok(Connect(c))
  {
  }

  lemma Regroup(a: Bytes, b: Bytes, c: Bytes, d: Bytes, e: Bytes, f: Bytes, g: Bytes, h: Bytes, i: Bytes, t: Bytes)
    ensures a + (b + (c + (d + (e + (f + (g + (h + i))))))) + t == a + (b + (c + (d + (e + (f + (g + (h + (i + t))))))))
  {
    var early, late := e + (f + (g + (h + i))), e + (f + (g + (h + (i + t))));
    assert early + t == late;
    assert a + (b + (c + (d + early))) + t == a + (b + (c + (d + (early + t))));
  }

  // ---------- writing ----------

  /** The one property the encoder writes. */
  function Written(c: ConnectPacket): seq<Property> {
    if c.properties.Some? && c.properties.value.sessionExpiry.Some?
    then [Property(0x11, LongValue(c.properties.value.sessionExpiry.value))] else []
  }

  lemma PropertiesWritten(c: ConnectPacket)
    ensures Readable(Written(c)) && |ListForm(Written(c))| <= 5
    ensures PutProperties(c) == if c.protocolLevel == 5 then SectionForm(ListForm(Written(c))) else []
    ensures LastExpiry(Written(c)) == if c.properties.Some? then c.properties.value.sessionExpiry else None
  {
    var list := Written(c);
    if list != [] {
      assert list[1..] == [];
      assert ListForm(list) == [0x11] + U32(c.properties.value.sessionExpiry.value);
    }
  }

  /** The encoder writes the layout of the standard, with empty will properties. */
  lemma ConnectWrites(c: ConnectPacket)
    requires EncodeConnect(c).Ok?
    ensures FieldsFit(c) && Readable(Written(c))
    ensures EncodeConnect(c).value == ConnectForm([0x4D, 0x51, 0x54, 0x54], c, Written(c), [])
  {
    PropertiesWritten(c);
    WillWritten(c);
    FlagsWritten(c);
    var rest := TwoByteForm(c.keepAlive) + ((if c.protocolLevel == 5 then SectionForm(ListForm(Written(c))) else [])
      + (DataForm(c.clientId) + (WillForm(c, []) + (OptionalForm(c.username) + OptionalForm(c.password)))));
    TwoBytesWritten(DataForm(MQTT_NAME), c.protocolLevel, FlagsForm(c), rest);
  }

  lemma TwoBytesWritten(before: Bytes, b: byte, b': byte, after: Bytes)
    ensures before + ([b, b'] + after) == before + ([b] + ([b'] + after))
  {
    assert [b, b'] + after == [b] + ([b'] + after);
  }

  lemma FlagsWritten(c: ConnectPacket)
    ensures ConnectFlags(c) == FlagsForm(c)
  {
  }

  lemma WillWritten(c: ConnectPacket)
    requires EncodeConnect(c).Ok?
    ensures FieldsFit(c) && PutWill(c).value == WillForm(c, [])
    ensures PutUsername(c).value == OptionalForm(c.username) && PutPassword(c).value == OptionalForm(c.password)
  {
    assert PutVbi(0) == SectionForm([]);
  }
}
