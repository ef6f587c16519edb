/**
 * MQTT 5.0 properties by the type of their value, and what the decoder makes of them. The identifiers of each type
 * are listed twice: as the broker skips them, and as section 2.2.2.2 of the MQTT 5.0 standard assigns them.
 */
module CodecProperties {
  import opened Basics
  import opened Packets
  import opened Wire
  import opened Codec

  datatype PropertyType = OneByte | TwoBytes | FourBytes | VariableByte | StringOrBinary | StringPair

  datatype Value =
    | ByteValue(b: byte)
    | WordValue(w: u16)
    | LongValue(n: u32)
    | VariableValue(v: nat)
    | DataValue(data: Bytes)
    | PairValue(name: Bytes, text: Bytes)
  {
    function Type(): PropertyType {
      match this
      case ByteValue(_) => OneByte
      case WordValue(_) => TwoBytes
      case LongValue(_) => FourBytes
      case VariableValue(_) => VariableByte
      case DataValue(_) => StringOrBinary
      case PairValue(_, _) => StringPair
    }

    /** Whether the value has a wire form at all. */
    predicate Encodable() {
      match this
      case VariableValue(v) => v < 0x1000_0000
      case DataValue(data) => |data| <= 0xFFFF
      case PairValue(name, text) => |name| <= 0xFFFF && |text| <= 0xFFFF
      case _ => true
    }
  }

  datatype Property = Property(id: byte, value: Value)

  /** The type by which the broker passes over the value of a property. */
  function BrokerType(id: nat): Option<PropertyType> {
    match id
    case 0x01 => Some(OneByte)
    case 0x02 => Some(FourBytes)
    case 0x03 => Some(StringOrBinary)
    case 0x08 => Some(StringOrBinary)
    case 0x09 => Some(StringOrBinary)
    case 0x0B => Some(VariableByte)
    case 0x0C => Some(StringOrBinary)
    case 0x11 => Some(FourBytes)
    case 0x12 => Some(StringOrBinary)
    case 0x13 => Some(TwoBytes)
    case 0x15 => Some(StringOrBinary)
    case 0x16 => Some(StringOrBinary)
    case 0x17 => Some(OneByte)
    case 0x18 => Some(FourBytes)
    case 0x19 => Some(OneByte)
    case 0x1A => Some(StringOrBinary)
    case 0x1C => Some(StringOrBinary)
    case 0x1D => Some(StringOrBinary)
    case 0x1E => Some(TwoBytes)
    case 0x1F => Some(TwoBytes)
    case 0x21 => Some(TwoBytes)
    case 0x22 => Some(OneByte)
    case 0x23 => Some(OneByte)
    case 0x24 => Some(StringPair)
    case 0x25 => Some(FourBytes)
    case 0x26 => Some(OneByte)
    case 0x27 => Some(OneByte)
    case 0x28 => Some(OneByte)
    case _ => None
  }

  /** The type the MQTT 5.0 standard gives the value of a property (table 2-4). */
  function StandardType(id: nat): Option<PropertyType> {
    match id
    case 0x01 => Some(OneByte)         // Payload Format Indicator
    case 0x02 => Some(FourBytes)       // Message Expiry Interval
    case 0x03 => Some(StringOrBinary)  // Content Type
    case 0x08 => Some(StringOrBinary)  // Response Topic
    case 0x09 => Some(StringOrBinary)  // Correlation Data
    case 0x0B => Some(VariableByte)    // Subscription Identifier
    case 0x11 => Some(FourBytes)       // Session Expiry Interval
    case 0x12 => Some(StringOrBinary)  // Assigned Client Identifier
    case 0x13 => Some(TwoBytes)        // Server Keep Alive
    case 0x15 => Some(StringOrBinary)  // Authentication Method
    case 0x16 => Some(StringOrBinary)  // Authentication Data
    case 0x17 => Some(OneByte)         // Request Problem Information
    case 0x18 => Some(FourBytes)       // Will Delay Interval
    case 0x19 => Some(OneByte)         // Request Response Information
    case 0x1A => Some(StringOrBinary)  // Response Information
    case 0x1C => Some(StringOrBinary)  // Server Reference
    case 0x1F => Some(StringOrBinary)  // Reason String
    case 0x21 => Some(TwoBytes)        // Receive Maximum
    case 0x22 => Some(TwoBytes)        // Topic Alias Maximum
    case 0x23 => Some(TwoBytes)        // Topic Alias
    case 0x24 => Some(OneByte)         // Maximum QoS
    case 0x25 => Some(OneByte)         // Retain Available
    case 0x26 => Some(StringPair)      // User Property
    case 0x27 => Some(FourBytes)       // Maximum Packet Size
    case 0x28 => Some(OneByte)         // Wildcard Subscription Available
    case 0x29 => Some(OneByte)         // Subscription Identifier Available
    case 0x2A => Some(OneByte)         // Shared Subscription Available
    case _ => None
  }

  // ---------- wire forms ----------

  function TwoByteForm(n: u16): Bytes {
    [n / 0x100, n % 0x100]
  }

  function DataForm(data: Bytes): Bytes
    requires |data| <= 0xFFFF
  {
    TwoByteForm(|data|) + data
  }

  function ValueForm(value: Value): Bytes
    requires value.Encodable()
  {
    match value
    case ByteValue(b) => [b]
    case WordValue(w) => TwoByteForm(w)
    case LongValue(n) => [n / 0x100_0000, n / 0x1_0000 % 0x100, n / 0x100 % 0x100, n % 0x100]
    case VariableValue(v) => PutVbi(v)
    case DataValue(data) => DataForm(data)
    case PairValue(name, text) => DataForm(name) + DataForm(text)
  }

  /** Every value is encodable and has the type the broker expects of its identifier. */
  ghost predicate Readable(list: seq<Property>) {
    forall i :: 0 <= i < |list| ==> list[i].value.Encodable() && BrokerType(list[i].id) == Some(list[i].value.Type())
  }

  function ListForm(list: seq<Property>): Bytes
    requires Readable(list)
  {
    if list == [] then [] else [list[0].id] + ValueForm(list[0].value) + ListForm(list[1..])
  }

  /** A property section: its length, then the properties. */
  function SectionForm(body: Bytes): Bytes {
    PutVbi(|body|) + body
  }

  /** The value of the last Session Expiry Interval of the list. */
  function LastExpiry(list: seq<Property>): Option<u32> {
    if list == [] then None
    else
      var last := list[|list| - 1];
      if last.id == 0x11 && last.value.LongValue? then Some(last.value.n) else LastExpiry(list[..|list| - 1])
  }

  // ---------- one property ----------

  lemma ReadBackData(data: Bytes, tail: Bytes)
    requires |data| <= 0xFFFF
    ensures ReadBinary(DataForm(data) + tail) == Ok((data, tail))
  {
    assert DataForm(data) == PutBinary(data).value;
    ReadBackBinary(data, tail);
  }

  lemma SkipsPair(name: Bytes, text: Bytes, tail: Bytes)
    requires |name| <= 0xFFFF && |text| <= 0xFFFF
    ensures SkipProperty(DataForm(name) + DataForm(text) + tail, 0x24) == Ok(tail)
  {
    assert DataForm(name) + DataForm(text) + tail == DataForm(name) + (DataForm(text) + tail);
    ReadBackData(name, DataForm(text) + tail);
    ReadBackData(text, tail);
  }

  /** The broker passes over exactly the value, whatever follows it. */
  lemma SkipsValue(id: nat, value: Value, tail: Bytes)
    requires value.Encodable() && BrokerType(id) == Some(value.Type())
    ensures SkipProperty(ValueForm(value) + tail, id) == Ok(tail)
  {
    var s := ValueForm(value) + tail;
    match value {
      case ByteValue(b) => assert s[1..] == tail;
      case WordValue(w) => assert s[2..] == tail;
      case LongValue(n) => assert s[4..] == tail;
      case VariableValue(v) => ReadBackVbi(v, tail);
      case DataValue(data) => ReadBackData(data, tail);
      case PairValue(name, text) => SkipsPair(name, text, tail);
    }
  }

  lemma SkipsNothingElse(id: nat, s: Bytes)
    ensures BrokerType(id) == None <==> SkipProperty(s, id) == Err(MalformedBody(UnknownProperty(id)))
  {
  }

  // ---------- a list of properties ----------

  lemma {:induction false} LastExpiryOfRest(list: seq<Property>)
    requires list != []
    ensures LastExpiry(list) ==
      if LastExpiry(list[1..]).Some? then LastExpiry(list[1..]) else LastExpiry(list[..1])
  {
    var n := |list| - 1;
    if n > 0 {
      assert list[1..][n - 1] == list[n];
      assert list[1..][..n - 1] == list[..n][1..];
      assert list[..n][..1] == list[..1];
      LastExpiryOfRest(list[..n]);
    } else {
      assert list[..1] == list;
    }
  }

  /** The properties read so far, after one more. */
  function Noted(p: Property, props: ConnectProperties): ConnectProperties {
    if p.id == 0x11 && p.value.LongValue? then ConnectProperties(Some(p.value.n)) else props
  }

  lemma LongReadsBack(n: u32)
    ensures ReadU32(ValueForm(LongValue(n))) == n
  {
    assert ValueForm(LongValue(n)) == U32(n);
    ReadBackU32(n);
  }

  /** The decoder takes one property off the front. */
  lemma ReadsOne(p: Property, s: Bytes, rest: Bytes, end: nat, props: ConnectProperties)
    requires p.value.Encodable() && BrokerType(p.id) == Some(p.value.Type())
    requires s == [p.id] + (ValueForm(p.value) + rest) && end <= |rest|
    ensures ReadProperties(s, end, props) == ReadProperties(rest, end, Noted(p, props))
  {
    var s1 := ValueForm(p.value) + rest;
    assert s[1..] == s1 && p.id < 128;
    assert ReadVbi(s) == Ok((p.id as nat, s1));
    if p.id == 0x11 {
      assert s1[..4] == ValueForm(p.value) && s1[4..] == rest;
      LongReadsBack(p.value.n);
    } else {
      SkipsValue(p.id, p.value, rest);
    }
  }

  lemma {:induction false} ReadsList(list: seq<Property>, tail: Bytes, props: ConnectProperties)
    requires Readable(list)
    ensures ReadProperties(ListForm(list) + tail, |tail|, props)
         == Ok((if LastExpiry(list).Some? then ConnectProperties(LastExpiry(list)) else props, tail))
  {
    if list == [] {
      assert ListForm(list) + tail == tail;
    } else {
      var p, rest := list[0], ListForm(list[1..]) + tail;
      assert ListForm(list) + tail == [p.id] + (ValueForm(p.value) + rest);
      ReadsOne(p, ListForm(list) + tail, rest, |tail|, props);
      ReadsList(list[1..], tail, Noted(p, props));
      LastExpiryOfRest(list);
    }
  }

  /**
   * Every list of properties with values of the broker's types is read to its end and no further, and yields its last
   * Session Expiry Interval.
   */
  lemma ConnectSectionReads(list: seq<Property>, tail: Bytes)
    requires Readable(list) && |ListForm(list)| < 0x1000_0000
    ensures ReadConnectProperties(SectionForm(ListForm(list)) + tail)
         == Ok((ConnectProperties(LastExpiry(list)), tail))
  {
    var body := ListForm(list);
    assert SectionForm(body) + tail == PutVbi(|body|) + (body + tail);
    ReadBackVbi(|body|, body + tail);
    ReadsList(list, tail, ConnectProperties(None));
  }

  /** A will section is passed over whole, whatever is in it; before MQTT 5.0 there is none. */
  lemma WillSectionSkips(section: Bytes, tail: Bytes, level: byte)
    requires |section| < 0x1000_0000
    ensures SkipWillProperties(SectionForm(section) + tail, 5) == Ok(tail)
    ensures level != 5 ==> SkipWillProperties(tail, level) == Ok(tail)
  {
    assert SectionForm(section) + tail == PutVbi(|section|) + (section + tail);
    ReadBackVbi(|section|, section + tail);
    assert (section + tail)[|section|..] == tail;
  }

  /** A section that announces more bytes than there are is refused, and so is a session expiry cut short. */
  lemma TruncatedRefused(n: nat, rest: Bytes, cut: Bytes, props: ConnectProperties)
    requires |rest| < n < 0x1000_0000 && |cut| < 4
    ensures ReadConnectProperties(PutVbi(n) + rest) == Err(MalformedBody(ConnectPropertiesTruncated))
    ensures SkipWillProperties(PutVbi(n) + rest, 5) == Err(MalformedBody(WillPropertiesTruncated))
    ensures ReadProperties([0x11] + cut, 0, props) == Err(MalformedBody(ExpiryTruncated))
  {
    ReadBackVbi(n, rest);
    assert ([0x11] + cut)[1..] == cut;
    assert ReadVbi([0x11] + cut) == Ok((0x11 as nat, cut));
  }

  // ---------- the types of the standard ----------

  /** The identifiers to whose values the broker and the standard give the same type. */
  const AGREED: set<nat> := {0x01, 0x02, 0x03, 0x08, 0x09, 0x0B, 0x11, 0x12, 0x13, 0x15, 0x16, 0x17, 0x18, 0x19, 0x1A,
                             0x1C, 0x21, 0x28}

  lemma AgreedTypes(id: nat)
    ensures id in AGREED <==> StandardType(id).Some? && StandardType(id) == BrokerType(id)
  {
  }

  /** What is left after skipping a value under another identifier than those agreed on. */
  lemma SkipsTooFewOrTooMany(id: nat, value: Value, tail: Bytes)
    requires value.Encodable() && StandardType(id) == Some(value.Type())
    requires id !in AGREED && value != DataValue([])
    ensures SkipProperty(ValueForm(value) + tail, id) != Ok(tail)
  {
    assert id in {0x1F, 0x22, 0x23, 0x24, 0x25, 0x26, 0x27, 0x29, 0x2A};
    var s := ValueForm(value) + tail;
    var r := SkipProperty(s, id);
    if id == 0x1F {
      assert r.Ok? ==> |r.value| == |value.data| + |tail|;
    } else if id in {0x22, 0x23} {
      assert r.Ok? ==> |r.value| == 1 + |tail|;
    } else if id == 0x24 {
      assert r.Ok? ==> |r.value| <= |s| - 4;
    } else if id == 0x25 {
      assert r.Ok? ==> |r.value| == |s| - 4;
    } else if id == 0x26 {
      assert r.Ok? ==> |r.value| == |s| - 1;
    } else if id == 0x27 {
      assert r.Ok? ==> |r.value| == |s| - 1;
    }
  }

  /** A property as the standard writes it is passed over exactly, or it is one of those the broker's table gets wrong. */
  lemma StandardValueSkips(id: nat, value: Value, tail: Bytes)
    requires value.Encodable() && StandardType(id) == Some(value.Type())
    ensures SkipProperty(ValueForm(value) + tail, id) == Ok(tail)
       <==> id in AGREED || (id == 0x1F && value == DataValue([]))
  {
    AgreedTypes(id);
    if id in AGREED {
      SkipsValue(id, value, tail);
    } else if id == 0x1F && value == DataValue([]) {
      assert (ValueForm(value) + tail)[2..] == tail;
    } else {
      SkipsTooFewOrTooMany(id, value, tail);
    }
  }

  /** A Topic Alias Maximum of ten, which the standard allows in a CONNECT, is not read as one. */
  lemma TopicAliasMaximumRefused(tail: Bytes)
    ensures StandardType(0x22) == Some(WordValue(10).Type())
    ensures ReadConnectProperties([0x03, 0x22, 0x00, 0x0A] + tail) == Err(MalformedBody(UnknownProperty(0x0A)))
  {
    var s := [0x03, 0x22, 0x00, 0x0A] + tail;
    var s1, s2, s3 := [0x22, 0x00, 0x0A] + tail, [0x00, 0x0A] + tail, [0x0A] + tail;
    assert s[1..] == s1 && s1[1..] == s2 && s2[1..] == s3 && s3[1..] == tail;
    assert ReadVbi(s) == Ok((3 as nat, s1)) && ReadVbi(s1) == Ok((0x22 as nat, s2)) && ReadVbi(s3) == Ok((0x0A as nat, tail));
    assert SkipProperty(s2, 0x22) == Ok(s3);
    assert ReadProperties(s3, |tail|, ConnectProperties(None)) == Err(MalformedBody(UnknownProperty(0x0A)));
  }
}
