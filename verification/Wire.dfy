/**
 * Reading and writing the primitive fields of MQTT packets. A reader takes the bytes not yet read and returns the
 * value with what is left; `Reader` in the Codec is the same with a position.
 */
module Wire {
  import opened Basics
  import opened Packets

  datatype BodyFault =
    | EofU8 | EofU16 | EofBytes(wanted: nat) | VbiOverflow
    | ExpiryTruncated | UnknownProperty(id: nat) | ZeroPacketId
    | ConnectPropertiesTruncated | WillPropertiesTruncated | ConnackPropertiesTruncated
    | InvalidWillQos(level: nat) | InvalidQos(level: nat) | DupAtQos0
    | SubscribeWithoutTopic | UnsubscribeWithoutTopic
    | StringTooLong(size: nat) | BinaryTooLong(size: nat) | PacketTooLong(size: nat, limit: nat)

  datatype CodecError =
    | InvalidPacketType(value: byte)
    | InvalidFlags(packetType: byte, flags: byte)
    | InvalidProtocol(name: Text)
    | InvalidRemainingLength(length: nat)
    | MalformedUtf8
    | MalformedBody(fault: BodyFault)
    | UnsupportedVersion(level: byte)

  type Read<+T> = Result<(T, Bytes), CodecError>

  // ---------- readers ----------

  /** Most significant byte first. */
  function Word(hi: byte, lo: byte): u16 {
    hi as int * 0x100 + lo as int
  }

  function ReadU8(s: Bytes): (r: Read<byte>)
    ensures r.Ok? ==> |r.value.1| == |s| - 1
  {
    if s == [] then Err(MalformedBody(EofU8)) else Ok((s[0], s[1..]))
  }

  function ReadU16(s: Bytes): (r: Read<u16>)
    ensures r.Ok? ==> |r.value.1| == |s| - 2
  {
    if |s| < 2 then Err(MalformedBody(EofU16)) else Ok((Word(s[0], s[1]), s[2..]))
  }

  function ReadBytes(s: Bytes, n: nat): (r: Read<Bytes>)
    ensures r.Ok? ==> |r.value.0| == n && |r.value.1| == |s| - n
  {
    if |s| < n then Err(MalformedBody(EofBytes(n))) else Ok((s[..n], s[n..]))
  }

  function ReadBinary(s: Bytes): (r: Read<Bytes>)
    ensures r.Ok? ==> |r.value.0| <= 0xFFFF && |r.value.1| == |s| - 2 - |r.value.0|
  {
    var (n, s1) :- ReadU16(s);
    ReadBytes(s1, n)
  }

  function ReadString(s: Bytes): (r: Read<Text>)
    ensures r.Ok? ==> |r.value.0| <= 0xFFFF && |r.value.1| == |s| - 2 - |r.value.0|
  {
    var (raw, s1) :- ReadBinary(s);
    if ValidUtf8(raw) then (var text: Text := raw; Ok((text, s1))) else Err(MalformedUtf8)
  }

  /** A variable byte integer; `k` of its at most four bytes are already read. */
  function ReadVbiFrom(s: Bytes, k: nat): (r: Read<nat>)
    requires k < 4
    ensures r.Ok? ==> |r.value.1| < |s|
    decreases 4 - k
  {
    var (b, s1) :- ReadU8(s);
    if b < 128 then Ok((b, s1))
    else if k == 3 then Err(MalformedBody(VbiOverflow))
    else
      var (v, s2) :- ReadVbiFrom(s1, k + 1);
      Ok((b - 128 + 128 * v, s2))
  }

  function ReadVbi(s: Bytes): (r: Read<nat>)
    ensures r.Ok? ==> |r.value.1| < |s|
  {
    ReadVbiFrom(s, 0)
  }

  function ReadU32(raw: Bytes): u32
    requires |raw| == 4
  {
    Word(raw[0], raw[1]) as int * 0x1_0000 + Word(raw[2], raw[3]) as int
  }

  function ReadPacketId(s: Bytes): (r: Read<u16>)
    ensures r.Ok? ==> r.value.0 != 0 && |r.value.1| == |s| - 2
  {
    var (id, s1) :- ReadU16(s);
    if id == 0 then Err(MalformedBody(ZeroPacketId)) else Ok((id, s1))
  }

  // ---------- writers ----------

  function U16(n: u16): (r: Bytes)
    ensures |r| == 2
  {
    [n / 256, n % 256]
  }

  function U32(n: u32): (r: Bytes)
    ensures |r| == 4
  {
    [n / 0x100_0000, n / 0x1_0000 % 256, n / 256 % 256, n % 256]
  }

  function PutBinary(b: Bytes): (r: Result<Bytes, CodecError>)
    ensures r.Ok? <==> |b| <= 0xFFFF
    ensures r.Ok? ==> |r.value| == 2 + |b|
  {
    if |b| > 0xFFFF then Err(MalformedBody(BinaryTooLong(|b|))) else Ok(U16(|b|) + b)
  }

  function PutString(t: Text): (r: Result<Bytes, CodecError>)
    ensures r.Ok? <==> |t| <= 0xFFFF
    ensures r.Ok? ==> |r.value| == 2 + |t|
  {
    if |t| > 0xFFFF then Err(MalformedBody(StringTooLong(|t|))) else Ok(U16(|t|) + t)
  }

  /** The shortest variable byte integer: seven bits a byte, low bits first. */
  function PutVbi(n: nat): (r: Bytes)
    ensures |r| >= 1
  {
    if n < 128 then [n] else [n % 128 + 128] + PutVbi(n / 128)
  }

  // ---------- reading back what was written ----------

  lemma ReadBackU16(n: u16, tail: Bytes)
    ensures ReadU16(U16(n) + tail) == Ok((n, tail))
  {
    var s := U16(n) + tail;
    assert s[2..] == tail;
    assert s[0] == n / 256 && s[1] == n % 256;
  }

  lemma ReadBackBytes(b: Bytes, tail: Bytes)
    ensures ReadBytes(b + tail, |b|) == Ok((b, tail))
  {
    assert (b + tail)[..|b|] == b && (b + tail)[|b|..] == tail;
  }

  lemma ReadBackBinary(b: Bytes, tail: Bytes)
    requires |b| <= 0xFFFF
    ensures ReadBinary(PutBinary(b).value + tail) == Ok((b, tail))
  {
    assert PutBinary(b).value + tail == U16(|b|) + (b + tail);
    ReadBackU16(|b|, b + tail);
    ReadBackBytes(b, tail);
  }

  lemma ReadBackString(t: Text, tail: Bytes)
    requires |t| <= 0xFFFF
    ensures ReadString(PutString(t).value + tail) == Ok((t, tail))
  {
    assert PutString(t).value == PutBinary(t).value;
    ReadBackBinary(t, tail);
  }

  lemma ReadBackU32(n: u32)
    ensures ReadU32(U32(n)) == n
  {
    var x1 := n / 256;
    var x2 := x1 / 256;
    var x3 := x2 / 256;
    assert n / 0x1_0000 == x2 && n / 0x100_0000 == x3 && x3 < 256;
    assert U32(n) == [x3, x2 % 256, x1 % 256, n % 256];
    assert n == 256 * x1 + n % 256 && x1 == 256 * x2 + x1 % 256 && x2 == 256 * x3 + x2 % 256;
  }

  lemma {:induction false} ReadBackVbiFrom(n: nat, k: nat, tail: Bytes)
    requires k < 4 && n < (if k == 0 then 0x1000_0000 else if k == 1 then 0x20_0000 else if k == 2 then 0x4000 else 0x80)
    ensures ReadVbiFrom(PutVbi(n) + tail, k) == Ok((n, tail))
    decreases 4 - k
  {
    var s := PutVbi(n) + tail;
    if n < 128 {
      assert s[1..] == tail;
    } else {
      assert s[1..] == PutVbi(n / 128) + tail;
      ReadBackVbiFrom(n / 128, k + 1, tail);
    }
  }

  lemma ReadBackVbi(n: nat, tail: Bytes)
    requires n < 0x1000_0000
    ensures ReadVbi(PutVbi(n) + tail) == Ok((n, tail))
  {
    ReadBackVbiFrom(n, 0, tail);
  }

  // ---------- lengths ----------

  lemma {:induction false} PutVbiMonotone(m: nat, n: nat)
    requires m <= n
    ensures |PutVbi(m)| <= |PutVbi(n)|
  {
    if m >= 128 {
      PutVbiMonotone(m / 128, n / 128);
    }
  }

  /** No encoding of a number is shorter than the one written. */
  lemma {:induction false} PutVbiShortest(s: Bytes, k: nat)
    requires k < 4 && ReadVbiFrom(s, k).Ok?
    ensures |PutVbi(ReadVbiFrom(s, k).value.0)| <= |s| - |ReadVbiFrom(s, k).value.1|
    decreases 4 - k
  {
    if s[0] >= 128 {
      PutVbiShortest(s[1..], k + 1);
      var v := ReadVbiFrom(s[1..], k + 1).value.0;
      var n := s[0] - 128 + 128 * v;
      if n >= 128 {
        assert n / 128 == v;
      }
    }
  }
}
