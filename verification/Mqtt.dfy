/** The MQTT framing of the automation engine: remaining lengths, packets and PUBLISH bodies. */
module Mqtt {
  import opened Bytes
  import opened Common

  const MAX_PACKET: int := 0x40_0000
  const VAR_INT_LIMIT: int := 0x1000_0000

  datatype MqttError = Io(error: ReadError) | Oversized | BadLength | TooShort | BadTopic | BadQos | BadId | BadProperties

  // ---------------------------------------------------------------------------------------------
  // Variable-length numbers

  function EncodeLength(n: nat): (r: bytes)
    ensures |r| >= 1
  {
    if n < 128 then [n] else [n % 128 + 128] + EncodeLength(n / 128)
  }

  /** encodeRemainingLength */
  method EncodeRemainingLength(length: nat) returns (result: bytes)
    ensures result == EncodeLength(length)
  {
    result := [];
    var n := length;
    while true
      invariant n >= 0 && EncodeLength(length) == result + EncodeLength(n)
      decreases n
    {
      var value := n % 128;
      n := n / 128;
      if n > 0 { value := value + 128; }
      result := result + [value];
      if n == 0 { return; }
    }
  }

  /** The weight of the i-th byte. */
  function Weight(i: nat): nat
    requires i <= 4
  {
    if i == 0 then 1 else if i == 1 then 128 else if i == 2 then 16384 else if i == 3 then 2097152 else VAR_INT_LIMIT
  }

  function Weighted(n: nat, i: nat): nat
    requires i <= 4
  {
    n * Weight(i)
  }

  /** The number read from byte i on, on top of what the bytes before gave, and the position after it. */
  function VarInt(data: bytes, i: nat, value: nat): (r: Result<(nat, nat), MqttError>)
    requires i <= 4
    ensures r.Ok? ==> i < r.value.1 <= 4 && r.value.1 <= |data|
    decreases 4 - i
  {
    if i == 4 then Err(BadLength)
    else if i >= |data| then Err(Io(UnexpectedEof))
    else
      var next := value + Weighted(data[i] % 128, i);
      if data[i] < 128 then Ok((next, i + 1)) else VarInt(data, i + 1, next)
  }

  /** decodeMQTTVarInt */
  method DecodeVarInt(data: bytes) returns (r: Result<(nat, nat), MqttError>)
    ensures r == VarInt(data, 0, 0)
  {
    var multiplier: nat, value: nat := 1, 0;
    var i: nat := 0;
    while i < 4
      invariant i <= 4 && multiplier == Weight(i)
      invariant VarInt(data, i, value) == VarInt(data, 0, 0)
    {
      if i >= |data| { return Err(Io(UnexpectedEof)); }
      var current := data[i];
      value := value + current % 128 * multiplier;
      if current < 128 { return Ok((value, i + 1)); }
      multiplier := multiplier * 128;
      i := i + 1;
    }
    r := Err(BadLength);
  }

  lemma WeightNext(i: nat)
    requires i < 4
    ensures Weight(i + 1) == 128 * Weight(i)
  {
  }

  lemma WeightStep(n: nat, i: nat)
    requires i < 4
    ensures Weighted(n % 128, i) + Weighted(n / 128, i + 1) == Weighted(n, i)
    ensures Weighted(n, i) < VAR_INT_LIMIT <==> Weighted(n / 128, i + 1) < VAR_INT_LIMIT
    ensures i == 3 ==> (Weighted(n, i) < VAR_INT_LIMIT <==> n < 128)
    ensures n < 128 ==> Weighted(n, i) < VAR_INT_LIMIT
  {
    var q, r := n / 128, n % 128;
    assert n == 128 * q + r;
    match i
    case 0 =>
    case 1 =>
    case 2 =>
    case 3 =>
  }

  lemma {:induction false} VarIntAt(data: bytes, i: nat, value: nat, n: nat)
    requires i < 4 && At(data, i, EncodeLength(n))
    ensures VarInt(data, i, value) ==
            if Weighted(n, i) < VAR_INT_LIMIT then Ok((value + Weighted(n, i), i + |EncodeLength(n)|)) else Err(BadLength)
    decreases n
  {
    hide Weight, Weighted;
    WeightStep(n, i);
    var p := EncodeLength(n);
    assert data[i] == data[i..i + |p|][0];
    assert data[i] % 128 == n % 128;
    if n >= 128 {
      assert p[1..] == EncodeLength(n / 128);
      assert data[i + 1..i + |p|] == data[i..i + |p|][1..];
      hide EncodeLength;
      if i < 3 { VarIntAt(data, i + 1, value + Weighted(n % 128, i), n / 128); }
    }
  }

  /** Decoding undoes encoding, with any bytes following, exactly for numbers below 2^28. */
  lemma VarIntRoundTrip(n: nat, rest: bytes)
    ensures VarInt(EncodeLength(n) + rest, 0, 0) ==
            if n < VAR_INT_LIMIT then Ok((n, |EncodeLength(n)|)) else Err(BadLength)
  {
    VarIntAt(EncodeLength(n) + rest, 0, 0, n);
  }

  /** What is decoded is below 2^28, and its own encoding is never longer than the bytes it was read from. */
  lemma {:induction false} VarIntBounds(data: bytes, i: nat, value: nat) returns (w: nat)
    requires i <= 4 && VarInt(data, i, value).Ok?
    ensures var (v, j) := VarInt(data, i, value).value;
            v == value + Weighted(w, i) && Weighted(w, i) < VAR_INT_LIMIT && |EncodeLength(w)| <= j - i
    decreases 4 - i
  {
    hide Weight, Weighted;
    if data[i] < 128 {
      w := data[i];
      WeightStep(w, i);
    } else {
      var low := data[i] % 128;
      var u := VarIntBounds(data, i + 1, value + Weighted(low, i));
      hide VarInt;
      w := low + 128 * u;
      Rejoined(low, u);
      WeightStep(w, i);
      assert |EncodeLength(w)| <= 1 + |EncodeLength(u)|;
      hide EncodeLength;
    }
  }

  // ---------------------------------------------------------------------------------------------
  // Packets

  function Remaining(s: bytes, i: nat, sum: nat): (r: Result<(nat, bytes), MqttError>)
    requires i <= 4
    ensures r.Ok? ==> r.value.0 <= MAX_PACKET
    decreases 4 - i
  {
    if i == 4 then Err(BadLength)
    else if s == [] then Err(Io(Eof))
    else
      var next := sum + Weighted(s[0] % 128, i);
      if next > MAX_PACKET then Err(Oversized)
      else if s[0] < 128 then Ok((next, s[1..]))
      else Remaining(s[1..], i + 1, next)
  }

  function Packet(s: bytes): Result<(byte, bytes, bytes), MqttError> {
    if s == [] then Err(Io(Eof))
    else
      match Remaining(s[1..], 0, 0)
      case Err(e) => Err(e)
      case Ok((length, rest)) => if |rest| < length then Err(Io(ShortRead(rest))) else Ok((s[0], rest[..length], rest[length..]))
  }

  /** The length loop of readMQTTPacket. */
  method ReadRemaining(reader: Reader) returns (r: Result<nat, MqttError>)
    modifies reader
    ensures match Remaining(old(reader.rest), 0, 0)
            case Ok((length, rest)) => r == Ok(length) && reader.rest == rest
            case Err(e) => r == Err(e)
  {
    ghost var start := reader.rest;
    var multiplier: nat, remaining: nat := 1, 0;
    var i: nat := 0;
    assert Weight(0) == 1;
    hide Weight;
    while i < 4
      invariant i <= 4 && multiplier == Weight(i)
      invariant Remaining(reader.rest, i, remaining) == Remaining(start, 0, 0)
    {
      WeightNext(i);
      var value := reader.ReadByte();
      if value.Err? { return Err(Io(value.error)); }
      remaining := remaining + value.value % 128 * multiplier;
      if remaining > MAX_PACKET { return Err(Oversized); }
      if value.value < 128 { return Ok(remaining); }
      multiplier := multiplier * 128;
      i := i + 1;
    }
    r := Err(BadLength);
  }

  /** readMQTTPacket */
  method ReadPacket(reader: Reader) returns (r: Result<(byte, bytes), MqttError>)
    modifies reader
    ensures match Packet(old(reader.rest))
            case Ok((header, body, rest)) => r == Ok((header, body)) && reader.rest == rest
            case Err(e) => r == Err(e)
  {
    hide Remaining;
    var header := reader.ReadByte();
    if header.Err? { return Err(Io(header.error)); }
    var length := ReadRemaining(reader);
    if length.Err? { return Err(length.error); }
    var body := reader.ReadFull(length.value);
    if body.Err? { return Err(Io(body.error)); }
    r := Ok((header.value, body.value));
  }

  lemma {:induction false} RemainingAt(n: nat, rest: bytes, i: nat, sum: nat)
    requires i < 4 && sum + Weighted(n, i) <= MAX_PACKET
    ensures Remaining(EncodeLength(n) + rest, i, sum) == Ok((sum + Weighted(n, i), rest))
    decreases n
  {
    hide Weight, Weighted, Remaining, EncodeLength;
    WeightStep(n, i);
    if n < 128 {
      RemainingLast(n, rest, i, sum);
    } else {
      RemainingStep(n, rest, i, sum);
      RemainingAt(n / 128, rest, i + 1, sum + Weighted(n % 128, i));
    }
  }

  lemma {:induction false} RemainingTooLarge(n: nat, rest: bytes, i: nat, sum: nat)
    requires i < 4 && sum + Weighted(n, i) > MAX_PACKET && Weighted(n, i) < VAR_INT_LIMIT
    ensures Remaining(EncodeLength(n) + rest, i, sum) == Err(Oversized)
    decreases n
  {
    WeightStep(n, i);
    if n >= 128 {
      var next := sum + Weighted(n % 128, i);
      RemainingStep(n, rest, i, sum);
      if next <= MAX_PACKET { RemainingTooLarge(n / 128, rest, i + 1, next); }
      hide Weight, Weighted, EncodeLength, Remaining;
    } else {
      hide Weight, Weighted;
    }
  }

  /** The last byte of a number. */
  lemma RemainingLast(n: nat, rest: bytes, i: nat, sum: nat)
    requires i < 4 && n < 128 && sum + Weighted(n, i) <= MAX_PACKET
    ensures Remaining(EncodeLength(n) + rest, i, sum) == Ok((sum + Weighted(n, i), rest))
  {
    hide Weight, Weighted;
    assert EncodeLength(n) == [n];
    assert ([n] + rest)[1..] == rest;
  }

  /** One byte of a longer number. */
  lemma RemainingStep(n: nat, rest: bytes, i: nat, sum: nat)
    requires i < 4 && n >= 128
    ensures var next := sum + Weighted(n % 128, i);
            Remaining(EncodeLength(n) + rest, i, sum) ==
            if next > MAX_PACKET then Err(Oversized) else Remaining(EncodeLength(n / 128) + rest, i + 1, next)
  {
    var first := n % 128 + 128;
    Rejoined(n % 128, 1);
    assert EncodeLength(n) == [first] + EncodeLength(n / 128);
    hide Weight, Weighted, EncodeLength;
    assert ([first] + EncodeLength(n / 128) + rest)[1..] == EncodeLength(n / 128) + rest;
  }

  lemma Rejoined(low: nat, high: nat)
    requires low < 128
    ensures (low + 128 * high) % 128 == low && (low + 128 * high) / 128 == high
  {
  }

  function Frame(header: byte, body: bytes): bytes { [header] + EncodeLength(|body|) + body }

  /** A written packet is read back, whatever follows it, exactly when its body is at most 4 MiB. */
  lemma PacketRoundTrip(header: byte, body: bytes, rest: bytes)
    requires |body| < VAR_INT_LIMIT
    ensures Packet(Frame(header, body) + rest) == if |body| <= MAX_PACKET then Ok((header, body, rest)) else Err(Oversized)
  {
    var s := Frame(header, body) + rest;
    assert s[1..] == EncodeLength(|body|) + (body + rest);
    assert (body + rest)[..|body|] == body && (body + rest)[|body|..] == rest;
    if |body| <= MAX_PACKET { RemainingAt(|body|, body + rest, 0, 0); } else { RemainingTooLarge(|body|, body + rest, 0, 0); }
    hide EncodeLength, Remaining;
  }

  // ---------------------------------------------------------------------------------------------
  // PUBLISH

  datatype Incoming = Incoming(topic: bytes, payload: bytes, packetId: nat, qos: nat)

  function Uint16(data: bytes, i: nat): nat
    requires i + 2 <= |data|
  {
    var high: nat := data[i];
    256 * high + data[i + 1]
  }

  /** decodePublish, once the topic and the packet identifier are known: what is left from the given offset. */
  function DecodeRest(body: bytes, offset: nat, protocol: int): (r: Result<nat, MqttError>)
    requires offset <= |body|
    ensures r.Ok? ==> offset <= r.value <= |body|
  {
    if protocol != 5 then Ok(offset)
    else
      match VarInt(body[offset..], 0, 0)
      case Err(e) => Err(e)
      case Ok((properties, consumed)) =>
        if offset + consumed + properties > |body| then Err(BadProperties) else Ok(offset + consumed + properties)
  }

  /** decodePublish */
  function DecodePublish(header: byte, body: bytes, protocol: int): (r: Result<Incoming, MqttError>)
    ensures r.Ok? ==> r.value.qos <= 2 && r.value.packetId < 0x1_0000
  {
    if |body| < 2 then Err(TooShort)
    else
      var length := Uint16(body, 0);
      if |body| < 2 + length then Err(BadTopic)
      else
        var topic, offset, qos := body[2..2 + length], 2 + length, header / 2 % 4;
        if qos == 3 then Err(BadQos)
        else if qos > 0 && |body| < offset + 2 then Err(BadId)
        else
          var packetId, after := if qos > 0 then Uint16(body, offset) else 0, if qos > 0 then offset + 2 else offset;
          match DecodeRest(body, after, protocol)
          case Err(e) => Err(e)
          case Ok(start) => Ok(Incoming(topic, body[start..], packetId, qos))
  }

  /** A PUBLISH packet as section 3.3 of MQTT 5.0 lays it out. */
  datatype Publish = Publish(topic: bytes, packetId: nat, qos: nat, properties: bytes, payload: bytes)

  predicate WellFormed(p: Publish) {
    |p.topic| < 0x1_0000 && p.packetId < 0x1_0000 && p.qos <= 2 && |p.properties| < VAR_INT_LIMIT
  }

  function Be16(n: nat): bytes { [n / 256 % 256, n % 256] }

  function Header(p: Publish, dup: bool, retain: bool): byte
    requires WellFormed(p)
  {
    var flags: nat := (if dup then 8 else 0) + 2 * p.qos + (if retain then 1 else 0);
    0x30 + flags
  }

  function IdBytes(p: Publish): bytes { if p.qos > 0 then Be16(p.packetId) else [] }

  function PropertyBytes(p: Publish, protocol: int): bytes {
    if protocol == 5 then EncodeLength(|p.properties|) + p.properties else []
  }

  function Body(p: Publish, protocol: int): bytes {
    Be16(|p.topic|) + (p.topic + (IdBytes(p) + (PropertyBytes(p, protocol) + p.payload)))
  }

  lemma DecodeRestAt(p: Publish, protocol: int, front: bytes)
    requires WellFormed(p)
    ensures var body := front + (PropertyBytes(p, protocol) + p.payload);
            DecodeRest(body, |front|, protocol) == Ok(|front| + |PropertyBytes(p, protocol)|)
  {
    var body := front + (PropertyBytes(p, protocol) + p.payload);
    if protocol == 5 {
      VarIntRoundTrip(|p.properties|, p.properties + p.payload);
      assert body[|front|..] == EncodeLength(|p.properties|) + (p.properties + p.payload);
      hide EncodeLength, VarInt;
    }
  }

  lemma Be16Value(front: bytes, n: nat, rest: bytes)
    requires n < 0x1_0000
    ensures Uint16(front + (Be16(n) + rest), |front|) == n
  {
    var data := front + (Be16(n) + rest);
    assert data[|front|] == n / 256 && data[|front| + 1] == n % 256;
  }

  lemma BodyFields(p: Publish, protocol: int) returns (front: bytes)
    requires WellFormed(p)
    ensures var body := Body(p, protocol);
            && |front| == 2 + |p.topic| + |IdBytes(p)|
            && body == front + (PropertyBytes(p, protocol) + p.payload)
            && Uint16(body, 0) == |p.topic| && body[2..2 + |p.topic|] == p.topic
            && (p.qos > 0 ==> Uint16(body, 2 + |p.topic|) == p.packetId)
  {
    hide PropertyBytes, Be16, Uint16, IdBytes;
    var length, rest := Be16(|p.topic|), PropertyBytes(p, protocol) + p.payload;
    front := length + p.topic + IdBytes(p);
    Layout(length, p.topic, IdBytes(p), rest);
    Be16Length(|p.topic|);
    Be16Value([], |p.topic|, p.topic + (IdBytes(p) + rest));
    assert [] + Body(p, protocol) == Body(p, protocol);
    if p.qos > 0 {
      assert IdBytes(p) == Be16(p.packetId) by { IdOf(p); }
      Be16Value(length + p.topic, p.packetId, rest);
    }
  }

  lemma IdOf(p: Publish)
    ensures IdBytes(p) == if p.qos > 0 then Be16(p.packetId) else []
  {
  }

  lemma Layout(a: bytes, b: bytes, c: bytes, d: bytes)
    ensures a + (b + (c + d)) == (a + b) + (c + d)
    ensures a + (b + (c + d)) == (a + b + c) + d
    ensures (a + (b + (c + d)))[|a|..|a| + |b|] == b
  {
  }

  /** Every field of a well-formed PUBLISH is recovered, for either protocol and any DUP and RETAIN flags. */
  lemma PublishRoundTrip(p: Publish, protocol: int, dup: bool, retain: bool)
    requires WellFormed(p)
    ensures DecodePublish(Header(p, dup, retain), Body(p, protocol), protocol) ==
            Ok(Incoming(p.topic, p.payload, if p.qos > 0 then p.packetId else 0, p.qos))
  {
    hide DecodeRest, PropertyBytes, Uint16, Body, Be16;
    var front := BodyFields(p, protocol);
    DecodeRestAt(p, protocol, front);
    assert |IdBytes(p)| == if p.qos > 0 then 2 else 0 by { Be16Length(p.packetId); }
    assert Header(p, dup, retain) / 2 % 4 == p.qos;
    assert Body(p, protocol)[|front| + |PropertyBytes(p, protocol)|..] == p.payload;
    hide Header, IdBytes;
  }

  lemma Be16Length(n: nat)
    ensures |Be16(n)| == 2
  {
  }

  lemma RestParts(body: bytes, after: nat, protocol: int) returns (counted: bytes, properties: bytes)
    requires after <= |body| && DecodeRest(body, after, protocol).Ok?
    ensures var payload := body[DecodeRest(body, after, protocol).value..];
            && body[after..] == counted + properties + payload
            && (protocol == 5 ==> VarInt(counted + properties + payload, 0, 0) == Ok((|properties|, |counted|)))
            && (protocol != 5 ==> counted == [] && properties == [])
  {
    var start := DecodeRest(body, after, protocol).value;
    counted, properties := [], [];
    if protocol == 5 {
      var (size, consumed) := VarInt(body[after..], 0, 0).value;
      counted, properties := body[after..after + consumed], body[after + consumed..start];
    }
    hide VarInt;
    assert body[after..] == counted + properties + body[start..];
  }

  /** Where the fields of an accepted body stand. */
  lemma PublishFields(header: byte, body: bytes, protocol: int) returns (offset: nat, after: nat)
    requires DecodePublish(header, body, protocol).Ok?
    ensures var m := DecodePublish(header, body, protocol).value;
            && 2 <= offset <= after <= |body| && m.topic == body[2..offset] && Uint16(body, 0) == offset - 2
            && (if m.qos > 0 then after == offset + 2 && m.packetId == Uint16(body, offset) else after == offset)
            && DecodeRest(body, after, protocol).Ok? && m.payload == body[DecodeRest(body, after, protocol).value..]
  {
    hide DecodeRest;
    offset := 2 + Uint16(body, 0);
    after := if header / 2 % 4 > 0 then offset + 2 else offset;
  }

  /** Conversely, an accepted body is its length-prefixed topic, its identifier, its counted properties and the payload. */
  lemma PublishParts(header: byte, body: bytes, protocol: int) returns (counted: bytes, properties: bytes)
    requires DecodePublish(header, body, protocol).Ok?
    ensures var m := DecodePublish(header, body, protocol).value;
            && body == Be16(|m.topic|) + m.topic + (if m.qos > 0 then Be16(m.packetId) else []) + (counted + properties + m.payload)
            && |m.topic| < 0x1_0000
            && (protocol == 5 ==> VarInt(counted + properties + m.payload, 0, 0) == Ok((|properties|, |counted|)))
            && (protocol != 5 ==> counted == [] && properties == [])
  {
    var offset, after := PublishFields(header, body, protocol);
    hide DecodePublish;
    counted, properties := RestParts(body, after, protocol);
    hide VarInt, DecodeRest;
    Be16At(body, 0);
    if offset < after { Be16At(body, offset); }
    assert |body[2..offset]| == Uint16(body, 0);
    hide Be16, Uint16;
    Cut(body, offset, after);
    assert body[..offset] == body[..2] + body[2..offset];
  }

  lemma Be16At(body: bytes, i: nat)
    requires i + 2 <= |body|
    ensures body[i..i + 2] == Be16(Uint16(body, i))
  {
  }

  lemma Cut(body: bytes, a: nat, b: nat)
    requires a <= b <= |body|
    ensures body == body[..a] + body[a..b] + body[b..]
  {
  }

  /** From the wire: a well-formed PUBLISH within the packet limit is read and decoded back to its fields. */
  lemma WireRoundTrip(p: Publish, protocol: int, dup: bool, retain: bool, rest: bytes)
    requires WellFormed(p) && |Body(p, protocol)| <= MAX_PACKET
    ensures var packet := Packet(Frame(Header(p, dup, retain), Body(p, protocol)) + rest);
            && packet.Ok? && packet.value.2 == rest
            && DecodePublish(packet.value.0, packet.value.1, protocol) ==
               Ok(Incoming(p.topic, p.payload, if p.qos > 0 then p.packetId else 0, p.qos))
  {
    hide Packet, Frame, Body, Header, DecodePublish;
    PacketRoundTrip(Header(p, dup, retain), Body(p, protocol), rest);
    PublishRoundTrip(p, protocol, dup, retain);
  }
}
