/** The receiver of one MQTT connection: messages of QoS 2 wait for their PUBREL and are delivered once. */
module MqttQos2 {
  import opened Bytes
  import opened Common
  import opened Lists
  import opened Mqtt

  datatype Fault = Decoding(error: MqttError) | MissingId | ShortPubrel

  /** What a packet asks for. */
  datatype Event = Deliver(message: Incoming) | Hold(message: Incoming) | Release(id: nat) | Ignored | Broken(fault: Fault)

  datatype RawPacket = RawPacket(header: byte, body: bytes)

  function Classify(p: RawPacket, protocol: int): (e: Event)
    ensures e.Hold? ==> e.message.qos == 2 && 0 < e.message.packetId < 0x1_0000
    ensures e.Deliver? ==> e.message.qos <= 1
  {
    if p.header / 16 == 3 then
      match DecodePublish(p.header, p.body, protocol)
      case Err(error) => Broken(Decoding(error))
      case Ok(m) => if m.qos < 2 then Deliver(m) else if m.packetId == 0 then Broken(MissingId) else Hold(m)
    else if p.header / 16 == 6 then
      if |p.body| < 2 then Broken(ShortPubrel) else Release(Uint16(p.body, 0))
    else Ignored
  }

  /** Messages handed to Publish and packets written back, oldest first, and what waits for a PUBREL. */
  datatype State = State(pending: map<nat, Incoming>, delivered: seq<Incoming>, replies: seq<bytes>)

  function Reply(kind: byte, id: nat): bytes { [kind, 2] + Be16(id) }

  /** One turn of the receive loop; None ends the connection. */
  function Step(s: State, e: Event): Option<State> {
    match e
    case Broken(_) => None
    case Ignored => Some(s)
    case Deliver(m) =>
      var acknowledged := if m.qos == 1 && m.packetId != 0 then s.replies + [Reply(0x40, m.packetId)] else s.replies;
      Some(s.(delivered := s.delivered + [m], replies := acknowledged))
    case Hold(m) =>
      var pending := if m.packetId in s.pending then s.pending else s.pending[m.packetId := m];
      Some(s.(pending := pending, replies := s.replies + [Reply(0x50, m.packetId)]))
    case Release(id) =>
      var released := s.(replies := s.replies + [Reply(0x70, id)]);
      Some(if id !in s.pending then released
           else released.(pending := s.pending - {id}, delivered := s.delivered + [s.pending[id]]))
  }

  class Receiver {
    const protocol: int
    var pending: map<nat, Incoming>
    var delivered: seq<Incoming>
    var replies: seq<bytes>

    function Now(): State
      reads this
    {
      State(pending, delivered, replies)
    }

    constructor (protocol: int)
      ensures this.protocol == protocol && Now() == State(map[], [], [])
    {
      this.protocol, pending, delivered, replies := protocol, map[], [], [];
    }

    /** The body of the receive loop of runMQTT. */
    method Receive(header: byte, body: bytes) returns (fault: Option<Fault>)
      modifies this
      ensures match Step(old(Now()), Classify(RawPacket(header, body), protocol))
              case Some(s) => fault == None && Now() == s
              case None => fault == Some(Classify(RawPacket(header, body), protocol).fault) && Now() == old(Now())
    {
      hide DecodePublish, Be16, Uint16;
      if header / 16 == 3 {
        var decoded := DecodePublish(header, body, protocol);
        if decoded.Err? { return Some(Decoding(decoded.error)); }
        var m := decoded.value;
        if m.qos == 0 {
          delivered := delivered + [m];
        } else if m.qos == 1 {
          delivered := delivered + [m];
          if m.packetId != 0 { replies := replies + [Reply(0x40, m.packetId)]; }
        } else {
          if m.packetId == 0 { return Some(MissingId); }
          if m.packetId !in pending { pending := pending[m.packetId := m]; }
          replies := replies + [Reply(0x50, m.packetId)];
        }
      } else if header / 16 == 6 {
        if |body| < 2 { return Some(ShortPubrel); }
        var id := Uint16(body, 0);
        if id in pending {
          delivered := delivered + [pending[id]];
          pending := pending - {id};
        }
        replies := replies + [Reply(0x70, id)];
      }
      return None;
    }
  }

  // ---------------------------------------------------------------------------------------------
  // Whole connections

  predicate Healthy(events: seq<Event>) { forall i :: 0 <= i < |events| ==> !events[i].Broken? }

  function Run(events: seq<Event>): State
    requires Healthy(events)
  {
    if events == [] then State(map[], [], [])
    else Step(Run(events[..|events| - 1]), events[|events| - 1]).value
  }

  predicate HoldOf(e: Event, id: nat) { e.Hold? && e.message.packetId == id }

  /** Event j is the first PUBLISH of the identifier since its last PUBREL, looking back from position i. */
  ghost predicate FirstSince(events: seq<Event>, j: nat, i: nat, id: nat) {
    && j < i <= |events| && HoldOf(events[j], id)
    && (forall k :: j < k < i ==> events[k] != Release(id))
    && (forall k :: 0 <= k < j && HoldOf(events[k], id) ==> exists m :: k < m < j && events[m] == Release(id))
  }

  /** A packet waits exactly when some PUBLISH of its identifier came since the last PUBREL; it is the first of those. */
  lemma {:induction false} PendingIsFirst(events: seq<Event>, id: nat) returns (j: nat)
    requires Healthy(events)
    ensures id in Run(events).pending ==> FirstSince(events, j, |events|, id) && Run(events).pending[id] == events[j].message
    ensures id !in Run(events).pending ==> forall k :: 0 <= k < |events| && HoldOf(events[k], id) ==> exists m :: k < m < |events| && events[m] == Release(id)
  {
    j := 0;
    if events == [] {
    } else {
      var n := |events| - 1;
      var before := events[..n];
      j := PendingIsFirst(before, id);
      var s := Run(before);
      assert Run(events) == Step(s, events[n]).value;
      hide Run;
      if id !in s.pending {
        forall k | 0 <= k < n && HoldOf(events[k], id) ensures exists m :: k < m < n && events[m] == Release(id) {
          assert HoldOf(before[k], id);
          var m :| k < m < n && before[m] == Release(id);
          assert events[m] == Release(id);
        }
        if HoldOf(events[n], id) { j := n; }
      } else {
        FirstSinceExtends(events, j, n, id);
        if events[n] == Release(id) {
          forall k | 0 <= k < |events| && HoldOf(events[k], id) ensures exists m :: k < m < |events| && events[m] == Release(id) {
            assert k < n && events[n] == Release(id);
          }
        }
      }
    }
  }

  lemma FirstSinceExtends(events: seq<Event>, j: nat, n: nat, id: nat)
    requires n < |events| && FirstSince(events[..n], j, n, id)
    ensures FirstSince(events, j, n, id)
    ensures events[n] != Release(id) ==> FirstSince(events, j, n + 1, id)
  {
    var before := events[..n];
    forall k | 0 <= k < j && HoldOf(events[k], id) ensures exists m :: k < m < j && events[m] == Release(id) {
      assert HoldOf(before[k], id);
      var m :| k < m < j && before[m] == Release(id);
      assert events[m] == Release(id);
    }
  }

  lemma FirstSinceIsUnique(events: seq<Event>, j: nat, k: nat, i: nat, id: nat)
    requires FirstSince(events, j, i, id) && FirstSince(events, k, i, id)
    ensures j == k
  {
  }

  /** What the last packet of a connection delivers, read off the history alone. */
  ghost function LastDelivers(events: seq<Event>): seq<Incoming>
    requires events != []
  {
    var n: nat := |events| - 1;
    match events[n]
    case Deliver(m) => [m]
    case Release(id) =>
      if exists j: nat :: FirstSince(events, j, n, id) then
        var j: nat :| FirstSince(events, j, n, id);
        [events[j].message]
      else []
    case _ => []
  }

  ghost function Deliveries(events: seq<Event>): seq<Incoming> {
    if events == [] then [] else Deliveries(events[..|events| - 1]) + LastDelivers(events)
  }

  /**
   * Over any packets, what is delivered is: each QoS 0 and QoS 1 message when it comes, and at each PUBREL that has a
   * PUBLISH of its identifier since the PUBREL before, the first such PUBLISH. Nothing else is delivered.
   */
  lemma {:induction false} DeliveriesAreExact(events: seq<Event>)
    requires Healthy(events)
    ensures Run(events).delivered == Deliveries(events)
  {
    if events == [] {
    } else {
      var n: nat := |events| - 1;
      DeliveriesAreExact(events[..n]);
      assert Run(events) == Step(Run(events[..n]), events[n]).value;
      if events[n].Release? { ReleaseDelivers(events, events[n].id); }
      hide Run;
    }
  }

  lemma ReleaseDelivers(events: seq<Event>, id: nat)
    requires Healthy(events) && events != [] && events[|events| - 1] == Release(id)
    ensures var s := Run(events[..|events| - 1]);
            LastDelivers(events) == if id in s.pending then [s.pending[id]] else []
  {
    var n: nat := |events| - 1;
    var before := events[..n];
    var j := PendingIsFirst(before, id);
    hide Run;
    if id in Run(before).pending {
      FirstSinceExtends(events, j, n, id);
      forall k: nat | FirstSince(events, k, n, id) ensures k == j { FirstSinceIsUnique(events, j, k, n, id); }
    } else {
      forall k: nat ensures !FirstSince(events, k, n, id) {
        if k < n && HoldOf(events[k], id) {
          assert HoldOf(before[k], id);
          var m :| k < m < n && before[m] == Release(id);
          assert events[m] == Release(id);
        }
      }
    }
  }

  /** A PUBREL of the identifier comes after position k. */
  ghost predicate ReleasedAfter(events: seq<Event>, k: nat, id: nat) {
    exists m: nat :: k < m < |events| && events[m] == Release(id)
  }

  /** Position k holds the message that was delivered: at once, or released later. */
  ghost predicate Source(events: seq<Event>, k: nat, message: Incoming) {
    && k < |events| && (events[k].Deliver? || events[k].Hold?) && events[k].message == message
    && (events[k].Hold? ==> ReleasedAfter(events, k, message.packetId))
  }

  lemma SourceExtends(events: seq<Event>, k: nat, message: Incoming)
    requires events != [] && Source(events[..|events| - 1], k, message)
    ensures Source(events, k, message)
  {
    var before := events[..|events| - 1];
    if before[k].Hold? {
      var m: nat :| k < m < |before| && before[m] == Release(message.packetId);
      assert events[m] == Release(message.packetId);
    }
  }

  /** Over any packets no PUBLISH is delivered twice: the deliveries come from different packets. */
  lemma {:induction false} NothingDeliveredTwice(events: seq<Event>) returns (from: seq<nat>)
    requires Healthy(events)
    ensures |from| == |Run(events).delivered| && Distinct(from)
    ensures forall i :: 0 <= i < |from| ==> Source(events, from[i], Run(events).delivered[i])
  {
    if events == [] {
      from := [];
    } else {
      var n: nat := |events| - 1;
      var before := events[..n];
      from := NothingDeliveredTwice(before);
      var s := Run(before);
      assert Run(events) == Step(s, events[n]).value;
      forall i | 0 <= i < |from| ensures Source(events, from[i], s.delivered[i]) { SourceExtends(events, from[i], s.delivered[i]); }
      match events[n]
      case Deliver(m) => from := from + [n];
      case Release(id) =>
        if id in s.pending {
          var j := PendingIsFirst(before, id);
          assert !ReleasedAfter(before, j, id);
          assert forall i :: 0 <= i < |from| ==> Source(before, from[i], s.delivered[i]) && from[i] != j;
          assert events[n] == Release(id);
          from := from + [j];
        }
      case _ =>
      hide Run;
    }
  }

  /** What is waiting and what was delivered; the replies are left out. */
  predicate SameMessages(s: State, t: State) { s.pending == t.pending && s.delivered == t.delivered }

  /** A retransmission anywhere in a connection, while its identifier waits, changes no delivery then or later. */
  lemma {:induction false} RetransmissionIsHarmless(before: seq<Event>, m: Incoming, after: seq<Event>)
    requires Healthy(before) && Healthy(after) && m.packetId in Run(before).pending
    ensures Healthy(before + [Hold(m)] + after) && Healthy(before + after)
    ensures SameMessages(Run(before + [Hold(m)] + after), Run(before + after))
  {
    var long, short := before + [Hold(m)] + after, before + after;
    if after == [] {
      assert long[..|before|] == before && short == before;
    } else {
      var n := |after| - 1;
      RetransmissionIsHarmless(before, m, after[..n]);
      assert long[..|long| - 1] == before + [Hold(m)] + after[..n] && short[..|short| - 1] == before + after[..n];
      assert long[|long| - 1] == after[n] == short[|short| - 1];
      assert !after[n].Broken?;
    }
  }

  /** Every PUBLISH of QoS 2 and every PUBREL is answered, in order, whether or not it is a repetition. */
  function Answers(events: seq<Event>): seq<bytes> {
    if events == [] then []
    else
      var e := events[|events| - 1];
      Answers(events[..|events| - 1]) +
      (match e
       case Hold(m) => [Reply(0x50, m.packetId)]
       case Release(id) => [Reply(0x70, id)]
       case Deliver(m) => if m.qos == 1 && m.packetId != 0 then [Reply(0x40, m.packetId)] else []
       case _ => [])
  }

  lemma {:induction false} RepliesAreExact(events: seq<Event>)
    requires Healthy(events)
    ensures Run(events).replies == Answers(events)
  {
    hide Reply;
    if events != [] { RepliesAreExact(events[..|events| - 1]); }
  }

  /** From the wire: a QoS 2 PUBLISH as the standard lays it out is held under its identifier with its topic and payload. */
  lemma PublishIsHeld(p: Publish, protocol: int, dup: bool, retain: bool)
    requires WellFormed(p) && p.qos == 2 && p.packetId > 0
    ensures Classify(RawPacket(Header(p, dup, retain), Body(p, protocol)), protocol) ==
            Hold(Incoming(p.topic, p.payload, p.packetId, 2))
  {
    PublishRoundTrip(p, protocol, dup, retain);
    hide DecodePublish, Body;
  }

  /** PUBLISH is type 3 and PUBREL type 6 of section 2.1.2 of MQTT 3.1.1; only they are looked at, whatever their flags. */
  lemma OtherTypesAreIgnored(header: byte, body: bytes, protocol: int)
    ensures Classify(RawPacket(header, body), protocol).Ignored? <==> !(0x30 <= header <= 0x3F || 0x60 <= header <= 0x6F)
    ensures Classify(RawPacket(header, body), protocol).Release? <==> 0x60 <= header <= 0x6F && |body| >= 2
    ensures Classify(RawPacket(header, body), protocol) == Broken(ShortPubrel) <==> 0x60 <= header <= 0x6F && |body| < 2
  {
    hide DecodePublish, Uint16;
  }

  /** A PUBREL on the wire releases its identifier, whatever follows the identifier in its body. */
  lemma PubrelReleases(flags: byte, id: nat, properties: bytes, protocol: int)
    requires flags < 16 && id < 0x1_0000
    ensures Classify(RawPacket(0x60 + flags, Be16(id) + properties), protocol) == Release(id)
  {
    Be16Value([], id, properties);
    assert [] + Be16(id) + properties == Be16(id) + properties;
    assert |Be16(id)| == 2;
    hide Be16, Uint16, DecodePublish;
  }

  /** Every reply is a whole packet: read back, it is its type and the identifier, and nothing of what follows. */
  lemma ReplyIsPacket(kind: byte, id: nat, rest: bytes)
    requires id < 0x1_0000
    ensures Packet(Reply(kind, id) + rest) == Ok((kind, Be16(id), rest)) && Uint16(Be16(id), 0) == id
  {
    Be16Value([], id, []);
    assert [] + Be16(id) + [] == Be16(id);
    assert |Be16(id)| == 2;
    assert Reply(kind, id) == Frame(kind, Be16(id)) by { assert EncodeLength(2) == [2]; }
    PacketRoundTrip(kind, Be16(id), rest);
    hide Packet, Reply, Frame, Be16, Uint16;
  }
}
