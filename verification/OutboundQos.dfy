/**
 * Outbound QoS 1 and QoS 2 delivery on one connection (section 4.3 of MQTT 3.1.1): the inflight table with its handshake
 * stages, packet identifiers and retransmission, as functions on the connection's state. Each inflight entry has a serial
 * number, and a log records what the connection writes, so that statements about whole runs can be made.
 */
module OutboundQos {
  import opened Basics
  import opened Packets
  import opened CyclicIds

  datatype Outbound = Outbound(topic: Text, payload: Bytes, qos: QoS, retain: bool)

  datatype Stage = WaitFirstAck | WaitPubcomp

  datatype Entry = Entry(message: Outbound, stage: Stage, lastSent: nat, retries: nat)

  datatype Config = Config(maxInflight: nat, timeout: nat, maxRetries: nat)

  /** One packet written: the serial of the entry it was sent for, and whether a retry tick sent it. */
  datatype Sent = Sent(packet: Packet, serial: Option<nat>, resend: bool)

  datatype Conn = Conn(
    table: map<u16, Entry>,
    next: u16,
    serials: map<u16, nat>,
    made: nat,
    acked: nat,
    failed: nat,
    log: seq<Sent>)

  const MAX_PACKET_ID := 65535

  function Fresh(): Conn {
    Conn(map[], 1, map[], 0, 0, 0, [])
  }

  function PublishOf(m: Outbound, id: Option<u16>, dup: bool): Packet {
    Publish(PublishPacket(dup, m.qos, m.retain, m.topic, id, m.payload))
  }

  /** The packet that (re)starts the entry's current stage. PUBREL has no DUP flag. */
  function BuildPacket(e: Entry, id: u16, dup: bool): Packet {
    match e.stage
    case WaitFirstAck => PublishOf(e.message, Some(id), dup)
    case WaitPubcomp => Pubrel(id)
  }

  function Elapsed(now: nat, since: nat): nat {
    if now >= since then now - since else 0
  }

  predicate Due(e: Entry, now: nat, cfg: Config) {
    Elapsed(now, e.lastSent) >= cfg.timeout
  }

  // ---------- one event at a time ----------

  function Write(c: Conn, p: Packet, serial: Option<nat>, resend: bool): Conn {
    c.(log := c.log + [Sent(p, serial, resend)])
  }

  /** A message for this client; it is dropped when the table is at its cap or no identifier is free. */
  function Deliver(c: Conn, m: Outbound, now: nat, cfg: Config): Conn {
    if m.qos == AtMostOnce then
      Write(c, PublishOf(m, None, false), None, false)
    else if |c.table| >= cfg.maxInflight then
      c
    else
      var (id, cursor) := Search(c.next, c.table.Keys, 65535, MAX_PACKET_ID);
      if id == 0 then c.(next := cursor) else Insert(c, m, now, id, cursor)
  }

  function Insert(c: Conn, m: Outbound, now: nat, id: u16, cursor: u16): Conn {
    Write(c.(table := c.table[id := Entry(m, WaitFirstAck, now, 0)], next := cursor,
             serials := c.serials[id := c.made], made := c.made + 1),
          PublishOf(m, Some(id), false), Some(c.made), false)
  }

  function Drop(c: Conn, id: u16): Conn {
    c.(table := c.table - {id}, serials := c.serials - {id})
  }

  /** PUBACK or PUBCOMP: the entry goes, whatever its QoS and stage. */
  function Acknowledge(c: Conn, id: u16): Conn {
    if id in c.table then Drop(c, id).(acked := c.acked + 1) else c
  }

  /** PUBREC: any entry moves to the second stage; PUBREL is answered even for an unknown identifier. */
  function Advance(c: Conn, id: u16, now: nat): Conn {
    if id in c.table then
      Write(c.(table := c.table[id := c.table[id].(stage := WaitPubcomp, lastSent := now)]), Pubrel(id), None, false)
    else
      Write(c, Pubrel(id), None, false)
  }

  /** One entry met by the retry scan. */
  function Visit(c: Conn, id: u16, now: nat, cfg: Config): Conn {
    if id !in c.table || id !in c.serials || !Due(c.table[id], now, cfg) then c
    else if c.table[id].retries >= cfg.maxRetries then Drop(c, id).(failed := c.failed + 1)
    else Resend(c, id, now)
  }

  function Resend(c: Conn, id: u16, now: nat): Conn
    requires id in c.table && id in c.serials
  {
    var e := c.table[id].(lastSent := now, retries := c.table[id].retries + 1);
    Write(c.(table := c.table[id := e]), BuildPacket(e, id, e.stage == WaitFirstAck), Some(c.serials[id]), true)
  }

  /** A retry tick that meets the entries in the given order. */
  function Tick(c: Conn, now: nat, cfg: Config, order: seq<u16>): Conn
    decreases |order|
  {
    if order == [] then c
    else
      var k := |order| - 1;
      Visit(Tick(c, now, cfg, order[..k]), order[k], now, cfg)
  }

  datatype Event =
    | Outgoing(message: Outbound, now: nat)
    | GotPuback(id: u16)
    | GotPubrec(id: u16, now: nat)
    | GotPubcomp(id: u16)
    | RetryTick(now: nat, order: seq<u16>)

  function Step(c: Conn, ev: Event, cfg: Config): Conn {
    match ev
    case Outgoing(m, now) => Deliver(c, m, now, cfg)
    case GotPuback(id) => Acknowledge(c, id)
    case GotPubrec(id, now) => Advance(c, id, now)
    case GotPubcomp(id) => Acknowledge(c, id)
    case RetryTick(now, order) => Tick(c, now, cfg, order)
  }

  function Run(events: seq<Event>, cfg: Config): Conn {
    if events == [] then Fresh()
    else Step(Run(events[..|events| - 1], cfg), events[|events| - 1], cfg)
  }

  // ---------- what every reachable state keeps ----------

  predicate IsPublish(x: Sent) {
    x.packet.Publish? && x.serial.Some?
  }

  function WithoutDup(p: Packet): Packet
    requires p.Publish?
  {
    Publish(p.publish.(dup := false))
  }

  /** A later transmission of the same message: flagged as a resend, the same but for DUP, no PUBREL in between. */
  ghost predicate Retransmitted(log: seq<Sent>, i: nat, k: nat)
    requires i < k < |log| && IsPublish(log[i]) && IsPublish(log[k])
  {
    && log[k].resend
    && WithoutDup(log[i].packet) == WithoutDup(log[k].packet)
    && NoPubrel(log[i + 1..k], log[k].packet.publish.packetId)
  }

  ghost predicate NoPubrel(log: seq<Sent>, id: Option<u16>) {
    id.Some? ==> forall x :: x in log ==> x.packet != Pubrel(id.value)
  }

  ghost predicate LogOk(log: seq<Sent>, made: nat) {
    && (forall x :: x in log ==> ItemOk(x, made))
    && (forall i: nat, k: nat ::
          i < k < |log| && IsPublish(log[i]) && IsPublish(log[k]) && log[i].serial == log[k].serial
          ==> Retransmitted(log, i, k))
  }

  predicate ItemOk(x: Sent, made: nat) {
    && (x.serial.Some? ==> x.serial.value < made)
    && (IsPublish(x) ==> x.packet.publish.dup == x.resend && x.packet.publish.packetId.Some?)
  }

  /** The log against a live entry: what was published for it is its message; before PUBREC no PUBREL came after. */
  ghost predicate EntryOk(log: seq<Sent>, id: u16, serial: nat, e: Entry) {
    forall i: nat :: i < |log| && IsPublish(log[i]) && log[i].serial == Some(serial) ==>
      && WithoutDup(log[i].packet) == PublishOf(e.message, Some(id), false)
      && (e.stage == WaitFirstAck ==> NoPubrel(log[i + 1..], Some(id)))
  }

  ghost predicate TableOk(c: Conn, cfg: Config) {
    && c.next != 0
    && 0 !in c.table
    && c.table.Keys == c.serials.Keys
    && |c.table| <= cfg.maxInflight
    && c.made == |c.table| + c.acked + c.failed
  }

  ghost predicate SerialsOk(serials: map<u16, nat>, made: nat) {
    && (forall id :: id in serials ==> serials[id] < made)
    && (forall a, b :: a in serials && b in serials && serials[a] == serials[b] ==> a == b)
  }

  function Resends(log: seq<Sent>, serial: nat): nat {
    if log == [] then 0
    else
      var x := log[|log| - 1];
      Resends(log[..|log| - 1], serial) + if x.resend && x.serial == Some(serial) then 1 else 0
  }

  ghost predicate EntriesOk(c: Conn)
    requires c.table.Keys == c.serials.Keys
  {
    forall id :: id in c.table ==> EntryOk(c.log, id, c.serials[id], c.table[id])
  }

  /** No entry was resent more often than allowed, and a live entry knows how often it was. */
  ghost predicate ResendsOk(c: Conn, cfg: Config)
    requires c.table.Keys == c.serials.Keys
  {
    && (forall s: nat :: Resends(c.log, s) <= if s < c.made then cfg.maxRetries else 0)
    && (forall id :: id in c.table ==> Resends(c.log, c.serials[id]) == c.table[id].retries)
  }

  ghost predicate Inv(c: Conn, cfg: Config) {
    && TableOk(c, cfg)
    && SerialsOk(c.serials, c.made)
    && LogOk(c.log, c.made)
    && EntriesOk(c)
    && ResendsOk(c, cfg)
  }

  // ---------- appending to the log ----------

  /** A packet that is not a publish of an entry. */
  lemma AppendOther(log: seq<Sent>, x: Sent, made: nat)
    requires LogOk(log, made) && ItemOk(x, made) && !IsPublish(x)
    ensures LogOk(log + [x], made)
  {
    var more := log + [x];
    forall i: nat, k: nat | i < k < |more| && IsPublish(more[i]) && IsPublish(more[k]) && more[i].serial == more[k].serial
      ensures Retransmitted(more, i, k)
    {
      assert Retransmitted(log, i, k);
      assert more[i + 1..k] == log[i + 1..k];
    }
  }

  /** A publish for an entry that still waits for its first acknowledgement, or for a new entry. */
  lemma AppendPublish(log: seq<Sent>, x: Sent, made: nat, id: u16, serial: nat, e: Entry)
    requires LogOk(log, made) && EntryOk(log, id, serial, e) && e.stage == WaitFirstAck && serial < made
    requires x == Sent(PublishOf(e.message, Some(id), x.resend), Some(serial), x.resend)
    requires x.resend || forall y :: y in log ==> y.serial != Some(serial)
    ensures LogOk(log + [x], made)
  {
    var more := log + [x];
    forall i: nat, k: nat | i < k < |more| && IsPublish(more[i]) && IsPublish(more[k]) && more[i].serial == more[k].serial
      ensures Retransmitted(more, i, k)
    {
      assert more[i] == log[i];
      if k < |log| {
        assert Retransmitted(log, i, k);
        assert more[i + 1..k] == log[i + 1..k];
      } else {
        assert log[i] in log;
        assert more[i + 1..k] == log[i + 1..];
      }
    }
  }

  /** What one more packet leaves as it was for an entry. */
  lemma AppendEntry(log: seq<Sent>, x: Sent, id: u16, serial: nat, e: Entry)
    requires EntryOk(log, id, serial, e)
    requires e.stage == WaitFirstAck ==> x.packet != Pubrel(id)
    requires IsPublish(x) && x.serial == Some(serial) ==> WithoutDup(x.packet) == PublishOf(e.message, Some(id), false)
    ensures EntryOk(log + [x], id, serial, e)
  {
    var more := log + [x];
    forall i: nat | i < |more| && IsPublish(more[i]) && more[i].serial == Some(serial)
      ensures WithoutDup(more[i].packet) == PublishOf(e.message, Some(id), false)
      ensures e.stage == WaitFirstAck ==> NoPubrel(more[i + 1..], Some(id))
    {
      if i < |log| {
        assert more[i] == log[i];
        assert more[i + 1..] == log[i + 1..] + [x];
      }
    }
  }

  lemma AppendResends(log: seq<Sent>, x: Sent)
    ensures forall s: nat :: Resends(log + [x], s) == Resends(log, s) + if x.resend && x.serial == Some(s) then 1 else 0
  {
    assert (log + [x])[..|log|] == log;
  }

  // ---------- the steps keep the invariant ----------

  lemma InitInv(cfg: Config)
    ensures Inv(Fresh(), cfg)
  {
  }

  /** Writing a packet that belongs to no entry and is no PUBREL of an entry in its first stage. */
  lemma WriteKeepsInv(c: Conn, p: Packet, cfg: Config)
    requires Inv(c, cfg)
    requires forall id :: id in c.table && c.table[id].stage == WaitFirstAck ==> p != Pubrel(id)
    ensures Inv(Write(c, p, None, false), cfg)
  {
    var x := Sent(p, None, false);
    AppendOther(c.log, x, c.made);
    AppendResends(c.log, x);
    forall id | id in c.table ensures EntryOk(c.log + [x], id, c.serials[id], c.table[id]) {
      AppendEntry(c.log, x, id, c.serials[id], c.table[id]);
    }
  }

  lemma DropKeepsInv(c: Conn, id: u16, cfg: Config, d: Conn)
    requires Inv(c, cfg) && id in c.table
    requires d == Drop(c, id).(acked := c.acked + 1) || d == Drop(c, id).(failed := c.failed + 1)
    ensures Inv(d, cfg)
  {
    MapRemoveSize(c.table, id);
    MapRemoveSize(c.serials, id);
    forall a | a in d.table ensures EntryOk(d.log, a, d.serials[a], d.table[a]) {
      assert d.table[a] == c.table[a] && d.serials[a] == c.serials[a];
    }
  }

  lemma AdvanceKeepsInv(c: Conn, id: u16, now: nat, cfg: Config)
    requires Inv(c, cfg)
    ensures Inv(Advance(c, id, now), cfg)
  {
    if id in c.table {
      var d := c.(table := c.table[id := c.table[id].(stage := WaitPubcomp, lastSent := now)]);
      MapUpdateSize(c.table, id, d.table[id]);
      forall a | a in d.table ensures EntryOk(d.log, a, d.serials[a], d.table[a]) {
        assert EntryOk(c.log, a, c.serials[a], c.table[a]);
      }
      WriteKeepsInv(d, Pubrel(id), cfg);
    } else {
      WriteKeepsInv(c, Pubrel(id), cfg);
    }
  }

  /** d is c with one more entry, and its first publish x logged. */
  ghost predicate Inserted(c: Conn, d: Conn, id: u16, e: Entry, x: Sent) {
    && id !in c.table
    && d.table == c.table[id := e]
    && d.serials == c.serials[id := c.made]
    && d.made == c.made + 1
    && d.log == c.log + [x]
    && e.stage == WaitFirstAck && e.retries == 0
    && x == Sent(PublishOf(e.message, Some(id), false), Some(c.made), false)
  }

  lemma InsertedLog(c: Conn, d: Conn, id: u16, e: Entry, x: Sent)
    requires c.table.Keys == c.serials.Keys && d.table.Keys == d.serials.Keys
    requires Inserted(c, d, id, e, x) && LogOk(c.log, c.made) && EntriesOk(c) && SerialsOk(c.serials, c.made)
    ensures LogOk(d.log, d.made) && EntriesOk(d)
  {
    forall i: nat | i < |c.log| ensures c.log[i].serial != Some(c.made) {
      assert c.log[i] in c.log;
    }
    AppendPublish(c.log, x, c.made + 1, id, c.made, e);
    forall a | a in d.table ensures EntryOk(d.log, a, d.serials[a], d.table[a]) {
      AppendEntry(c.log, x, a, d.serials[a], d.table[a]);
    }
  }

  lemma InsertedResends(c: Conn, d: Conn, id: u16, e: Entry, x: Sent, cfg: Config)
    requires c.table.Keys == c.serials.Keys && d.table.Keys == d.serials.Keys
    requires Inserted(c, d, id, e, x) && ResendsOk(c, cfg)
    ensures ResendsOk(d, cfg)
  {
    AppendResends(c.log, x);
  }

  lemma InsertedTable(c: Conn, d: Conn, id: u16, e: Entry, x: Sent, cfg: Config)
    requires Inserted(c, d, id, e, x) && TableOk(c, cfg) && SerialsOk(c.serials, c.made)
    requires |c.table| < cfg.maxInflight && id != 0 && d.next != 0 && d.acked == c.acked && d.failed == c.failed
    ensures TableOk(d, cfg) && SerialsOk(d.serials, d.made)
  {
    MapUpdateSize(c.table, id, e);
    MapUpdateSize(c.serials, id, c.made);
  }

  lemma InsertKeepsInv(c: Conn, m: Outbound, now: nat, id: u16, cursor: u16, cfg: Config)
    requires Inv(c, cfg) && |c.table| < cfg.maxInflight
    requires id !in c.table && id != 0 && cursor != 0
    ensures Inv(Insert(c, m, now, id, cursor), cfg)
  {
    var d := Insert(c, m, now, id, cursor);
    var e := Entry(m, WaitFirstAck, now, 0);
    var x := Sent(PublishOf(m, Some(id), false), Some(c.made), false);
    InsertedTable(c, d, id, e, x, cfg);
    InsertedLog(c, d, id, e, x);
    InsertedResends(c, d, id, e, x, cfg);
  }

  lemma DeliverKeepsInv(c: Conn, m: Outbound, now: nat, cfg: Config)
    requires Inv(c, cfg)
    ensures Inv(Deliver(c, m, now, cfg), cfg)
  {
    if m.qos == AtMostOnce {
      WriteKeepsInv(c, PublishOf(m, None, false), cfg);
    } else if |c.table| < cfg.maxInflight {
      SearchFindsFirst(c.next, c.table.Keys, 65535, MAX_PACKET_ID);
      SearchFailsIffFull(c.next, c.table.Keys, 65535, MAX_PACKET_ID);
      var (id, cursor) := Search(c.next, c.table.Keys, 65535, MAX_PACKET_ID);
      if id != 0 {
        InsertKeepsInv(c, m, now, id, cursor, cfg);
      }
    }
  }

  /** d is c with entry `id` sent once more by x. */
  ghost predicate Resent(c: Conn, d: Conn, id: u16, e: Entry, x: Sent) {
    && id in c.table && id in c.serials
    && d.table == c.table[id := e]
    && d.serials == c.serials
    && d.made == c.made
    && d.log == c.log + [x]
    && e == c.table[id].(lastSent := e.lastSent, retries := c.table[id].retries + 1)
    && x == Sent(BuildPacket(e, id, e.stage == WaitFirstAck), Some(c.serials[id]), true)
  }

  lemma ResentLog(c: Conn, d: Conn, id: u16, e: Entry, x: Sent)
    requires c.table.Keys == c.serials.Keys && d.table.Keys == d.serials.Keys
    requires Resent(c, d, id, e, x) && LogOk(c.log, c.made) && EntriesOk(c) && SerialsOk(c.serials, c.made)
    ensures LogOk(d.log, d.made) && EntriesOk(d)
  {
    assert EntryOk(c.log, id, c.serials[id], e) by {
      assert EntryOk(c.log, id, c.serials[id], c.table[id]);
    }
    if e.stage == WaitFirstAck {
      AppendPublish(c.log, x, c.made, id, c.serials[id], e);
    } else {
      AppendOther(c.log, x, c.made);
    }
    forall a | a in d.table ensures EntryOk(d.log, a, d.serials[a], d.table[a]) {
      AppendEntry(c.log, x, a, d.serials[a], d.table[a]);
    }
  }

  lemma ResentResends(c: Conn, d: Conn, id: u16, e: Entry, x: Sent, cfg: Config)
    requires c.table.Keys == c.serials.Keys && d.table.Keys == d.serials.Keys
    requires Resent(c, d, id, e, x) && ResendsOk(c, cfg) && SerialsOk(c.serials, c.made)
    requires c.table[id].retries < cfg.maxRetries
    ensures ResendsOk(d, cfg)
  {
    AppendResends(c.log, x);
  }

  lemma ResendKeepsInv(c: Conn, id: u16, now: nat, cfg: Config)
    requires Inv(c, cfg) && id in c.table && c.table[id].retries < cfg.maxRetries
    ensures Inv(Resend(c, id, now), cfg)
  {
    var e := c.table[id].(lastSent := now, retries := c.table[id].retries + 1);
    var x := Sent(BuildPacket(e, id, e.stage == WaitFirstAck), Some(c.serials[id]), true);
    ResentKeepsInv(c, Resend(c, id, now), id, e, x, cfg);
  }

  lemma ResentKeepsInv(c: Conn, d: Conn, id: u16, e: Entry, x: Sent, cfg: Config)
    requires Inv(c, cfg) && Resent(c, d, id, e, x) && c.table[id].retries < cfg.maxRetries
    requires d.next == c.next && d.acked == c.acked && d.failed == c.failed
    ensures Inv(d, cfg)
  {
    MapUpdateSize(c.table, id, e);
    ResentLog(c, d, id, e, x);
    ResentResends(c, d, id, e, x, cfg);
  }

  lemma {:induction false} TickKeepsInv(c: Conn, now: nat, cfg: Config, order: seq<u16>)
    requires Inv(c, cfg)
    ensures Inv(Tick(c, now, cfg, order), cfg)
    decreases |order|
  {
    if order != [] {
      var k := |order| - 1;
      TickKeepsInv(c, now, cfg, order[..k]);
      var d := Tick(c, now, cfg, order[..k]);
      VisitKeepsInv(d, order[k], now, cfg);
    }
  }

  lemma VisitKeepsInv(c: Conn, id: u16, now: nat, cfg: Config)
    requires Inv(c, cfg)
    ensures Inv(Visit(c, id, now, cfg), cfg)
  {
    if id in c.table && Due(c.table[id], now, cfg) {
      if c.table[id].retries >= cfg.maxRetries {
        DropKeepsInv(c, id, cfg, Visit(c, id, now, cfg));
      } else {
        ResendKeepsInv(c, id, now, cfg);
      }
    }
  }

  lemma AcknowledgeKeepsInv(c: Conn, id: u16, cfg: Config)
    requires Inv(c, cfg)
    ensures Inv(Acknowledge(c, id), cfg)
  {
    if id in c.table {
      DropKeepsInv(c, id, cfg, Acknowledge(c, id));
    }
  }

  lemma StepKeepsInv(c: Conn, ev: Event, cfg: Config)
    requires Inv(c, cfg)
    ensures Inv(Step(c, ev, cfg), cfg)
  {
    match ev {
      case Outgoing(m, now) => DeliverKeepsInv(c, m, now, cfg);
      case GotPuback(id) => AcknowledgeKeepsInv(c, id, cfg);
      case GotPubrec(id, now) => AdvanceKeepsInv(c, id, now, cfg);
      case GotPubcomp(id) => AcknowledgeKeepsInv(c, id, cfg);
      case RetryTick(now, order) => TickKeepsInv(c, now, cfg, order);
    }
  }

  lemma {:induction false} RunKeepsInv(events: seq<Event>, cfg: Config)
    ensures Inv(Run(events, cfg), cfg)
  {
    if events == [] {
      InitInv(cfg);
    } else {
      RunKeepsInv(events[..|events| - 1], cfg);
      StepKeepsInv(Run(events[..|events| - 1], cfg), events[|events| - 1], cfg);
    }
  }
}
