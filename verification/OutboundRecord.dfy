/**
 * What the connection writes, against a record of the messages handed to it: every PUBLISH carries its message field by
 * field, every message entered is written, and a retry tick resends or gives up by the clock and the retry count alone.
 */
module OutboundRecord {
  import opened Basics
  import opened Packets
  import opened CyclicIds
  import opened OutboundQos
  import opened OutboundRuns

  /** The QoS 1 and 2 messages that found room, in the order they came; the n-th of them has serial n. */
  function Accepted(events: seq<Event>, cfg: Config): seq<Outbound> {
    if events == [] then []
    else
      var n := |events| - 1;
      var inFlight := |Run(events[..n], cfg).table|;
      match events[n]
      case Outgoing(m, _) =>
        if m.qos != AtMostOnce && inFlight < cfg.maxInflight && inFlight < 65535 then Accepted(events[..n], cfg) + [m]
        else Accepted(events[..n], cfg)
      case _ => Accepted(events[..n], cfg)
  }

  /** The QoS 0 messages, in the order they came. */
  function Unnumbered(events: seq<Event>): seq<Outbound> {
    if events == [] then []
    else
      var n := |events| - 1;
      match events[n]
      case Outgoing(m, _) => if m.qos == AtMostOnce then Unnumbered(events[..n]) + [m] else Unnumbered(events[..n])
      case _ => Unnumbered(events[..n])
  }

  /** The PUBLISH packets of the log that belong to no entry. */
  function Loose(log: seq<Sent>): seq<PublishPacket> {
    if log == [] then []
    else
      var n := |log| - 1;
      match log[n].packet
      case Publish(p) => if log[n].serial == None then Loose(log[..n]) + [p] else Loose(log[..n])
      case _ => Loose(log[..n])
  }

  ghost predicate LooseOk(loose: seq<PublishPacket>, messages: seq<Outbound>) {
    && |loose| == |messages|
    && forall i :: 0 <= i < |loose| ==> Bears(loose[i], messages[i]) && !loose[i].dup && loose[i].packetId == None
  }

  /** A packet written for the entry with serial `s` and identifier `id`: its PUBLISH, or its PUBREL. */
  predicate SentFor(x: Sent, record: seq<Outbound>, s: nat, id: u16) {
    && s < |record|
    && x.serial == Some(s)
    && match x.packet
       case Publish(p) => Bears(p, record[s]) && p.packetId == Some(id) && p.dup == x.resend
       case Pubrel(i) => i == id && x.resend
       case _ => false
  }

  /** The log and the table against the record, with the identifier each serial was given. */
  ghost predicate Matches(c: Conn, record: seq<Outbound>, ids: seq<u16>) {
    && |record| == |ids| == c.made
    && (forall s :: 0 <= s < |record| ==> record[s].qos != AtMostOnce && ids[s] != 0)
    && (forall i :: 0 <= i < |c.log| && c.log[i].serial.Some? ==>
          c.log[i].serial.value < |record| && SentFor(c.log[i], record, c.log[i].serial.value, ids[c.log[i].serial.value]))
    && (forall id :: id in c.table ==>
          id in c.serials && c.serials[id] < |record| && ids[c.serials[id]] == id
          && c.table[id].message == record[c.serials[id]])
    && (forall s: nat :: s < |record| ==> Written(c.log, s))
  }

  /** The first transmission of a message is in the log. */
  ghost predicate Written(log: seq<Sent>, s: nat) {
    exists i :: 0 <= i < |log| && log[i].serial == Some(s) && log[i].packet.Publish? && !log[i].resend
  }

  // ---------- the steps keep the log in step with the record ----------

  lemma WrittenMore(log: seq<Sent>, x: Sent, s: nat)
    requires Written(log, s)
    ensures Written(log + [x], s)
  {
    var i :| 0 <= i < |log| && log[i].serial == Some(s) && log[i].packet.Publish? && !log[i].resend;
    assert (log + [x])[i] == log[i];
  }

  /** One more packet, and a table with the same messages under fewer or as many identifiers. */
  lemma OneMoreKeeps(c: Conn, d: Conn, x: Sent, record: seq<Outbound>, ids: seq<u16>)
    requires Matches(c, record, ids) && d.log == c.log + [x] && d.made == c.made && d.serials == c.serials
    requires x.serial.Some? ==> x.serial.value < |record| && SentFor(x, record, x.serial.value, ids[x.serial.value])
    requires forall id :: id in d.table ==> id in c.table && d.table[id].message == c.table[id].message
    ensures Matches(d, record, ids)
  {
    forall s: nat | s < |record| ensures Written(d.log, s) {
      WrittenMore(c.log, x, s);
    }
  }

  lemma FewerKeep(c: Conn, d: Conn, record: seq<Outbound>, ids: seq<u16>)
    requires Matches(c, record, ids) && d.log == c.log && d.made == c.made
    requires forall id :: id in d.table ==> id in c.table && d.table[id] == c.table[id]
    requires forall id :: id in d.table ==> id in d.serials && id in c.serials && d.serials[id] == c.serials[id]
    ensures Matches(d, record, ids)
  {
  }

  lemma ResendMatches(c: Conn, id: u16, now: nat, record: seq<Outbound>, ids: seq<u16>)
    requires Matches(c, record, ids) && id in c.table && id in c.serials
    ensures Matches(Resend(c, id, now), record, ids)
  {
    var d := Resend(c, id, now);
    OneMoreKeeps(c, d, d.log[|c.log|], record, ids);
  }

  lemma VisitMatches(c: Conn, id: u16, now: nat, cfg: Config, record: seq<Outbound>, ids: seq<u16>)
    requires Matches(c, record, ids)
    ensures Matches(Visit(c, id, now, cfg), record, ids)
  {
    if id in c.table && id in c.serials && Due(c.table[id], now, cfg) {
      if c.table[id].retries >= cfg.maxRetries {
        FewerKeep(c, Visit(c, id, now, cfg), record, ids);
      } else {
        ResendMatches(c, id, now, record, ids);
      }
    }
  }

  lemma {:induction false} TickMatches(c: Conn, now: nat, cfg: Config, order: seq<u16>, record: seq<Outbound>, ids: seq<u16>)
    requires Matches(c, record, ids)
    ensures Matches(Tick(c, now, cfg, order), record, ids)
    decreases |order|
  {
    if order != [] {
      var k := |order| - 1;
      TickMatches(c, now, cfg, order[..k], record, ids);
      VisitMatches(Tick(c, now, cfg, order[..k]), order[k], now, cfg, record, ids);
    }
  }

  lemma AdvanceMatches(c: Conn, id: u16, now: nat, record: seq<Outbound>, ids: seq<u16>)
    requires Matches(c, record, ids)
    ensures Matches(Advance(c, id, now), record, ids)
  {
    OneMoreKeeps(c, Advance(c, id, now), Sent(Pubrel(id), None, false), record, ids);
  }

  lemma AcknowledgeMatches(c: Conn, id: u16, record: seq<Outbound>, ids: seq<u16>)
    requires Matches(c, record, ids)
    ensures Matches(Acknowledge(c, id), record, ids)
  {
    FewerKeep(c, Acknowledge(c, id), record, ids);
  }

  lemma InsertMatches(c: Conn, m: Outbound, now: nat, id: u16, cursor: u16, record: seq<Outbound>, ids: seq<u16>)
    requires Matches(c, record, ids) && m.qos != AtMostOnce && id != 0
    ensures Matches(Insert(c, m, now, id, cursor), record + [m], ids + [id])
  {
    var d := Insert(c, m, now, id, cursor);
    var x := d.log[|c.log|];
    forall s: nat | s < |record| + 1 ensures Written(d.log, s) {
      if s < |record| {
        WrittenMore(c.log, x, s);
      } else {
        assert d.log[|c.log|] == x;
      }
    }
  }

  lemma DeliverMatches(c: Conn, m: Outbound, now: nat, cfg: Config, record: seq<Outbound>, ids: seq<u16>)
    returns (ids': seq<u16>)
    requires Matches(c, record, ids) && TableOk(c, cfg)
    ensures var room := m.qos != AtMostOnce && |c.table| < cfg.maxInflight && |c.table| < 65535;
      Matches(Deliver(c, m, now, cfg), if room then record + [m] else record, ids')
  {
    ids' := ids;
    if m.qos == AtMostOnce {
      var d := Deliver(c, m, now, cfg);
      OneMoreKeeps(c, d, d.log[|c.log|], record, ids);
    } else if |c.table| < cfg.maxInflight {
      var (id, cursor) := Search(c.next, c.table.Keys, 65535, MAX_PACKET_ID);
      RoomIffFound(c, cfg);
      if id != 0 {
        InsertMatches(c, m, now, id, cursor, record, ids);
        ids' := ids + [id];
      } else {
        FewerKeep(c, c.(next := cursor), record, ids);
      }
    }
  }

  lemma RoomIffFound(c: Conn, cfg: Config)
    requires TableOk(c, cfg)
    ensures Search(c.next, c.table.Keys, 65535, MAX_PACKET_ID).0 != 0 <==> |c.table| < 65535
  {
    var used: set<int> := c.table.Keys;
    assert |used| == |c.table|;
    SearchFailsIffFull(c.next, used, 65535, MAX_PACKET_ID);
    if |c.table| < 65535 {
      NotFull(used, 65535);
    } else {
      FullByCount(used, 65535);
    }
  }

  lemma {:induction false} RunMatches(events: seq<Event>, cfg: Config) returns (ids: seq<u16>)
    ensures Matches(Run(events, cfg), Accepted(events, cfg), ids)
  {
    if events == [] {
      ids := [];
    } else {
      var n := |events| - 1;
      ids := RunMatches(events[..n], cfg);
      RunKeepsInv(events[..n], cfg);
      ids := StepMatches(Run(events[..n], cfg), events[n], cfg, Accepted(events[..n], cfg), ids);
    }
  }

  lemma StepMatches(c: Conn, ev: Event, cfg: Config, record: seq<Outbound>, ids: seq<u16>) returns (ids': seq<u16>)
    requires Matches(c, record, ids) && TableOk(c, cfg)
    ensures Matches(Step(c, ev, cfg), if ev.Outgoing? && ev.message.qos != AtMostOnce && |c.table| < cfg.maxInflight
                                         && |c.table| < 65535 then record + [ev.message] else record, ids')
  {
    ids' := ids;
    match ev {
      case Outgoing(m, now) => ids' := DeliverMatches(c, m, now, cfg, record, ids);
      case GotPuback(id) => AcknowledgeMatches(c, id, record, ids);
      case GotPubrec(id, now) => AdvanceMatches(c, id, now, record, ids);
      case GotPubcomp(id) => AcknowledgeMatches(c, id, record, ids);
      case RetryTick(now, order) => TickMatches(c, now, cfg, order, record, ids);
    }
  }

  // ---------- every PUBLISH carries its message ----------

  /**
   * Over every run: a PUBLISH written for the s-th accepted message has its topic, payload, QoS and retain flag, an
   * identifier, and DUP exactly on a resend; every accepted message has been written; all packets written for one
   * message carry one identifier.
   */
  lemma PublishCarriesMessage(events: seq<Event>, cfg: Config)
    ensures var c, record := Run(events, cfg), Accepted(events, cfg);
      && |record| == c.made
      && (forall s: nat :: s < |record| ==> Written(c.log, s))
      && (exists ids: seq<u16> :: |ids| == |record| && 0 !in ids
            && forall i :: 0 <= i < |c.log| && c.log[i].serial.Some? ==>
                 c.log[i].serial.value < |record|
                 && SentFor(c.log[i], record, c.log[i].serial.value, ids[c.log[i].serial.value]))
  {
    var ids := RunMatches(events, cfg);
    assert forall s :: 0 <= s < |ids| ==> ids[s] != 0;
  }

  // ---------- QoS 0 ----------

  lemma LooseMore(log: seq<Sent>, x: Sent)
    ensures Loose(log + [x]) ==
      if x.packet.Publish? && x.serial == None then Loose(log) + [x.packet.publish] else Loose(log)
  {
    assert (log + [x])[..|log|] == log;
  }

  lemma VisitLoose(c: Conn, id: u16, now: nat, cfg: Config)
    ensures Loose(Visit(c, id, now, cfg).log) == Loose(c.log)
  {
    var d := Visit(c, id, now, cfg);
    if d.log != c.log {
      LooseMore(c.log, d.log[|c.log|]);
    }
  }

  lemma {:induction false} TickLoose(c: Conn, now: nat, cfg: Config, order: seq<u16>)
    ensures Loose(Tick(c, now, cfg, order).log) == Loose(c.log)
    decreases |order|
  {
    if order != [] {
      var k := |order| - 1;
      TickLoose(c, now, cfg, order[..k]);
      VisitLoose(Tick(c, now, cfg, order[..k]), order[k], now, cfg);
    }
  }

  lemma DeliverLoose(c: Conn, m: Outbound, now: nat, cfg: Config, messages: seq<Outbound>)
    requires LooseOk(Loose(c.log), messages)
    ensures LooseOk(Loose(Deliver(c, m, now, cfg).log), if m.qos == AtMostOnce then messages + [m] else messages)
  {
    if m.qos == AtMostOnce {
      LooseMore(c.log, Sent(PublishOf(m, None, false), None, false));
    } else {
      NumberedLoose(c, m, now, cfg);
    }
  }

  lemma NumberedLoose(c: Conn, m: Outbound, now: nat, cfg: Config)
    requires m.qos != AtMostOnce
    ensures Loose(Deliver(c, m, now, cfg).log) == Loose(c.log)
  {
    var d := Deliver(c, m, now, cfg);
    if d.log != c.log {
      LooseMore(c.log, d.log[|c.log|]);
    }
  }

  lemma OtherLoose(c: Conn, ev: Event, cfg: Config)
    requires !ev.Outgoing?
    ensures Loose(Step(c, ev, cfg).log) == Loose(c.log)
  {
    match ev {
      case GotPubrec(id, now) => LooseMore(c.log, Sent(Pubrel(id), None, false));
      case RetryTick(now, order) => TickLoose(c, now, cfg, order);
      case _ =>
    }
  }

  /** Over every run the QoS 0 messages are written in order, each once, with DUP clear and no identifier. */
  lemma {:induction false} LooseInOrder(events: seq<Event>, cfg: Config)
    ensures LooseOk(Loose(Run(events, cfg).log), Unnumbered(events))
  {
    if events != [] {
      var n := |events| - 1;
      LooseInOrder(events[..n], cfg);
      var c := Run(events[..n], cfg);
      match events[n] {
        case Outgoing(m, now) => DeliverLoose(c, m, now, cfg, Unnumbered(events[..n]));
        case _ => OtherLoose(c, events[n], cfg);
      }
    }
  }

  // ---------- retry by the clock ----------

  /** The packet that resends an entry: its PUBLISH with DUP set, or its PUBREL. */
  predicate Resending(p: Packet, e: Entry, id: u16) {
    match e.stage
    case WaitFirstAck => p.Publish? && Bears(p.publish, e.message) && p.publish.dup && p.publish.packetId == Some(id)
    case WaitPubcomp => p == Pubrel(id)
  }

  /**
   * What a tick leaves of one entry and writes for it. The clock may have stood still or gone back since it was sent,
   * which counts as no time.
   */
  predicate Decided(e: Entry, id: u16, after: Option<Entry>, written: seq<Sent>, now: nat, cfg: Config) {
    if now < e.lastSent + cfg.timeout && cfg.timeout > 0 then after == Some(e) && written == []
    else if e.retries >= cfg.maxRetries then after == None && written == []
    else
      && after == Some(Entry(e.message, e.stage, now, e.retries + 1))
      && |written| == 1 && written[0].resend && Resending(written[0].packet, e, id)
  }

  function Found(table: map<u16, Entry>, id: u16): Option<Entry> {
    if id in table then Some(table[id]) else None
  }

  /** What the log says of one entry. */
  function For(log: seq<Sent>, serial: nat): seq<Sent> {
    if log == [] then []
    else
      var n := |log| - 1;
      For(log[..n], serial) + if log[n].serial == Some(serial) then [log[n]] else []
  }

  lemma {:induction false} ForMore(a: seq<Sent>, b: seq<Sent>, serial: nat)
    ensures For(a + b, serial) == For(a, serial) + For(b, serial)
  {
    if b == [] {
      assert a + b == a;
    } else {
      var n := |b| - 1;
      assert (a + b)[..|a| + n] == a + b[..n];
      ForMore(a, b[..n], serial);
    }
  }

  lemma RewriteFor(c: Conn, now: nat, cfg: Config, a: u16, id: u16)
    requires c.table.Keys == c.serials.Keys && SerialsOk(c.serials, c.made) && id in c.table
    ensures For(Rewrite(c, a, now, cfg), c.serials[id]) == if a == id then Rewrite(c, a, now, cfg) else []
  {
    var last := Rewrite(c, a, now, cfg);
    if last != [] {
      assert last[..0] == [];
    }
  }

  /** A scan writes for one entry what that entry alone calls for. */
  lemma {:induction false} RewrittenFor(c: Conn, order: seq<u16>, now: nat, cfg: Config, id: u16)
    requires c.table.Keys == c.serials.Keys && SerialsOk(c.serials, c.made) && Distinct(order) && id in c.table
    ensures For(Rewritten(c, order, now, cfg), c.serials[id]) == if id in order then Rewrite(c, id, now, cfg) else []
  {
    if order != [] {
      var n := |order| - 1;
      RewrittenFor(c, order[..n], now, cfg, id);
      RewriteFor(c, now, cfg, order[n], id);
      ForMore(Rewritten(c, order[..n], now, cfg), Rewrite(c, order[n], now, cfg), c.serials[id]);
      OnlyLast(order, id);
    }
  }

  lemma OnlyLast(order: seq<u16>, id: u16)
    requires Distinct(order) && order != []
    ensures id in order <==> id in order[..|order| - 1] || id == order[|order| - 1]
    ensures id == order[|order| - 1] ==> id !in order[..|order| - 1]
  {
    assert order == order[..|order| - 1] + [order[|order| - 1]];
  }

  lemma RewriteDecided(c: Conn, id: u16, now: nat, cfg: Config, visited: set<u16>)
    requires c.table.Keys == c.serials.Keys && id in c.table && id in visited
    ensures Decided(c.table[id], id, Found(Scanned(c.table, visited, now, cfg), id), Rewrite(c, id, now, cfg), now, cfg)
  {
  }

  /**
   * After every run, a retry tick over all entries decides each one by the clock and its retry count, and writes for it
   * one packet if it is resent and none otherwise.
   */
  lemma TickDecides(events: seq<Event>, cfg: Config, now: nat, order: seq<u16>, id: u16)
    requires Distinct(order) && Ids(order) == Run(events, cfg).table.Keys && id in Run(events, cfg).table
    ensures var c, d := Run(events, cfg), Step(Run(events, cfg), RetryTick(now, order), cfg);
      && id in c.serials && c.log <= d.log
      && Decided(c.table[id], id, Found(d.table, id), For(d.log[|c.log|..], c.serials[id]), now, cfg)
  {
    RunKeepsInv(events, cfg);
    TickDecidesOn(Run(events, cfg), cfg, now, order, id);
  }

  lemma TickDecidesOn(c: Conn, cfg: Config, now: nat, order: seq<u16>, id: u16)
    requires c.table.Keys == c.serials.Keys && SerialsOk(c.serials, c.made)
    requires Distinct(order) && Ids(order) == c.table.Keys && id in c.table
    ensures var d := Tick(c, now, cfg, order);
      && c.log <= d.log
      && Decided(c.table[id], id, Found(d.table, id), For(d.log[|c.log|..], c.serials[id]), now, cfg)
  {
    TickExact(c, now, cfg, order);
    RewriteDecided(c, id, now, cfg, Ids(order));
    assert id in Ids(order);
    RewrittenFor(c, order, now, cfg, id);
    assert Tick(c, now, cfg, order).log[|c.log|..] == Rewritten(c, order, now, cfg);
  }
}
