/** What holds of every run of outbound delivery: order on the wire, acceptance by the receiver, bounds, exact drops. */
module OutboundRuns {
  import opened Basics
  import opened Packets
  import opened CyclicIds
  import opened OutboundQos

  // ---------- order on the wire ----------

  /** All transmissions of one message are the same PUBLISH but for DUP, and no PUBREL of its identifier separates them. */
  lemma PublishesNotSeparated(events: seq<Event>, cfg: Config, i: nat, j: nat, k: nat)
    requires i < j < k < |Run(events, cfg).log|
    requires IsPublish(Run(events, cfg).log[i]) && IsPublish(Run(events, cfg).log[k])
    requires Run(events, cfg).log[i].serial == Run(events, cfg).log[k].serial
    ensures var log := Run(events, cfg).log;
            var id := log[i].packet.publish.packetId;
            && id.Some?
            && log[j].packet != Pubrel(id.value)
            && WithoutDup(log[k].packet) == WithoutDup(log[i].packet)
            && log[k].packet.publish.dup
  {
    RunKeepsInv(events, cfg);
    var log := Run(events, cfg).log;
    assert Retransmitted(log, i, k);
    assert log[i] in log && log[k] in log;
    assert log[i + 1..k][j - i - 1] == log[j];
  }

  // ---------- the receiving client ----------

  predicate IsQos2(p: Packet, id: u16) {
    p.Publish? && p.publish.qos == ExactlyOnce && p.publish.packetId == Some(id)
  }

  /** The identifiers a receiver of these packets has recorded: added by a QoS 2 PUBLISH, removed by PUBREL. */
  function Recorded(log: seq<Sent>): set<u16> {
    if log == [] then {}
    else
      var before := Recorded(log[..|log| - 1]);
      match log[|log| - 1].packet
      case Publish(p) => if p.qos == ExactlyOnce && p.packetId.Some? then before + {p.packetId.value} else before
      case Pubrel(id) => before - {id}
      case _ => before
  }

  /** The receiver hands the k-th packet to its application: a QoS 2 PUBLISH whose identifier is not recorded. */
  predicate AcceptedAt(log: seq<Sent>, k: nat, id: u16)
    requires k < |log|
  {
    IsQos2(log[k].packet, id) && id !in Recorded(log[..k])
  }

  /** An identifier is recorded exactly when some PUBLISH that carries it has not been followed by PUBREL. */
  lemma {:induction false} RecordedMeans(log: seq<Sent>, id: u16)
    ensures id in Recorded(log) <==> SomePending(log, id)
  {
    if log != [] {
      var n := |log| - 1;
      RecordedMeans(log[..n], id);
      assert log[..n] + [log[n]] == log;
      PendingStep(log[..n], log[n], id);
    }
  }

  /** One more packet: it is pending itself, or it ends what is pending, or nothing changes. */
  lemma PendingStep(before: seq<Sent>, x: Sent, id: u16)
    ensures SomePending(before + [x], id) <==>
            IsQos2(x.packet, id) || (x.packet != Pubrel(id) && SomePending(before, id))
  {
    var log, n := before + [x], |before|;
    forall i: nat | i < n ensures Pending(log, i, id) <==> x.packet != Pubrel(id) && Pending(before, i, id) {
      assert log[i] == before[i] && log[i + 1..] == before[i + 1..] + [x];
      NoPubrelMore(before[i + 1..], x, id);
    }
    assert log[n] == x && log[n + 1..] == [];
    assert IsQos2(x.packet, id) ==> Pending(log, n, id);
  }

  lemma NoPubrelMore(rest: seq<Sent>, x: Sent, id: u16)
    ensures NoPubrel(rest + [x], Some(id)) <==> NoPubrel(rest, Some(id)) && x.packet != Pubrel(id)
  {
    var more := rest + [x];
    assert forall y :: y in more <==> y in rest || y == x;
  }

  ghost predicate SomePending(log: seq<Sent>, id: u16) {
    exists i: nat :: i < |log| && Pending(log, i, id)
  }

  ghost predicate Pending(log: seq<Sent>, i: nat, id: u16)
    requires i < |log|
  {
    IsQos2(log[i].packet, id) && NoPubrel(log[i + 1..], Some(id))
  }

  // ---------- what reaches the wire ----------

  /** Positions in the log, in order. The packets there reach the wire; the others are discarded or come after its end. */
  ghost predicate Kept(keep: seq<nat>, n: nat) {
    && (forall i :: 0 <= i < |keep| ==> keep[i] < n)
    && (forall i, k :: 0 <= i < k < |keep| ==> keep[i] < keep[k])
  }

  function Wire(log: seq<Sent>, keep: seq<nat>): (wire: seq<Sent>)
    requires forall i :: 0 <= i < |keep| ==> keep[i] < |log|
    ensures |wire| == |keep| && forall i :: 0 <= i < |keep| ==> wire[i] == log[keep[i]]
  {
    seq(|keep|, i requires 0 <= i < |keep| => log[keep[i]])
  }

  /** Retransmissions in the log are retransmissions on the wire: fewer packets lie between them. */
  lemma WireRetransmits(log: seq<Sent>, keep: seq<nat>, i: nat, k: nat)
    requires Kept(keep, |log|) && i < k < |keep|
    requires IsPublish(log[keep[i]]) && IsPublish(log[keep[k]]) && Retransmitted(log, keep[i], keep[k])
    ensures Retransmitted(Wire(log, keep), i, k)
  {
    var wire := Wire(log, keep);
    var fewer, all := wire[i + 1..k], log[keep[i] + 1..keep[k]];
    forall j | 0 <= j < |fewer| ensures fewer[j] in all {
      assert fewer[j] == log[keep[i + 1 + j]];
      assert all[keep[i + 1 + j] - keep[i] - 1] == fewer[j];
    }
  }

  /** Exactly-once towards the receiver: whatever part of the log reaches it, no message is accepted from two transmissions. */
  lemma AcceptedOnce(events: seq<Event>, cfg: Config, keep: seq<nat>, i: nat, k: nat, a: u16, b: u16)
    requires Kept(keep, |Run(events, cfg).log|) && i < k < |keep|
    requires var wire := Wire(Run(events, cfg).log, keep);
             IsPublish(wire[i]) && IsPublish(wire[k]) && wire[i].serial == wire[k].serial
    ensures var wire := Wire(Run(events, cfg).log, keep);
            !(AcceptedAt(wire, i, a) && AcceptedAt(wire, k, b))
  {
    RunKeepsInv(events, cfg);
    var log := Run(events, cfg).log;
    assert Retransmitted(log, keep[i], keep[k]);
    WireRetransmits(log, keep, i, k);
    RetransmissionRefused(Wire(log, keep), i, k, a, b);
  }

  lemma RetransmissionRefused(wire: seq<Sent>, i: nat, k: nat, a: u16, b: u16)
    requires i < k < |wire| && IsPublish(wire[i]) && IsPublish(wire[k]) && Retransmitted(wire, i, k)
    ensures !(AcceptedAt(wire, i, a) && AcceptedAt(wire, k, b))
  {
    if AcceptedAt(wire, i, a) && IsQos2(wire[k].packet, b) {
      RecordedMeans(wire[..k], b);
      assert wire[..k][i + 1..] == wire[i + 1..k];
      assert Pending(wire[..k], i, b);
    }
  }

  // ---------- bounds and conservation ----------

  /** Every message entered is live, acknowledged or given up; the table keeps its cap, each entry its retry limit. */
  lemma Conserved(events: seq<Event>, cfg: Config, serial: nat)
    ensures var c := Run(events, cfg);
            && c.made == |c.table| + c.acked + c.failed
            && |c.table| <= cfg.maxInflight
            && Resends(c.log, serial) <= cfg.maxRetries
  {
    RunKeepsInv(events, cfg);
  }

  // ---------- when a message is dropped ----------

  /** A QoS 1 or 2 message is written exactly when fewer than both the cap and 65535 messages are in flight. */
  lemma DeliverExact(events: seq<Event>, cfg: Config, m: Outbound, now: nat)
    requires m.qos != AtMostOnce
    ensures var c := Run(events, cfg);
            var d := Deliver(c, m, now, cfg);
            if |c.table| < cfg.maxInflight && |c.table| < 65535 then
              exists id: u16 :: id != 0 && id !in c.table && Entered(c, d, m, now, id)
            else
              d.log == c.log && d.table == c.table
  {
    RunKeepsInv(events, cfg);
    DeliverOn(Run(events, cfg), cfg, m, now);
  }

  lemma DeliverOn(c: Conn, cfg: Config, m: Outbound, now: nat)
    requires m.qos != AtMostOnce && TableOk(c, cfg)
    ensures var d := Deliver(c, m, now, cfg);
            if |c.table| < cfg.maxInflight && |c.table| < 65535 then
              exists id: u16 :: id != 0 && id !in c.table && Entered(c, d, m, now, id)
            else
              d.log == c.log && d.table == c.table
  {
    var used: set<int> := c.table.Keys;
    assert |used| == |c.table|;
    var id := Search(c.next, used, 65535, MAX_PACKET_ID).0;
    SearchFailsIffFull(c.next, used, 65535, MAX_PACKET_ID);
    if |c.table| < 65535 {
      NotFull(used, 65535);
      assert |c.table| < cfg.maxInflight ==> Entered(c, Deliver(c, m, now, cfg), m, now, id);
    } else {
      FullByCount(used, 65535);
    }
  }

  predicate Bears(p: PublishPacket, m: Outbound) {
    p.topic == m.topic && p.payload == m.payload && p.qos == m.qos && p.retain == m.retain
  }

  /** The message is in the table under `id`, everything else there is as before, and its PUBLISH was written. */
  predicate Entered(c: Conn, d: Conn, m: Outbound, now: nat, id: u16) {
    && d.table == c.table[id := Entry(m, WaitFirstAck, now, 0)]
    && |d.log| == |c.log| + 1 && c.log <= d.log
    && FirstSent(d.log[|c.log|], m, id) && d.log[|c.log|].serial == Some(c.made)
  }

  predicate FirstSent(x: Sent, m: Outbound, id: u16) {
    && x.packet.Publish? && Bears(x.packet.publish, m)
    && !x.packet.publish.dup && x.packet.publish.packetId == Some(id) && !x.resend
  }

  // ---------- a retry tick does not depend on the order of the scan ----------

  predicate GivesUp(e: Entry, now: nat, cfg: Config) {
    Due(e, now, cfg) && e.retries >= cfg.maxRetries
  }

  predicate Retries(e: Entry, now: nat, cfg: Config) {
    Due(e, now, cfg) && e.retries < cfg.maxRetries
  }

  function Bumped(e: Entry, now: nat): Entry {
    e.(lastSent := now, retries := e.retries + 1)
  }

  /** The table when the entries in `visited` have been scanned. */
  function Scanned(table: map<u16, Entry>, visited: set<u16>, now: nat, cfg: Config): map<u16, Entry> {
    map id | id in table && !(id in visited && GivesUp(table[id], now, cfg)) ::
      if id in visited && Retries(table[id], now, cfg) then Bumped(table[id], now) else table[id]
  }

  /** What the scan writes, in the order of the scan. */
  function Rewritten(c: Conn, order: seq<u16>, now: nat, cfg: Config): seq<Sent>
    requires c.table.Keys == c.serials.Keys
  {
    if order == [] then []
    else
      Rewritten(c, order[..|order| - 1], now, cfg) + Rewrite(c, order[|order| - 1], now, cfg)
  }

  function Rewrite(c: Conn, id: u16, now: nat, cfg: Config): seq<Sent>
    requires c.table.Keys == c.serials.Keys
  {
    if id in c.table && Retries(c.table[id], now, cfg) then
      [Sent(BuildPacket(c.table[id], id, c.table[id].stage == WaitFirstAck), Some(c.serials[id]), true)]
    else []
  }

  function Ids(order: seq<u16>): set<u16> {
    set id | id in order
  }

  lemma {:induction false} TickExact(c: Conn, now: nat, cfg: Config, order: seq<u16>)
    requires c.table.Keys == c.serials.Keys && Distinct(order)
    ensures var d := Tick(c, now, cfg, order);
            && d.table == Scanned(c.table, Ids(order), now, cfg)
            && d.table.Keys == d.serials.Keys
            && (forall id :: id in d.serials ==> id in c.serials && d.serials[id] == c.serials[id])
            && d.log == c.log + Rewritten(c, order, now, cfg)
            && d.next == c.next
    decreases |order|
  {
    if order == [] {
      assert Scanned(c.table, {}, now, cfg) == c.table;
    } else {
      var k := |order| - 1;
      var id := order[k];
      TickExact(c, now, cfg, order[..k]);
      var d := Tick(c, now, cfg, order[..k]);
      assert id !in Ids(order[..k]);
      assert Ids(order) == Ids(order[..k]) + {id};
      VisitExact(c, d, Ids(order[..k]), id, now, cfg);
      Regroup(c.log, Rewritten(c, order[..k], now, cfg), Rewrite(c, id, now, cfg));
    }
  }

  lemma Regroup(a: seq<Sent>, b: seq<Sent>, c: seq<Sent>)
    ensures a + b + c == a + (b + c)
  {
  }

  lemma VisitExact(c: Conn, d: Conn, visited: set<u16>, id: u16, now: nat, cfg: Config)
    requires c.table.Keys == c.serials.Keys && d.table.Keys == d.serials.Keys && id !in visited
    requires d.table == Scanned(c.table, visited, now, cfg)
    requires forall a :: a in d.serials ==> a in c.serials && d.serials[a] == c.serials[a]
    ensures var e := Visit(d, id, now, cfg);
            && e.table == Scanned(c.table, visited + {id}, now, cfg)
            && e.table.Keys == e.serials.Keys
            && (forall a :: a in e.serials ==> a in c.serials && e.serials[a] == c.serials[a])
            && e.log == d.log + Rewrite(c, id, now, cfg)
  {
    ScanOneMore(c.table, visited, id, now, cfg);
    if id in d.table && Due(d.table[id], now, cfg) {
      if GivesUp(d.table[id], now, cfg) {
        VisitDrops(d, id, now, cfg);
      } else {
        VisitResends(d, id, now, cfg);
      }
    }
  }

  lemma VisitDrops(d: Conn, id: u16, now: nat, cfg: Config)
    requires d.table.Keys == d.serials.Keys && id in d.table && GivesUp(d.table[id], now, cfg)
    ensures var e := Visit(d, id, now, cfg);
            e.table == d.table - {id} && e.serials == d.serials - {id} && e.table.Keys == e.serials.Keys && e.log == d.log
  {
    MapRemoveSize(d.table, id);
    MapRemoveSize(d.serials, id);
  }

  lemma VisitResends(d: Conn, id: u16, now: nat, cfg: Config)
    requires d.table.Keys == d.serials.Keys && id in d.table && Retries(d.table[id], now, cfg)
    ensures var e := Visit(d, id, now, cfg);
            && e.table == d.table[id := Bumped(d.table[id], now)] && e.serials == d.serials
            && e.table.Keys == e.serials.Keys
            && e.log == d.log + [Sent(BuildPacket(d.table[id], id, d.table[id].stage == WaitFirstAck),
                                      Some(d.serials[id]), true)]
  {
    MapUpdateSize(d.table, id, Bumped(d.table[id], now));
  }

  lemma ScanOneMore(table: map<u16, Entry>, visited: set<u16>, id: u16, now: nat, cfg: Config)
    requires id !in visited
    ensures var before, after := Scanned(table, visited, now, cfg), Scanned(table, visited + {id}, now, cfg);
            if id !in table || !Due(table[id], now, cfg) then after == before
            else if GivesUp(table[id], now, cfg) then after == before - {id}
            else after == before[id := Bumped(table[id], now)]
    ensures id in table <==> id in Scanned(table, visited, now, cfg)
    ensures id in table ==> Scanned(table, visited, now, cfg)[id] == table[id]
  {
  }

  /** Two scans of the same entries leave the same table, whatever their order. */
  lemma TickOrderIrrelevant(c: Conn, now: nat, cfg: Config, a: seq<u16>, b: seq<u16>)
    requires c.table.Keys == c.serials.Keys && Distinct(a) && Distinct(b) && Ids(a) == Ids(b)
    ensures Tick(c, now, cfg, a).table == Tick(c, now, cfg, b).table
  {
    TickExact(c, now, cfg, a);
    TickExact(c, now, cfg, b);
  }
}
