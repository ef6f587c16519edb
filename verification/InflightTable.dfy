/** The connection loop's outbound state, changed in place: packet-identifier cursor and inflight table. */
module InflightTable {
  import opened Basics
  import opened Packets
  import opened CyclicIds
  import opened OutboundQos
  import opened OutboundRuns

  /** The table when the visited entries that may retry have been bumped and nothing has been dropped yet. */
  function BumpedTable(table: map<u16, Entry>, visited: set<u16>, now: nat, cfg: Config): map<u16, Entry> {
    map id | id in table :: if id in visited && Retries(table[id], now, cfg) then Bumped(table[id], now) else table[id]
  }

  /** The packets to resend and the entries given up, in the order of the scan. */
  function ToResend(table: map<u16, Entry>, order: seq<u16>, now: nat, cfg: Config): seq<(u16, Packet)> {
    if order == [] then []
    else
      var id := order[|order| - 1];
      ToResend(table, order[..|order| - 1], now, cfg) +
      if id in table && Retries(table[id], now, cfg) then
        [(id, BuildPacket(table[id], id, table[id].stage == WaitFirstAck))]
      else []
  }

  function GivenUp(table: map<u16, Entry>, order: seq<u16>, now: nat, cfg: Config): seq<u16> {
    if order == [] then []
    else
      var id := order[|order| - 1];
      GivenUp(table, order[..|order| - 1], now, cfg) + if id in table && GivesUp(table[id], now, cfg) then [id] else []
  }

  lemma {:induction false} GivenUpAre(table: map<u16, Entry>, order: seq<u16>, now: nat, cfg: Config)
    ensures forall id :: id in GivenUp(table, order, now, cfg) <==>
              id in order && id in table && GivesUp(table[id], now, cfg)
  {
    if order != [] {
      var k := |order| - 1;
      GivenUpAre(table, order[..k], now, cfg);
      assert order == order[..k] + [order[k]];
    }
  }

  /** The packets to resend are what the tick writes, each for the entry it names. */
  lemma {:induction false} ResentInOrder(c: Conn, order: seq<u16>, now: nat, cfg: Config)
    requires c.table.Keys == c.serials.Keys
    ensures var pairs, more := ToResend(c.table, order, now, cfg), Rewritten(c, order, now, cfg);
            && |more| == |pairs|
            && forall i :: 0 <= i < |pairs| ==>
                 pairs[i].0 in c.serials && more[i] == Sent(pairs[i].1, Some(c.serials[pairs[i].0]), true)
  {
    if order != [] {
      ResentInOrder(c, order[..|order| - 1], now, cfg);
    }
  }

  /** Dropping what was given up from the bumped table is the scan of all entries. */
  lemma BumpedThenDropped(table: map<u16, Entry>, order: seq<u16>, now: nat, cfg: Config)
    requires Ids(order) == table.Keys
    ensures BumpedTable(table, Ids(order), now, cfg) - Ids(GivenUp(table, order, now, cfg))
            == Scanned(table, Ids(order), now, cfg)
  {
    GivenUpAre(table, order, now, cfg);
    var gone := Ids(GivenUp(table, order, now, cfg));
    forall id | id in table ensures id in gone <==> GivesUp(table[id], now, cfg) {
      assert id in Ids(order);
    }
  }

  /** How far the scan of `start` has come when the entries of `order` have been met. */
  ghost predicate Scanning(
    start: map<u16, Entry>, order: seq<u16>, now: nat, cfg: Config,
    table: map<u16, Entry>, toResend: seq<(u16, Packet)>, givenUp: seq<u16>)
  {
    && Distinct(order)
    && table == BumpedTable(start, Ids(order), now, cfg)
    && toResend == ToResend(start, order, now, cfg)
    && givenUp == GivenUp(start, order, now, cfg)
  }

  /** One entry of the scan: its new value, and what it adds to the two lists. */
  function ScanOne(e: Entry, id: u16, now: nat, cfg: Config): (Entry, seq<(u16, Packet)>, seq<u16>) {
    if Elapsed(now, e.lastSent) < cfg.timeout then (e, [], [])
    else if e.retries >= cfg.maxRetries then (e, [], [id])
    else (Bumped(e, now), [(id, BuildPacket(Bumped(e, now), id, e.stage == WaitFirstAck))], [])
  }

  lemma ScanStart(start: map<u16, Entry>, now: nat, cfg: Config)
    ensures Scanning(start, [], now, cfg, start, [], [])
  {
  }

  lemma ScanNext(
    start: map<u16, Entry>, order: seq<u16>, now: nat, cfg: Config, id: u16,
    table: map<u16, Entry>, toResend: seq<(u16, Packet)>, givenUp: seq<u16>)
    requires Scanning(start, order, now, cfg, table, toResend, givenUp)
    requires id in start && id !in Ids(order)
    ensures id in table && Ids(order + [id]) == Ids(order) + {id}
    ensures var (e, resend, drop) := ScanOne(table[id], id, now, cfg);
            Scanning(start, order + [id], now, cfg, table[id := e], toResend + resend, givenUp + drop)
  {
    OneMoreId(order, id);
    BumpOneMore(start, Ids(order), id, now, cfg);
  }

  lemma OneMoreId(order: seq<u16>, id: u16)
    requires Distinct(order) && id !in Ids(order)
    ensures Distinct(order + [id]) && Ids(order + [id]) == Ids(order) + {id} && (order + [id])[..|order|] == order
  {
    var longer := order + [id];
    forall i, j | 0 <= i < j < |longer| ensures longer[i] != longer[j] {
      assert order[i] in Ids(order);
    }
  }

  lemma BumpOneMore(start: map<u16, Entry>, visited: set<u16>, id: u16, now: nat, cfg: Config)
    requires id in start && id !in visited
    ensures var before := BumpedTable(start, visited, now, cfg);
            && id in before && before[id] == start[id]
            && BumpedTable(start, visited + {id}, now, cfg) == before[id := ScanOne(start[id], id, now, cfg).0]
  {
  }

  class Connection {
    var table: map<u16, Entry>
    var next: u16
    ghost var serials: map<u16, nat>
    ghost var made: nat
    ghost var acked: nat
    ghost var failed: nat
    ghost var log: seq<Sent>

    ghost function State(): Conn
      reads this
    {
      Conn(table, next, serials, made, acked, failed, log)
    }

    constructor ()
      ensures State() == Fresh()
    {
      table, next, serials, made, acked, failed, log := map[], 1, map[], 0, 0, 0, [];
    }

    /** Set the ghost part to that of a state of the model. */
    ghost method Record(c: Conn)
      modifies this`serials, this`made, this`acked, this`failed, this`log
      ensures serials == c.serials && made == c.made && acked == c.acked && failed == c.failed && log == c.log
    {
      serials, made, acked, failed, log := c.serials, c.made, c.acked, c.failed, c.log;
    }

    /** An identifier that is not in flight, or 0; the cursor moves past every identifier tried. */
    method AllocatePid() returns (id: u16)
      modifies this`next
      ensures (id, next) == Search(old(next), table.Keys, 65535, MAX_PACKET_ID)
      ensures id !in table || id == 0
      ensures old(next) != 0 ==>
                && next != 0
                && FirstFree(id, next, old(next), table.Keys, 65535, MAX_PACKET_ID)
                && (id == 0 <==> Full(table.Keys, MAX_PACKET_ID))
      ensures old(next) == 0 ==> (id == 0 <==> Full(table.Keys, MAX_PACKET_ID - 1))
    {
      var i := 0;
      id := 0;
      while i < 65535
        invariant 0 <= i <= 65535 && id == 0
        invariant Search(old(next), table.Keys, 65535, MAX_PACKET_ID)
                  == Search(next, table.Keys, 65535 - i, MAX_PACKET_ID)
      {
        var p := next;
        next := (next + 1) % 65536;
        if next == 0 {
          next := 1;
        }
        if p != 0 && p !in table {
          id := p;
          break;
        }
        i := i + 1;
      }
      if old(next) != 0 {
        SearchFindsFirst(old(next), table.Keys, 65535, MAX_PACKET_ID);
        SearchFailsIffFull(old(next), table.Keys, 65535, MAX_PACKET_ID);
      } else {
        SearchFromZero(table.Keys, 65535, MAX_PACKET_ID);
      }
    }

    /** The packet for one message, entered in the table for QoS 1 and 2; None when it is dropped. */
    method BuildOutboundPacket(m: Outbound, now: nat, cfg: Config) returns (packet: Option<Packet>)
      modifies this
      ensures State() == Deliver(old(State()), m, now, cfg)
      ensures if packet.None? then log == old(log) && table == old(table)
              else exists serial :: log == old(log) + [Sent(packet.value, serial, false)]
      ensures packet.Some? ==>
                && packet.value.Publish?
                && packet.value.publish.topic == m.topic
                && packet.value.publish.payload == m.payload
                && packet.value.publish.qos == m.qos
                && packet.value.publish.retain == m.retain
                && !packet.value.publish.dup
                && (packet.value.publish.packetId == None <==> m.qos == AtMostOnce)
      ensures m.qos == AtMostOnce ==> packet.Some? && table == old(table)
      ensures m.qos != AtMostOnce && packet.Some? ==>
                var id := packet.value.publish.packetId.value;
                id != 0 && id !in old(table) && table == old(table)[id := Entry(m, WaitFirstAck, now, 0)]
      ensures m.qos != AtMostOnce && old(next) != 0 ==>
                (packet.None? <==> |old(table)| >= cfg.maxInflight || Full(old(table).Keys, 65535))
    {
      ghost var after := Deliver(State(), m, now, cfg);
      if m.qos == AtMostOnce {
        packet := Some(PublishOf(m, None, false));
        assert after.log == log + [Sent(packet.value, None, false)];
      } else if |table| >= cfg.maxInflight {
        return None;
      } else {
        var id := AllocatePid();
        if id == 0 {
          return None;
        }
        table := table[id := Entry(m, WaitFirstAck, now, 0)];
        packet := Some(PublishOf(m, Some(id), false));
        assert after.log == log + [Sent(packet.value, Some(made), false)];
      }
      Record(after);
    }

    method OnPuback(id: u16)
      modifies this
      ensures State() == Acknowledge(old(State()), id)
      ensures table == old(table) - {id} && log == old(log)
    {
      ghost var after := Acknowledge(State(), id);
      table := table - {id};
      Record(after);
    }

    method OnPubcomp(id: u16)
      modifies this
      ensures State() == Acknowledge(old(State()), id)
      ensures table == old(table) - {id} && log == old(log)
    {
      ghost var after := Acknowledge(State(), id);
      table := table - {id};
      Record(after);
    }

    method OnPubrec(id: u16, now: nat) returns (packet: Packet)
      modifies this
      ensures State() == Advance(old(State()), id, now)
      ensures packet == Pubrel(id) && log == old(log) + [Sent(packet, None, false)]
      ensures table == if id !in old(table) then old(table) else
                         var e := old(table)[id];
                         old(table)[id := Entry(e.message, WaitPubcomp, now, e.retries)]
    {
      ghost var after := Advance(State(), id, now);
      if id in table {
        table := table[id := table[id].(stage := WaitPubcomp, lastSent := now)];
      }
      packet := Pubrel(id);
      Record(after);
    }

    /** First loop of a retry tick: bump what may retry and collect the packets and the entries to give up. */
    method ScanEntries(now: nat, cfg: Config)
      returns (toResend: seq<(u16, Packet)>, givenUp: seq<u16>, ghost order: seq<u16>)
      modifies this`table
      ensures Ids(order) == old(table).Keys && Scanning(old(table), order, now, cfg, table, toResend, givenUp)
    {
      toResend, givenUp, order := [], [], [];
      ScanStart(table, now, cfg);
      var todo := table.Keys;
      ghost var start, visited := table, {};
      while todo != {}
        invariant visited == Ids(order) && visited !! todo && visited + todo == start.Keys
        invariant Scanning(start, order, now, cfg, table, toResend, givenUp)
        decreases |todo|
      {
        var id :| id in todo;
        todo := todo - {id};
        ScanNext(start, order, now, cfg, id, table, toResend, givenUp);
        order, visited := order + [id], visited + {id};
        toResend, givenUp := ScanEntry(id, now, cfg, toResend, givenUp);
      }
    }

    method ScanEntry(id: u16, now: nat, cfg: Config, toResend: seq<(u16, Packet)>, givenUp: seq<u16>)
      returns (toResend': seq<(u16, Packet)>, givenUp': seq<u16>)
      requires id in table
      modifies this`table
      ensures var (e, resend, drop) := ScanOne(old(table)[id], id, now, cfg);
              table == old(table)[id := e] && toResend' == toResend + resend && givenUp' == givenUp + drop
    {
      toResend', givenUp' := toResend, givenUp;
      var e := table[id];
      if Elapsed(now, e.lastSent) < cfg.timeout {
        return;
      }
      if e.retries >= cfg.maxRetries {
        givenUp' := givenUp + [id];
        return;
      }
      e := e.(retries := e.retries + 1, lastSent := now);
      table := table[id := e];
      toResend' := toResend + [(id, BuildPacket(e, id, e.stage == WaitFirstAck))];
    }

    /** Second loop of a retry tick. */
    method DropAll(ids: seq<u16>)
      modifies this`table
      ensures table == old(table) - Ids(ids)
    {
      for i := 0 to |ids|
        invariant table == old(table) - Ids(ids[..i])
      {
        table := table - {ids[i]};
        assert ids[..i + 1] == ids[..i] + [ids[i]];
      }
      assert ids[..|ids|] == ids;
    }

    /** One retry tick: bump and collect what is due, then drop what has no retry left. */
    method RetryExpired(now: nat, cfg: Config)
      returns (toResend: seq<(u16, Packet)>, givenUp: seq<u16>, ghost order: seq<u16>)
      requires table.Keys == serials.Keys
      modifies this
      ensures Distinct(order) && Ids(order) == old(table).Keys
      ensures State() == Tick(old(State()), now, cfg, order)
      ensures table == Scanned(old(table), old(table).Keys, now, cfg)
      ensures toResend == ToResend(old(table), order, now, cfg)
      ensures givenUp == GivenUp(old(table), order, now, cfg)
      ensures |log| == |old(log)| + |toResend| && old(log) <= log
      ensures forall i :: 0 <= i < |toResend| ==>
                && toResend[i].0 in old(serials)
                && log[|old(log)| + i] == Sent(toResend[i].1, Some(old(serials)[toResend[i].0]), true)
    {
      ghost var before := State();
      toResend, givenUp, order := ScanEntries(now, cfg);
      DropAll(givenUp);
      BumpedThenDropped(before.table, order, now, cfg);
      ghost var after := Tick(before, now, cfg, order);
      TickExact(before, now, cfg, order);
      ResentInOrder(before, order, now, cfg);
      Record(after);
    }
  }
}
