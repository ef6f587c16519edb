/**
 * Inbound QoS 2 (section 4.3.3 of MQTT 3.1.1): a sending client and the broker joined by two first-in first-out channels.
 * The client may retransmit at any time and reuses identifiers after PUBCOMP. Each message has a tag that the broker never
 * looks at; it tells the copies of one message from those of another with the same identifier.
 */
module InboundQos2 {
  import opened Packets

  /** The client's side of one identifier. */
  datatype Phase = WaitRec(tag: nat) | WaitComp(tag: nat)

  /** Towards the broker PUBLISH (first) or PUBREL (second); towards the client PUBREC (first) or PUBCOMP (second). */
  datatype Item = Item(id: u16, tag: nat, second: bool)

  datatype Link = Link(
    phases: map<u16, Phase>,
    next: nat,
    toBroker: seq<Item>,
    toClient: seq<Item>,
    seen: set<u16>,
    owner: map<u16, nat>,
    outcome: map<nat, bool>,
    routes: seq<nat>,
    past: seq<seq<nat>>,
    arrived: set<nat>,
    completed: set<nat>,
    base: nat)

  function Start(): Link {
    Link(map[], 0, [], [], {}, map[], map[], [], [], {}, {}, 0)
  }

  datatype Event =
    | Begin(id: u16)
    | Retransmit(id: u16)
    | ClientTakes
    | BrokerTakes(accepted: bool)
    | Reconnect

  /** A new message, under an identifier that is not in use; 0 is no identifier. */
  function NewMessage(k: Link, id: u16): Link {
    if id == 0 || id in k.phases then k
    else k.(phases := k.phases[id := WaitRec(k.next)], next := k.next + 1,
            toBroker := k.toBroker + [Item(id, k.next, false)])
  }

  /** The client repeats what it is waiting for an answer to: PUBLISH until PUBREC, then PUBREL until PUBCOMP. */
  function Repeat(k: Link, id: u16): Link {
    if id !in k.phases then k
    else k.(toBroker := k.toBroker + [Item(id, k.phases[id].tag, k.phases[id].WaitComp?)])
  }

  /** The client takes the next answer. An answer it is not waiting for is ignored. */
  function ClientStep(k: Link): Link {
    if k.toClient == [] then k
    else
      var x := k.toClient[0];
      var k := k.(toClient := k.toClient[1..]);
      if x.id !in k.phases then k
      else
        var phase := k.phases[x.id];
        if x.second then
          if phase.WaitComp? then k.(phases := k.phases - {x.id}, completed := k.completed + {phase.tag}) else k
        else
          k.(phases := k.phases[x.id := WaitComp(phase.tag)], toBroker := k.toBroker + [Item(x.id, phase.tag, true)])
  }

  /** PUBLISH: recorded and answered always, routed when it was not recorded and the guards let it through. */
  function OnPublish(k: Link, id: u16, tag: nat, accepted: bool): Link {
    var k := k.(toClient := k.toClient + [Item(id, tag, false)]);
    if id in k.seen then k
    else k.(seen := k.seen + {id}, owner := k.owner[id := tag], outcome := k.outcome[tag := accepted],
            arrived := k.arrived + {tag}, routes := if accepted then k.routes + [tag] else k.routes)
  }

  /** PUBREL: the identifier is forgotten; PUBCOMP is answered always. */
  function OnPubrel(k: Link, id: u16, tag: nat): Link {
    k.(seen := k.seen - {id}, toClient := k.toClient + [Item(id, tag, true)])
  }

  function BrokerStep(k: Link, accepted: bool): Link {
    if k.toBroker == [] then k
    else
      var x := k.toBroker[0];
      var k := k.(toBroker := k.toBroker[1..]);
      if x.second then OnPubrel(k, x.id, x.tag) else OnPublish(k, x.id, x.tag, accepted)
  }

  /**
   * A new connection of the same client: nothing is in transit, and the broker starts with an empty record. Messages with
   * a tag from `base` on are begun on this connection.
   */
  function NewConnection(k: Link): Link {
    k.(toBroker := [], toClient := [], seen := {}, outcome := map[], routes := [], past := k.past + [k.routes],
       base := k.next)
  }

  function Step(k: Link, ev: Event): Link {
    match ev
    case Begin(id) => NewMessage(k, id)
    case Retransmit(id) => Repeat(k, id)
    case ClientTakes => ClientStep(k)
    case BrokerTakes(accepted) => BrokerStep(k, accepted)
    case Reconnect => NewConnection(k)
  }

  function Run(events: seq<Event>): Link {
    if events == [] then Start() else Step(Run(events[..|events| - 1]), events[|events| - 1])
  }

  // ---------- what every reachable state keeps ----------

  predicate Open(phases: map<u16, Phase>, id: u16, tag: nat) {
    id in phases && phases[id].tag == tag
  }

  /** Of one identifier, tags do not go down along a channel, and a second-stage packet ends its tag's first stage. */
  ghost predicate InOrder(channel: seq<Item>) {
    forall i, j :: 0 <= i < j < |channel| && channel[i].id == channel[j].id ==> MayPrecede(channel[i], channel[j])
  }

  predicate MayPrecede(a: Item, b: Item) {
    a.tag <= b.tag && (a.tag == b.tag && a.second ==> b.second)
  }

  /** A packet in transit, in either direction, against the client's phase. */
  predicate TransitOk(phases: map<u16, Phase>, next: nat, x: Item) {
    && x.tag < next
    && (!x.second ==> Open(phases, x.id, x.tag))
    && (x.second && x.id in phases ==>
          if phases[x.id].WaitRec? then x.tag < phases[x.id].tag else x.tag == phases[x.id].tag)
  }

  /** All packets in transit, oldest first: an answer takes the place of the packet it answers. */
  function Flow(k: Link): seq<Item> {
    k.toClient + k.toBroker
  }

  ghost predicate FlowOk(k: Link) {
    && (forall x :: x in Flow(k) ==> TransitOk(k.phases, k.next, x))
    && InOrder(Flow(k))
    && (forall id :: id in k.phases ==> k.phases[id].tag < k.next)
    && (forall a, b :: a in k.phases && b in k.phases && k.phases[a].tag == k.phases[b].tag ==> a == b)
  }

  /** A recorded identifier belongs to the message the client has open under it, which was not completed yet. */
  ghost predicate SeenOk(k: Link) {
    forall id :: id in k.seen ==>
      && id in k.owner && Open(k.phases, id, k.owner[id]) && k.owner[id] in k.outcome
      && Item(id, k.owner[id], true) !in k.toClient
  }

  /** Where copies of a message that already arrived can still be: only where the record will catch them. */
  ghost predicate ArrivedOk(k: Link) {
    && (forall x :: x in k.toBroker && !x.second && x.tag in k.outcome ==> x.id in k.seen)
    && NoLateCopy(k.toBroker, k.outcome)
    && (forall id :: id in k.phases && k.phases[id].WaitRec? && k.phases[id].tag in k.outcome ==>
          id in k.seen && forall x :: x in k.toBroker && x.id == id ==> !x.second)
  }

  /** No copy of a message that already arrived follows a PUBREL of its identifier. */
  ghost predicate NoLateCopy(channel: seq<Item>, outcome: map<nat, bool>) {
    forall i, j :: 0 <= i < j < |channel| && Released(channel[i], channel[j]) ==> channel[j].tag !in outcome
  }

  predicate Released(a: Item, b: Item) {
    a.id == b.id && a.second && !b.second
  }

  /** How often a message occurs in a connection's routes. */
  function Times(routes: seq<nat>, tag: nat): nat {
    multiset(routes)[tag]
  }

  lemma TimesAppend(routes: seq<nat>, last: nat)
    ensures forall tag: nat :: Times(routes + [last], tag) == Times(routes, tag) + if tag == last then 1 else 0
  {
    assert multiset(routes + [last]) == multiset(routes) + multiset{last};
  }

  function Verdict(outcome: map<nat, bool>, tag: nat): nat {
    if tag in outcome && outcome[tag] then 1 else 0
  }

  ghost predicate RoutesOk(k: Link) {
    && (forall tag: nat :: Times(k.routes, tag) == Verdict(k.outcome, tag))
    && (forall tag :: tag in k.outcome ==> tag < k.next)
    && k.outcome.Keys <= k.arrived
    && k.base <= k.next
    && (forall tag :: tag in k.arrived && k.base <= tag ==> tag in k.outcome)
    && (forall y :: y in k.toClient && !y.second ==> y.tag in k.outcome)
    && (forall id :: id in k.phases && k.phases[id].WaitComp? ==> k.phases[id].tag in k.arrived)
    && k.completed <= k.arrived
    && (forall c, tag: nat :: c in k.past ==> Times(c, tag) <= if tag < k.base then 1 else 0)
  }

  /** A message whose PUBCOMP was taken is not open any more. */
  ghost predicate CompletedOk(k: Link) {
    && (forall id :: id in k.phases ==> k.phases[id].tag !in k.completed)
    && (forall tag :: tag in k.completed ==> tag < k.next)
  }

  ghost predicate Inv(k: Link) {
    FlowOk(k) && SeenOk(k) && ArrivedOk(k) && RoutesOk(k) && CompletedOk(k)
  }

  // ---------- the steps keep the invariant ----------

  lemma StartInv()
    ensures Inv(Start())
  {
  }

  lemma AppendInOrder(flow: seq<Item>, x: Item)
    requires InOrder(flow) && forall y :: y in flow && y.id == x.id ==> MayPrecede(y, x)
    ensures InOrder(flow + [x])
  {
    var more := flow + [x];
    forall i, j | 0 <= i < j < |more| && more[i].id == more[j].id ensures MayPrecede(more[i], more[j]) {
      assert more[i] == flow[i] && flow[i] in flow;
    }
  }

  /** A packet precedes what is after it. */
  lemma HeadPrecedes(flow: seq<Item>, n: nat)
    requires n < |flow| && InOrder(flow)
    ensures forall y :: y in flow[n + 1..] && y.id == flow[n].id ==> MayPrecede(flow[n], y)
    ensures forall y :: y in flow[..n] && y.id == flow[n].id ==> MayPrecede(y, flow[n])
    ensures InOrder(flow[1..])
  {
    forall y | y in flow[n + 1..] && y.id == flow[n].id ensures MayPrecede(flow[n], y) {
      var j :| 0 <= j < |flow[n + 1..]| && flow[n + 1..][j] == y;
      assert flow[n + 1 + j] == y;
    }
  }

  lemma AppendCopy(channel: seq<Item>, x: Item, outcome: map<nat, bool>)
    requires NoLateCopy(channel, outcome)
    requires !x.second && x.tag in outcome ==> forall y :: y in channel && y.id == x.id ==> !y.second
    ensures NoLateCopy(channel + [x], outcome)
  {
    var more := channel + [x];
    forall i, j | 0 <= i < j < |more| && Released(more[i], more[j]) ensures more[j].tag !in outcome {
      assert more[i] == channel[i] && channel[i] in channel;
    }
  }

  /** The client sends x, for the message it has open. */
  lemma SendKeepsInv(k: Link, x: Item)
    requires Inv(k) && Open(k.phases, x.id, x.tag) && x.second == k.phases[x.id].WaitComp?
    ensures Inv(k.(toBroker := k.toBroker + [x]))
  {
    var d := k.(toBroker := k.toBroker + [x]);
    forall y | y in Flow(k) && y.id == x.id ensures MayPrecede(y, x) {
      assert TransitOk(k.phases, k.next, y);
    }
    assert Flow(d) == Flow(k) + [x];
    AppendInOrder(Flow(k), x);
    AppendCopy(k.toBroker, x, k.outcome);
  }

  lemma OpenKeepsInv(k: Link, id: u16, d: Link)
    requires Inv(k) && id !in k.phases
    requires d == k.(phases := k.phases[id := WaitRec(k.next)], next := k.next + 1)
    ensures Inv(d)
  {
    OpenFlow(k, id, d);
    OpenRecord(k, id, d);
  }

  lemma OpenFlow(k: Link, id: u16, d: Link)
    requires FlowOk(k) && id !in k.phases
    requires d == k.(phases := k.phases[id := WaitRec(k.next)], next := k.next + 1)
    ensures FlowOk(d)
  {
    assert Flow(d) == Flow(k);
    forall x | x in Flow(d) ensures TransitOk(d.phases, d.next, x) {
      assert TransitOk(k.phases, k.next, x);
    }
  }

  lemma OpenRecord(k: Link, id: u16, d: Link)
    requires SeenOk(k) && ArrivedOk(k) && RoutesOk(k) && CompletedOk(k) && id !in k.phases
    requires d == k.(phases := k.phases[id := WaitRec(k.next)], next := k.next + 1)
    ensures SeenOk(d) && ArrivedOk(d) && RoutesOk(d) && CompletedOk(d)
  {
    assert SeenOk(d);
    assert ArrivedOk(d);
  }

  lemma NewMessageKeepsInv(k: Link, id: u16)
    requires Inv(k)
    ensures Inv(NewMessage(k, id))
  {
    if id != 0 && id !in k.phases {
      var d := k.(phases := k.phases[id := WaitRec(k.next)], next := k.next + 1);
      OpenKeepsInv(k, id, d);
      SendKeepsInv(d, Item(id, k.next, false));
    }
  }

  lemma RepeatKeepsInv(k: Link, id: u16)
    requires Inv(k)
    ensures Inv(Repeat(k, id))
  {
    if id in k.phases {
      SendKeepsInv(k, Item(id, k.phases[id].tag, k.phases[id].WaitComp?));
    }
  }

  lemma PopClientInv(k: Link)
    requires Inv(k) && k.toClient != []
    ensures Inv(k.(toClient := k.toClient[1..]))
    ensures forall y :: y in Flow(k.(toClient := k.toClient[1..])) && y.id == k.toClient[0].id ==>
              MayPrecede(k.toClient[0], y)
  {
    var d := k.(toClient := k.toClient[1..]);
    assert Flow(k)[1..] == Flow(d) && Flow(k)[0] == k.toClient[0];
    HeadPrecedes(Flow(k), 0);
  }

  /** PUBREC taken: PUBLISH is over for this message. */
  lemma GotRecKeepsInv(k: Link, id: u16)
    requires Inv(k) && id in k.phases
    requires k.phases[id].tag in k.outcome
    requires forall y :: y in Flow(k) && y.id == id ==> y.tag == k.phases[id].tag
    ensures Inv(k.(phases := k.phases[id := WaitComp(k.phases[id].tag)]))
  {
    var d := k.(phases := k.phases[id := WaitComp(k.phases[id].tag)]);
    assert FlowOk(d) by {
      assert Flow(d) == Flow(k);
    }
    assert SeenOk(d) && ArrivedOk(d);
    assert RoutesOk(d) && CompletedOk(d);
  }

  /** PUBCOMP taken: the identifier is free. */
  lemma GotCompKeepsInv(k: Link, id: u16)
    requires Inv(k) && id in k.phases && k.phases[id].WaitComp? && id !in k.seen
    requires forall y :: y in Flow(k) && y.id == id ==> y.second
    ensures Inv(k.(phases := k.phases - {id}, completed := k.completed + {k.phases[id].tag}))
  {
    assert Flow(k.(phases := k.phases - {id}, completed := k.completed + {k.phases[id].tag})) == Flow(k);
  }

  lemma ClientKeepsInv(k: Link)
    requires Inv(k)
    ensures Inv(ClientStep(k))
  {
    if k.toClient != [] {
      var x := k.toClient[0];
      var d := k.(toClient := k.toClient[1..]);
      PopClientInv(k);
      assert x in Flow(k) && TransitOk(k.phases, k.next, x);
      if x.id in k.phases && x.second && k.phases[x.id].WaitComp? {
        GotCompKeepsInv(d, x.id);
      } else if x.id in k.phases && !x.second {
        var tag := k.phases[x.id].tag;
        forall y | y in Flow(d) && y.id == x.id ensures y.tag == tag {
          assert TransitOk(d.phases, d.next, y);
        }
        GotRecKeepsInv(d, x.id);
        SendKeepsInv(d.(phases := d.phases[x.id := WaitComp(tag)]), Item(x.id, tag, true));
      }
    }
  }

  /** The broker's record tells exactly whether a copy of the message at the head has arrived before. */
  lemma RecordDecides(k: Link)
    requires Inv(k) && k.toBroker != [] && !k.toBroker[0].second
    ensures k.toBroker[0].id in k.seen <==> k.toBroker[0].tag in k.outcome
  {
    var x := k.toBroker[0];
    assert x in Flow(k) && TransitOk(k.phases, k.next, x);
  }

  /** What comes before and after the packet that the broker takes next. */
  lemma AtBroker(k: Link)
    requires Inv(k) && k.toBroker != []
    ensures TransitOk(k.phases, k.next, k.toBroker[0])
    ensures InOrder(k.toBroker)
    ensures forall y :: y in k.toBroker ==> TransitOk(k.phases, k.next, y)
    ensures forall y :: y in k.toBroker[1..] && y.id == k.toBroker[0].id ==> MayPrecede(k.toBroker[0], y)
    ensures forall y :: y in k.toClient && y.id == k.toBroker[0].id ==> MayPrecede(y, k.toBroker[0])
  {
    Joined(k.toClient, k.toBroker);
    forall y | y in k.toBroker ensures TransitOk(k.phases, k.next, y) {
      assert y in Flow(k);
    }
    assert k.toBroker[0] in k.toBroker;
  }

  /** Two channels joined: what precedes the head of the second, and what follows it. */
  lemma Joined(a: seq<Item>, b: seq<Item>)
    requires InOrder(a + b) && b != []
    ensures InOrder(b)
    ensures forall y :: y in b[1..] && y.id == b[0].id ==> MayPrecede(b[0], y)
    ensures forall y :: y in a && y.id == b[0].id ==> MayPrecede(y, b[0])
  {
    var flow, n := a + b, |a|;
    forall i, j | 0 <= i < j < |b| && b[i].id == b[j].id ensures MayPrecede(b[i], b[j]) {
      assert flow[n + i] == b[i] && flow[n + j] == b[j];
    }
    assert flow[..n] == a && flow[n + 1..] == b[1..] && flow[n] == b[0];
    HeadPrecedes(flow, n);
  }

  /** The broker's record after a first arrival x. */
  function Recorded(k: Link, x: Item, accepted: bool): Link {
    k.(seen := k.seen + {x.id}, owner := k.owner[x.id := x.tag], outcome := k.outcome[x.tag := accepted],
       arrived := k.arrived + {x.tag}, routes := if accepted then k.routes + [x.tag] else k.routes)
  }

  /** A first arrival is recorded with its verdict, before it is answered. */
  lemma RecordedKeepsInv(k: Link, x: Item, accepted: bool)
    requires Inv(k) && k.toBroker != [] && x == k.toBroker[0] && !x.second && x.id !in k.seen && x.tag !in k.outcome
    ensures Inv(Recorded(k, x, accepted))
  {
    var d := Recorded(k, x, accepted);
    AtBroker(k);
    assert FlowOk(d) by { assert Flow(d) == Flow(k); }
    assert SeenOk(d);
    assert RoutesOk(d) by {
      TimesAppend(k.routes, x.tag);
    }
    NoOtherCopy(k, x);
    assert ArrivedOk(d);
  }

  lemma NoOtherCopy(k: Link, x: Item)
    requires Inv(k) && k.toBroker != [] && x == k.toBroker[0] && !x.second
    ensures forall i, j :: 0 <= i < j < |k.toBroker| && Released(k.toBroker[i], k.toBroker[j]) ==> k.toBroker[j].tag != x.tag
    ensures forall y :: y in k.toBroker && y.tag == x.tag && !y.second ==> y.id == x.id
    ensures x.id in k.phases
    ensures k.phases[x.id].WaitRec? ==> forall y :: y in k.toBroker && y.id == x.id ==> !y.second
  {
    AtBroker(k);
    assert forall y :: y in k.toBroker ==> y == x || y in k.toBroker[1..];
    forall i, j | 0 <= i < j < |k.toBroker| && Released(k.toBroker[i], k.toBroker[j])
      ensures k.toBroker[j].tag != x.tag
    {
      var a, b := k.toBroker[i], k.toBroker[j];
      assert MayPrecede(a, b) && a in k.toBroker && b in k.toBroker;
    }
  }

  /** The broker's answer takes the place of the packet it answers. */
  lemma AnswerKeepsInv(k: Link)
    requires Inv(k) && k.toBroker != []
    requires if k.toBroker[0].second then k.toBroker[0].id !in k.seen else k.toBroker[0].tag in k.outcome
    ensures Inv(k.(toBroker := k.toBroker[1..], toClient := k.toClient + [k.toBroker[0]]))
  {
    var d := k.(toBroker := k.toBroker[1..], toClient := k.toClient + [k.toBroker[0]]);
    assert Flow(d) == Flow(k);
    forall i, j | 0 <= i < j < |d.toBroker| && Released(d.toBroker[i], d.toBroker[j])
      ensures d.toBroker[j].tag !in d.outcome
    {
      assert d.toBroker[i] == k.toBroker[i + 1] && d.toBroker[j] == k.toBroker[j + 1];
    }
  }

  /** PUBREL takes the identifier off the record, before it is answered. */
  lemma ReleaseKeepsInv(k: Link)
    requires Inv(k) && k.toBroker != [] && k.toBroker[0].second
    ensures Inv(k.(seen := k.seen - {k.toBroker[0].id}))
  {
    var x := k.toBroker[0];
    var d := k.(seen := k.seen - {x.id});
    assert Flow(d) == Flow(k);
    forall y | y in d.toBroker && !y.second && y.tag in d.outcome ensures y.id in d.seen {
      var j :| 0 <= j < |k.toBroker| && k.toBroker[j] == y;
      assert Released(x, y) <==> y.id == x.id;
    }
  }

  lemma BrokerKeepsInv(k: Link, accepted: bool)
    requires Inv(k)
    ensures Inv(BrokerStep(k, accepted))
  {
    if k.toBroker != [] {
      var x := k.toBroker[0];
      if x.second {
        ReleaseKeepsInv(k);
        AnswerKeepsInv(k.(seen := k.seen - {x.id}));
      } else {
        RecordDecides(k);
        if x.id in k.seen {
          AnswerKeepsInv(k);
        } else {
          RecordedKeepsInv(k, x, accepted);
          AnswerKeepsInv(Recorded(k, x, accepted));
        }
      }
    }
  }

  lemma ReconnectKeepsInv(k: Link)
    requires Inv(k)
    ensures Inv(NewConnection(k))
  {
    var d := NewConnection(k);
    assert Flow(d) == [];
    assert FlowOk(d) && SeenOk(d) && ArrivedOk(d) && CompletedOk(d);
    forall c, tag: nat | c in d.past ensures Times(c, tag) <= if tag < d.base then 1 else 0 {
      if c !in k.past {
        assert c == k.routes;
      }
    }
  }

  lemma StepKeepsInv(k: Link, ev: Event)
    requires Inv(k)
    ensures Inv(Step(k, ev))
  {
    match ev {
      case Begin(id) => NewMessageKeepsInv(k, id);
      case Retransmit(id) => RepeatKeepsInv(k, id);
      case ClientTakes => ClientKeepsInv(k);
      case BrokerTakes(accepted) => BrokerKeepsInv(k, accepted);
      case Reconnect => ReconnectKeepsInv(k);
    }
  }

  lemma {:induction false} RunKeepsInv(events: seq<Event>)
    ensures Inv(Run(events))
  {
    if events == [] {
      StartInv();
    } else {
      RunKeepsInv(events[..|events| - 1]);
      StepKeepsInv(Run(events[..|events| - 1]), events[|events| - 1]);
    }
  }

  // ---------- exactly once ----------

  /** Within one connection no message is routed twice, and one is routed exactly when its first copy was let through. */
  lemma RoutedOncePerConnection(events: seq<Event>, tag: nat)
    ensures var k := Run(events);
            && Times(k.routes, tag) == Verdict(k.outcome, tag)
            && forall c :: c in k.past ==> Times(c, tag) <= 1
  {
    RunKeepsInv(events);
  }

  /** The verdict on a message is that on its first copy: no later copy on the connection changes it or is routed. */
  lemma VerdictStays(k: Link, ev: Event, tag: nat)
    requires Inv(k) && tag in k.outcome && !ev.Reconnect?
    ensures var d := Step(k, ev);
            tag in d.outcome && d.outcome[tag] == k.outcome[tag] && Times(d.routes, tag) == Times(k.routes, tag)
  {
    if ev.BrokerTakes? && k.toBroker != [] {
      TimesAppend(k.routes, k.toBroker[0].tag);
      if !k.toBroker[0].second {
        RecordDecides(k);
      }
    }
  }

  /** So a message refused at its first arrival is not routed by any retransmission on the connection. */
  lemma {:induction false} FirstVerdictDecides(events: seq<Event>, more: seq<Event>, tag: nat)
    requires tag in Run(events).outcome && Reconnects(more) == 0
    ensures var d := Run(events + more);
            && tag in d.outcome && d.outcome[tag] == Run(events).outcome[tag]
            && Times(d.routes, tag) == if Run(events).outcome[tag] then 1 else 0
    decreases |more|
  {
    if more == [] {
      assert events + more == events;
      RunKeepsInv(events);
    } else {
      var n := |more| - 1;
      FirstVerdictDecides(events, more[..n], tag);
      assert events + more == (events + more[..n]) + [more[n]];
      RunMore(events + more[..n], more[n]);
      RunKeepsInv(events + more[..n]);
      VerdictStays(Run(events + more[..n]), more[n], tag);
    }
  }

  function Reconnects(events: seq<Event>): nat {
    if events == [] then 0
    else Reconnects(events[..|events| - 1]) + if events[|events| - 1].Reconnect? then 1 else 0
  }

  function RoutesOf(past: seq<seq<nat>>, tag: nat): nat {
    if past == [] then 0 else RoutesOf(past[..|past| - 1], tag) + Times(past[|past| - 1], tag)
  }

  /** How often a message was routed over all connections. */
  function TotalRoutes(k: Link, tag: nat): nat {
    RoutesOf(k.past, tag) + Times(k.routes, tag)
  }

  lemma {:induction false} NotRoutedBefore(past: seq<seq<nat>>, tag: nat)
    requires forall c :: c in past ==> Times(c, tag) == 0
    ensures RoutesOf(past, tag) == 0
  {
    if past != [] {
      NotRoutedBefore(past[..|past| - 1], tag);
      assert past[|past| - 1] in past;
    }
  }

  /** Once completed, a message is not routed again. */
  lemma CompletedStays(k: Link, ev: Event, tag: nat)
    requires Inv(k) && tag in k.completed
    ensures tag in Step(k, ev).completed && TotalRoutes(Step(k, ev), tag) == TotalRoutes(k, tag)
  {
    match ev {
      case Begin(id) =>
      case Retransmit(id) =>
      case ClientTakes =>
      case BrokerTakes(accepted) => CompletedNotTaken(k, accepted, tag);
      case Reconnect =>
        assert (k.past + [k.routes])[..|k.past|] == k.past;
        assert Times([], tag) == 0;
    }
  }

  lemma CompletedNotTaken(k: Link, accepted: bool, tag: nat)
    requires Inv(k) && tag in k.completed
    ensures var d := BrokerStep(k, accepted);
            d.completed == k.completed && d.past == k.past && Times(d.routes, tag) == Times(k.routes, tag)
  {
    if k.toBroker != [] {
      AtBroker(k);
      TimesAppend(k.routes, k.toBroker[0].tag);
    }
  }

  lemma {:induction false} CompletedForever(events: seq<Event>, more: seq<Event>, tag: nat)
    requires tag in Run(events).completed
    ensures tag in Run(events + more).completed && TotalRoutes(Run(events + more), tag) == TotalRoutes(Run(events), tag)
    decreases |more|
  {
    if more == [] {
      assert events + more == events;
    } else {
      var n := |more| - 1;
      CompletedForever(events, more[..n], tag);
      assert events + more == (events + more[..n]) + [more[n]];
      RunMore(events + more[..n], more[n]);
      RunKeepsInv(events + more[..n]);
      CompletedStays(Run(events + more[..n]), more[n], tag);
    }
  }

  /**
   * In every run: a message begun and completed on the same connection has arrived there, and over all connections, those
   * that follow included, it is routed exactly once, or never if its first copy was refused.
   */
  lemma ExactlyOnce(events: seq<Event>, more: seq<Event>, tag: nat)
    requires Run(events).base <= tag && tag in Run(events).completed
    ensures var k := Run(events);
            tag in k.outcome && TotalRoutes(Run(events + more), tag) == if k.outcome[tag] then 1 else 0
  {
    RunKeepsInv(events);
    NotRoutedBefore(Run(events).past, tag);
    CompletedForever(events, more, tag);
  }

  // ---------- across reconnections ----------

  /** The client waits for the PUBREC of this message. */
  ghost predicate Waiting(k: Link, tag: nat) {
    exists id :: id in k.phases && k.phases[id] == WaitRec(tag)
  }

  /** How many reconnections were made while the client waited for the PUBREC of this message. */
  ghost function WaitingReconnects(events: seq<Event>, tag: nat): nat {
    if events == [] then 0
    else
      var before := events[..|events| - 1];
      WaitingReconnects(before, tag) + if events[|events| - 1].Reconnect? && Waiting(Run(before), tag) then 1 else 0
  }

  /** A message that has not arrived on this connection can do so only while it waits for PUBREC, or is not begun. */
  ghost predicate MayArrive(k: Link, tag: nat) {
    tag !in k.outcome && (tag >= k.next || Waiting(k, tag))
  }

  /** w reconnections allow w + 1 routings; one is still to come if the message may arrive. */
  ghost predicate Allowed(k: Link, tag: nat, w: nat) {
    && TotalRoutes(k, tag) <= w + 1
    && (MayArrive(k, tag) ==> TotalRoutes(k, tag) <= w)
    && (tag !in k.outcome ==> forall x :: x in k.toBroker && !x.second && x.tag == tag ==> Waiting(k, tag))
  }

  lemma ArrivalAllowed(k: Link, tag: nat, w: nat, accepted: bool)
    requires Inv(k) && Allowed(k, tag, w)
    ensures Allowed(BrokerStep(k, accepted), tag, w)
  {
    var d := BrokerStep(k, accepted);
    if k.toBroker != [] {
      var x := k.toBroker[0];
      AtBroker(k);
      TimesAppend(k.routes, x.tag);
      assert d.phases == k.phases && d.next == k.next;
      assert forall y :: y in d.toBroker ==> y in k.toBroker;
      if !x.second {
        RecordDecides(k);
      }
    }
  }

  lemma AnswerAllowed(k: Link, tag: nat, w: nat)
    requires Inv(k) && Allowed(k, tag, w)
    ensures Allowed(ClientStep(k), tag, w)
  {
    var d := ClientStep(k);
    assert TotalRoutes(d, tag) == TotalRoutes(k, tag) && d.outcome == k.outcome && d.next == k.next;
    if k.toClient != [] {
      var y := k.toClient[0];
      assert y in Flow(k) && TransitOk(k.phases, k.next, y);
      forall id | id in d.phases && d.phases[id] == WaitRec(tag) ensures Waiting(k, tag) {
        assert k.phases[id] == WaitRec(tag);
      }
      if tag !in k.outcome && Waiting(k, tag) {
        var id :| id in k.phases && k.phases[id] == WaitRec(tag);
        assert id in d.phases && d.phases[id] == WaitRec(tag);
      }
    }
  }

  lemma SendAllowed(k: Link, tag: nat, w: nat, ev: Event)
    requires Inv(k) && Allowed(k, tag, w) && (ev.Begin? || ev.Retransmit?)
    ensures Allowed(Step(k, ev), tag, w)
  {
    var d := Step(k, ev);
    assert TotalRoutes(d, tag) == TotalRoutes(k, tag) && d.outcome == k.outcome;
    if Waiting(k, tag) {
      var id :| id in k.phases && k.phases[id] == WaitRec(tag);
      assert id in d.phases && d.phases[id] == WaitRec(tag);
    }
    if Waiting(d, tag) && !Waiting(k, tag) {
      var id :| id in d.phases && d.phases[id] == WaitRec(tag);
      assert tag == k.next;
    }
    if d.toBroker != k.toBroker {
      var x := d.toBroker[|k.toBroker|];
      assert d.toBroker == k.toBroker + [x] && x.id in d.phases && d.phases[x.id].tag == x.tag;
      assert !x.second ==> d.phases[x.id] == WaitRec(x.tag);
    }
  }

  lemma ReconnectAllowed(k: Link, tag: nat, w: nat)
    requires Inv(k) && Allowed(k, tag, w)
    ensures Allowed(NewConnection(k), tag, w + if Waiting(k, tag) then 1 else 0)
  {
    var d := NewConnection(k);
    assert (k.past + [k.routes])[..|k.past|] == k.past;
    assert Times([], tag) == 0;
    assert TotalRoutes(d, tag) == TotalRoutes(k, tag);
    assert Waiting(d, tag) == Waiting(k, tag);
  }

  /**
   * The record does not outlive a connection: each reconnection that the client makes while it waits for the PUBREC of a
   * message allows one more routing of it. No other reconnection does.
   */
  lemma RoutedPerReconnect(events: seq<Event>, tag: nat)
    ensures TotalRoutes(Run(events), tag) <= 1 + WaitingReconnects(events, tag)
    ensures WaitingReconnects(events, tag) <= Reconnects(events)
  {
    RunAllowed(events, tag);
    WaitingAtMostAll(events, tag);
  }

  lemma {:induction false} WaitingAtMostAll(events: seq<Event>, tag: nat)
    ensures WaitingReconnects(events, tag) <= Reconnects(events)
  {
    if events != [] {
      WaitingAtMostAll(events[..|events| - 1], tag);
    }
  }

  lemma {:induction false} RunAllowed(events: seq<Event>, tag: nat)
    ensures Allowed(Run(events), tag, WaitingReconnects(events, tag))
  {
    if events != [] {
      var before, ev := events[..|events| - 1], events[|events| - 1];
      var k, w := Run(before), WaitingReconnects(before, tag);
      RunAllowed(before, tag);
      RunKeepsInv(before);
      match ev {
        case Begin(id) => SendAllowed(k, tag, w, ev);
        case Retransmit(id) => SendAllowed(k, tag, w, ev);
        case ClientTakes => AnswerAllowed(k, tag, w);
        case BrokerTakes(accepted) => ArrivalAllowed(k, tag, w, accepted);
        case Reconnect => ReconnectAllowed(k, tag, w);
      }
    }
  }

  /** The bound is reached: a conforming client that reconnects n times before PUBREC comes through is routed n + 1 times. */
  lemma {:induction false} RoutedAgain(n: nat) returns (events: seq<Event>)
    ensures Reconnects(events) == WaitingReconnects(events, 0) == n && TotalRoutes(Run(events), 0) == n + 1
    ensures var k := Run(events);
            1 in k.phases && k.phases[1] == WaitRec(0) && k.toBroker == []
  {
    if n == 0 {
      events := [Begin(1), BrokerTakes(true)];
      RunMore([], Begin(1));
      RunMore([Begin(1)], BrokerTakes(true));
      TimesAppend([], 0);
    } else {
      var before := RoutedAgain(n - 1);
      var k := Run(before);
      events := before + [Reconnect] + [Retransmit(1)] + [BrokerTakes(true)];
      assert Waiting(k, 0);
      RunMore(before, Reconnect);
      RunMore(before + [Reconnect], Retransmit(1));
      RunMore(before + [Reconnect] + [Retransmit(1)], BrokerTakes(true));
      assert (k.past + [k.routes])[..|k.past|] == k.past;
      TimesAppend([], 0);
    }
  }

  lemma RunMore(events: seq<Event>, ev: Event)
    ensures Run(events + [ev]) == Step(Run(events), ev)
    ensures Reconnects(events + [ev]) == Reconnects(events) + if ev.Reconnect? then 1 else 0
    ensures forall tag :: WaitingReconnects(events + [ev], tag)
              == WaitingReconnects(events, tag) + if ev.Reconnect? && Waiting(Run(events), tag) then 1 else 0
  {
    assert (events + [ev])[..|events|] == events;
  }
}
