/** Topic identifiers of one MQTT-SN client: two maps that stay inverse to each other, and a cyclic cursor. */
module SnTopics {
  import opened Basics
  import opened CyclicIds

  const TOPIC_ID_MIN := 1
  const TOPIC_ID_MAX := 0xFFFE

  /** The registration loop runs one time more than there are identifiers. */
  const TRIES := 0xFFFF

  datatype Registry = Registry(toId: map<string, int>, toTopic: map<int, string>, next: int)

  ghost predicate Inverse(r: Registry) {
    && IsId(r.next, TOPIC_ID_MAX)
    && (forall t :: t in r.toId ==> IsId(r.toId[t], TOPIC_ID_MAX) && r.toId[t] in r.toTopic && r.toTopic[r.toId[t]] == t)
    && (forall i :: i in r.toTopic ==> r.toTopic[i] in r.toId && r.toId[r.toTopic[i]] == i)
  }

  /** The identifier of a topic, registered if need be; the least identifier, unregistered, when none is free. */
  function Assign(r: Registry, topic: string): (Registry, int) {
    if topic in r.toId then (r, r.toId[topic])
    else
      var (id, cursor) := Search(r.next, r.toTopic.Keys, TRIES, TOPIC_ID_MAX);
      if id == 0 then (r.(next := cursor), TOPIC_ID_MIN)
      else (Registry(r.toId[topic := id], r.toTopic[id := topic], cursor), id)
  }

  function Unassign(r: Registry, topic: string): Registry {
    if topic in r.toId then r.(toId := r.toId - {topic}, toTopic := r.toTopic - {r.toId[topic]}) else r
  }

  lemma SameSize(r: Registry)
    requires Inverse(r)
    ensures |r.toId| == |r.toTopic|
    ensures forall i :: i in r.toTopic ==> IsId(i, TOPIC_ID_MAX)
  {
    var f := t => if t in r.toId then r.toId[t] else 0;
    forall i | i in r.toTopic.Keys ensures exists t :: t in r.toId.Keys && f(t) == i {
      assert f(r.toTopic[i]) == i;
    }
    InjectiveImageSize(r.toId.Keys, r.toTopic.Keys, f);
    assert |r.toId.Keys| == |r.toId| && |r.toTopic.Keys| == |r.toTopic|;
  }

  /**
   * Registration keeps the maps inverse and what was registered. The identifier it yields stands for the topic exactly
   * when the topic was registered before or fewer than 65534 topics are; otherwise it stands for another topic.
   */
  lemma AssignExact(r: Registry, topic: string)
    requires Inverse(r)
    ensures var (r', id) := Assign(r, topic);
            && Inverse(r')
            && 1 <= id <= 65534
            && (forall t :: t in r.toId ==> t in r'.toId && r'.toId[t] == r.toId[t])
            && (forall t :: t in r'.toId ==> t in r.toId || t == topic)
            && id in r'.toTopic
            && (r'.toTopic[id] == topic <==> topic in r.toId || |r.toId| < 65534)
            && (topic in r'.toId <==> r'.toTopic[id] == topic)
  {
    if topic !in r.toId {
      var used := r.toTopic.Keys;
      SameSize(r);
      assert |used| == |r.toTopic|;
      SearchFindsFirst(r.next, used, TRIES, TOPIC_ID_MAX);
      SearchFailsIffFull(r.next, used, TRIES, TOPIC_ID_MAX);
      if |used| < TOPIC_ID_MAX {
        NotFull(used, TOPIC_ID_MAX);
      } else {
        FullByCount(used, TOPIC_ID_MAX);
        assert IsId(TOPIC_ID_MIN, TOPIC_ID_MAX);
      }
    }
  }

  lemma UnassignExact(r: Registry, topic: string)
    requires Inverse(r)
    ensures var r' := Unassign(r, topic);
            Inverse(r') && r'.toId == r.toId - {topic}
  {
  }

  // ---------- runs ----------

  datatype Op = Register(topic: string) | Forget(topic: string)

  function Run(ops: seq<Op>): Registry {
    if ops == [] then Registry(map[], map[], TOPIC_ID_MIN)
    else
      var r := Run(ops[..|ops| - 1]);
      match ops[|ops| - 1]
      case Register(topic) => Assign(r, topic).0
      case Forget(topic) => Unassign(r, topic)
  }

  lemma {:induction false} RunInverse(ops: seq<Op>)
    ensures Inverse(Run(ops))
  {
    if ops != [] {
      RunInverse(ops[..|ops| - 1]);
      var r, op := Run(ops[..|ops| - 1]), ops[|ops| - 1];
      if op.Register? {
        AssignExact(r, op.topic);
      } else {
        UnassignExact(r, op.topic);
      }
    }
  }

  /** A topic name of the given length. */
  function Name(n: nat): string {
    seq(n, _ => 't')
  }

  /** For each n up to 65534, a run after which exactly n topics are registered, none with a name longer than n. */
  lemma {:induction false} Registered(n: nat) returns (ops: seq<Op>)
    requires n <= TOPIC_ID_MAX
    ensures |Run(ops).toId| == n && forall t :: t in Run(ops).toId ==> |t| <= n
    decreases n
  {
    ops := [];
    if n > 0 {
      var before := Registered(n - 1);
      ops := before + [Register(Name(n))];
      assert ops[..|before|] == before;
      RunInverse(before);
      AssignExact(Run(before), Name(n));
      RegisterSize(Run(before), Name(n));
    }
  }

  lemma RegisterSize(r: Registry, topic: string)
    requires Inverse(r) && topic !in r.toId && topic in Assign(r, topic).0.toId
    ensures |Assign(r, topic).0.toId| == |r.toId| + 1
  {
    MapUpdateSize(r.toId, topic, Assign(r, topic).0.toId[topic]);
  }

  /** The registry can be full: then a new topic gets identifier 1, which stands for another topic. */
  lemma FallbackReached() returns (ops: seq<Op>, topic: string)
    ensures |Run(ops).toId| == 65534 && topic !in Run(ops).toId
    ensures var (r, id) := Assign(Run(ops), topic);
            id == 1 && id in r.toTopic && r.toTopic[id] != topic && r.toId == Run(ops).toId
  {
    ops := Registered(TOPIC_ID_MAX);
    topic := Name(TOPIC_ID_MAX + 1);
    var r := Run(ops);
    RunInverse(ops);
    AssignExact(r, topic);
    FallsBack(r, topic);
  }

  lemma FallsBack(r: Registry, topic: string)
    requires Inverse(r) && topic !in r.toId && topic !in Assign(r, topic).0.toId
    ensures Assign(r, topic).1 == TOPIC_ID_MIN && Assign(r, topic).0.toId == r.toId
  {
  }

  // ---------- the client record ----------

  class SnClient {
    var topicToId: map<string, int>
    var idToTopic: map<int, string>
    var nextTopicId: int

    ghost function State(): Registry
      reads this
    {
      Registry(topicToId, idToTopic, nextTopicId)
    }

    constructor ()
      ensures State() == Registry(map[], map[], TOPIC_ID_MIN) && Inverse(State())
    {
      topicToId, idToTopic, nextTopicId := map[], map[], TOPIC_ID_MIN;
    }

    method AssignTopicId(topic: string) returns (id: int)
      requires Inverse(State())
      modifies this
      ensures (State(), id) == Assign(old(State()), topic)
      ensures Inverse(State()) && IsId(id, TOPIC_ID_MAX)
      ensures id in idToTopic && (idToTopic[id] == topic <==> topic in old(topicToId) || |old(topicToId)| < TOPIC_ID_MAX)
    {
      AssignExact(State(), topic);
      if topic in topicToId {
        return topicToId[topic];
      }
      for i := 0 to TRIES
        invariant topicToId == old(topicToId) && idToTopic == old(idToTopic)
        invariant Search(old(nextTopicId), idToTopic.Keys, TRIES, TOPIC_ID_MAX)
                  == Search(nextTopicId, idToTopic.Keys, TRIES - i, TOPIC_ID_MAX)
      {
        var v := nextTopicId;
        nextTopicId := if nextTopicId >= TOPIC_ID_MAX then TOPIC_ID_MIN else nextTopicId + 1;
        if v == 0 || v in idToTopic {
          continue;
        }
        topicToId := topicToId[topic := v];
        idToTopic := idToTopic[v := topic];
        return v;
      }
      return TOPIC_ID_MIN;
    }

    /** UNSUBSCRIBE drops the topic from both maps. */
    method DropTopic(topic: string)
      requires Inverse(State())
      modifies this
      ensures State() == Unassign(old(State()), topic) && Inverse(State())
    {
      UnassignExact(State(), topic);
      if topic in topicToId {
        var id := topicToId[topic];
        topicToId := topicToId - {topic};
        idToTopic := idToTopic - {id};
      }
    }
  }
}
