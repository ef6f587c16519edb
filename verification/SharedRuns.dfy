/** Round-robin choice over runs of the whole index: other publishes, groups and operations may come in between. */
module SharedRuns {
  import opened Arithmetic
  import opened Basics
  import Packets
  import opened Topics
  import opened SubscriptionModel
  import opened SubscriptionRuns
  import opened SharedSelection

  /** The publish is one that the group with this key serves. */
  predicate Serving(a: Action, key: GroupKey) {
    a.Publish? && TopicMatches(a.topic, key.1)
  }

  /** The members that the group chooses, one for each publish it serves. */
  ghost function Picks(s: System, actions: seq<Action>, key: GroupKey): seq<string>
    decreases |actions|
  {
    if actions == [] then []
    else
      var rest := Picks(Step(s, actions[0]), actions[1..], key);
      if Serving(actions[0], key) && key in s.ix.shared && s.ix.shared[key].members != map[] then
        [Chosen(s.ix.shared[key])] + rest
      else rest
  }

  /** The group is there with these members, whatever their QoS, before and after each of the actions. */
  ghost predicate MembersStay(s: System, actions: seq<Action>, key: GroupKey, ids: set<string>)
    decreases |actions|
  {
    && key in s.ix.shared && s.ix.shared[key].members.Keys == ids
    && (actions != [] ==> MembersStay(Step(s, actions[0]), actions[1..], key, ids))
  }

  // ---------- the counter of one group ----------

  lemma LeaveKeeps(shared: Groups, key: GroupKey, client: string, other: GroupKey)
    requires other in Leave(shared, key, client)
    ensures other in shared && Leave(shared, key, client)[other].counter == shared[other].counter
  {
  }

  lemma EnterKeeps(shared: Groups, key: GroupKey, client: string, qos: Packets.QoS, other: GroupKey)
    requires other in shared
    ensures other in Enter(shared, key, client, qos) && Enter(shared, key, client, qos)[other].counter == shared[other].counter
  {
  }

  /** Only a publish that the group serves moves its counter. */
  lemma CounterMoves(s: System, a: Action, key: GroupKey)
    requires key in s.ix.shared && key in Step(s, a).ix.shared && s.ix.shared[key].members != map[]
    ensures Step(s, a).ix.shared[key].counter ==
            if Serving(a, key) then (s.ix.shared[key].counter + 1) % U64 else s.ix.shared[key].counter
  {
    match a {
      case BeginSubscribe(c, f, q) =>
        if ParseShared(f).Some? { EnterKeeps(s.ix.shared, ParseShared(f).value, c, q, key); }
      case BeginUnsubscribe(c, f) =>
        if ParseShared(f).Some? && key in Leave(s.ix.shared, ParseShared(f).value, c) {
          LeaveKeeps(s.ix.shared, ParseShared(f).value, c, key);
        }
      case BeginUnsubscribeAll(c) =>
      case Proceed(c) =>
      case Publish(topic) =>
    }
  }

  ghost predicate CountersOk(shared: Groups) {
    forall k :: k in shared ==> shared[k].counter < U64
  }

  lemma StepCounters(s: System, a: Action)
    requires CountersOk(s.ix.shared)
    ensures CountersOk(Step(s, a).ix.shared)
  {
  }

  lemma {:induction false} RunCounters(actions: seq<Action>)
    ensures CountersOk(Run(actions).ix.shared)
  {
    if actions != [] {
      RunCounters(actions[..|actions| - 1]);
      StepCounters(Run(actions[..|actions| - 1]), actions[|actions| - 1]);
    }
  }

  // ---------- the choices of a run ----------

  /** Choices depend on who the members are, not on their QoS. */
  lemma {:induction false} ChoicesByMembers(g: Group, h: Group, k: nat)
    requires g.members != map[] && h.members != map[] && g.members.Keys == h.members.Keys && g.counter == h.counter
    ensures Choices(g, k) == Choices(h, k)
    decreases k
  {
    if k > 0 {
      ChoicesByMembers(Advanced(g), Advanced(h), k - 1);
    }
  }

  /** What a group chooses in a run is what it would choose by itself for that many publishes. */
  lemma {:induction false} PicksAreChoices(s: System, actions: seq<Action>, key: GroupKey, ids: set<string>)
    requires MembersStay(s, actions, key, ids) && ids != {}
    ensures Picks(s, actions, key) == Choices(s.ix.shared[key], |Picks(s, actions, key)|)
    decreases |actions|
  {
    if actions != [] {
      var a := actions[0];
      var g, h := s.ix.shared[key], Step(s, a).ix.shared[key];
      PicksAreChoices(Step(s, a), actions[1..], key, ids);
      CounterMoves(s, a, key);
      PickStep(g, h, Serving(a, key), Picks(Step(s, a), actions[1..], key), Picks(s, actions, key));
    }
  }

  lemma PickStep(g: Group, h: Group, serving: bool, rest: seq<string>, picks: seq<string>)
    requires g.members != map[] && h.members != map[] && g.members.Keys == h.members.Keys
    requires h.counter == if serving then Advanced(g).counter else g.counter
    requires rest == Choices(h, |rest|) && picks == if serving then [Chosen(g)] + rest else rest
    ensures picks == Choices(g, |picks|)
  {
    ChoicesByMembers(h, if serving then Advanced(g) else g, |rest|);
  }

  /**
   * After any run of the index, over any further actions that keep the group's members: each of its n members is chosen
   * between floor(k/n) and ceil(k/n) times for the k publishes it serves, as long as its counter does not wrap.
   */
  lemma RunFair(before: seq<Action>, actions: seq<Action>, key: GroupKey, ids: set<string>, c: string)
    requires MembersStay(Run(before), actions, key, ids) && c in ids
    requires Run(before).ix.shared[key].counter + |Picks(Run(before), actions, key)| <= U64
    ensures var picks := Picks(Run(before), actions, key);
            |picks| / |ids| <= Count(picks, c) <= Ceil(|picks|, |ids|)
  {
    var s := Run(before);
    RunCounters(before);
    PicksAreChoices(s, actions, key, ids);
    var g := s.ix.shared[key];
    assert |g.members| == |g.members.Keys|;
    RoundRobinFair(g, |Picks(s, actions, key)|, c);
  }

  // ---------- a run that reaches the wrap ----------

  lemma RunMore(actions: seq<Action>, a: Action)
    ensures Run(actions + [a]) == Step(Run(actions), a)
  {
    assert (actions + [a])[..|actions|] == actions;
  }

  /** A client name of the given length. */
  function Name(n: nat): string {
    seq(n, _ => 'm')
  }

  /** A group with n members, whose names are no longer than n; no client with a longer name has done anything. */
  ghost predicate HasMembers(s: System, key: GroupKey, n: nat) {
    && |GroupAt(s.ix.shared, key).members| == n
    && (forall c :: c in GroupAt(s.ix.shared, key).members ==> |c| <= n)
    && (forall c :: c in s.phases ==> |c| <= n)
  }

  lemma JoinStep(s: System, key: GroupKey, n: nat)
    requires HasMembers(s, key, n) && ValidGroup(key.0) && ValidFilter(key.1)
    ensures HasMembers(Step(s, BeginSubscribe(Name(n + 1), SharedName(key.0, key.1), Packets.AtMostOnce)), key, n + 1)
  {
    var f, c := SharedName(key.0, key.1), Name(n + 1);
    ParseSharedInverse(f, key.0, key.1);
    assert c !in s.phases && c !in GroupAt(s.ix.shared, key).members;
    MapUpdateSize(GroupAt(s.ix.shared, key).members, c, Packets.AtMostOnce);
  }

  lemma {:induction false} Populated(key: GroupKey, n: nat) returns (actions: seq<Action>)
    requires ValidGroup(key.0) && ValidFilter(key.1)
    ensures HasMembers(Run(actions), key, n)
  {
    actions := [];
    if n > 0 {
      var before := Populated(key, n - 1);
      var join := BeginSubscribe(Name(n), SharedName(key.0, key.1), Packets.AtMostOnce);
      actions := before + [join];
      RunMore(before, join);
      JoinStep(Run(before), key, n - 1);
    }
  }

  /** The group is there with these members and this counter. */
  ghost predicate Standing(s: System, key: GroupKey, members: Subscribers, counter: nat) {
    key in s.ix.shared && s.ix.shared[key] == Group(members, counter)
  }

  /** The counter after one publish. */
  function Next(counter: nat): nat {
    (counter + 1) % U64
  }

  lemma PublishStep(s: System, key: GroupKey, members: Subscribers, counter: nat, topic: string)
    requires Standing(s, key, members, counter) && members != map[] && TopicMatches(topic, key.1)
    ensures Standing(Step(s, Action.Publish(topic)), key, members, Next(counter))
  {
  }

  function Distance(counter: nat, target: nat): nat
    requires counter < U64 && target < U64
  {
    if counter <= target then target - counter else target + U64 - counter
  }

  lemma Closer(counter: nat, target: nat)
    requires counter < U64 && target < U64 && counter != target
    ensures Next(counter) < U64 && Distance(Next(counter), target) < Distance(counter, target)
  {
  }

  /** Enough publishes bring a group's counter to any value. */
  lemma {:induction false} PublishUntil(
    before: seq<Action>, key: GroupKey, members: Subscribers, topic: string, counter: nat, target: nat)
    returns (actions: seq<Action>)
    requires Standing(Run(before), key, members, counter) && counter < U64
    requires members != map[] && TopicMatches(topic, key.1) && target < U64
    ensures Standing(Run(actions), key, members, target)
    decreases Distance(counter, target)
  {
    actions := before;
    if counter != target {
      var next := PublishOnce(before, key, members, topic, counter);
      Closer(counter, target);
      actions := PublishUntil(next, key, members, topic, Next(counter), target);
    }
  }

  lemma PublishOnce(before: seq<Action>, key: GroupKey, members: Subscribers, topic: string, counter: nat)
    returns (actions: seq<Action>)
    requires Standing(Run(before), key, members, counter) && members != map[] && TopicMatches(topic, key.1)
    ensures Standing(Run(actions), key, members, Next(counter))
  {
    var s := Run(before);
    actions := before + [Action.Publish(topic)];
    assert Run(actions) == Step(s, Action.Publish(topic)) by {
      RunMore(before, Action.Publish(topic));
    }
    PublishStep(s, key, members, counter, topic);
  }

  function Publishes(topic: string, k: nat): seq<Action> {
    if k == 0 then [] else [Action.Publish(topic)] + Publishes(topic, k - 1)
  }

  /** The group keeps its members over the actions and serves k of them. */
  ghost predicate ServesCount(s: System, actions: seq<Action>, key: GroupKey, ids: set<string>, k: nat) {
    MembersStay(s, actions, key, ids) && |Picks(s, actions, key)| == k
  }

  lemma ServesNone(s: System, key: GroupKey, members: Subscribers, counter: nat)
    requires Standing(s, key, members, counter)
    ensures ServesCount(s, [], key, members.Keys, 0)
  {
  }

  lemma ServesOneMore(
    s: System, d: System, rest: seq<Action>, key: GroupKey, members: Subscribers, counter: nat, topic: string, k: nat)
    requires Standing(s, key, members, counter) && members != map[] && TopicMatches(topic, key.1)
    requires d == Step(s, Action.Publish(topic)) && ServesCount(d, rest, key, members.Keys, k)
    ensures ServesCount(s, [Action.Publish(topic)] + rest, key, members.Keys, k + 1)
  {
    var all := [Action.Publish(topic)] + rest;
    assert all[0] == Action.Publish(topic) && all[1..] == rest;
  }

  /** It serves each of k publishes. */
  lemma {:induction false} ServesAll(s: System, key: GroupKey, members: Subscribers, counter: nat, topic: string, k: nat)
    requires Standing(s, key, members, counter) && members != map[] && TopicMatches(topic, key.1)
    ensures ServesCount(s, Publishes(topic, k), key, members.Keys, k)
    decreases k
  {
    if k == 0 {
      ServesNone(s, key, members, counter);
    } else {
      var d := Step(s, Action.Publish(topic));
      PublishStep(s, key, members, counter, topic);
      ServesAll(d, key, members, Next(counter), topic, k - 1);
      ServesOneMore(s, d, Publishes(topic, k - 1), key, members, counter, topic, k - 1);
    }
  }

  /**
   * For every group, matching topic and size n that does not divide 2^64: a run of the index after which some member is
   * chosen twice within one round of at most n publishes.
   */
  lemma UnfairRun(key: GroupKey, topic: string, n: nat) returns (before: seq<Action>, k: nat, c: string)
    requires ValidGroup(key.0) && ValidFilter(key.1) && TopicMatches(topic, key.1) && n > 0 && U64 % n != 0
    ensures k <= n && |GroupAt(Run(before).ix.shared, key).members| == n
    ensures var picks := Picks(Run(before), Publishes(topic, k), key);
            |picks| == k && Count(picks, c) >= 2 && !(k / n <= Count(picks, c) <= Ceil(k, n))
  {
    var start := Populated(key, n);
    RunCounters(start);
    var members := GroupAt(Run(start).ix.shared, key).members;
    var counter;
    counter, k, c := UnfairAtWrap(members);
    before := PublishUntil(start, key, members, topic, Run(start).ix.shared[key].counter, counter);
    var s := Run(before);
    ServesAll(s, key, members, counter, topic, k);
    PicksAreChoices(s, Publishes(topic, k), key, members.Keys);
    assert s.ix.shared[key] == Group(members, counter);
  }
}
