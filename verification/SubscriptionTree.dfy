/** The broker's subscription index: topic tree, shared groups and reverse index, each behind its own lock. */
module SubscriptionTree {
  import opened Basics
  import opened Packets
  import opened Topics
  import opened SubscriptionModel
  import opened SubscriptionRuns
  import opened SubscriptionHistory
  import opened SharedSelection
  import opened TopicTree

  // ---------- reverse lists ----------

  /** Overwrite the first slot of a filter, or append one. */
  method PutInList(list: FilterList, filter: string, qos: QoS) returns (list': FilterList)
    ensures list' == PutFilter(list, filter, qos)
  {
    var i := 0;
    while i < |list| && list[i].0 != filter
      invariant 0 <= i <= |list|
      invariant forall k :: 0 <= k < i ==> list[k].0 != filter
    {
      i := i + 1;
    }
    PutSkips(list, filter, qos, i);
    if i < |list| {
      assert list[i..][1..] == list[i + 1..];
      list' := list[i := (filter, qos)];
    } else {
      list' := list + [(filter, qos)];
    }
  }

  lemma {:induction false} PutSkips(list: FilterList, filter: string, qos: QoS, i: nat)
    requires i <= |list| && forall k :: 0 <= k < i ==> list[k].0 != filter
    ensures PutFilter(list, filter, qos) == list[..i] + PutFilter(list[i..], filter, qos)
  {
    if i > 0 {
      PutSkips(list[1..], filter, qos, i - 1);
      assert list[1..][..i - 1] == list[1..i] && list[1..][i - 1..] == list[i..];
      assert list[..i] == [list[0]] + list[1..i];
    } else {
      assert list[0..] == list;
    }
  }

  /** Keep the entries of the other filters. */
  method RetainOthers(list: FilterList, filter: string) returns (list': FilterList)
    ensures list' == DropFilter(list, filter)
  {
    list' := [];
    assert list[0..] == list;
    for i := 0 to |list|
      invariant list' + DropFilter(list[i..], filter) == DropFilter(list, filter)
    {
      assert list[i..][1..] == list[i + 1..];
      if list[i].0 != filter {
        assert list' + ([list[i]] + DropFilter(list[i + 1..], filter)) == (list' + [list[i]]) + DropFilter(list[i + 1..], filter);
        list' := list' + [list[i]];
      }
    }
  }

  // ---------- highest QoS per client ----------

  ghost predicate IsBestOf(hits: seq<(string, QoS)>, c: string, q: QoS) {
    (c, q) in hits && forall r :: (c, r) in hits ==> r.Level() <= q.Level()
  }

  /** One entry per client, with the highest QoS met. */
  method KeepBest(hits: seq<(string, QoS)>) returns (best: map<string, QoS>)
    ensures forall c, q :: c in best && best[c] == q <==> IsBestOf(hits, c, q)
  {
    best := map[];
    for i := 0 to |hits|
      invariant forall c :: c in best ==> IsBestOf(hits[..i], c, best[c])
      invariant forall c, q :: (c, q) in hits[..i] ==> c in best
    {
      var (id, qos) := hits[i];
      assert hits[..i + 1] == hits[..i] + [(id, qos)];
      if id !in best || qos.Level() > best[id].Level() {
        best := best[id := qos];
      }
    }
    assert hits[..|hits|] == hits;
  }

  method Entries(m: map<string, QoS>) returns (out: seq<(string, QoS)>)
    ensures forall c, q :: (c, q) in out <==> c in m && m[c] == q
    ensures forall i, j :: 0 <= i < j < |out| ==> out[i].0 != out[j].0
  {
    out := [];
    var todo := m.Keys;
    while todo != {}
      invariant todo <= m.Keys
      invariant forall c, q :: (c, q) in out <==> c in m && c !in todo && m[c] == q
      invariant forall i, j :: 0 <= i < j < |out| ==> out[i].0 != out[j].0
    {
      var c :| c in todo;
      forall i | 0 <= i < |out| ensures out[i].0 != c { assert (out[i].0, out[i].1) in out; }
      out := out + [(c, m[c])];
      todo := todo - {c};
    }
  }

  // ---------- the index ----------

  class SubscriptionIndex {
    const tree: Tree
    var shared: Groups
    var reverse: Reverse
    /** The relation the three structures hold. */
    ghost var held: Relation

    ghost function State(): Index
      reads this, tree
    {
      Index(tree.Paths(), shared, reverse)
    }

    ghost predicate Valid()
      reads this, tree
    {
      tree.Valid() && Refines(State(), held)
    }

    constructor ()
      ensures Valid() && State() == EMPTY_INDEX && held == map[] && fresh(tree)
    {
      tree := new Tree();
      shared, reverse, held := map[], map[], map[];
      new;
      HistoryRefines([]);
    }

    method EnterGroup(key: GroupKey, client: string, qos: QoS)
      modifies this`shared
      ensures shared == Enter(old(shared), key, client, qos)
    {
      var entry := if key in shared then shared[key] else Group(map[], 0);
      shared := shared[key := entry.(members := entry.members[client := qos])];
    }

    /** The reverse index after a subscription. */
    method RecordInReverse(client: string, filter: string, qos: QoS)
      modifies this`reverse
      ensures reverse == Record(old(reverse), client, filter, qos)
    {
      var list := if client in reverse then reverse[client] else [];
      list := PutInList(list, filter, qos);
      reverse := reverse[client := list];
    }

    method Subscribe(client: string, filter: string, qos: QoS) returns (r: Result<(), FilterError>)
      requires Valid()
      modifies this, tree
      ensures Valid() && r.Ok? == Accepted(filter)
      ensures State() == SubscriptionModel.Subscribe(old(State()), client, filter, qos)
      ensures held == ApplyFlat(old(held), Sub(client, filter, qos))
    {
      ghost var before := State();
      ApplyRefines(before, held, Sub(client, filter, qos));
      match ParseShared(filter) {
        case Some(key) =>
          r := ValidateFilter(key.1);
          if r.Err? {
            return;
          }
          EnterGroup(key, client, qos);
        case None =>
          r := ValidateFilter(filter);
          if r.Err? {
            return;
          }
          tree.Subscribe(Split(filter), client, qos);
      }
      RecordInReverse(client, filter, qos);
      held := held[(client, filter) := qos];
      assert State() == SubscriptionModel.Subscribe(before, client, filter, qos);
    }

    /** The reverse index after a removal. */
    method EraseFromReverse(client: string, filter: string)
      modifies this`reverse
      ensures reverse == Erase(old(reverse), client, filter)
    {
      if client in reverse {
        var list := RetainOthers(reverse[client], filter);
        if list == [] {
          reverse := reverse - {client};
        } else {
          reverse := reverse[client := list];
        }
      } else {
        assert reverse - {client} == reverse;
      }
    }

    method Unsubscribe(client: string, filter: string) returns (removed: bool)
      requires Valid()
      modifies this, tree
      ensures Valid() && removed == ((client, filter) in old(held))
      ensures State() == SubscriptionModel.Unsubscribe(old(State()), client, filter)
      ensures held == ApplyFlat(old(held), Unsub(client, filter))
    {
      ghost var before := State();
      ApplyRefines(before, held, Unsub(client, filter));
      assert Held(before, client, filter) == Get(held, client, filter);
      match ParseShared(filter) {
        case Some(key) =>
          removed := false;
          if key in shared {
            removed := client in shared[key].members;
            if removed {
              var members := shared[key].members - {client};
              shared := if members == map[] then shared - {key} else shared[key := shared[key].(members := members)];
            }
          }
        case None =>
          tree.WellRooted();
          removed := tree.RemoveRecursive([], Split(filter), 0, client);
      }
      if removed {
        EraseFromReverse(client, filter);
      }
      held := held - {(client, filter)};
      assert State() == SubscriptionModel.Unsubscribe(before, client, filter);
    }

    /** Leave the collected groups one by one. */
    method LeaveGroups(keys: set<GroupKey>, client: string)
      modifies this`shared
      ensures shared == LeaveEach(old(shared), keys, client)
    {
      var todo := keys;
      assert shared == LeaveEach(old(shared), keys - todo, client);
      while todo != {}
        invariant todo <= keys
        invariant shared == LeaveEach(old(shared), keys - todo, client)
      {
        var key :| key in todo;
        ghost var before := keys - todo;
        if key in shared {
          var members := shared[key].members - {client};
          shared := if members == map[] then shared - {key} else shared[key := shared[key].(members := members)];
        }
        todo := todo - {key};
        assert keys - todo == before + {key};
      }
      assert keys - todo == keys;
    }

    method UnsubscribeAll(client: string)
      requires Valid()
      modifies this, tree
      ensures Valid()
      ensures State() == SubscriptionModel.UnsubscribeAll(old(State()), client)
      ensures held == ApplyFlat(old(held), UnsubAll(client))
    {
      ApplyRefines(State(), held, UnsubAll(client));
      tree.WellRooted();
      tree.RemoveAll([], client);
      ClearedEverywhere(old(tree.Paths()), client);
      var keys := set k | k in shared && client in shared[k].members;
      LeaveGroups(keys, client);
      reverse := reverse - {client};
      held := map k | k in held && k.0 != client :: held[k];
    }

    /** The matching clients, each once, with the highest QoS of its matching filters. */
    method Matches(topic: string) returns (out: seq<(string, QoS)>)
      requires Valid()
      ensures forall c, q :: (c, q) in out <==> BestMatch(held, topic, c, q)
      ensures forall i, j :: 0 <= i < j < |out| ==> out[i].0 != out[j].0
    {
      if topic == "" {
        return [];
      }
      tree.WellRooted();
      var hits := tree.CollectMatches([], Split(topic), 0, []);
      forall c, q ensures (c, q) in hits <==> Matching(held, topic, c, q) {
        ReachedFromRoot(tree.Paths(), Split(topic), c, q);
        WalkFindsMatches(State(), held, topic, c, q);
      }
      forall c, q ensures IsBestOf(hits, c, q) <==> BestMatch(held, topic, c, q) {}
      var best := KeepBest(hits);
      out := Entries(best);
    }

    /** Let one group serve a publish, if its filter matches: choose a member and advance the counter. */
    method ServeGroup(k: GroupKey, topic: string) returns (choice: Option<(string, QoS)>)
      requires k in shared
      modifies this`shared
      ensures shared == old(shared)[k := RotateOne(old(shared)[k], k, topic)]
      ensures choice == if Serves(old(shared)[k], k, topic) then Some(ChoiceOf(old(shared)[k])) else None
    {
      choice := None;
      var matches := TopicMatchesFilter(topic, k.1);
      var entry := shared[k];
      if matches && entry.members != map[] {
        var members := SortMembers(entry.members.Keys);
        var id := members[entry.counter % |members|];
        assert id == Chosen(entry);
        choice := Some((id, entry.members[id]));
        shared := shared[k := entry.(counter := (entry.counter + 1) % U64)];
      }
    }

    /** Let every group serve a publish; `order` names the group of each choice. */
    method ServeGroups(topic: string) returns (selected: seq<(string, QoS)>, ghost order: seq<GroupKey>)
      modifies this`shared
      ensures shared == Rotate(old(shared), topic)
      ensures Served(old(shared), order, selected, {}, topic)
    {
      ghost var start := shared;
      selected, order := [], [];
      var todo := shared.Keys;
      while todo != {}
        invariant todo <= start.Keys && Rotated(start, shared, todo, topic) && Served(start, order, selected, todo, topic)
        decreases |todo|
      {
        var k :| k in todo;
        selected, order := ServeNext(k, topic, selected, start, order, todo);
        todo := todo - {k};
      }
      RotatedAll(start, shared, topic);
    }

    method ServeNext(k: GroupKey, topic: string, selected: seq<(string, QoS)>,
                     ghost start: Groups, ghost order: seq<GroupKey>, ghost todo: set<GroupKey>)
      returns (selected': seq<(string, QoS)>, ghost order': seq<GroupKey>)
      requires k in todo && k in start && Rotated(start, shared, todo, topic) && Served(start, order, selected, todo, topic)
      modifies this`shared
      ensures Rotated(start, shared, todo - {k}, topic) && Served(start, order', selected', todo - {k}, topic)
    {
      ghost var before := shared;
      var choice := ServeGroup(k, topic);
      RotatedMore(start, before, shared, todo, k, topic);
      OrderedMore(start, order, todo, k, topic);
      selected', order' := selected, order;
      if choice.Some? {
        selected', order' := selected + [choice.value], order + [k];
      }
    }

    /** One member per matching group. */
    method MatchesShared(topic: string) returns (selected: seq<(string, QoS)>, ghost order: seq<GroupKey>)
      requires Valid()
      modifies this`shared
      ensures Valid() && shared == Rotate(old(shared), topic)
      ensures SelectsByTurn(old(shared), order, selected)
      ensures forall i, j :: 0 <= i < j < |order| ==> order[i] != order[j]
      ensures forall k :: k in order <==> k in old(shared) && TopicMatches(topic, k.1)
    {
      RotateRefines(State(), held, topic);
      assert GroupsSound(shared);
      selected, order := ServeGroups(topic);
    }

    method CountMembers() returns (n: nat)
      ensures n == |GroupPairs(shared)|
    {
      n := 0;
      var todo := shared.Keys;
      assert Except(shared, todo) == map[];
      while todo != {}
        invariant todo <= shared.Keys
        invariant n == |GroupPairs(Except(shared, todo))|
      {
        var k :| k in todo;
        GroupPairsMore(Except(shared, todo), k, shared[k]);
        assert Except(shared, todo - {k}) == Except(shared, todo)[k := shared[k]];
        n := n + |shared[k].members|;
        todo := todo - {k};
      }
      assert Except(shared, todo) == shared;
    }

    method SubscriberCount() returns (n: nat)
      requires Valid()
      ensures n == |ListSlots(reverse)| == |held|
    {
      tree.WellRooted();
      n := tree.CountSubscribers([]);
      AllPairs(tree.Paths());
      var m := CountMembers();
      n := n + m;
      CountsAgree(State());
      HeldCount(State(), held);
    }

    method SubscriptionsOf(client: string) returns (list: FilterList)
      requires Valid()
      ensures NoRepeats(list)
      ensures forall f :: FindFilter(list, f) == Get(held, client, f)
    {
      list := if client in reverse then reverse[client] else [];
      assert forall f :: Listed(State(), client, f) == Held(State(), client, f);
    }
  }

  // ---------- shared groups ----------

  ghost predicate Serves(g: Group, k: GroupKey, topic: string) {
    TopicMatches(topic, k.1) && g.members != map[]
  }

  ghost function ChoiceOf(g: Group): (string, QoS)
    requires g.members != map[]
  {
    (Chosen(g), g.members[Chosen(g)])
  }

  /** Each selected pair is the round-robin choice of the group of the same position. */
  /** The groups that are not in `todo` have been rotated, the others not. */
  ghost predicate Rotated(start: Groups, shared: Groups, todo: set<GroupKey>, topic: string) {
    && shared.Keys == start.Keys
    && (forall k :: k in start ==> shared[k] == if k in todo then start[k] else RotateOne(start[k], k, topic))
  }

  /** The groups that serve the topic and are not in `todo`, each once. */
  ghost predicate Ordered(start: Groups, order: seq<GroupKey>, todo: set<GroupKey>, topic: string) {
    && Distinct(order)
    && (forall k :: k in order <==> k in start && Serves(start[k], k, topic) && k !in todo)
  }

  /** What the groups that are not in `todo` have chosen. */
  ghost predicate Served(start: Groups, order: seq<GroupKey>, selected: seq<(string, QoS)>, todo: set<GroupKey>, topic: string) {
    Ordered(start, order, todo, topic) && SelectsByTurn(start, order, selected)
  }

  lemma RotatedAll(start: Groups, shared: Groups, topic: string)
    requires Rotated(start, shared, {}, topic)
    ensures shared == Rotate(start, topic)
  {
  }

  lemma RotatedMore(start: Groups, before: Groups, after: Groups, todo: set<GroupKey>, k: GroupKey, topic: string)
    requires Rotated(start, before, todo, topic) && k in todo && k in start
    requires after == before[k := RotateOne(before[k], k, topic)]
    ensures Rotated(start, after, todo - {k}, topic)
  {
  }

  lemma OrderedMore(start: Groups, order: seq<GroupKey>, todo: set<GroupKey>, k: GroupKey, topic: string)
    requires Ordered(start, order, todo, topic) && k in todo && k in start
    ensures Ordered(start, if Serves(start[k], k, topic) then order + [k] else order, todo - {k}, topic)
  {
    var more := order + [k];
    forall i, j | 0 <= i < j < |more| ensures more[i] != more[j] {
      assert order[i] in order;
    }
    assert forall l :: l in more <==> l in order || l == k;
  }

  ghost predicate SelectsByTurn(shared: Groups, order: seq<GroupKey>, selected: seq<(string, QoS)>) {
    |order| == |selected|
    && forall i :: 0 <= i < |order| ==>
         order[i] in shared && shared[order[i]].members != map[] && selected[i] == ChoiceOf(shared[order[i]])
  }

  ghost function Except(shared: Groups, todo: set<GroupKey>): Groups {
    map k | k in shared && k !in todo :: shared[k]
  }

  // ---------- connecting lemmas ----------

  lemma ClearedEverywhere(t: Trie, client: string)
    ensures Cleared(t, Below(t, []), client) == RemoveEverywhere(t, client)
  {
  }

  lemma ReachedFromRoot(t: Trie, ts: Levels, c: string, q: QoS)
    ensures ReachedBelow(t, [], ts[0..], c, q) <==> Reached(t, ts, c, q)
  {
    assert ts[0..] == ts;
    assert forall p: Levels :: p[0..] == p;
  }

  lemma RotateRefines(ix: Index, rel: Relation, topic: string)
    requires Refines(ix, rel)
    ensures Refines(ix.(shared := Rotate(ix.shared, topic)), rel)
  {
    RotateSound(ix.shared, topic);
    var ix' := ix.(shared := Rotate(ix.shared, topic));
    forall c, f ensures Held(ix', c, f) == Held(ix, c, f) && Listed(ix', c, f) == Listed(ix, c, f) {
      RotateHeld(ix, topic, c, f);
    }
  }

  lemma AllPairs(t: Trie)
    ensures PairsIn(t, Below(t, [])) == TriePairs(t)
  {
  }

  lemma GroupPairsMore(shared: Groups, k: GroupKey, g: Group)
    requires k !in shared
    ensures |GroupPairs(shared[k := g])| == |GroupPairs(shared)| + |g.members|
  {
    var added := set c | c in g.members :: (k, c);
    InjectiveImageSize(g.members.Keys, added, c => (k, c));
    var all := GroupPairs(shared[k := g]);
    forall x ensures x in all <==> x in GroupPairs(shared) || x in added
             ensures !(x in GroupPairs(shared) && x in added) {
      assert x == (x.0, x.1);
    }
    DisjointSizes(all, GroupPairs(shared), added);
  }

  lemma HeldCount(ix: Index, rel: Relation)
    requires Refines(ix, rel)
    ensures |ListSlots(ix.reverse)| == |rel|
  {
    var names := set x | x in ListSlots(ix.reverse) :: NameAt(ix.reverse, x);
    ListNames(ix.reverse, names);
    forall x: (string, string) ensures x in names <==> x in rel {
      assert x == (x.0, x.1);
      assert Held(ix, x.0, x.1) == Listed(ix, x.0, x.1) == Get(rel, x.0, x.1);
    }
    assert names == rel.Keys;
  }
}
