/** Whole operations, one after the other: the index refines a flat relation (client, filter) to QoS. */
module SubscriptionHistory {
  import opened Basics
  import opened Packets
  import opened Topics
  import opened SubscriptionModel
  import opened SubscriptionPruning
  import opened SubscriptionRuns

  datatype Op =
    | Sub(client: string, filter: string, qos: QoS)
    | Unsub(client: string, filter: string)
    | UnsubAll(client: string)

  function Apply(ix: Index, op: Op): Index {
    match op
    case Sub(c, f, q) => SubscriptionModel.Subscribe(ix, c, f, q)
    case Unsub(c, f) => SubscriptionModel.Unsubscribe(ix, c, f)
    case UnsubAll(c) => UnsubscribeAll(ix, c)
  }

  /** The same operations on the reference relation. */
  function ApplyFlat(rel: Relation, op: Op): Relation {
    match op
    case Sub(c, f, q) => if Accepted(f) then rel[(c, f) := q] else rel
    case Unsub(c, f) => rel - {(c, f)}
    case UnsubAll(c) => map k | k in rel && k.0 != c :: rel[k]
  }

  function History(ops: seq<Op>): Index {
    if ops == [] then EMPTY_INDEX else Apply(History(ops[..|ops| - 1]), ops[|ops| - 1])
  }

  function FlatHistory(ops: seq<Op>): Relation {
    if ops == [] then map[] else ApplyFlat(FlatHistory(ops[..|ops| - 1]), ops[|ops| - 1])
  }

  ghost predicate Refines(ix: Index, rel: Relation) {
    Agree(ix) && forall c, f :: Held(ix, c, f) == Get(rel, c, f)
  }

  // ---------- one whole operation is a run of lock blocks without interference ----------

  ghost predicate Settled(s: System) {
    Inv(s) && Quiescent(s)
  }

  lemma SettledRefines(s: System)
    requires Settled(s)
    ensures Refines(s.ix, s.flat)
  {
    forall c, f ensures Held(s.ix, c, f) == Listed(s.ix, c, f) == Get(s.flat, c, f) {
      assert s.PhaseOf(c) == Idle && HeldAgrees(s, c) && ListAgrees(s, c);
    }
  }

  lemma RefinesSettled(ix: Index, rel: Relation)
    requires Refines(ix, rel)
    ensures Settled(System(ix, map[], rel))
  {
    var s := System(ix, map[], rel);
    forall c ensures HeldAgrees(s, c) && ListAgrees(s, c) {
      assert s.PhaseOf(c) == Idle;
      assert forall f :: Held(ix, c, f) == Listed(ix, c, f);
    }
  }

  function Steps(s: System, actions: seq<Action>): System
    decreases |actions|
  {
    if actions == [] then s else Steps(Step(s, actions[0]), actions[1..])
  }

  lemma {:induction false} StepsKeepInv(s: System, actions: seq<Action>)
    requires Inv(s)
    ensures Inv(Steps(s, actions))
    decreases |actions|
  {
    if actions != [] {
      StepKeepsInv(s, actions[0]);
      StepsKeepInv(Step(s, actions[0]), actions[1..]);
    }
  }

  /** The lock blocks of a whole operation. */
  function Blocks(op: Op): seq<Action> {
    match op
    case Sub(c, f, q) => [BeginSubscribe(c, f, q), Proceed(c)]
    case Unsub(c, f) => [BeginUnsubscribe(c, f), Proceed(c)]
    case UnsubAll(c) => [BeginUnsubscribeAll(c), Proceed(c), Proceed(c), Proceed(c)]
  }

  lemma TwoSteps(s: System, a: Action, b: Action)
    ensures Steps(s, [a, b]) == Step(Step(s, a), b)
  {
    assert [a, b][1..] == [b] && [b][1..] == [];
    assert Steps(Step(s, a), [b]) == Steps(Step(Step(s, a), b), []);
  }

  lemma SubscribeBlocks(ix: Index, rel: Relation, c: string, f: string, q: QoS)
    ensures var s := Steps(System(ix, map[], rel), Blocks(Sub(c, f, q)));
            s.ix == SubscriptionModel.Subscribe(ix, c, f, q) && s.flat == ApplyFlat(rel, Sub(c, f, q)) && Quiescent(s)
  {
    TwoSteps(System(ix, map[], rel), BeginSubscribe(c, f, q), Proceed(c));
  }

  lemma UnsubscribeBlocks(ix: Index, rel: Relation, c: string, f: string)
    requires Held(ix, c, f) == Get(rel, c, f)
    ensures var s := Steps(System(ix, map[], rel), Blocks(Unsub(c, f)));
            s.ix == SubscriptionModel.Unsubscribe(ix, c, f) && s.flat == ApplyFlat(rel, Unsub(c, f)) && Quiescent(s)
  {
    TwoSteps(System(ix, map[], rel), BeginUnsubscribe(c, f), Proceed(c));
    assert Held(ix, c, f) == None ==> rel - {(c, f)} == rel;
  }

  lemma UnsubscribeAllBlocks(ix: Index, rel: Relation, c: string)
    ensures var s := Steps(System(ix, map[], rel), Blocks(UnsubAll(c)));
            s.ix == UnsubscribeAll(ix, c) && s.flat == ApplyFlat(rel, UnsubAll(c)) && Quiescent(s)
  {
    var s := System(ix, map[], rel);
    var blocks := Blocks(UnsubAll(c));
    var s1 := Step(s, blocks[0]);
    var s2 := Step(s1, Proceed(c));
    assert blocks[1..] == [Proceed(c), Proceed(c), Proceed(c)];
    assert blocks[1..][1..] == [Proceed(c), Proceed(c)];
    TwoSteps(s2, Proceed(c), Proceed(c));
    assert s2.PhaseOf(c) == KeysCollected(GroupsOf(ix.shared, c));
  }

  /** One whole operation keeps the refinement. */
  lemma ApplyRefines(ix: Index, rel: Relation, op: Op)
    requires Refines(ix, rel)
    ensures Refines(Apply(ix, op), ApplyFlat(rel, op))
  {
    RefinesSettled(ix, rel);
    StepsKeepInv(System(ix, map[], rel), Blocks(op));
    match op {
      case Sub(c, f, q) => SubscribeBlocks(ix, rel, c, f, q);
      case Unsub(c, f) => UnsubscribeBlocks(ix, rel, c, f);
      case UnsubAll(c) => UnsubscribeAllBlocks(ix, rel, c);
    }
    SettledRefines(Steps(System(ix, map[], rel), Blocks(op)));
  }

  /** After any history the index holds exactly the flat relation, in all three structures. */
  lemma {:induction false} HistoryRefines(ops: seq<Op>)
    ensures Refines(History(ops), FlatHistory(ops))
  {
    if ops != [] {
      HistoryRefines(ops[..|ops| - 1]);
      ApplyRefines(History(ops[..|ops| - 1]), FlatHistory(ops[..|ops| - 1]), ops[|ops| - 1]);
    }
  }

  // ---------- matching ----------

  /** The walk of the tree for a topic reaches a node where client `c` subscribes at QoS `q`. */
  ghost predicate Reached(t: Trie, ts: Levels, c: string, q: QoS) {
    exists p :: p in t && WalkMatches(ts, p) && c in t[p] && t[p][c] == q
  }

  /** Client `c` holds, at QoS `q`, a filter of its own that matches the topic. */
  ghost predicate Matching(rel: Relation, topic: string, c: string, q: QoS) {
    exists f :: (c, f) in rel && rel[(c, f)] == q && ParseShared(f) == None && TopicMatches(topic, f)
  }

  /** `q` is the highest QoS among the client's own filters that match. */
  ghost predicate BestMatch(rel: Relation, topic: string, c: string, q: QoS) {
    Matching(rel, topic, c, q) && forall r :: Matching(rel, topic, c, r) ==> r.Level() <= q.Level()
  }

  /** Walking the tree finds the matching subscriptions of the flat relation: none missed, none invented. */
  lemma WalkFindsMatches(ix: Index, rel: Relation, topic: string, c: string, q: QoS)
    requires Refines(ix, rel) && topic != ""
    ensures Reached(ix.trie, Split(topic), c, q) <==> Matching(rel, topic, c, q)
  {
    var ts := Split(topic);
    if Reached(ix.trie, ts, c, q) {
      var p :| p in ix.trie && WalkMatches(ts, p) && c in ix.trie[p] && ix.trie[p][c] == q;
      assert NormalPath(p);
      SplitJoin(p);
      WalkAgrees(ts, p);
      var f := Join(p);
      assert Held(ix, c, f) == Some(q) == Get(rel, c, f);
    }
    if Matching(rel, topic, c, q) {
      var f :| (c, f) in rel && rel[(c, f)] == q && ParseShared(f) == None && TopicMatches(topic, f);
      assert Held(ix, c, f) == Get(rel, c, f) == Some(q);
      assert NormalPath(Split(f));
      JoinSplit(f);
      WalkAgrees(ts, Split(f));
    }
  }

  // ---------- pruning over whole histories ----------

  /** Without `unsubscribe_all`, the tree never keeps a branch without subscribers. */
  lemma {:induction false} HistoryKeepsLive(ops: seq<Op>)
    requires forall i :: 0 <= i < |ops| ==> !ops[i].UnsubAll?
    ensures NoDeadBranch(History(ops).trie)
  {
    if ops != [] {
      var before := ops[..|ops| - 1];
      HistoryKeepsLive(before);
      var t := History(before).trie;
      match ops[|ops| - 1]
      case Sub(c, f, q) => InsertKeepsLive(t, Split(f), c, q);
      case Unsub(c, f) => RemoveKeepsLive(t, Split(f), c);
    }
  }

  /** So two such histories with the same relation end in the identical tree. */
  lemma TreeDeterminedByRelation(ops: seq<Op>, ops': seq<Op>)
    requires forall i :: 0 <= i < |ops| ==> !ops[i].UnsubAll?
    requires forall i :: 0 <= i < |ops'| ==> !ops'[i].UnsubAll?
    requires FlatHistory(ops) == FlatHistory(ops')
    ensures History(ops).trie == History(ops').trie
  {
    HistoryKeepsLive(ops);
    HistoryKeepsLive(ops');
    HistoryRefines(ops);
    HistoryRefines(ops');
    var ix, ix' := History(ops), History(ops');
    forall p ensures At(ix.trie, p) == At(ix'.trie, p) {
      SameSubscribers(ix, ix', FlatHistory(ops), p);
      SameSubscribers(ix', ix, FlatHistory(ops), p);
    }
    DeterminedBySubscribers(ix.trie, ix'.trie);
  }

  lemma SameSubscribers(ix: Index, ix': Index, rel: Relation, p: Levels)
    requires Refines(ix, rel) && Refines(ix', rel)
    ensures forall c :: c in At(ix.trie, p) ==> c in At(ix'.trie, p) && At(ix.trie, p)[c] == At(ix'.trie, p)[c]
  {
    forall c | c in At(ix.trie, p)
      ensures c in At(ix'.trie, p) && At(ix.trie, p)[c] == At(ix'.trie, p)[c]
    {
      assert NormalPath(p);
      SplitJoin(p);
      var f := Join(p);
      assert Held(ix, c, f) == Get(rel, c, f) == Held(ix', c, f);
    }
  }

  lemma OneSubscriberForgotten(path: Levels, c: string, q: QoS)
    ensures forall p :: At(RemoveEverywhere(Insert(EMPTY_TRIE, path, c, q), c), p) == map[]
  {
    var u := Insert(EMPTY_TRIE, path, c, q);
    forall p ensures At(RemoveEverywhere(u, c), p) == map[] {
      InsertAt(EMPTY_TRIE, path, c, q, p);
      assert forall d :: d in At(u, p) ==> d == c;
    }
  }

  lemma FirstOp(op: Op, op': Op)
    ensures History([op, op']) == Apply(Apply(EMPTY_INDEX, op), op')
  {
    assert [op, op'][..1] == [op] && [op][..0] == [];
    assert History([op]) == Apply(History([]), op);
  }

  /** With `unsubscribe_all` this fails for every filter: its nodes outlive their only subscriber. */
  lemma UnsubscribeAllLeavesDeadBranch(c: string, f: string, q: QoS)
    requires Accepted(f) && ParseShared(f) == None
    ensures var t := History([Sub(c, f, q), UnsubAll(c)]).trie; Split(f) in t && !NoDeadBranch(t)
  {
    FirstOp(Sub(c, f, q), UnsubAll(c));
    var t := RemoveEverywhere(Insert(EMPTY_TRIE, Split(f), c, q), c);
    OneSubscriberForgotten(Split(f), c, q);
    assert forall p :: p in t ==> At(t, p) == t[p];
    assert !Inhabited(t, Split(f));
  }

  /** For instance the filter `a`. */
  lemma DeadBranchExample()
    ensures !NoDeadBranch(History([Sub("c", "a", AtMostOnce), UnsubAll("c")]).trie)
  {
    SplitOneLevel("a");
    UnsubscribeAllLeavesDeadBranch("c", "a", AtMostOnce);
  }
}
