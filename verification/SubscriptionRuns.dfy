/**
 * Runs of the subscription index. Operations take one lock at a time, so operations of different clients interleave
 * between their lock blocks. Here each client has at most one operation in progress; SubscriptionOverlaps drops that.
 */
module SubscriptionRuns {
  import opened Basics
  import opened Packets
  import opened Topics
  import opened SubscriptionModel

  /** The reference: which client holds which filter, at which QoS. */
  type Relation = map<(string, string), QoS>

  function Get(rel: Relation, c: string, f: string): Option<QoS> {
    if (c, f) in rel then Some(rel[(c, f)]) else None
  }

  /** Where a client is inside its operation. */
  datatype Phase =
    | Idle
    | Attached(filter: string, qos: QoS)        // subscribe: reverse index still to be written
    | Detached(filter: string)                  // unsubscribe: reverse index still to be written
    | TreeCleared                               // unsubscribe_all: groups and reverse index still to do
    | KeysCollected(keys: set<GroupKey>)        // unsubscribe_all: groups of the client read under a read lock
    | GroupsCleared                             // unsubscribe_all: reverse index still to be written

  datatype Action =
    | BeginSubscribe(client: string, filter: string, qos: QoS)
    | BeginUnsubscribe(client: string, filter: string)
    | BeginUnsubscribeAll(client: string)
    | Proceed(client: string)
    | Publish(topic: string)

  /** `flat` is the reference relation, updated when an operation begins. */
  datatype System = System(ix: Index, phases: map<string, Phase>, flat: Relation) {
    function PhaseOf(c: string): Phase {
      if c in phases then phases[c] else Idle
    }

    function Move(next: Index, c: string, phase: Phase): System {
      this.(ix := next, phases := phases[c := phase])
    }
  }

  /** One lock block. A begin is possible only for an idle client; an operation that has nothing to do ends at once. */
  function Step(s: System, a: Action): System {
    match a
    case BeginSubscribe(c, f, q) =>
      if s.PhaseOf(c) != Idle || !Accepted(f) then s
      else s.Move(Attach(s.ix, c, f, q), c, Attached(f, q)).(flat := s.flat[(c, f) := q])
    case BeginUnsubscribe(c, f) =>
      if s.PhaseOf(c) != Idle || Held(s.ix, c, f) == None then s
      else s.Move(Detach(s.ix, c, f), c, Detached(f)).(flat := s.flat - {(c, f)})
    case BeginUnsubscribeAll(c) =>
      if s.PhaseOf(c) != Idle then s
      else s.Move(s.ix.(trie := RemoveEverywhere(s.ix.trie, c)), c, TreeCleared)
            .(flat := map k | k in s.flat && k.0 != c :: s.flat[k])
    case Proceed(c) =>
      (match s.PhaseOf(c)
       case Idle => s
       case Attached(f, q) => s.Move(s.ix.(reverse := Record(s.ix.reverse, c, f, q)), c, Idle)
       case Detached(f) => s.Move(s.ix.(reverse := Erase(s.ix.reverse, c, f)), c, Idle)
       case TreeCleared => s.Move(s.ix, c, KeysCollected(GroupsOf(s.ix.shared, c)))
       case KeysCollected(keys) => s.Move(s.ix.(shared := LeaveEach(s.ix.shared, keys, c)), c, GroupsCleared)
       case GroupsCleared => s.Move(s.ix.(reverse := s.ix.reverse - {c}), c, Idle))
    case Publish(topic) => s.(ix := s.ix.(shared := Rotate(s.ix.shared, topic)))
  }

  const START := System(EMPTY_INDEX, map[], map[])

  function Run(actions: seq<Action>): System {
    if actions == [] then START else Step(Run(actions[..|actions| - 1]), actions[|actions| - 1])
  }

  // ---------- the invariant ----------

  /** What the tree and the groups say about a client, compared with the reference. */
  ghost predicate HeldAgrees(s: System, c: string) {
    match s.PhaseOf(c)
    case TreeCleared => forall f :: Held(s.ix, c, f) == if ParseShared(f) == None then None else Listed(s.ix, c, f)
    case KeysCollected(keys) =>
      && keys == GroupsOf(s.ix.shared, c)
      && forall f :: Held(s.ix, c, f) == if ParseShared(f) == None then None else Listed(s.ix, c, f)
    case _ => forall f :: Held(s.ix, c, f) == Get(s.flat, c, f)
  }

  /** What the reverse index says about a client, compared with the reference. */
  ghost predicate ListAgrees(s: System, c: string) {
    match s.PhaseOf(c)
    case Idle => forall f :: Listed(s.ix, c, f) == Get(s.flat, c, f)
    case Attached(g, q) => Get(s.flat, c, g) == Some(q) && forall f :: f != g ==> Listed(s.ix, c, f) == Get(s.flat, c, f)
    case Detached(g) => Get(s.flat, c, g) == None && forall f :: f != g ==> Listed(s.ix, c, f) == Get(s.flat, c, f)
    case _ => forall f :: Get(s.flat, c, f) == None
  }

  ghost predicate Inv(s: System) {
    Sound(s.ix) && forall c :: HeldAgrees(s, c) && ListAgrees(s, c)
  }

  // ---------- clients that are not acting ----------

  /** Nothing about client `d` differs between two states. */
  ghost predicate SameView(s: System, s': System, d: string) {
    && s'.PhaseOf(d) == s.PhaseOf(d)
    && (forall f :: Held(s'.ix, d, f) == Held(s.ix, d, f))
    && (forall f :: Listed(s'.ix, d, f) == Listed(s.ix, d, f))
    && (forall f :: Get(s'.flat, d, f) == Get(s.flat, d, f))
  }

  /** Holding is what decides which groups a client is in. */
  lemma SameGroups(ix: Index, ix': Index, d: string)
    requires GroupsSound(ix.shared) && GroupsSound(ix'.shared)
    requires forall g :: Held(ix', d, g) == Held(ix, d, g)
    ensures GroupsOf(ix'.shared, d) == GroupsOf(ix.shared, d)
  {
    forall k: GroupKey ensures k in GroupsOf(ix'.shared, d) <==> k in GroupsOf(ix.shared, d) {
      var name := SharedName(k.0, k.1);
      ParseSharedInverse(name, k.0, k.1);
      assert Held(ix', d, name) == Held(ix, d, name);
    }
  }

  lemma Untouched(s: System, s': System, d: string)
    requires GroupsSound(s.ix.shared) && GroupsSound(s'.ix.shared)
    requires HeldAgrees(s, d) && ListAgrees(s, d) && SameView(s, s', d)
    ensures HeldAgrees(s', d) && ListAgrees(s', d)
  {
    SameGroups(s.ix, s'.ix, d);
  }

  // ---------- subscribe ----------

  lemma BeginSubscribeOthers(s: System, c: string, f: string, q: QoS, d: string)
    requires d != c
    ensures SameView(s, Step(s, BeginSubscribe(c, f, q)), d)
  {
    forall g ensures Held(Attach(s.ix, c, f, q), d, g) == Held(s.ix, d, g) {
      AttachHeld(s.ix, c, f, q, d, g);
    }
  }

  lemma BeginSubscribeSelf(s: System, c: string, f: string, q: QoS)
    requires HeldAgrees(s, c) && ListAgrees(s, c) && s.PhaseOf(c) == Idle && Accepted(f)
    ensures var s' := Step(s, BeginSubscribe(c, f, q)); HeldAgrees(s', c) && ListAgrees(s', c)
  {
    var s' := Step(s, BeginSubscribe(c, f, q));
    forall g ensures Held(s'.ix, c, g) == Get(s'.flat, c, g) {
      AttachHeld(s.ix, c, f, q, c, g);
    }
    forall g ensures Listed(s'.ix, c, g) == Listed(s.ix, c, g) {}
  }

  lemma StepBeginSubscribe(s: System, c: string, f: string, q: QoS)
    requires Inv(s)
    ensures Inv(Step(s, BeginSubscribe(c, f, q)))
  {
    if s.PhaseOf(c) == Idle && Accepted(f) {
      AttachSound(s.ix, c, f, q);
      var s' := Step(s, BeginSubscribe(c, f, q));
      forall d ensures HeldAgrees(s', d) && ListAgrees(s', d) {
        if d == c {
          BeginSubscribeSelf(s, c, f, q);
        } else {
          BeginSubscribeOthers(s, c, f, q, d);
          Untouched(s, s', d);
        }
      }
    }
  }

  // ---------- unsubscribe ----------

  lemma BeginUnsubscribeOthers(s: System, c: string, f: string, d: string)
    requires d != c
    ensures SameView(s, Step(s, BeginUnsubscribe(c, f)), d)
  {
    forall g ensures Held(Detach(s.ix, c, f), d, g) == Held(s.ix, d, g) {
      DetachHeld(s.ix, c, f, d, g);
    }
  }

  lemma BeginUnsubscribeSelf(s: System, c: string, f: string)
    requires HeldAgrees(s, c) && ListAgrees(s, c) && s.PhaseOf(c) == Idle && Held(s.ix, c, f) != None
    ensures var s' := Step(s, BeginUnsubscribe(c, f)); HeldAgrees(s', c) && ListAgrees(s', c)
  {
    var s' := Step(s, BeginUnsubscribe(c, f));
    forall g ensures Held(s'.ix, c, g) == Get(s'.flat, c, g) {
      DetachHeld(s.ix, c, f, c, g);
    }
    forall g ensures Listed(s'.ix, c, g) == Listed(s.ix, c, g) {}
  }

  lemma StepBeginUnsubscribe(s: System, c: string, f: string)
    requires Inv(s)
    ensures Inv(Step(s, BeginUnsubscribe(c, f)))
  {
    if s.PhaseOf(c) == Idle && Held(s.ix, c, f) != None {
      DetachSound(s.ix, c, f);
      var s' := Step(s, BeginUnsubscribe(c, f));
      forall d ensures HeldAgrees(s', d) && ListAgrees(s', d) {
        if d == c {
          BeginUnsubscribeSelf(s, c, f);
        } else {
          BeginUnsubscribeOthers(s, c, f, d);
          Untouched(s, s', d);
        }
      }
    }
  }

  // ---------- unsubscribe_all ----------

  lemma ClearedTreeSound(t: Trie, c: string)
    requires TrieSound(t)
    ensures TrieSound(RemoveEverywhere(t, c))
  {
    var u := RemoveEverywhere(t, c);
    forall p | p in u && u[p] != map[] ensures NormalPath(p) {
      assert t[p] != map[];
    }
  }

  lemma ClearedTreeHeld(ix: Index, c: string, d: string, g: string)
    ensures Held(ix.(trie := RemoveEverywhere(ix.trie, c)), d, g) ==
            if d == c && ParseShared(g) == None then None else Held(ix, d, g)
  {
    var u := RemoveEverywhere(ix.trie, c);
    assert forall p :: p in u ==> u[p] == ix.trie[p] - {c};
  }

  lemma LeaveEachHeld(ix: Index, c: string, d: string, g: string)
    ensures Held(ix.(shared := LeaveEach(ix.shared, GroupsOf(ix.shared, c), c)), d, g) ==
            if d == c && ParseShared(g) != None then None else Held(ix, d, g)
  {
    if ParseShared(g) != None {
      var key := ParseShared(g).value;
      if key in ix.shared && d != c && d in ix.shared[key].members {
        assert d in ix.shared[key].members - {c};
      }
    }
  }

  lemma BeginUnsubscribeAllSelf(s: System, c: string)
    requires HeldAgrees(s, c) && ListAgrees(s, c) && s.PhaseOf(c) == Idle
    ensures var s' := Step(s, BeginUnsubscribeAll(c)); HeldAgrees(s', c) && ListAgrees(s', c)
  {
    var s' := Step(s, BeginUnsubscribeAll(c));
    forall g ensures Held(s'.ix, c, g) == if ParseShared(g) == None then None else Listed(s'.ix, c, g) {
      ClearedTreeHeld(s.ix, c, c, g);
      assert Held(s.ix, c, g) == Listed(s.ix, c, g);
    }
  }

  lemma StepBeginUnsubscribeAll(s: System, c: string)
    requires Inv(s)
    ensures Inv(Step(s, BeginUnsubscribeAll(c)))
  {
    if s.PhaseOf(c) == Idle {
      ClearedTreeSound(s.ix.trie, c);
      var s' := Step(s, BeginUnsubscribeAll(c));
      forall d ensures HeldAgrees(s', d) && ListAgrees(s', d) {
        if d == c {
          BeginUnsubscribeAllSelf(s, c);
        } else {
          forall g ensures Held(s'.ix, d, g) == Held(s.ix, d, g) { ClearedTreeHeld(s.ix, c, d, g); }
          Untouched(s, s', d);
        }
      }
    }
  }

  // ---------- later blocks ----------

  /** The last block of an operation writes the reverse index. */
  lemma ProceedListSelf(s: System, c: string)
    requires HeldAgrees(s, c) && ListAgrees(s, c)
    requires s.PhaseOf(c).Attached? || s.PhaseOf(c).Detached? || s.PhaseOf(c).GroupsCleared?
    ensures var s' := Step(s, Proceed(c)); HeldAgrees(s', c) && ListAgrees(s', c)
  {
    var s' := Step(s, Proceed(c));
    var list := ListOf(s.ix.reverse, c);
    forall g ensures Held(s'.ix, c, g) == Held(s.ix, c, g) {}
    forall g ensures Listed(s'.ix, c, g) == Get(s.flat, c, g) {
      match s.PhaseOf(c)
      case Attached(f, q) => PutFound(list, f, q, g);
      case Detached(f) => DropFound(list, f, g);
      case GroupsCleared =>
    }
  }

  lemma ProceedListSound(reverse: Reverse, c: string, f: string, q: QoS)
    requires ReverseSound(reverse)
    ensures ReverseSound(Record(reverse, c, f, q)) && ReverseSound(Erase(reverse, c, f))
  {
    PutNoRepeats(ListOf(reverse, c), f, q);
    DropNoRepeats(ListOf(reverse, c), f);
  }

  lemma StepProceedList(s: System, c: string)
    requires Inv(s) && (s.PhaseOf(c).Attached? || s.PhaseOf(c).Detached? || s.PhaseOf(c).GroupsCleared?)
    ensures Inv(Step(s, Proceed(c)))
  {
    var s' := Step(s, Proceed(c));
    match s.PhaseOf(c) {
      case Attached(f, q) => ProceedListSound(s.ix.reverse, c, f, q);
      case Detached(f) => ProceedListSound(s.ix.reverse, c, f, AtMostOnce);
      case GroupsCleared =>
    }
    forall d ensures HeldAgrees(s', d) && ListAgrees(s', d) {
      if d == c {
        ProceedListSelf(s, c);
      } else {
        Untouched(s, s', d);
      }
    }
  }

  lemma ProceedGroupsSelf(s: System, c: string)
    requires HeldAgrees(s, c) && ListAgrees(s, c)
    requires s.PhaseOf(c).TreeCleared? || s.PhaseOf(c).KeysCollected?
    ensures var s' := Step(s, Proceed(c)); HeldAgrees(s', c) && ListAgrees(s', c)
  {
    var s' := Step(s, Proceed(c));
    if s.PhaseOf(c).KeysCollected? {
      forall g ensures Held(s'.ix, c, g) == None {
        LeaveEachHeld(s.ix, c, c, g);
      }
    } else {
      assert s'.ix == s.ix;
    }
  }

  lemma StepProceedGroups(s: System, c: string)
    requires Inv(s) && (s.PhaseOf(c).TreeCleared? || s.PhaseOf(c).KeysCollected?)
    ensures Inv(Step(s, Proceed(c)))
  {
    var s' := Step(s, Proceed(c));
    assert HeldAgrees(s, c);
    forall d ensures HeldAgrees(s', d) && ListAgrees(s', d) {
      if d == c {
        ProceedGroupsSelf(s, c);
      } else {
        forall g ensures Held(s'.ix, d, g) == Held(s.ix, d, g) { LeaveEachHeld(s.ix, c, d, g); }
        Untouched(s, s', d);
      }
    }
  }

  lemma RotateHeld(ix: Index, topic: string, d: string, g: string)
    ensures Held(ix.(shared := Rotate(ix.shared, topic)), d, g) == Held(ix, d, g)
  {
  }

  lemma RotateSound(shared: Groups, topic: string)
    requires GroupsSound(shared)
    ensures GroupsSound(Rotate(shared, topic))
  {
  }

  lemma GroupsReplaced(s: System, shared: Groups)
    requires Inv(s) && GroupsSound(shared)
    requires forall d, g :: Held(s.ix.(shared := shared), d, g) == Held(s.ix, d, g)
    ensures Inv(s.(ix := s.ix.(shared := shared)))
  {
    var s' := s.(ix := s.ix.(shared := shared));
    forall d ensures HeldAgrees(s', d) && ListAgrees(s', d) {
      Untouched(s, s', d);
    }
  }

  lemma StepPublish(s: System, topic: string)
    requires Inv(s)
    ensures Inv(Step(s, Action.Publish(topic)))
  {
    RotateSound(s.ix.shared, topic);
    var shared := Rotate(s.ix.shared, topic);
    forall d, g ensures Held(s.ix.(shared := shared), d, g) == Held(s.ix, d, g) { RotateHeld(s.ix, topic, d, g); }
    GroupsReplaced(s, shared);
  }

  /** Every lock block of every operation keeps the invariant. */
  lemma StepKeepsInv(s: System, a: Action)
    requires Inv(s)
    ensures Inv(Step(s, a))
  {
    match a
    case BeginSubscribe(c, f, q) => StepBeginSubscribe(s, c, f, q);
    case BeginUnsubscribe(c, f) => StepBeginUnsubscribe(s, c, f);
    case BeginUnsubscribeAll(c) => StepBeginUnsubscribeAll(s, c);
    case Proceed(c) =>
      if s.PhaseOf(c).TreeCleared? || s.PhaseOf(c).KeysCollected? {
        StepProceedGroups(s, c);
      } else if s.PhaseOf(c) != Idle {
        StepProceedList(s, c);
      }
    case Publish(topic) => StepPublish(s, topic);
  }

  /** Every interleaving of operations of different clients keeps the invariant. */
  lemma {:induction false} RunKeepsInv(actions: seq<Action>)
    ensures Inv(Run(actions))
  {
    if actions != [] {
      RunKeepsInv(actions[..|actions| - 1]);
      StepKeepsInv(Run(actions[..|actions| - 1]), actions[|actions| - 1]);
    }
  }

  // ---------- quiescence ----------

  ghost predicate Quiescent(s: System) {
    forall c :: s.PhaseOf(c) == Idle
  }

  /** The tree, the groups and the reverse index hold the same relation. */
  ghost predicate Agree(ix: Index) {
    Sound(ix) && forall c, f :: Held(ix, c, f) == Listed(ix, c, f)
  }

  function TriePairs(t: Trie): set<(Levels, string)> {
    set p, c | p in t && c in t[p] :: (p, c)
  }

  function GroupPairs(shared: Groups): set<(GroupKey, string)> {
    set k, c | k in shared && c in shared[k].members :: (k, c)
  }

  /** The positions of all reverse lists. */
  function ListSlots(reverse: Reverse): set<(string, int)> {
    set c, i | c in reverse && 0 <= i < |reverse[c]| :: (c, i)
  }

  function FilterOfPath(p: Levels): string {
    if p == [] then "" else Join(p)
  }

  lemma TrieNames(t: Trie, names: set<(string, string)>)
    requires TrieSound(t)
    requires names == set x | x in TriePairs(t) :: (x.1, FilterOfPath(x.0))
    ensures |names| == |TriePairs(t)|
    ensures forall c, f :: (c, f) in names <==> ParseShared(f) == None && c in At(t, Split(f))
  {
    forall x | x in TriePairs(t) ensures Split(FilterOfPath(x.0)) == x.0 && NormalPath(x.0) {
      SplitJoin(x.0);
    }
    InjectiveImageSize(TriePairs(t), names, (x: (Levels, string)) => (x.1, FilterOfPath(x.0)));
    forall c, f | ParseShared(f) == None && c in At(t, Split(f)) ensures (c, f) in names {
      JoinSplit(f);
      assert (Split(f), c) in TriePairs(t);
    }
  }

  lemma GroupNames(shared: Groups, names: set<(string, string)>)
    requires GroupsSound(shared)
    requires names == set x | x in GroupPairs(shared) :: (x.1, SharedName(x.0.0, x.0.1))
    ensures |names| == |GroupPairs(shared)|
    ensures forall c, f :: (c, f) in names <==>
                           ParseShared(f) != None && c in GroupAt(shared, ParseShared(f).value).members
  {
    forall x | x in GroupPairs(shared) ensures ParseShared(SharedName(x.0.0, x.0.1)) == Some(x.0) {
      ParseSharedInverse(SharedName(x.0.0, x.0.1), x.0.0, x.0.1);
    }
    InjectiveImageSize(GroupPairs(shared), names, (x: (GroupKey, string)) => (x.1, SharedName(x.0.0, x.0.1)));
    forall c, f | ParseShared(f) != None && c in GroupAt(shared, ParseShared(f).value).members
      ensures (c, f) in names
    {
      var key := ParseShared(f).value;
      ParseSharedInverse(f, key.0, key.1);
      assert (key, c) in GroupPairs(shared);
    }
  }

  function NameAt(reverse: Reverse, slot: (string, int)): (string, string) {
    if slot.0 in reverse && 0 <= slot.1 < |reverse[slot.0]| then (slot.0, reverse[slot.0][slot.1].0) else ("", "")
  }

  lemma ListNames(reverse: Reverse, names: set<(string, string)>)
    requires ReverseSound(reverse)
    requires names == set x | x in ListSlots(reverse) :: NameAt(reverse, x)
    ensures |names| == |ListSlots(reverse)|
    ensures forall c, f :: (c, f) in names <==> FindFilter(ListOf(reverse, c), f) != None
  {
    InjectiveImageSize(ListSlots(reverse), names, x => NameAt(reverse, x));
    forall c, f ensures (c, f) in names <==> FindFilter(ListOf(reverse, c), f) != None {
      FoundIffPresent(ListOf(reverse, c), f);
      if (c, f) in names {
        var x :| x in ListSlots(reverse) && NameAt(reverse, x) == (c, f);
        assert ListOf(reverse, c)[x.1].0 == f;
      }
      if i :| 0 <= i < |ListOf(reverse, c)| && ListOf(reverse, c)[i].0 == f {
        assert (c, i) in ListSlots(reverse);
      }
    }
  }

  /** The subscriber count read from the tree and the groups is the total length of the reverse lists. */
  lemma CountsAgree(ix: Index)
    requires Agree(ix)
    ensures |TriePairs(ix.trie)| + |GroupPairs(ix.shared)| == |ListSlots(ix.reverse)|
  {
    var a := set x | x in TriePairs(ix.trie) :: (x.1, FilterOfPath(x.0));
    var b := set x | x in GroupPairs(ix.shared) :: (x.1, SharedName(x.0.0, x.0.1));
    var names := set x | x in ListSlots(ix.reverse) :: NameAt(ix.reverse, x);
    TrieNames(ix.trie, a);
    GroupNames(ix.shared, b);
    ListNames(ix.reverse, names);
    forall x: (string, string) ensures x in names <==> x in a || x in b
                               ensures !(x in a && x in b) {
      HeldName(ix, x.0, x.1);
      assert x == (x.0, x.1);
    }
    DisjointSizes(names, a, b);
  }

  lemma HeldName(ix: Index, c: string, f: string)
    ensures Held(ix, c, f) != None <==>
            if ParseShared(f) == None then c in At(ix.trie, Split(f))
            else c in GroupAt(ix.shared, ParseShared(f).value).members
  {
  }

  lemma DisjointSizes<T>(names: set<T>, a: set<T>, b: set<T>)
    requires forall x :: x in names <==> x in a || x in b
    requires forall x :: !(x in a && x in b)
    ensures |names| == |a| + |b|
  {
    assert names == a + b;
  }

  /** After every such interleaving, once no operation is in progress, all three structures hold the reference relation. */
  lemma QuiescentAgreement(actions: seq<Action>)
    ensures Quiescent(Run(actions)) ==>
              && Agree(Run(actions).ix)
              && (forall c, f :: Listed(Run(actions).ix, c, f) == Get(Run(actions).flat, c, f))
              && |TriePairs(Run(actions).ix.trie)| + |GroupPairs(Run(actions).ix.shared)|
                 == |ListSlots(Run(actions).ix.reverse)|
  {
    var s := Run(actions);
    RunKeepsInv(actions);
    if Quiescent(s) {
      forall c, f ensures Held(s.ix, c, f) == Listed(s.ix, c, f) == Get(s.flat, c, f) {
        assert HeldAgrees(s, c) && ListAgrees(s, c) && s.PhaseOf(c) == Idle;
      }
      CountsAgree(s.ix);
    }
  }
}
