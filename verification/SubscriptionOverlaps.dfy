/**
 * Interleavings in which operations of the same client overlap. `unsubscribe_all` also runs when a removed connection ends,
 * from the sweep for expired sessions, from the admin interface and from the MQTT-SN gateway, beside whatever the client's
 * present connection does. Every operation has a number of its own; the blocks that change something are logged.
 */
module SubscriptionOverlaps {
  import opened Basics
  import opened Packets
  import opened Topics
  import opened SubscriptionModel
  import Runs = SubscriptionRuns

  /** A lock block that writes: three on the tree or the groups, three on the reverse index. */
  datatype Block =
    | Put(c: string, f: string, q: QoS)
    | Take(c: string, f: string)
    | ClearTree(c: string)
    | LeaveKeys(c: string, keys: set<GroupKey>)
    | ListPut(c: string, f: string, q: QoS)
    | ListTake(c: string, f: string)
    | ListClear(c: string)

  function Do(ix: Index, b: Block): Index {
    match b
    case Put(c, f, q) => Attach(ix, c, f, q)
    case Take(c, f) => Detach(ix, c, f)
    case ClearTree(c) => ix.(trie := RemoveEverywhere(ix.trie, c))
    case LeaveKeys(c, keys) => ix.(shared := LeaveEach(ix.shared, keys, c))
    case ListPut(c, f, q) => ix.(reverse := Record(ix.reverse, c, f, q))
    case ListTake(c, f) => ix.(reverse := Erase(ix.reverse, c, f))
    case ListClear(c) => ix.(reverse := ix.reverse - {c})
  }

  // ---------- runs ----------

  datatype Op = Sub(c: string, f: string, q: QoS) | Unsub(c: string, f: string) | All(c: string)

  /** Begin an operation under a number that is not in use, or let one go on by a block; or publish. */
  datatype Action = Begin(n: nat, op: Op) | Continue(n: nat) | Deliver(topic: string)

  /** An operation in progress: its client and what it has done so far. */
  datatype Pending = Pending(c: string, phase: Runs.Phase)

  datatype World = World(ix: Index, ops: map<nat, Pending>, log: seq<Block>)

  const START := World(EMPTY_INDEX, map[], [])

  function Perform(w: World, b: Block, n: nat, p: Pending): World {
    World(Do(w.ix, b), w.ops[n := p], w.log + [b])
  }

  function Finish(w: World, b: Block, n: nat): World {
    World(Do(w.ix, b), w.ops - {n}, w.log + [b])
  }

  function BeginOp(w: World, n: nat, op: Op): World {
    if n in w.ops then w
    else match op
      case Sub(c, f, q) => if Accepted(f) then Perform(w, Put(c, f, q), n, Pending(c, Runs.Attached(f, q))) else w
      case Unsub(c, f) =>
        if Held(w.ix, c, f) != None then Perform(w, Take(c, f), n, Pending(c, Runs.Detached(f))) else w
      case All(c) => Perform(w, ClearTree(c), n, Pending(c, Runs.TreeCleared))
  }

  function ContinueOp(w: World, n: nat): World {
    if n !in w.ops then w
    else
      var c := w.ops[n].c;
      match w.ops[n].phase
      case Idle => w
      case Attached(f, q) => Finish(w, ListPut(c, f, q), n)
      case Detached(f) => Finish(w, ListTake(c, f), n)
      case TreeCleared => w.(ops := w.ops[n := Pending(c, Runs.KeysCollected(GroupsOf(w.ix.shared, c)))])
      case KeysCollected(keys) => Perform(w, LeaveKeys(c, keys), n, Pending(c, Runs.GroupsCleared))
      case GroupsCleared => Finish(w, ListClear(c), n)
  }

  function Step(w: World, a: Action): World {
    match a
    case Begin(n, op) => BeginOp(w, n, op)
    case Continue(n) => ContinueOp(w, n)
    case Deliver(topic) => w.(ix := w.ix.(shared := Rotate(w.ix.shared, topic)))
  }

  function Run(actions: seq<Action>): World {
    if actions == [] then START else Step(Run(actions[..|actions| - 1]), actions[|actions| - 1])
  }

  // ---------- what decides ----------

  /** What a block makes of a client's hold on a filter in tree and groups; None if it does not touch that. */
  function HeldEffect(b: Block, c: string, f: string): Option<Option<QoS>> {
    match b
    case Put(d, g, q) => if d == c && g == f then Some(Some(q)) else None
    case Take(d, g) => if d == c && g == f then Some(None) else None
    case ClearTree(d) => if d == c && ParseShared(f) == None then Some(None) else None
    case LeaveKeys(d, keys) =>
      if d == c && ParseShared(f).Some? && ParseShared(f).value in keys then Some(None) else None
    case _ => None
  }

  /** The same for the reverse index. */
  function ListEffect(b: Block, c: string, f: string): Option<Option<QoS>> {
    match b
    case ListPut(d, g, q) => if d == c && g == f then Some(Some(q)) else None
    case ListTake(d, g) => if d == c && g == f then Some(None) else None
    case ListClear(d) => if d == c then Some(None) else None
    case _ => None
  }

  /** What the last block with an effect says; nothing is held before the first. */
  function LastWord(log: seq<Block>, effect: Block -> Option<Option<QoS>>): Option<QoS> {
    if log == [] then None
    else match effect(log[|log| - 1])
      case Some(v) => v
      case None => LastWord(log[..|log| - 1], effect)
  }

  /** It is the word of the block at k if that has an effect and no later one has; without any effect nothing is held. */
  lemma {:induction false} LastWordIs(log: seq<Block>, effect: Block -> Option<Option<QoS>>, k: nat)
    ensures k < |log| && effect(log[k]).Some? && (forall j :: k < j < |log| ==> effect(log[j]) == None)
            ==> LastWord(log, effect) == effect(log[k]).value
    ensures (forall j :: 0 <= j < |log| ==> effect(log[j]) == None) ==> LastWord(log, effect) == None
  {
    if log != [] {
      LastWordIs(log[..|log| - 1], effect, k);
    }
  }

  function HeldLast(log: seq<Block>, c: string, f: string): Option<QoS> {
    LastWord(log, b => HeldEffect(b, c, f))
  }

  function ListedLast(log: seq<Block>, c: string, f: string): Option<QoS> {
    LastWord(log, b => ListEffect(b, c, f))
  }

  lemma LastWordMore(log: seq<Block>, b: Block, c: string, f: string)
    ensures HeldLast(log + [b], c, f) == match HeldEffect(b, c, f) { case Some(v) => v case None => HeldLast(log, c, f) }
    ensures ListedLast(log + [b], c, f) == match ListEffect(b, c, f) { case Some(v) => v case None => ListedLast(log, c, f) }
  {
    assert (log + [b])[..|log|] == log;
  }

  // ---------- one block ----------

  lemma LeaveKeysHeld(ix: Index, c: string, keys: set<GroupKey>, d: string, g: string)
    ensures Held(ix.(shared := LeaveEach(ix.shared, keys, c)), d, g) ==
            if d == c && ParseShared(g).Some? && ParseShared(g).value in keys then None else Held(ix, d, g)
  {
    if ParseShared(g) != None {
      var key := ParseShared(g).value;
      if key in ix.shared && d != c && d in ix.shared[key].members {
        assert d in ix.shared[key].members - {c};
      }
    }
  }

  lemma DoHeld(ix: Index, b: Block, c: string, f: string)
    ensures Held(Do(ix, b), c, f) == match HeldEffect(b, c, f) { case Some(v) => v case None => Held(ix, c, f) }
  {
    match b {
      case Put(d, g, q) => AttachHeld(ix, d, g, q, c, f);
      case Take(d, g) => DetachHeld(ix, d, g, c, f);
      case ClearTree(d) => Runs.ClearedTreeHeld(ix, d, c, f);
      case LeaveKeys(d, keys) => LeaveKeysHeld(ix, d, keys, c, f);
      case _ =>
    }
  }

  lemma DoListed(ix: Index, b: Block, c: string, f: string)
    ensures Listed(Do(ix, b), c, f) == match ListEffect(b, c, f) { case Some(v) => v case None => Listed(ix, c, f) }
  {
    match b {
      case ListPut(d, g, q) => PutFound(ListOf(ix.reverse, d), g, q, f);
      case ListTake(d, g) => DropFound(ListOf(ix.reverse, d), g, f);
      case _ =>
    }
  }

  // ---------- every run ----------

  /** Tree, groups and reverse index say what the last blocks that touched them said. */
  ghost predicate Follows(w: World, c: string, f: string) {
    Held(w.ix, c, f) == HeldLast(w.log, c, f) && Listed(w.ix, c, f) == ListedLast(w.log, c, f)
  }

  lemma BlockFollows(w: World, d: World, b: Block, c: string, f: string)
    requires Follows(w, c, f) && d.ix == Do(w.ix, b) && d.log == w.log + [b]
    ensures Follows(d, c, f)
  {
    DoHeld(w.ix, b, c, f);
    DoListed(w.ix, b, c, f);
    LastWordMore(w.log, b, c, f);
  }

  /** A step performs one block, or changes neither log nor what is held and listed. */
  lemma StepFollows(w: World, a: Action, c: string, f: string)
    requires Follows(w, c, f)
    ensures Follows(Step(w, a), c, f)
  {
    if a.Deliver? {
      Runs.RotateHeld(w.ix, a.topic, c, f);
    } else {
      OneBlock(w, a);
      var d := Step(w, a);
      if d.log != w.log {
        BlockFollows(w, d, d.log[|w.log|], c, f);
      }
    }
  }

  lemma OneBlock(w: World, a: Action)
    requires !a.Deliver?
    ensures var d := Step(w, a);
            || (d.log == w.log && d.ix == w.ix)
            || (&& |d.log| == |w.log| + 1 && d.log == w.log + [d.log[|w.log|]] && d.ix == Do(w.ix, d.log[|w.log|])
                && (d.log[|w.log|].Put? ==> Accepted(d.log[|w.log|].f)))
  {
  }

  /** In every interleaving, overlaps of one client's operations included, the last blocks decide. */
  lemma {:induction false} LastBlocksDecide(actions: seq<Action>, c: string, f: string)
    ensures Held(Run(actions).ix, c, f) == HeldLast(Run(actions).log, c, f)
    ensures Listed(Run(actions).ix, c, f) == ListedLast(Run(actions).log, c, f)
  {
    if actions == [] {
      assert Follows(START, c, f);
    } else {
      LastBlocksDecide(actions[..|actions| - 1], c, f);
      StepFollows(Run(actions[..|actions| - 1]), actions[|actions| - 1], c, f);
    }
  }

  lemma DoSound(ix: Index, b: Block)
    requires Sound(ix) && (b.Put? ==> Accepted(b.f))
    ensures Sound(Do(ix, b))
  {
    match b {
      case Put(c, f, q) => AttachSound(ix, c, f, q);
      case Take(c, f) => DetachSound(ix, c, f);
      case ClearTree(c) => Runs.ClearedTreeSound(ix.trie, c);
      case LeaveKeys(c, keys) =>
      case ListPut(c, f, q) => Runs.ProceedListSound(ix.reverse, c, f, q);
      case ListTake(c, f) => Runs.ProceedListSound(ix.reverse, c, f, AtMostOnce);
      case ListClear(c) =>
    }
  }

  /** No overlap leaves an empty group, an invalid path, or a filter listed twice. */
  lemma {:induction false} OverlapsKeepSound(actions: seq<Action>)
    ensures Sound(Run(actions).ix)
  {
    if actions != [] {
      var w, a := Run(actions[..|actions| - 1]), actions[|actions| - 1];
      OverlapsKeepSound(actions[..|actions| - 1]);
      if a.Deliver? {
        Runs.RotateSound(w.ix.shared, a.topic);
      } else {
        OneBlock(w, a);
        var d := Step(w, a);
        if d.log != w.log {
          DoSound(w.ix, d.log[|w.log|]);
        }
      }
    }
  }

  /** The last blocks say the same about every client and filter. */
  ghost predicate SameWords(log: seq<Block>) {
    forall c, f :: HeldLast(log, c, f) == ListedLast(log, c, f)
  }

  /** So the structures agree if and only if the last blocks do; then the counts agree too. */
  lemma AgreeIffLastBlocksAgree(actions: seq<Action>)
    ensures var w := Run(actions);
            && (Runs.Agree(w.ix) <==> SameWords(w.log))
            && (SameWords(w.log) ==>
                  |Runs.TriePairs(w.ix.trie)| + |Runs.GroupPairs(w.ix.shared)| == |Runs.ListSlots(w.ix.reverse)|)
  {
    var w := Run(actions);
    forall c, f ensures Follows(w, c, f) {
      LastBlocksDecide(actions, c, f);
    }
    OverlapsKeepSound(actions);
    AgreeByWords(w);
    if SameWords(w.log) {
      Runs.CountsAgree(w.ix);
    }
  }

  lemma AgreeByWords(w: World)
    requires Sound(w.ix) && forall c, f :: Follows(w, c, f)
    ensures Runs.Agree(w.ix) <==> SameWords(w.log)
  {
    if Runs.Agree(w.ix) {
      forall c, f ensures HeldLast(w.log, c, f) == ListedLast(w.log, c, f) {
        assert Follows(w, c, f);
        assert Held(w.ix, c, f) == Listed(w.ix, c, f);
      }
    }
    if SameWords(w.log) {
      forall c, f ensures Held(w.ix, c, f) == Listed(w.ix, c, f) {
        assert Follows(w, c, f);
      }
    }
  }

  // ---------- runs in which they do not agree ----------

  lemma RunMore(actions: seq<Action>, a: Action)
    ensures Run(actions + [a]) == Step(Run(actions), a)
  {
    assert (actions + [a])[..|actions|] == actions;
  }

  lemma Six(a: Action, b: Action, c: Action, d: Action, e: Action, f: Action) returns (actions: seq<Action>)
    ensures actions == [a, b, c, d, e, f]
    ensures Run(actions) == Step(Step(Step(Step(Step(Step(START, a), b), c), d), e), f)
  {
    actions := [] + [a] + [b] + [c] + [d] + [e] + [f];
    RunMore([], a);
    RunMore([] + [a], b);
    RunMore([] + [a] + [b], c);
    RunMore([] + [a] + [b] + [c], d);
    RunMore([] + [a] + [b] + [c] + [d], e);
    RunMore([] + [a] + [b] + [c] + [d] + [e], f);
  }

  /** unsubscribe_all up to the collected keys. */
  lemma AllStarts(w: World, n: nat, c: string)
    requires n !in w.ops
    ensures var d := Step(Step(w, Begin(n, All(c))), Continue(n));
            && d.ops == w.ops[n := Pending(c, Runs.KeysCollected(GroupsOf(w.ix.shared, c)))]
            && d.log == w.log + [ClearTree(c)] && d.ix.shared == w.ix.shared
  {
  }

  lemma AllEnds(w: World, n: nat, c: string, keys: set<GroupKey>)
    requires n in w.ops && w.ops[n] == Pending(c, Runs.KeysCollected(keys))
    ensures var d := Step(Step(w, Continue(n)), Continue(n));
            d.ops == w.ops - {n} && d.log == w.log + [LeaveKeys(c, keys), ListClear(c)]
  {
  }

  lemma SubStarts(w: World, n: nat, c: string, f: string, q: QoS)
    requires n !in w.ops && Accepted(f)
    ensures var d := Step(w, Begin(n, Sub(c, f, q)));
            && d.ops == w.ops[n := Pending(c, Runs.Attached(f, q))] && d.log == w.log + [Put(c, f, q)]
            && (ParseShared(f).Some? ==> ParseShared(f).value in GroupsOf(d.ix.shared, c))
  {
  }

  lemma SubEnds(w: World, n: nat, c: string, f: string, q: QoS)
    requires n in w.ops && w.ops[n] == Pending(c, Runs.Attached(f, q))
    ensures var d := Step(w, Continue(n));
            d.ops == w.ops - {n} && d.log == w.log + [ListPut(c, f, q)]
  {
  }

  /** A subscription that comes whole between two blocks of unsubscribe_all stays held and is not listed. */
  lemma HeldNotListed(c: string, f: string, q: QoS) returns (actions: seq<Action>)
    requires Accepted(f)
    ensures var w := Run(actions);
            && w.ops == map[] && Held(w.ix, c, f) == Some(q) && Listed(w.ix, c, f) == None
            && !Runs.Agree(w.ix)
  {
    actions := Six(Begin(0, All(c)), Continue(0), Begin(1, Sub(c, f, q)), Continue(1), Continue(0), Continue(0));
    AllStarts(START, 0, c);
    assert GroupsOf(START.ix.shared, c) == {};
    SubBetween(Step(Step(START, Begin(0, All(c))), Continue(0)), c, f, q);
    LastBlocksDecide(actions, c, f);
    HeldWords(Run(actions).log, c, f, q);
  }

  lemma SubBetween(w: World, c: string, f: string, q: QoS)
    requires Accepted(f) && w.ops == map[0 := Pending(c, Runs.KeysCollected({}))]
    ensures var d := Step(Step(Step(Step(w, Begin(1, Sub(c, f, q))), Continue(1)), Continue(0)), Continue(0));
            d.ops == map[] && d.log == w.log + [Put(c, f, q), ListPut(c, f, q), LeaveKeys(c, {}), ListClear(c)]
  {
    SubStarts(w, 1, c, f, q);
    var w1 := Step(w, Begin(1, Sub(c, f, q)));
    SubEnds(w1, 1, c, f, q);
    AllEnds(Step(w1, Continue(1)), 0, c, {});
  }

  lemma HeldWords(log: seq<Block>, c: string, f: string, q: QoS)
    requires log == [ClearTree(c), Put(c, f, q), ListPut(c, f, q), LeaveKeys(c, {}), ListClear(c)]
    ensures HeldLast(log, c, f) == Some(q) && ListedLast(log, c, f) == None
  {
    LastWordIs(log, b => HeldEffect(b, c, f), 1);
    LastWordIs(log, b => ListEffect(b, c, f), 4);
  }

  /** An unsubscribe_all that comes whole between the two blocks of a subscription leaves it listed and not held. */
  lemma ListedNotHeld(c: string, f: string, q: QoS) returns (actions: seq<Action>)
    requires Accepted(f)
    ensures var w := Run(actions);
            && w.ops == map[] && Held(w.ix, c, f) == None && Listed(w.ix, c, f) == Some(q)
            && !Runs.Agree(w.ix)
  {
    actions := Six(Begin(1, Sub(c, f, q)), Begin(0, All(c)), Continue(0), Continue(0), Continue(0), Continue(1));
    SubStarts(START, 1, c, f, q);
    var w1 := Step(START, Begin(1, Sub(c, f, q)));
    AllStarts(w1, 0, c);
    var w3 := Step(Step(w1, Begin(0, All(c))), Continue(0));
    AllEnds(w3, 0, c, GroupsOf(w1.ix.shared, c));
    SubEnds(Step(Step(w3, Continue(0)), Continue(0)), 1, c, f, q);
    LastBlocksDecide(actions, c, f);
    ListedWords(Run(actions).log, c, f, q, GroupsOf(w1.ix.shared, c));
  }

  lemma ListedWords(log: seq<Block>, c: string, f: string, q: QoS, keys: set<GroupKey>)
    requires log == [Put(c, f, q), ClearTree(c), LeaveKeys(c, keys), ListClear(c), ListPut(c, f, q)]
    requires ParseShared(f).Some? ==> ParseShared(f).value in keys
    ensures HeldLast(log, c, f) == None && ListedLast(log, c, f) == Some(q)
  {
    LastWordIs(log, b => HeldEffect(b, c, f), if ParseShared(f) == None then 1 else 2);
    LastWordIs(log, b => ListEffect(b, c, f), 4);
  }

  // ---------- operations of one client that do not overlap ----------

  /** The client has no operation in progress. */
  predicate Free(ops: map<nat, Pending>, c: string) {
    forall n :: n in ops ==> ops[n].c != c
  }

  /** An operation begins only when its client has none in progress. */
  predicate Alone(w: World, a: Action) {
    a.Begin? ==> Free(w.ops, a.op.c)
  }

  ghost predicate NoOverlap(actions: seq<Action>) {
    forall i :: 0 <= i < |actions| ==> Alone(Run(actions[..i]), actions[i])
  }

  /** The same index, and each client where its one operation is. */
  ghost predicate Mirrors(w: World, s: Runs.System) {
    && s.ix == w.ix
    && (forall n, m :: n in w.ops && m in w.ops && w.ops[n].c == w.ops[m].c ==> n == m)
    && (forall n :: n in w.ops ==> s.PhaseOf(w.ops[n].c) == w.ops[n].phase && w.ops[n].phase != Runs.Idle)
    && (forall c :: Free(w.ops, c) ==> s.PhaseOf(c) == Runs.Idle)
  }

  function BeginAction(op: Op): Runs.Action {
    match op
    case Sub(c, f, q) => Runs.BeginSubscribe(c, f, q)
    case Unsub(c, f) => Runs.BeginUnsubscribe(c, f)
    case All(c) => Runs.BeginUnsubscribeAll(c)
  }

  /** Moving one client's operation on, with the index changed alike on both sides. */
  lemma MirrorMove(w: World, s: Runs.System, n: nat, d: World, t: Runs.System, p: Pending)
    requires Mirrors(w, s) && d.ix == t.ix && p.phase != Runs.Idle
    requires if n in w.ops then w.ops[n].c == p.c else Free(w.ops, p.c)
    requires d.ops == w.ops[n := p] && t.phases == s.phases[p.c := p.phase]
    ensures Mirrors(d, t)
  {
    forall m | m in d.ops ensures t.PhaseOf(d.ops[m].c) == d.ops[m].phase && d.ops[m].phase != Runs.Idle {
      if m != n {
        assert m in w.ops && d.ops[m] == w.ops[m];
      }
    }
    forall c | Free(d.ops, c) ensures t.PhaseOf(c) == Runs.Idle {
      assert d.ops[n].c != c;
      forall m | m in w.ops ensures w.ops[m].c != c {
        assert m in d.ops;
      }
      assert Free(w.ops, c);
    }
  }

  lemma MirrorEnd(w: World, s: Runs.System, n: nat, d: World, t: Runs.System)
    requires Mirrors(w, s) && d.ix == t.ix && n in w.ops
    requires d.ops == w.ops - {n} && t.phases == s.phases[w.ops[n].c := Runs.Idle]
    ensures Mirrors(d, t)
  {
    forall m | m in d.ops ensures t.PhaseOf(d.ops[m].c) == d.ops[m].phase && d.ops[m].phase != Runs.Idle {
      assert m in w.ops && d.ops[m] == w.ops[m];
    }
    forall c | Free(d.ops, c) ensures t.PhaseOf(c) == Runs.Idle {
      if c != w.ops[n].c {
        forall m | m in w.ops ensures w.ops[m].c != c {
          assert m != n ==> m in d.ops;
        }
        assert Free(w.ops, c);
      }
    }
  }

  lemma MirrorBegin(w: World, s: Runs.System, n: nat, op: Op)
    requires Mirrors(w, s) && Alone(w, Begin(n, op)) && n !in w.ops
    ensures Mirrors(Step(w, Begin(n, op)), Runs.Step(s, BeginAction(op)))
  {
    var d, t := Step(w, Begin(n, op)), Runs.Step(s, BeginAction(op));
    assert s.PhaseOf(op.c) == Runs.Idle;
    if n in d.ops {
      MirrorMove(w, s, n, d, t, d.ops[n]);
    }
  }

  lemma MirrorContinue(w: World, s: Runs.System, n: nat)
    requires Mirrors(w, s) && n in w.ops
    ensures Mirrors(Step(w, Continue(n)), Runs.Step(s, Runs.Proceed(w.ops[n].c)))
  {
    var d, t := Step(w, Continue(n)), Runs.Step(s, Runs.Proceed(w.ops[n].c));
    assert s.PhaseOf(w.ops[n].c) == w.ops[n].phase;
    if n in d.ops {
      MirrorMove(w, s, n, d, t, d.ops[n]);
    } else {
      MirrorEnd(w, s, n, d, t);
    }
  }

  /** A run without overlap is a run with at most one operation per client. */
  lemma {:induction false} Mirrored(actions: seq<Action>) returns (single: seq<Runs.Action>)
    requires NoOverlap(actions)
    ensures Mirrors(Run(actions), Runs.Run(single))
  {
    single := [];
    if actions != [] {
      var k := |actions| - 1;
      var w, a := Run(actions[..k]), actions[k];
      forall i | 0 <= i < k ensures Alone(Run(actions[..k][..i]), actions[..k][i]) {
        assert actions[..k][..i] == actions[..i];
      }
      var before := Mirrored(actions[..k]);
      var more := MirrorStep(w, Runs.Run(before), a);
      assert actions == actions[..k] + [a];
      RunMore(actions[..k], a);
      single := if more == [] then before else before + [more[0]];
      SingleMore(before, more);
    } else {
      MirrorStart();
    }
  }

  lemma MirrorStart()
    ensures Mirrors(START, Runs.START)
  {
  }

  lemma SingleMore(before: seq<Runs.Action>, more: seq<Runs.Action>)
    requires |more| <= 1
    ensures Runs.Run(if more == [] then before else before + [more[0]])
            == if more == [] then Runs.Run(before) else Runs.Step(Runs.Run(before), more[0])
  {
    if more != [] {
      assert (before + [more[0]])[..|before|] == before;
    }
  }

  lemma MirrorStep(w: World, s: Runs.System, a: Action) returns (more: seq<Runs.Action>)
    requires Mirrors(w, s) && Alone(w, a)
    ensures |more| <= 1 && Mirrors(Step(w, a), if more == [] then s else Runs.Step(s, more[0]))
  {
    more := [];
    match a {
      case Begin(n, op) =>
        if n !in w.ops {
          MirrorBegin(w, s, n, op);
          more := [BeginAction(op)];
        }
      case Continue(n) =>
        if n in w.ops {
          MirrorContinue(w, s, n);
          more := [Runs.Proceed(w.ops[n].c)];
        }
      case Deliver(topic) =>
        more := [Runs.Action.Publish(topic)];
    }
  }

  /** Without overlap the structures agree whenever no operation is in progress. */
  lemma NoOverlapAgrees(actions: seq<Action>)
    requires NoOverlap(actions) && Run(actions).ops == map[]
    ensures Runs.Agree(Run(actions).ix) && SameWords(Run(actions).log)
  {
    var single := Mirrored(actions);
    var s := Runs.Run(single);
    assert Runs.Quiescent(s) by {
      forall c ensures s.PhaseOf(c) == Runs.Idle {
        assert Free(Run(actions).ops, c);
      }
    }
    Runs.QuiescentAgreement(single);
    AgreeIffLastBlocksAgree(actions);
  }
}
