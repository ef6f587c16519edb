/**
 * The topic tree in memory, changed in place. A node is addressed by the path that leads to it; it records which
 * levels have a child and who subscribes there. Each method is proved against the function of SubscriptionModel that
 * says what it does to the map from paths to subscribers.
 */
module TopicTree {
  import opened Basics
  import opened Packets
  import opened Topics
  import opened SubscriptionModel
  import opened SubscriptionPruning

  /** `+` and `#` have slots of their own. */
  datatype Node = Node(children: set<string>, plusChild: bool, hashChild: bool, subscribers: Subscribers) {
    predicate HasChild(level: string) {
      if level == "+" then plusChild else if level == "#" then hashChild else level in children
    }

    function SetChild(level: string, present: bool): Node {
      if level == "+" then this.(plusChild := present)
      else if level == "#" then this.(hashChild := present)
      else this.(children := if present then children + {level} else children - {level})
    }

    predicate IsEmpty() {
      subscribers == map[] && children == {} && !plusChild && !hashChild
    }

    ghost predicate Proper() {
      "+" !in children && "#" !in children
    }
  }

  const EMPTY_NODE := Node({}, false, false, map[])

  type Nodes = map<Levels, Node>

  /** A node has a child at a level exactly when the path one level longer has a node. */
  ghost predicate WellLinked(nodes: Nodes) {
    && [] in nodes
    && (forall p {:trigger Parent(p)} :: p in nodes ==> Parent(p) in nodes)
    && (forall p :: p in nodes ==> nodes[p].Proper())
    && (forall p, s {:trigger nodes[p].HasChild(s)} :: p in nodes ==> (nodes[p].HasChild(s) <==> p + [s] in nodes))
  }

  ghost function PathsOf(nodes: Nodes): Trie {
    map p | p in nodes :: nodes[p].subscribers
  }

  // ---------- facts about paths ----------

  lemma GrowStep(t: Trie, path: Levels, i: nat)
    requires i < |path|
    ensures Grow(t, path[..i + 1]) ==
            if path[..i + 1] in Grow(t, path[..i]) then Grow(t, path[..i])
            else Grow(t, path[..i])[path[..i + 1] := map[]]
  {
    forall p ensures p in Prefixes(path[..i + 1]) <==> p in Prefixes(path[..i]) || p == path[..i + 1] {
      if p <= path[..i + 1] && p != path[..i + 1] {
        assert p == path[..|p|];
        assert p == path[..i][..|p|];
      }
    }
  }

  /** No node lies strictly below `q`. */
  ghost predicate Leaf(t: Trie, q: Levels) {
    forall r :: r in t && q <= r ==> r == q
  }

  lemma PrunableStep(t: Trie, path: Levels, idx: nat, p: Levels)
    requires idx < |path|
    ensures Prunable(t, path, idx, p) <==>
            Prunable(t, path, idx + 1, p) || (p == path[..idx + 1] && Prunable(t, path, idx, p))
  {
    if Prunable(t, path, idx, p) && |p| == idx + 1 {
      assert p == path[..|p|];
    }
  }

  /** Pruning to one level less drops that level's node exactly when it has become an empty leaf. */
  lemma PruneStep(t: Trie, path: Levels, idx: nat)
    requires idx < |path| && path in t
    requires path[..idx + 1] in t
    ensures var q := path[..idx + 1]; var v := Prune(t, path, idx + 1);
            q in v && Prune(t, path, idx) == if v[q] == map[] && Leaf(v, q) then v - {q} else v
  {
    var q := path[..idx + 1];
    var v := Prune(t, path, idx + 1);
    var w := Prune(t, path, idx);
    forall p ensures Prunable(t, path, idx, p) <==> Prunable(t, path, idx + 1, p) || (p == q && Prunable(t, path, idx, q)) {
      PrunableStep(t, path, idx, p);
    }
    LeafIffPrunable(t, path, idx);
  }

  lemma LeafIffPrunable(t: Trie, path: Levels, idx: nat)
    requires idx < |path|
    requires path[..idx + 1] in t
    ensures var q := path[..idx + 1]; var v := Prune(t, path, idx + 1);
            Prunable(t, path, idx, q) <==> v[q] == map[] && Leaf(v, q)
  {
    var q := path[..idx + 1];
    var v := Prune(t, path, idx + 1);
    if Prunable(t, path, idx, q) {
      forall r | r in v && q <= r ensures r == q {
        if r != q {
          assert |r| > idx + 1;
          assert forall s :: s in t && r <= s ==> q <= s;
          assert Prunable(t, path, idx + 1, r);
        }
      }
    }
    if v[q] == map[] && Leaf(v, q) {
      forall r | r in t && q <= r ensures r <= path && t[r] == map[] {
        if r != q {
          assert r !in v;
        }
      }
    }
  }

  /** The walk for topic levels `ts` from the node at `path` reaches a subscription of `c` at QoS `q`. */
  ghost predicate ReachedBelow(t: Trie, path: Levels, ts: Levels, c: string, q: QoS) {
    exists p :: p in t && path <= p && WalkMatches(ts, p[|path|..]) && c in t[p] && t[p][c] == q
  }

  ghost predicate SubscribedAt(t: Trie, p: Levels, c: string, q: QoS) {
    p in t && c in t[p] && t[p][c] == q
  }

  lemma ReachHere(t: Trie, path: Levels, ts: Levels, p: Levels, c: string, q: QoS)
    requires SubscribedAt(t, p, c, q)
    requires p == path + ["#"] || (ts == [] && p == path)
    ensures ReachedBelow(t, path, ts, c, q)
  {
    assert path <= p && WalkMatches(ts, p[|path|..]);
  }

  lemma ReachDeeper(t: Trie, path: Levels, ts: Levels, level: string, c: string, q: QoS)
    requires ts != [] && level != "#" && LevelMatches(level, ts[0])
    requires ReachedBelow(t, path + [level], ts[1..], c, q)
    ensures ReachedBelow(t, path, ts, c, q)
  {
    var p :| p in t && path + [level] <= p && WalkMatches(ts[1..], p[|path + [level]|..]) && c in t[p] && t[p][c] == q;
    var fs := p[|path|..];
    assert fs[0] == level && fs[1..] == p[|path + [level]|..];
    assert path <= p && WalkMatches(ts, fs);
  }

  /** One step of the walk: the `#` slot, the node itself at the end of the topic, else the two ways down. */
  lemma ReachCases(t: Trie, path: Levels, ts: Levels, c: string, q: QoS)
    requires ReachedBelow(t, path, ts, c, q)
    ensures || SubscribedAt(t, path + ["#"], c, q)
            || (ts == [] && SubscribedAt(t, path, c, q))
            || (ts != [] && ts[0] != "#" && ReachedBelow(t, path + [ts[0]], ts[1..], c, q))
            || (ts != [] && ReachedBelow(t, path + ["+"], ts[1..], c, q))
  {
    var p :| p in t && path <= p && WalkMatches(ts, p[|path|..]) && c in t[p] && t[p][c] == q;
    var fs := p[|path|..];
    assert p == path + fs;
    if fs == ["#"] {
    } else if ts == [] || fs == [] {
      assert p == path;
    } else {
      var down := path + [fs[0]];
      assert down <= p && p[|down|..] == fs[1..];
      assert ReachedBelow(t, down, ts[1..], c, q);
    }
  }

  ghost predicate OneStep(t: Trie, path: Levels, ts: Levels, c: string, q: QoS) {
    || SubscribedAt(t, path + ["#"], c, q)
    || (ts == [] && SubscribedAt(t, path, c, q))
    || (ts != [] && ts[0] != "#" && ts[0] != "+" && ReachedBelow(t, path + [ts[0]], ts[1..], c, q))
    || (ts != [] && ReachedBelow(t, path + ["+"], ts[1..], c, q))
  }

  lemma ReachUnfolds(t: Trie, path: Levels, ts: Levels, c: string, q: QoS)
    ensures ReachedBelow(t, path, ts, c, q) <==> OneStep(t, path, ts, c, q)
  {
    if ReachedBelow(t, path, ts, c, q) {
      ReachCases(t, path, ts, c, q);
    }
    if SubscribedAt(t, path + ["#"], c, q) {
      ReachHere(t, path, ts, path + ["#"], c, q);
    } else if ts == [] && SubscribedAt(t, path, c, q) {
      ReachHere(t, path, ts, path, c, q);
    } else if ts != [] && ReachedBelow(t, path + ["+"], ts[1..], c, q) {
      ReachDeeper(t, path, ts, "+", c, q);
    } else if ts != [] && ts[0] != "#" && ReachedBelow(t, path + [ts[0]], ts[1..], c, q) {
      ReachDeeper(t, path, ts, ts[0], c, q);
    }
  }

  lemma NotReached(t: Trie, path: Levels, ts: Levels)
    requires Closed(t) && path !in t
    ensures forall c, q :: !ReachedBelow(t, path, ts, c, q)
  {
    forall p | p in t && path <= p ensures false { AncestorPresent(t, path, p); }
  }

  // ---------- linking and unlinking ----------

  lemma ParentOf(path: Levels, level: string)
    ensures Parent(path + [level]) == path
  {
    assert (path + [level])[..|path|] == path;
  }

  function Linked(nodes: Nodes, path: Levels, level: string): Nodes
    requires path in nodes
  {
    nodes[path := nodes[path].SetChild(level, true)][path + [level] := EMPTY_NODE]
  }

  lemma LinkBelow(nodes: Nodes, path: Levels, level: string)
    requires WellLinked(nodes) && path in nodes && path + [level] !in nodes
    ensures WellLinked(Linked(nodes, path, level))
    ensures PathsOf(Linked(nodes, path, level)) == PathsOf(nodes)[path + [level] := map[]]
  {
    var nodes' := Linked(nodes, path, level);
    var down := path + [level];
    ParentOf(path, level);
    forall p, s | p in nodes' ensures nodes'[p].HasChild(s) <==> p + [s] in nodes' {
      ParentOf(p, s);
      assert (p + [s])[|p|] == s;
      assert p == down ==> (p + [s] in nodes ==> Parent(p + [s]) in nodes);
      assert p != down ==> (nodes[p].HasChild(s) <==> p + [s] in nodes);
    }
  }

  function Unlinked(nodes: Nodes, path: Levels, level: string): Nodes
    requires path in nodes
  {
    nodes[path := nodes[path].SetChild(level, false)] - {path + [level]}
  }

  lemma UnlinkBelow(nodes: Nodes, path: Levels, level: string)
    requires WellLinked(nodes) && path in nodes && path + [level] in nodes && nodes[path + [level]].IsEmpty()
    ensures WellLinked(Unlinked(nodes, path, level))
    ensures PathsOf(Unlinked(nodes, path, level)) == PathsOf(nodes) - {path + [level]}
  {
    var nodes' := Unlinked(nodes, path, level);
    var down := path + [level];
    ParentOf(path, level);
    assert forall s :: !nodes[down].HasChild(s);
    forall p | p in nodes' ensures Parent(p) in nodes' {
      assert Parent(p) in nodes;
      assert p != [] ==> p == Parent(p) + [p[|p| - 1]];
      assert p != [] ==> nodes[Parent(p)].HasChild(p[|p| - 1]);
    }
    forall p, s | p in nodes' ensures nodes'[p].HasChild(s) <==> p + [s] in nodes' {
      ParentOf(p, s);
      assert (p + [s])[|p|] == s;
      assert nodes[p].HasChild(s) <==> p + [s] in nodes;
    }
  }

  function Relabelled(nodes: Nodes, path: Levels, subs: Subscribers): Nodes
    requires path in nodes
  {
    nodes[path := nodes[path].(subscribers := subs)]
  }

  lemma Relabel(nodes: Nodes, path: Levels, subs: Subscribers)
    requires WellLinked(nodes) && path in nodes
    ensures WellLinked(Relabelled(nodes, path, subs))
    ensures PathsOf(Relabelled(nodes, path, subs)) == PathsOf(nodes)[path := subs]
  {
    var nodes' := Relabelled(nodes, path, subs);
    forall p, s | p in nodes' ensures nodes'[p].HasChild(s) <==> p + [s] in nodes' {
      assert nodes[p].HasChild(s) <==> p + [s] in nodes;
    }
  }

  lemma PathsClosed(nodes: Nodes)
    requires WellLinked(nodes)
    ensures Closed(PathsOf(nodes))
  {
  }

  lemma DescendantThroughChild(nodes: Nodes, q: Levels, r: Levels)
    requires WellLinked(nodes) && r in nodes && q <= r && q != r
    ensures q in nodes && q + [r[|q|]] in nodes && nodes[q].HasChild(r[|q|])
  {
    PathsClosed(nodes);
    AncestorPresent(PathsOf(nodes), q, r);
    assert r[..|q| + 1] == q + [r[|q|]];
    AncestorPresent(PathsOf(nodes), q + [r[|q|]], r);
  }

  /** A node without children is a leaf of the tree. */
  lemma EmptyIsLeaf(nodes: Nodes, q: Levels)
    requires WellLinked(nodes) && q in nodes
    ensures nodes[q].IsEmpty() <==> nodes[q].subscribers == map[] && Leaf(PathsOf(nodes), q)
  {
    PathsClosed(nodes);
    if nodes[q].IsEmpty() {
      forall r | r in nodes && q <= r ensures r == q {
        if r != q {
          DescendantThroughChild(nodes, q, r);
        }
      }
    } else if nodes[q].subscribers == map[] {
      var level := "+";
      if !nodes[q].plusChild {
        level := "#";
        if !nodes[q].hashChild {
          level := AnElement(nodes[q].children);
        }
      }
      assert nodes[q].HasChild(level);
      assert q + [level] in PathsOf(nodes) && q <= q + [level];
    }
  }

  // ---------- parts of the tree ----------

  /** The nodes at or below a path. */
  ghost function Below(t: Trie, path: Levels): set<Levels> {
    set p | p in t && path <= p
  }

  /** The nodes below a path whose next level is one of `levels`. */
  ghost function BelowLevels(t: Trie, path: Levels, levels: set<string>): set<Levels> {
    set p | p in t && path <= p && path != p && p[|path|] in levels
  }

  lemma BelowOneMore(t: Trie, path: Levels, levels: set<string>, level: string)
    requires level !in levels
    ensures BelowLevels(t, path, levels + {level}) == BelowLevels(t, path, levels) + Below(t, path + [level])
    ensures BelowLevels(t, path, levels) !! Below(t, path + [level])
    ensures path !in BelowLevels(t, path, levels + {level})
  {
    forall p ensures path + [level] <= p <==> path <= p && path != p && p[|path|] == level {
      if path <= p && path != p && p[|path|] == level {
        assert p[..|path| + 1] == path + [level];
      }
    }
  }

  ghost function ChildLevels(node: Node): set<string> {
    node.children + (if node.plusChild then {"+"} else {}) + (if node.hashChild then {"#"} else {})
  }

  lemma BelowIsChildren(nodes: Nodes, path: Levels)
    requires WellLinked(nodes) && path in nodes
    ensures Below(PathsOf(nodes), path) == {path} + BelowLevels(PathsOf(nodes), path, ChildLevels(nodes[path]))
  {
    forall p | p in nodes && path <= p && p != path ensures p[|path|] in ChildLevels(nodes[path]) {
      DescendantThroughChild(nodes, path, p);
    }
  }

  lemma BelowShrinks(t: Trie, path: Levels, level: string)
    requires path in t
    ensures Below(t, path + [level]) < Below(t, path)
  {
    assert path in Below(t, path) && path !in Below(t, path + [level]);
  }

  /** Forget a client at the given nodes. */
  ghost function Cleared(t: Trie, where: set<Levels>, client: string): Trie {
    map p | p in t :: if p in where then t[p] - {client} else t[p]
  }

  ghost predicate SameShape(a: Nodes, b: Nodes) {
    a.Keys == b.Keys
    && forall p :: p in a ==> a[p].(subscribers := map[]) == b[p].(subscribers := map[])
  }

  lemma ClearedTwice(t: Trie, a: set<Levels>, b: set<Levels>, client: string)
    ensures Cleared(Cleared(t, a, client), b, client) == Cleared(t, a + b, client)
  {
    assert forall p :: p in t ==> t[p] - {client} - {client} == t[p] - {client};
  }

  /** The subscriptions at the given nodes. */
  ghost function PairsIn(t: Trie, where: set<Levels>): set<(Levels, string)> {
    set p, c | p in t && p in where && c in t[p] :: (p, c)
  }

  lemma PairsSplit(t: Trie, a: set<Levels>, b: set<Levels>)
    requires a !! b
    ensures |PairsIn(t, a + b)| == |PairsIn(t, a)| + |PairsIn(t, b)|
  {
    assert PairsIn(t, a + b) == PairsIn(t, a) + PairsIn(t, b);
    assert PairsIn(t, a) !! PairsIn(t, b);
  }

  lemma PairsAtNode(t: Trie, p: Levels)
    requires p in t
    ensures |PairsIn(t, {p})| == |t[p]|
  {
    InjectiveImageSize(t[p].Keys, PairsIn(t, {p}), c => (p, c));
  }

  // ---------- the tree ----------

  class Tree {
    var nodes: Nodes

    ghost predicate Valid()
      reads this
    {
      WellLinked(nodes)
    }

    ghost function Paths(): Trie
      reads this
    {
      PathsOf(nodes)
    }

    constructor ()
      ensures Valid() && Paths() == EMPTY_TRIE
    {
      nodes := map[[] := EMPTY_NODE];
    }

    lemma WellRooted()
      requires Valid()
      ensures [] in nodes && Closed(Paths())
    {
    }

    /** The child of a node for one level, created if missing. */
    method ChildForLevel(path: Levels, level: string) returns (child: Levels)
      requires Valid() && path in nodes
      modifies this
      ensures Valid() && child == path + [level] && child in nodes
      ensures Paths() == if child in old(Paths()) then old(Paths()) else old(Paths())[child := map[]]
    {
      child := path + [level];
      if !nodes[path].HasChild(level) {
        LinkBelow(nodes, path, level);
        nodes := Linked(nodes, path, level);
      }
    }

    /** Walk down the levels of a filter, creating what is missing, and record the subscriber at the end. */
    method Subscribe(levels: Levels, client: string, qos: QoS)
      requires Valid()
      modifies this
      ensures Valid() && Paths() == Insert(old(Paths()), levels, client, qos)
    {
      var node: Levels := [];
      assert Paths() == Grow(old(Paths()), levels[..0]);
      for i := 0 to |levels|
        invariant Valid() && node == levels[..i] && node in nodes
        invariant Paths() == Grow(old(Paths()), levels[..i])
      {
        GrowStep(old(Paths()), levels, i);
        node := ChildForLevel(node, levels[i]);
      }
      assert levels[..|levels|] == levels;
      AddSubscriber(node, client, qos);
    }

    method AddSubscriber(path: Levels, client: string, qos: QoS)
      requires Valid() && path in nodes
      modifies this
      ensures Valid() && Paths() == old(Paths())[path := old(Paths())[path][client := qos]]
    {
      Relabel(nodes, path, nodes[path].subscribers[client := qos]);
      nodes := Relabelled(nodes, path, nodes[path].subscribers[client := qos]);
    }

    /** Append the subscribers of one node to the hits found so far. */
    static method Push(subs: Subscribers, out: seq<(string, QoS)>) returns (out': seq<(string, QoS)>)
      ensures forall c, q :: (c, q) in out' <==> (c, q) in out || (c in subs && subs[c] == q)
    {
      out' := out;
      var ids := subs.Keys;
      while ids != {}
        invariant ids <= subs.Keys
        invariant forall c, q :: (c, q) in out' <==> (c, q) in out || (c in subs && c !in ids && subs[c] == q)
      {
        var id :| id in ids;
        out' := out' + [(id, subs[id])];
        ids := ids - {id};
      }
    }

    /** Collect the subscriptions that the rest of a topic reaches from the node at `path`. */
    method CollectMatches(path: Levels, ts: Levels, idx: nat, out: seq<(string, QoS)>)
      returns (out': seq<(string, QoS)>)
      requires Valid() && path in nodes && idx <= |ts|
      ensures forall c, q :: (c, q) in out' <==> (c, q) in out || ReachedBelow(Paths(), path, ts[idx..], c, q)
      decreases |ts| - idx
    {
      var node := nodes[path];
      ghost var t, rest := Paths(), ts[idx..];
      PathsClosed(nodes);
      forall c, q ensures ReachedBelow(t, path, rest, c, q) <==> OneStep(t, path, rest, c, q) {
        ReachUnfolds(t, path, rest, c, q);
      }
      out' := out;
      assert node.HasChild("#") <==> path + ["#"] in nodes;
      if node.hashChild {
        out' := Push(nodes[path + ["#"]].subscribers, out');
      }
      assert forall c, q :: (c, q) in out' <==> (c, q) in out || SubscribedAt(t, path + ["#"], c, q);
      if idx == |ts| {
        out' := Push(node.subscribers, out');
      } else {
        var level := ts[idx];
        assert rest[0] == level && rest[1..] == ts[idx + 1..];
        assert node.HasChild(level) <==> path + [level] in nodes;
        assert node.HasChild("+") <==> path + ["+"] in nodes;
        if level in node.children {
          out' := CollectMatches(path + [level], ts, idx + 1, out');
        } else if level != "+" && level != "#" {
          NotReached(t, path + [level], rest[1..]);
        }
        if node.plusChild {
          out' := CollectMatches(path + ["+"], ts, idx + 1, out');
        } else {
          NotReached(t, path + ["+"], rest[1..]);
        }
      }
    }

    /** Remove a subscriber and, on the way back up, the nodes left without subscribers and children. */
    method RemoveRecursive(path: Levels, levels: Levels, idx: nat, client: string) returns (removed: bool)
      requires Valid() && idx <= |levels| && path == levels[..idx] && path in nodes
      modifies this
      ensures Valid() && removed == (client in At(old(Paths()), levels))
      ensures Paths() == RemoveTo(old(Paths()), levels, client, idx)
      decreases |levels| - idx
    {
      ghost var t := Paths();
      if idx == |levels| {
        assert path == levels;
        removed := client in nodes[path].subscribers;
        if removed {
          Relabel(nodes, path, nodes[path].subscribers - {client});
          nodes := Relabelled(nodes, path, nodes[path].subscribers - {client});
          assert Prune(Paths(), levels, idx) == Paths();
        }
        return;
      }
      var level := levels[idx];
      var down := path + [level];
      assert down == levels[..idx + 1];
      assert nodes[path].HasChild(level) <==> down in nodes;
      if !nodes[path].HasChild(level) {
        PathsClosed(nodes);
        if levels in t {
          AncestorPresent(t, down, levels);
        }
        return false;
      }
      removed := RemoveRecursive(down, levels, idx + 1, client);
      if removed {
        PruneStep(t[levels := t[levels] - {client}], levels, idx);
        EmptyIsLeaf(nodes, down);
        assert Parent(down) == path by { ParentOf(path, level); }
        if nodes[down].IsEmpty() {
          UnlinkBelow(nodes, path, level);
          nodes := Unlinked(nodes, path, level);
        }
      }
    }

    /** How far the removal of a client below `path` has come, starting from `start`. */
    ghost predicate ClearedSoFar(start: Nodes, path: Levels, done: set<string>, client: string)
      reads this
    {
      && WellLinked(start) && path in start && SameShape(start, nodes) && Valid()
      && Paths() == Cleared(PathsOf(start), {path} + BelowLevels(PathsOf(start), path, done), client)
    }

    method RemoveAllChild(path: Levels, level: string, client: string, ghost done: set<string>, ghost start: Nodes)
      requires ClearedSoFar(start, path, done, client) && start[path].HasChild(level) && level !in done
      modifies this
      ensures ClearedSoFar(start, path, done + {level}, client)
      decreases Below(Paths(), path), 0
    {
      ghost var t := PathsOf(start);
      var down := path + [level];
      BelowShrinks(Paths(), path, level);
      BelowOneMore(t, path, done, level);
      assert Below(Paths(), down) == Below(t, down);
      ClearedTwice(t, {path} + BelowLevels(t, path, done), Below(t, down), client);
      assert {path} + BelowLevels(t, path, done) + Below(t, down) == {path} + BelowLevels(t, path, done + {level});
      RemoveAll(down, client);
    }

    method RemoveAllChildren(path: Levels, levels: set<string>, client: string, ghost start: Nodes)
      requires ClearedSoFar(start, path, {}, client)
      requires forall s :: s in levels ==> start[path].HasChild(s)
      modifies this
      ensures ClearedSoFar(start, path, levels, client)
      decreases Below(Paths(), path), 1
    {
      var todo := levels;
      ghost var done: set<string> := {};
      while todo != {}
        invariant ClearedSoFar(start, path, done, client)
        invariant done + todo == levels && done !! todo
      {
        var level :| level in todo;
        assert Below(Paths(), path) == Below(PathsOf(start), path);
        RemoveAllChild(path, level, client, done, start);
        todo, done := todo - {level}, done + {level};
      }
      assert done == levels;
    }

    lemma StartClearing(start: Nodes, path: Levels, client: string)
      requires WellLinked(start) && path in start
      requires nodes == Relabelled(start, path, start[path].subscribers - {client})
      ensures ClearedSoFar(start, path, {}, client)
    {
      Relabel(start, path, start[path].subscribers - {client});
      assert {path} + BelowLevels(PathsOf(start), path, {}) == {path};
    }

    /** Forget a client at a node and everywhere below; nothing is pruned. */
    method RemoveAll(path: Levels, client: string)
      requires Valid() && path in nodes
      modifies this
      ensures Valid() && SameShape(old(nodes), nodes)
      ensures Paths() == Cleared(old(Paths()), Below(old(Paths()), path), client)
      decreases Below(Paths(), path), 2
    {
      ghost var start := nodes;
      BelowIsChildren(nodes, path);
      var node := nodes[path];
      nodes := Relabelled(nodes, path, nodes[path].subscribers - {client});
      StartClearing(start, path, client);
      ghost var done := node.children;
      assert Below(Paths(), path) == Below(PathsOf(start), path);
      RemoveAllChildren(path, node.children, client, start);
      assert Below(Paths(), path) == Below(PathsOf(start), path);
      if node.plusChild {
        RemoveAllChild(path, "+", client, done, start);
        done := done + {"+"};
      }
      assert Below(Paths(), path) == Below(PathsOf(start), path);
      if node.hashChild {
        RemoveAllChild(path, "#", client, done, start);
        done := done + {"#"};
      }
      assert done == ChildLevels(node);
    }

    /** `n` counts the subscriptions at `path` and below its children at the levels `done`. */
    ghost predicate CountedSoFar(path: Levels, done: set<string>, n: nat)
      reads this
    {
      n == |PairsIn(Paths(), {path} + BelowLevels(Paths(), path, done))|
    }

    method CountChild(path: Levels, level: string, n: nat, ghost done: set<string>) returns (n': nat)
      requires Valid() && path in nodes && nodes[path].HasChild(level) && level !in done
      requires CountedSoFar(path, done, n)
      ensures CountedSoFar(path, done + {level}, n')
      decreases Below(Paths(), path), 0
    {
      BelowShrinks(Paths(), path, level);
      CountOneMore(Paths(), path, done, level);
      var m := CountSubscribers(path + [level]);
      n' := n + m;
    }

    method CountChildren(path: Levels, n: nat) returns (n': nat)
      requires Valid() && path in nodes && CountedSoFar(path, {}, n)
      ensures CountedSoFar(path, nodes[path].children, n')
      decreases Below(Paths(), path), 1
    {
      n' := n;
      var todo := nodes[path].children;
      ghost var done: set<string> := {};
      while todo != {}
        invariant done + todo == nodes[path].children && done !! todo
        invariant CountedSoFar(path, done, n')
      {
        var level :| level in todo;
        n' := CountChild(path, level, n', done);
        todo, done := todo - {level}, done + {level};
      }
      assert done == nodes[path].children;
    }

    method CountWildcards(path: Levels, n: nat) returns (n': nat)
      requires Valid() && path in nodes && CountedSoFar(path, nodes[path].children, n)
      ensures CountedSoFar(path, ChildLevels(nodes[path]), n')
      decreases Below(Paths(), path), 1
    {
      n' := n;
      ghost var done := nodes[path].children;
      if nodes[path].plusChild {
        n' := CountChild(path, "+", n', done);
        done := done + {"+"};
      }
      if nodes[path].hashChild {
        n' := CountChild(path, "#", n', done);
        done := done + {"#"};
      }
      assert done == ChildLevels(nodes[path]);
    }

    lemma CountStart(path: Levels)
      requires path in nodes
      ensures CountedSoFar(path, {}, |nodes[path].subscribers|)
    {
      PairsAtNode(Paths(), path);
      assert {path} + BelowLevels(Paths(), path, {}) == {path};
    }

    /** Count the subscriptions at a node and below. */
    method CountSubscribers(path: Levels) returns (n: nat)
      requires Valid() && path in nodes
      ensures n == |PairsIn(Paths(), Below(Paths(), path))|
      decreases Below(Paths(), path), 2
    {
      n := |nodes[path].subscribers|;
      CountStart(path);
      n := CountChildren(path, n);
      n := CountWildcards(path, n);
      BelowIsChildren(nodes, path);
    }
  }

  lemma CountOneMore(t: Trie, path: Levels, done: set<string>, level: string)
    requires level !in done
    ensures |PairsIn(t, {path} + BelowLevels(t, path, done + {level}))| ==
            |PairsIn(t, {path} + BelowLevels(t, path, done))| + |PairsIn(t, Below(t, path + [level]))|
  {
    BelowOneMore(t, path, done, level);
    assert path !in Below(t, path + [level]);
    PairsSplit(t, {path} + BelowLevels(t, path, done), Below(t, path + [level]));
    assert {path} + BelowLevels(t, path, done) + Below(t, path + [level])
        == {path} + BelowLevels(t, path, done + {level});
  }
}
