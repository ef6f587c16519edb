/** Branches of the topic tree without subscribers: when they appear and when they do not. */
module SubscriptionPruning {
  import opened Basics
  import opened Packets
  import opened Topics
  import opened SubscriptionModel

  /** Some node at or below `p` has a subscriber. */
  ghost predicate Inhabited(t: Trie, p: Levels) {
    exists q :: q in t && p <= q && t[q] != map[]
  }

  ghost predicate NoDeadBranch(t: Trie) {
    forall p :: p in t && p != [] ==> Inhabited(t, p)
  }

  lemma {:induction false} AncestorPresent(t: Trie, p: Levels, q: Levels)
    requires Closed(t) && q in t && p <= q
    ensures p in t
    decreases |q|
  {
    if p != q {
      AncestorPresent(t, p, Parent(q));
    }
  }

  lemma InsertInhabits(t: Trie, path: Levels, c: string, q: QoS, r: Levels)
    requires r == path || At(t, r) != map[]
    ensures At(Insert(t, path, c, q), r) != map[]
  {
    InsertAt(t, path, c, q, r);
    assert c in At(t, path)[c := q];
  }

  lemma InsertKeepsLive(t: Trie, path: Levels, c: string, q: QoS)
    requires NoDeadBranch(t)
    ensures NoDeadBranch(Insert(t, path, c, q))
  {
    var u := Insert(t, path, c, q);
    forall p | p in u && p != [] ensures Inhabited(u, p) {
      InsertLive(t, path, c, q, p);
    }
  }

  lemma InsertLive(t: Trie, path: Levels, c: string, q: QoS, p: Levels)
    requires p <= path || (p in t && Inhabited(t, p))
    ensures Inhabited(Insert(t, path, c, q), p)
  {
    if p <= path {
      InsertInhabits(t, path, c, q, path);
    } else {
      var r :| r in t && p <= r && t[r] != map[];
      InsertInhabits(t, path, c, q, r);
    }
  }

  lemma RemoveInhabited(t: Trie, path: Levels, c: string, r: Levels)
    requires r in t && r != path && t[r] != map[]
    ensures r in Remove(t, path, c) && Remove(t, path, c)[r] != map[]
  {
    RemoveAt(t, path, c, r);
    assert At(Remove(t, path, c), r) == t[r];
  }

  /** A node that may not be pruned has a subscriber below it, on the removal path or beside it. */
  lemma NotPrunable(u: Trie, path: Levels, p: Levels) returns (r: Levels)
    requires p != [] && p <= path && !Prunable(u, path, 0, p)
    ensures r in u && p <= r && (!(r <= path) || u[r] != map[])
  {
    r :| r in u && p <= r && (!(r <= path) || u[r] != map[]);
  }

  lemma RemoveKeepsNode(t: Trie, path: Levels, c: string, p: Levels)
    requires NoDeadBranch(t) && c in At(t, path)
    requires p != [] && p <= path && !Prunable(t[path := t[path] - {c}], path, 0, p)
    ensures Inhabited(Remove(t, path, c), p)
  {
    var r := NotPrunable(t[path := t[path] - {c}], path, p);
    if r <= path {
      RemoveAt(t, path, c, r);
      assert At(Remove(t, path, c), r) != map[];
    } else {
      assert r in t && r != [] && Inhabited(t, r);
      var s :| s in t && r <= s && t[s] != map[];
      RemoveInhabited(t, path, c, s);
      assert p <= s;
    }
  }

  lemma RemoveKeepsLive(t: Trie, path: Levels, c: string)
    requires NoDeadBranch(t)
    ensures NoDeadBranch(Remove(t, path, c))
  {
    if c in At(t, path) {
      var v := Remove(t, path, c);
      forall p | p in v && p != [] ensures Inhabited(v, p) {
        if p <= path {
          RemoveKeepsNode(t, path, c, p);
        } else {
          assert Inhabited(t, p);
          var r :| r in t && p <= r && t[r] != map[];
          RemoveInhabited(t, path, c, r);
        }
      }
    }
  }

  /** A tree without dead branches is determined by who subscribes where. */
  lemma DeterminedBySubscribers(t: Trie, u: Trie)
    requires Closed(t) && Closed(u) && NoDeadBranch(t) && NoDeadBranch(u)
    requires forall p :: At(t, p) == At(u, p)
    ensures t == u
  {
    forall p ensures p in t <==> p in u {
      if p in t && p != [] {
        var q :| q in t && p <= q && t[q] != map[];
        assert At(u, q) == At(t, q);
        AncestorPresent(u, p, q);
      }
      if p in u && p != [] {
        var q :| q in u && p <= q && u[q] != map[];
        assert At(t, q) == At(u, q);
        AncestorPresent(t, p, q);
      }
    }
    assert forall p :: p in t ==> At(t, p) == At(u, p);
  }

  /**
   * A fresh subscription followed by its removal gives back the identical tree exactly when the tree had no dead
   * branch along that path: the removal prunes such a branch together with what the subscription added.
   */
  lemma SubscribeThenUnsubscribe(t: Trie, path: Levels, c: string, q: QoS)
    requires Closed(t) && c !in At(t, path)
    ensures Remove(Insert(t, path, c, q), path, c) == t <==>
            forall p :: p in t && p != [] && p <= path ==> !Prunable(t, path, 0, p)
  {
    var g := Grow(t, path);
    var i := Insert(t, path, c, q);
    assert i[path] - {c} == At(t, path);
    assert i[path := i[path] - {c}] == g;
    assert Remove(i, path, c) == Prune(g, path, 0);
    forall p | p in g ensures Prunable(g, path, 0, p) <==> p != [] && (p !in t || Prunable(t, path, 0, p)) {
      GrownPrunable(t, path, p);
    }
    PruneOfGrown(t, path);
  }

  /** What was grown is prunable, and growing makes nothing else prunable. */
  lemma GrownPrunable(t: Trie, path: Levels, p: Levels)
    requires Closed(t) && p in Grow(t, path)
    ensures Prunable(Grow(t, path), path, 0, p) <==> p != [] && (p !in t || Prunable(t, path, 0, p))
  {
    var g := Grow(t, path);
    forall s | s in t && p <= s ensures p in t { AncestorPresent(t, p, s); }
    assert forall s :: s in t ==> s in g && g[s] == t[s];
    assert forall s :: s in g && s !in t ==> s <= path && g[s] == map[];
  }

  lemma PruneOfGrown(t: Trie, path: Levels)
    requires [] in t
    requires forall p :: p in Grow(t, path) ==>
               (Prunable(Grow(t, path), path, 0, p) <==> p != [] && (p !in t || Prunable(t, path, 0, p)))
    ensures Prune(Grow(t, path), path, 0) == t <==>
            forall p :: p in t && p != [] && p <= path ==> !Prunable(t, path, 0, p)
  {
    var g := Grow(t, path);
    var r := Prune(g, path, 0);
    forall p | p in r ensures p in t && r[p] == t[p] {
      assert p in g && !Prunable(g, path, 0, p);
    }
    forall p | p in t ensures p in r <==> p == [] || !Prunable(t, path, 0, p) {
      assert p in g;
    }
  }

  /** Forgetting a client everywhere leaves no dead branch exactly when every node has somebody else below it. */
  lemma RemoveEverywhereKeepsLive(t: Trie, c: string)
    ensures NoDeadBranch(RemoveEverywhere(t, c)) <==>
            forall p :: p in t && p != [] ==> exists q, d :: q in t && p <= q && d in t[q] && d != c
  {
    var u := RemoveEverywhere(t, c);
    forall p | p in t
      ensures Inhabited(u, p) <==> exists q, d :: q in t && p <= q && d in t[q] && d != c
    {
      if Inhabited(u, p) {
        var q :| q in u && p <= q && u[q] != map[];
        var d :| d in u[q];
        assert d in t[q] && d != c;
      }
      if q, d :| q in t && p <= q && d in t[q] && d != c {
        assert d in u[q];
      }
    }
  }
}
