/**
 * Identifiers 1..limit handed out in cyclic order. MQTT packet identifiers use limit 65535, MQTT-SN topic identifiers use
 * limit 65534; both allocators are a bounded search from a moving cursor.
 */
module CyclicIds {
  import opened Arithmetic
  import Basics

  function Succ(p: int, limit: int): int {
    if p >= limit then 1 else p + 1
  }

  /** Try at most `tries` identifiers from `next`; yields the one found (0 stands for none) and the new cursor. */
  function Search(next: int, used: set<int>, tries: nat, limit: int): (r: (int, int))
    ensures 0 <= next <= limit && 1 <= limit ==> 0 <= r.0 <= limit && 0 <= r.1 <= limit
    decreases tries
  {
    if tries == 0 then (0, next)
    else if next != 0 && next !in used then (next, Succ(next, limit))
    else Search(Succ(next, limit), used, tries - 1, limit)
  }

  predicate IsId(p: int, limit: int) {
    1 <= p <= limit
  }

  /** The identifier reached from `next` after k steps. */
  function Nth(next: int, k: nat, limit: int): int
    requires IsId(next, limit)
  {
    (next - 1 + k) % limit + 1
  }

  lemma NthStep(next: int, k: nat, limit: int)
    requires IsId(next, limit)
    ensures IsId(Nth(next, k, limit), limit)
    ensures Nth(next, 0, limit) == next
    ensures Nth(next, k + 1, limit) == Succ(Nth(next, k, limit), limit)
  {
    NextResidue(next - 1 + k, limit);
    MulDiv(0, next - 1, limit);
  }

  lemma {:induction false} NthFromSucc(next: int, k: nat, limit: int)
    requires IsId(next, limit)
    ensures Nth(Succ(next, limit), k, limit) == Nth(next, k + 1, limit)
  {
    NthStep(next, k, limit);
    NthStep(Succ(next, limit), 0, limit);
    if k == 0 {
    } else {
      NthFromSucc(next, k - 1, limit);
      NthStep(Succ(next, limit), k - 1, limit);
    }
  }

  /** Every identifier is reached within `limit` steps. */
  lemma NthReachesAll(next: int, p: int, limit: int) returns (k: nat)
    requires IsId(next, limit) && IsId(p, limit)
    ensures k < limit && Nth(next, k, limit) == p
  {
    if p >= next {
      k := p - next;
      MulDiv(0, p - 1, limit);
    } else {
      k := p + limit - next;
      MulDiv(1, p - 1, limit);
    }
  }

  /** What a search from a valid cursor yields: the first free identifier in cyclic order, or none within the tries. */
  ghost predicate FirstFree(pid: int, cursor: int, next: int, used: set<int>, tries: nat, limit: int)
    requires IsId(next, limit)
  {
    if pid == 0 then
      forall k: nat :: k < tries ==> Nth(next, k, limit) in used
    else
      exists k: nat :: k < tries && FoundAt(pid, cursor, next, used, k, limit)
  }

  ghost predicate FoundAt(pid: int, cursor: int, next: int, used: set<int>, k: nat, limit: int)
    requires IsId(next, limit)
  {
    && pid == Nth(next, k, limit)
    && pid !in used
    && cursor == Succ(pid, limit)
    && forall j: nat :: j < k ==> Nth(next, j, limit) in used
  }

  lemma {:induction false} SearchFindsFirst(next: int, used: set<int>, tries: nat, limit: int)
    requires IsId(next, limit)
    ensures var (pid, cursor) := Search(next, used, tries, limit);
            IsId(cursor, limit) && FirstFree(pid, cursor, next, used, tries, limit)
    decreases tries
  {
    NthStep(next, 0, limit);
    if tries > 0 {
      if next !in used {
        assert FoundAt(next, Succ(next, limit), next, used, 0, limit);
      } else {
        var (pid, cursor) := Search(next, used, tries, limit);
        SearchFindsFirst(Succ(next, limit), used, tries - 1, limit);
        if pid == 0 {
          forall k: nat | k < tries ensures Nth(next, k, limit) in used {
            if k > 0 { NthFromSucc(next, k - 1, limit); }
          }
        } else {
          var k: nat :| k < tries - 1 && FoundAt(pid, cursor, Succ(next, limit), used, k, limit);
          FoundOneLater(pid, cursor, next, used, k, limit);
        }
      }
    }
  }

  lemma FoundOneLater(pid: int, cursor: int, next: int, used: set<int>, k: nat, limit: int)
    requires IsId(next, limit) && next in used
    requires FoundAt(pid, cursor, Succ(next, limit), used, k, limit)
    ensures FoundAt(pid, cursor, next, used, k + 1, limit)
  {
    NthFromSucc(next, k, limit);
    NthStep(next, 0, limit);
    forall j: nat | j < k + 1 ensures Nth(next, j, limit) in used {
      if j > 0 { NthFromSucc(next, j - 1, limit); }
    }
  }

  ghost predicate Full(used: set<int>, limit: int) {
    forall p :: IsId(p, limit) ==> p in used
  }

  /** With at least `limit` tries from a valid cursor, the search fails exactly when every identifier is in use. */
  lemma SearchFailsIffFull(next: int, used: set<int>, tries: nat, limit: int)
    requires IsId(next, limit) && tries >= limit
    ensures Search(next, used, tries, limit).0 == 0 <==> Full(used, limit)
    ensures Search(next, used, tries, limit).0 != 0 ==>
              IsId(Search(next, used, tries, limit).0, limit) && Search(next, used, tries, limit).0 !in used
  {
    SearchFindsFirst(next, used, tries, limit);
    var (pid, cursor) := Search(next, used, tries, limit);
    if pid == 0 {
      forall p | IsId(p, limit) ensures p in used {
        var k := NthReachesAll(next, p, limit);
      }
    } else {
      var k: nat :| k < tries && FoundAt(pid, cursor, next, used, k, limit);
      NthStep(next, k, limit);
    }
  }

  /** From cursor 0 the first of the tries is spent on 0 itself: the search then fails iff 1..tries-1 are in use. */
  lemma SearchFromZero(used: set<int>, tries: nat, limit: int)
    requires 1 <= tries <= limit
    ensures Search(0, used, tries, limit).0 == 0 <==> Full(used, tries - 1)
  {
    SearchFindsFirst(1, used, tries - 1, limit);
    var (pid, cursor) := Search(1, used, tries - 1, limit);
    forall k: nat | k < tries - 1 ensures Nth(1, k, limit) == k + 1 {
      MulDiv(0, k, limit);
    }
    if pid == 0 {
      forall p | IsId(p, tries - 1) ensures p in used {
        assert Nth(1, p - 1, limit) == p;
      }
    } else {
      var k: nat :| k < tries - 1 && FoundAt(pid, cursor, 1, used, k, limit);
      assert IsId(k + 1, tries - 1);
    }
  }

  /** By counting: fewer identifiers in use than there are leaves one free. */
  lemma {:induction false} NotFull(used: set<int>, limit: nat)
    requires |used| < limit
    ensures !Full(used, limit)
    decreases limit
  {
    if limit in used {
      NotFull(used - {limit}, limit - 1);
      var p :| IsId(p, limit - 1) && p !in used - {limit};
      assert IsId(p, limit) && p !in used;
    } else {
      assert IsId(limit, limit);
    }
  }

  lemma {:induction false} BoundedSize(used: set<int>, limit: nat)
    requires forall p :: p in used ==> IsId(p, limit)
    ensures |used| <= limit
    decreases limit
  {
    if used != {} {
      var p := Basics.AnElement(used);
      assert IsId(p, limit);
      BoundedSize(used - {limit}, limit - 1);
    }
  }

  lemma FullByCount(used: set<int>, limit: nat)
    requires |used| >= limit && forall p :: p in used ==> IsId(p, limit)
    ensures Full(used, limit)
  {
    forall p | IsId(p, limit) ensures p in used {
      if p !in used {
        BoundedSize(used + {p}, limit);
      }
    }
  }
}
