/**
 * The bounded offline queue with lazy eviction, on values. Expired messages leave only when they reach the front during an
 * operation, and the oldest ones make room for new ones; the main result is what a drain then hands back.
 */
module OfflineQueueModel {

  datatype Queued<T> = Queued(message: T, at: nat)

  datatype Limits = Limits(max: nat, ttl: nat)

  predicate Expired(at: nat, now: nat, ttl: nat) {
    (if now >= at then now - at else 0) >= ttl
  }

  /** Drop expired messages from the front, up to the first that is not. */
  function Evict<T>(items: seq<Queued<T>>, now: nat, ttl: nat): seq<Queued<T>> {
    if items != [] && Expired(items[0].at, now, ttl) then Evict(items[1..], now, ttl) else items
  }

  /** Keep at most `n` messages, the newest. */
  function Newest<T>(items: seq<Queued<T>>, n: nat): seq<Queued<T>> {
    if |items| <= n then items else items[|items| - n..]
  }

  function Enqueue<T>(items: seq<Queued<T>>, m: T, now: nat, limits: Limits): seq<Queued<T>>
    requires limits.max >= 1
  {
    Newest(Evict(items, now, limits.ttl), limits.max - 1) + [Queued(m, now)]
  }

  /** What n removals from the front leave; there may be nothing left to remove. */
  function Popped<T>(items: seq<Queued<T>>, n: nat): seq<Queued<T>> {
    if n <= |items| then items[n..] else []
  }

  /** The loop that makes room goes on while the queue is not below its capacity: it comes to an end iff that is not 0. */
  lemma RoomIffCapacity<T>(items: seq<Queued<T>>, limits: Limits)
    ensures (exists n: nat :: |Popped(items, n)| < limits.max) <==> limits.max >= 1
  {
    if limits.max >= 1 {
      assert |Popped(items, |items|)| < limits.max;
    }
  }

  // ---------- runs ----------

  /** Enqueue a message, or ask for the length (which evicts too). */
  datatype Op<T> = Enq(message: T, now: nat) | Len(now: nat)

  function Apply<T>(items: seq<Queued<T>>, op: Op<T>, limits: Limits): seq<Queued<T>>
    requires limits.max >= 1
  {
    match op
    case Enq(m, now) => Enqueue(items, m, now, limits)
    case Len(now) => Evict(items, now, limits.ttl)
  }

  /** The queue after the operations since it was last empty. */
  function Run<T>(ops: seq<Op<T>>, limits: Limits): seq<Queued<T>>
    requires limits.max >= 1
  {
    if ops == [] then [] else Apply(Run(ops[..|ops| - 1], limits), ops[|ops| - 1], limits)
  }

  /** Everything enqueued, oldest first. */
  function History<T>(ops: seq<Op<T>>): seq<Queued<T>> {
    if ops == [] then []
    else
      var op := ops[|ops| - 1];
      History(ops[..|ops| - 1]) + if op.Enq? then [Queued(op.message, op.now)] else []
  }

  ghost predicate ClockForward<T>(ops: seq<Op<T>>) {
    forall i, j :: 0 <= i < j < |ops| ==> ops[i].now <= ops[j].now
  }

  // ---------- the declarative form ----------

  /** A message of this time has not reached the time to live. With no time to live, none is kept. */
  predicate Young(at: nat, now: nat, ttl: nat) {
    ttl > 0 && now < at + ttl
  }

  /** From position k on there are at most `max` messages, all of them young. */
  ghost predicate Keepable<T>(h: seq<Queued<T>>, k: nat, now: nat, limits: Limits)
    requires k <= |h|
  {
    |h| - k <= limits.max && forall i :: k <= i < |h| ==> Young(h[i].at, now, limits.ttl)
  }

  ghost predicate TimesForward<T>(h: seq<Queued<T>>) {
    forall i, j :: 0 <= i < j < |h| ==> h[i].at <= h[j].at
  }

  /** Eviction removes exactly the expired messages at the front; with times going forward, all expired messages. */
  lemma {:induction false} EvictIsSuffix<T>(h: seq<Queued<T>>, now: nat, ttl: nat) returns (k: nat)
    ensures k <= |h| && Evict(h, now, ttl) == h[k..]
    ensures forall i :: 0 <= i < k ==> Expired(h[i].at, now, ttl)
    ensures k < |h| ==> !Expired(h[k].at, now, ttl)
    ensures TimesForward(h) ==> forall i :: k <= i < |h| ==> !Expired(h[i].at, now, ttl)
  {
    if h != [] && Expired(h[0].at, now, ttl) {
      var j := EvictIsSuffix(h[1..], now, ttl);
      k := j + 1;
      assert h[1..][j..] == h[k..];
      forall i | 0 <= i < k ensures Expired(h[i].at, now, ttl) {
        if i > 0 { assert h[i] == h[1..][i - 1]; }
      }
      if TimesForward(h) {
        assert TimesForward(h[1..]);
        forall i | k <= i < |h| ensures !Expired(h[i].at, now, ttl) {
          assert h[i] == h[1..][i - 1];
        }
      }
    } else {
      k := 0;
      assert h[0..] == h;
    }
  }

  /** What the queue keeps: a suffix of the history, short enough, that has lost nothing a later drain should return. */
  ghost predicate Lagging<T>(items: seq<Queued<T>>, h: seq<Queued<T>>, n: nat, now: nat, limits: Limits) {
    && n <= |h| && items == h[n..]
    && |items| <= limits.max
    && TimesForward(h)
    && (forall i :: 0 <= i < |h| ==> h[i].at <= now)
    && (forall k: nat, t: nat :: k <= |h| && now <= t && Keepable(h, k, t, limits) ==> n <= k)
  }

  lemma EvictLags<T>(items: seq<Queued<T>>, h: seq<Queued<T>>, n: nat, past: nat, now: nat, limits: Limits) returns (n': nat)
    requires Lagging(items, h, n, past, limits) && past <= now
    ensures Lagging(Evict(items, now, limits.ttl), h, n', now, limits)
    ensures Keepable(h, n', now, limits)
  {
    var j := EvictIsSuffix(items, now, limits.ttl);
    n' := n + j;
    assert items[j..] == h[n'..];
    assert TimesForward(items);
    forall i | n <= i < n' ensures Expired(h[i].at, now, limits.ttl) {
      assert h[i] == items[i - n];
    }
    forall k: nat, t: nat | k <= |h| && now <= t && Keepable(h, k, t, limits) ensures n' <= k {
      assert k < n' ==> Expired(h[k].at, now, limits.ttl);
    }
    forall i | n' <= i < |h| ensures !Expired(h[i].at, now, limits.ttl) {
      assert h[i] == items[i - n];
    }
  }

  lemma EnqueueLags<T>(items: seq<Queued<T>>, h: seq<Queued<T>>, n: nat, m: T, now: nat, limits: Limits) returns (n': nat)
    requires limits.max >= 1 && Lagging(items, h, n, now, limits)
    ensures Lagging(Newest(items, limits.max - 1) + [Queued(m, now)], h + [Queued(m, now)], n', now, limits)
  {
    var h' := h + [Queued(m, now)];
    n' := if |items| <= limits.max - 1 then n else n + 1;
    assert Newest(items, limits.max - 1) + [Queued(m, now)] == h'[n'..];
    forall k: nat, t: nat | k <= |h'| && now <= t && Keepable(h', k, t, limits) ensures n' <= k {
      if k <= |h| {
        assert Keepable(h, k, t, limits) by {
          assert forall i :: k <= i < |h| ==> h'[i] == h[i];
        }
      }
    }
  }

  lemma {:induction false} RunLags<T>(ops: seq<Op<T>>, limits: Limits, now: nat) returns (n: nat)
    requires limits.max >= 1 && ClockForward(ops) && (ops != [] ==> ops[|ops| - 1].now <= now)
    ensures Lagging(Run(ops, limits), History(ops), n, now, limits)
  {
    if ops == [] {
      n := 0;
    } else {
      var op, before := ops[|ops| - 1], ops[..|ops| - 1];
      var a := RunLags(before, limits, op.now);
      n := ApplyLags(Run(before, limits), History(before), a, op, limits);
      LagsOn(Run(ops, limits), History(ops), n, op.now, now, limits);
    }
  }

  lemma ApplyLags<T>(items: seq<Queued<T>>, h: seq<Queued<T>>, n: nat, op: Op<T>, limits: Limits) returns (n': nat)
    requires limits.max >= 1 && Lagging(items, h, n, op.now, limits)
    ensures Lagging(Apply(items, op, limits), h + if op.Enq? then [Queued(op.message, op.now)] else [], n', op.now, limits)
  {
    n' := EvictLags(items, h, n, op.now, op.now, limits);
    if op.Enq? {
      n' := EnqueueLags(Evict(items, op.now, limits.ttl), h, n', op.message, op.now, limits);
    } else {
      assert h + [] == h;
    }
  }

  lemma LagsOn<T>(items: seq<Queued<T>>, h: seq<Queued<T>>, n: nat, past: nat, now: nat, limits: Limits)
    requires Lagging(items, h, n, past, limits) && past <= now
    ensures Lagging(items, h, n, now, limits)
  {
  }

  /** A drain hands back the longest suffix of what was enqueued that fits the capacity and has not expired. */
  lemma DrainIsLongestSuffix<T>(ops: seq<Op<T>>, limits: Limits, now: nat) returns (n: nat)
    requires limits.max >= 1 && ClockForward(ops) && (ops != [] ==> ops[|ops| - 1].now <= now)
    ensures n <= |History(ops)| && Evict(Run(ops, limits), now, limits.ttl) == History(ops)[n..]
    ensures Keepable(History(ops), n, now, limits)
    ensures forall k: nat :: k <= |History(ops)| && Keepable(History(ops), k, now, limits) ==> n <= k
  {
    var a := RunLags(ops, limits, now);
    n := EvictLags(Run(ops, limits), History(ops), a, now, now, limits);
  }
}
