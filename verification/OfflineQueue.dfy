/** The offline queue of one session, changed in place. */
module OfflineQueue {
  import opened OfflineQueueModel

  class Queue<T> {
    var items: seq<Queued<T>>
    const limits: Limits

    constructor (max: nat, ttl: nat)
      ensures items == [] && limits == Limits(max, ttl)
    {
      items, limits := [], Limits(max, ttl);
    }

    method EvictExpired(now: nat)
      modifies this`items
      ensures items == Evict(old(items), now, limits.ttl)
    {
      while items != [] && Expired(items[0].at, now, limits.ttl)
        invariant Evict(items, now, limits.ttl) == Evict(old(items), now, limits.ttl)
        decreases |items|
      {
        items := items[1..];
      }
    }

    /** With capacity 0 the loop that makes room would not end. */
    method Enqueue(m: T, now: nat)
      requires limits.max >= 1
      modifies this`items
      ensures items == OfflineQueueModel.Enqueue(old(items), m, now, limits)
    {
      EvictExpired(now);
      ghost var evicted := items;
      while |items| >= limits.max
        invariant Newest(items, limits.max - 1) == Newest(evicted, limits.max - 1)
        decreases |items|
      {
        items := items[1..];
      }
      items := items + [Queued(m, now)];
    }

    method Drain(now: nat) returns (messages: seq<T>)
      modifies this`items
      ensures items == []
      ensures var kept := Evict(old(items), now, limits.ttl);
              |messages| == |kept| && forall i :: 0 <= i < |kept| ==> messages[i] == kept[i].message
    {
      EvictExpired(now);
      messages := seq(|items|, i requires 0 <= i < |items| reads this => items[i].message);
      items := [];
    }

    method Len(now: nat) returns (n: nat)
      modifies this`items
      ensures items == Evict(old(items), now, limits.ttl) && n == |items|
    {
      EvictExpired(now);
      n := |items|;
    }
  }
}
