/** Offline messages on disk: one sorted byte-key map that serves as a first-in first-out queue for every client. */
module OfflineStore {
  import opened Basics
  import opened Packets
  import opened StoreKeys

  /** One stored message. */
  datatype Stored<T> = Stored(client: Bytes, id: nat, message: T)

  function KeyOf<T>(x: Stored<T>): Bytes {
    Key(x.client, x.id)
  }

  /** The stored messages of a client, or those of the others, in push order. */
  function Select<T>(live: seq<Stored<T>>, client: Bytes, own: bool): seq<Stored<T>> {
    if live == [] then []
    else
      var rest := Select(live[1..], client, own);
      if (live[0].client == client) == own then [live[0]] + rest else rest
  }

  function QueueOf<T>(live: seq<Stored<T>>, client: Bytes): seq<Stored<T>> {
    Select(live, client, true)
  }

  ghost predicate InPushOrder<T>(live: seq<Stored<T>>) {
    forall i, j :: 0 <= i < j < |live| ==> live[i].id < live[j].id
  }

  ghost predicate LiveOk<T>(live: seq<Stored<T>>, nextId: nat) {
    && InPushOrder(live) && nextId <= U64
    && (forall x :: x in live ==> x.id < nextId)
  }

  lemma {:induction false} Selected<T>(live: seq<Stored<T>>, client: Bytes, own: bool, x: Stored<T>)
    ensures x in Select(live, client, own) <==> x in live && (x.client == client) == own
  {
    if live != [] {
      Selected(live[1..], client, own, x);
      assert x in live <==> x == live[0] || x in live[1..];
    }
  }

  lemma {:induction false} SelectInPushOrder<T>(live: seq<Stored<T>>, client: Bytes, own: bool)
    requires InPushOrder(live)
    ensures InPushOrder(Select(live, client, own))
  {
    if live != [] {
      var rest := Select(live[1..], client, own);
      SelectInPushOrder(live[1..], client, own);
      forall i | 0 <= i < |rest| ensures live[0].id < rest[i].id {
        Selected(live[1..], client, own, rest[i]);
        var j :| 0 <= j < |live| - 1 && live[1..][j] == rest[i];
        assert live[j + 1] == rest[i];
      }
    }
  }

  lemma SelectHas<T>(live: seq<Stored<T>>, client: Bytes, own: bool)
    requires InPushOrder(live)
    ensures forall x :: x in Select(live, client, own) <==> x in live && (x.client == client) == own
    ensures InPushOrder(Select(live, client, own))
  {
    SelectInPushOrder(live, client, own);
    forall x ensures x in Select(live, client, own) <==> x in live && (x.client == client) == own {
      Selected(live, client, own, x);
    }
  }

  /** Dropping one client's messages leaves every other client's queue as it was. */
  lemma {:induction false} OthersKeepQueues<T>(live: seq<Stored<T>>, client: Bytes, other: Bytes)
    ensures QueueOf(Select(live, client, false), other) == if other == client then [] else QueueOf(live, other)
  {
    if live != [] {
      OthersKeepQueues(live[1..], client, other);
      if live[0].client != client {
        var rest := Select(live[1..], client, false);
        assert ([live[0]] + rest)[1..] == rest;
      }
    }
  }

  lemma {:induction false} QueueOfAppend<T>(live: seq<Stored<T>>, x: Stored<T>, client: Bytes)
    ensures QueueOf(live + [x], client) == QueueOf(live, client) + if x.client == client then [x] else []
  {
    if live == [] {
      assert live + [x] == [x];
    } else {
      assert (live + [x])[1..] == live[1..] + [x];
      QueueOfAppend(live[1..], x, client);
    }
  }

  // ---------- sorted keys ----------

  ghost predicate Sorted(keys: seq<Bytes>) {
    forall i, j :: 0 <= i < j < |keys| ==> Before(keys[i], keys[j])
  }

  /** There is one way to sort a set of keys. */
  lemma {:induction false} SortedUnique(a: seq<Bytes>, b: seq<Bytes>)
    requires Sorted(a) && Sorted(b) && forall k :: k in a <==> k in b
    ensures a == b
    decreases |a|
  {
    FirstIn(a);
    FirstIn(b);
    if a != [] {
      SameLeast(a, b);
      forall k ensures k in a[1..] <==> k in b[1..] {
        NotInTail(a);
        NotInTail(b);
        assert k in a <==> k == a[0] || k in a[1..];
        assert k in b <==> k == b[0] || k in b[1..];
      }
      SortedUnique(a[1..], b[1..]);
      assert a == [a[0]] + a[1..] && b == [b[0]] + b[1..];
    }
  }

  lemma FirstIn(a: seq<Bytes>)
    ensures a != [] ==> a[0] in a
  {
  }

  lemma SameLeast(a: seq<Bytes>, b: seq<Bytes>)
    requires a != [] && b != [] && Sorted(a) && Sorted(b) && a[0] in b && b[0] in a
    ensures a[0] == b[0]
  {
    var i :| 0 <= i < |b| && b[i] == a[0];
    var j :| 0 <= j < |a| && a[j] == b[0];
    if i > 0 && j > 0 {
      BeforeTransitive(a[0], b[0], a[0]);
      BeforeIrreflexive(a[0]);
    }
  }

  lemma NotInTail(a: seq<Bytes>)
    requires a != [] && Sorted(a)
    ensures a[0] !in a[1..]
  {
    BeforeIrreflexive(a[0]);
    forall i | 0 <= i < |a[1..]| ensures a[1..][i] != a[0] {
      assert Before(a[0], a[i + 1]);
    }
  }

  // ---------- a map that holds a list under given keys ----------

  /** The map holds exactly the listed values, each under its key. */
  ghost predicate Holds<T(!new)>(store: map<Bytes, T>, live: seq<Stored<T>>, key: Stored<T> -> Bytes) {
    && (forall x :: x in live ==> key(x) in store && store[key(x)] == x.message)
    && (forall k :: k in store ==> KeyIn(k, live, key))
  }

  ghost predicate KeyIn<T(!new)>(k: Bytes, live: seq<Stored<T>>, key: Stored<T> -> Bytes) {
    exists x :: x in live && key(x) == k
  }

  function KeysOf<T>(queue: seq<Stored<T>>, key: Stored<T> -> Bytes): seq<Bytes> {
    seq(|queue|, i requires 0 <= i < |queue| => key(queue[i]))
  }

  lemma KeysOfHas<T(!new)>(queue: seq<Stored<T>>, key: Stored<T> -> Bytes, k: Bytes)
    ensures k in KeysOf(queue, key) <==> KeyIn(k, queue, key)
  {
    if k in KeysOf(queue, key) {
      var i :| 0 <= i < |queue| && KeysOf(queue, key)[i] == k;
      assert queue[i] in queue && key(queue[i]) == k;
    }
    if x :| x in queue && key(x) == k {
      var i :| 0 <= i < |queue| && queue[i] == x;
      assert KeysOf(queue, key)[i] == k;
    }
  }

  lemma PutHolds<T(!new)>(store: map<Bytes, T>, live: seq<Stored<T>>, key: Stored<T> -> Bytes, x: Stored<T>)
    requires Holds(store, live, key) && forall y :: y in live ==> key(y) != key(x)
    ensures Holds(store[key(x) := x.message], live + [x], key)
  {
    var more := store[key(x) := x.message];
    assert forall y :: y in live + [x] <==> y in live || y == x;
    forall k | k in more.Keys ensures KeyIn(k, live + [x], key) {
      if k == key(x) {
        assert x in live + [x];
      } else {
        assert KeyIn(k, live, key);
        var y :| y in live && key(y) == k;
        assert y in live + [x];
      }
    }
  }

  lemma RemoveHolds<T(!new)>(
    store: map<Bytes, T>, live: seq<Stored<T>>, key: Stored<T> -> Bytes, gone: set<Bytes>, kept: seq<Stored<T>>)
    requires Holds(store, live, key)
    requires forall x :: x in kept <==> x in live && key(x) !in gone
    ensures Holds(store - gone, kept, key)
  {
    forall k | k in (store - gone).Keys ensures KeyIn(k, kept, key) {
      assert KeyIn(k, live, key);
      var x :| x in live && key(x) == k;
      assert x in kept;
    }
  }

  /** The listed values under some of the keys, in the order of the keys. */
  lemma {:induction false} Gather<T(!new)>(
    store: map<Bytes, T>, live: seq<Stored<T>>, key: Stored<T> -> Bytes, keys: seq<Bytes>)
    returns (found: seq<Stored<T>>)
    requires Holds(store, live, key) && forall k :: k in keys ==> k in store
    ensures KeysOf(found, key) == keys && forall x :: x in found ==> x in live
    decreases |keys|
  {
    found := [];
    if keys != [] {
      var n := |keys| - 1;
      var before := Gather(store, live, key, keys[..n]);
      assert keys[n] in keys && KeyIn(keys[n], live, key);
      var x :| x in live && key(x) == keys[n];
      found := before + [x];
      assert keys == keys[..n] + [keys[n]];
    }
  }

  // ---------- keys of stored messages ----------

  /** No two stored messages have the same key, however long the client ids. */
  lemma DifferentKeys<T>(x: Stored<T>, y: Stored<T>)
    requires x.id < U64 && y.id < U64
    ensures KeyOf(x) == KeyOf(y) <==> x.client == y.client && x.id == y.id
  {
    KeyInjective(x.client, x.id, y.client, y.id);
  }

  lemma KeyDetermines<T>(live: seq<Stored<T>>, nextId: nat, x: Stored<T>, y: Stored<T>)
    requires LiveOk(live, nextId) && x in live && y in live
    ensures KeyOf(x) == KeyOf(y) <==> x == y
  {
    DifferentKeys(x, y);
    var i :| 0 <= i < |live| && live[i] == x;
    var j :| 0 <= j < |live| && live[j] == y;
    assert i < j ==> x.id < y.id;
    assert j < i ==> y.id < x.id;
  }

  lemma QueueSorted<T>(queue: seq<Stored<T>>, client: Bytes)
    requires InPushOrder(queue) && forall x :: x in queue ==> x.client == client && x.id < U64
    ensures Sorted(KeysOf(queue, KeyOf))
  {
    forall i, j | 0 <= i < j < |queue| ensures Before(KeyOf(queue[i]), KeyOf(queue[j])) {
      assert queue[i] in queue && queue[j] in queue;
      KeyOrder(client, queue[i].id, queue[j].id);
    }
  }

  /** A scan for the client meets this message. */
  predicate Met<T>(client: Bytes, x: Stored<T>) {
    KeyPrefix(client) <= KeyOf(x)
  }

  /** A scan for the client meets the client's own messages only. */
  ghost predicate OwnOnly<T>(live: seq<Stored<T>>, client: Bytes) {
    forall x :: x in live && Met(client, x) ==> x.client == client
  }

  /** It does exactly if no other client's id and number continue the client's id with the same length modulo 65536. */
  lemma OwnOnlyExact<T>(live: seq<Stored<T>>, client: Bytes)
    ensures OwnOnly(live, client) <==>
            forall x :: x in live && x.client != client ==>
              !(|client| % 65536 == |x.client| % 65536 && client <= x.client + BigEndian(x.id, 8))
  {
    forall x | x in live
      ensures Met(client, x) <==> |client| % 65536 == |x.client| % 65536 && client <= x.client + BigEndian(x.id, 8)
    {
      PrefixMeets(client, x.client, x.id);
    }
  }

  /** In particular when no id is longer than 65535 bytes. */
  lemma ShortIdsOwnOnly<T>(live: seq<Stored<T>>, client: Bytes)
    requires |client| < 65536 && forall x :: x in live ==> |x.client| < 65536
    ensures OwnOnly(live, client)
  {
    forall x | x in live && Met(client, x) ensures x.client == client {
      PrefixesApart(client, x.client, x.id);
    }
  }

  lemma OwnIsMet<T>(client: Bytes, x: Stored<T>)
    requires x.client == client
    ensures Met(client, x)
  {
  }

  // ---------- what a scan meets ----------

  /** The stored messages that a scan for the client does not meet, in push order. */
  function Unmet<T>(live: seq<Stored<T>>, client: Bytes): seq<Stored<T>> {
    if live == [] then []
    else
      var rest := Unmet(live[1..], client);
      if Met(client, live[0]) then rest else [live[0]] + rest
  }

  lemma {:induction false} UnmetHas<T>(live: seq<Stored<T>>, client: Bytes, x: Stored<T>)
    ensures x in Unmet(live, client) <==> x in live && !Met(client, x)
  {
    if live != [] {
      UnmetHas(live[1..], client, x);
      assert x in live <==> x == live[0] || x in live[1..];
    }
  }

  lemma {:induction false} UnmetInOrder<T>(live: seq<Stored<T>>, client: Bytes)
    requires InPushOrder(live)
    ensures InPushOrder(Unmet(live, client))
  {
    if live != [] {
      var rest := Unmet(live[1..], client);
      UnmetInOrder(live[1..], client);
      forall i | 0 <= i < |rest| ensures live[0].id < rest[i].id {
        UnmetHas(live[1..], client, rest[i]);
        var j :| 0 <= j < |live| - 1 && live[1..][j] == rest[i];
        assert live[j + 1] == rest[i];
      }
    }
  }

  lemma {:induction false} UnmetIsOthers<T>(live: seq<Stored<T>>, client: Bytes)
    requires OwnOnly(live, client)
    ensures Unmet(live, client) == Select(live, client, false)
  {
    if live != [] {
      UnmetIsOthers(live[1..], client);
      assert live[0] in live;
      if live[0].client == client { OwnIsMet(client, live[0]); }
    }
  }

  /** What a scan of the client's prefix finds: exactly the messages it meets, with their payload. */
  ghost predicate Found<T(!new)>(live: seq<Stored<T>>, client: Bytes, found: seq<Stored<T>>) {
    && (forall x :: x in found <==> x in live && Met(client, x))
    && Sorted(KeysOf(found, KeyOf))
  }

  lemma ScanFinds<T(!new)>(store: map<Bytes, T>, live: seq<Stored<T>>, nextId: nat, client: Bytes, keys: seq<Bytes>)
    returns (found: seq<Stored<T>>)
    requires Holds(store, live, KeyOf) && LiveOk(live, nextId)
    requires Sorted(keys) && forall k :: k in keys <==> k in store && KeyPrefix(client) <= k
    ensures KeysOf(found, KeyOf) == keys && Found(live, client, found)
  {
    found := Gather(store, live, KeyOf, keys);
    forall x ensures x in found <==> x in live && Met(client, x) {
      FoundIffMet(store, live, nextId, client, keys, found, x);
    }
  }

  lemma FoundIffMet<T(!new)>(
    store: map<Bytes, T>, live: seq<Stored<T>>, nextId: nat, client: Bytes, keys: seq<Bytes>, found: seq<Stored<T>>, x: Stored<T>)
    requires Holds(store, live, KeyOf) && LiveOk(live, nextId)
    requires forall k :: k in keys <==> k in store && KeyPrefix(client) <= k
    requires KeysOf(found, KeyOf) == keys && forall y :: y in found ==> y in live
    ensures x in found <==> x in live && Met(client, x)
  {
    KeysOfHas(found, KeyOf, KeyOf(x));
    if x in found {
      assert KeyIn(KeyOf(x), found, KeyOf);
    }
    if x in live && Met(client, x) {
      assert KeyOf(x) in keys;
      var y :| y in found && KeyOf(y) == KeyOf(x);
      KeyDetermines(live, nextId, x, y);
    }
  }

  /** If it meets the client's own messages only, they are its queue in push order. */
  lemma FoundIsQueue<T(!new)>(live: seq<Stored<T>>, nextId: nat, client: Bytes, found: seq<Stored<T>>)
    requires LiveOk(live, nextId) && Found(live, client, found) && OwnOnly(live, client)
    ensures found == QueueOf(live, client)
  {
    var queue := QueueOf(live, client);
    SelectHas(live, client, true);
    QueueSorted(queue, client);
    forall x ensures x in found <==> x in queue {
      if x in live && x.client == client { OwnIsMet(client, x); }
    }
    forall k ensures k in KeysOf(found, KeyOf) <==> k in KeysOf(queue, KeyOf) {
      KeysOfHas(found, KeyOf, k);
      KeysOfHas(queue, KeyOf, k);
      SameKeyIn(found, queue, k);
    }
    SortedUnique(KeysOf(found, KeyOf), KeysOf(queue, KeyOf));
    forall i | 0 <= i < |found| ensures found[i] == queue[i] {
      assert KeysOf(found, KeyOf)[i] == KeysOf(queue, KeyOf)[i];
      assert found[i] in found && queue[i] in queue;
      KeyDetermines(live, nextId, found[i], queue[i]);
    }
    assert |KeysOf(found, KeyOf)| == |found| && |KeysOf(queue, KeyOf)| == |queue|;
  }

  lemma SameKeyIn<T(!new)>(a: seq<Stored<T>>, b: seq<Stored<T>>, k: Bytes)
    requires forall x :: x in a <==> x in b
    ensures KeyIn(k, a, KeyOf) <==> KeyIn(k, b, KeyOf)
  {
    if x :| x in a && KeyOf(x) == k { assert x in b; }
    if x :| x in b && KeyOf(x) == k { assert x in a; }
  }

  /** What was found is the client's queue, in push order; what remains has every other queue as it was. */
  ghost predicate IsQueueDrain<T>(live: seq<Stored<T>>, client: Bytes, found: seq<Stored<T>>, rest: seq<Stored<T>>) {
    && found == QueueOf(live, client)
    && forall c :: QueueOf(rest, c) == if c == client then [] else QueueOf(live, c)
  }

  lemma DrainedQueue<T(!new)>(live: seq<Stored<T>>, nextId: nat, client: Bytes, found: seq<Stored<T>>)
    requires LiveOk(live, nextId) && Found(live, client, found)
    ensures OwnOnly(live, client) ==> IsQueueDrain(live, client, found, Unmet(live, client))
  {
    if OwnOnly(live, client) {
      FoundIsQueue(live, nextId, client, found);
      UnmetIsOthers(live, client);
      forall c ensures QueueOf(Select(live, client, false), c) == if c == client then [] else QueueOf(live, c) {
        OthersKeepQueues(live, client, c);
      }
    }
  }

  lemma PushHolds<T(!new)>(store: map<Bytes, T>, live: seq<Stored<T>>, nextId: nat, x: Stored<T>)
    requires Holds(store, live, KeyOf) && LiveOk(live, nextId) && nextId <= x.id < U64
    ensures Holds(store[KeyOf(x) := x.message], live + [x], KeyOf) && LiveOk(live + [x], x.id + 1)
  {
    forall y | y in live ensures KeyOf(y) != KeyOf(x) {
      DifferentKeys(y, x);
    }
    PutHolds(store, live, KeyOf, x);
  }

  ghost predicate IsPayload<T>(messages: seq<T>, found: seq<Stored<T>>) {
    |messages| == |found| && forall i :: 0 <= i < |found| ==> messages[i] == found[i].message
  }

  lemma PayloadOf<T(!new)>(store: map<Bytes, T>, live: seq<Stored<T>>, found: seq<Stored<T>>, messages: seq<T>)
    requires Holds(store, live, KeyOf) && forall x :: x in found ==> x in live
    requires |messages| == |found|
    requires forall j :: 0 <= j < |found| ==> KeyOf(found[j]) in store && messages[j] == store[KeyOf(found[j])]
    ensures IsPayload(messages, found)
  {
    forall i | 0 <= i < |found| ensures messages[i] == found[i].message {
      assert found[i] in found;
    }
  }

  lemma RemainingHolds<T(!new)>(
    store: map<Bytes, T>, live: seq<Stored<T>>, nextId: nat, client: Bytes, keys: seq<Bytes>)
    requires Holds(store, live, KeyOf) && LiveOk(live, nextId)
    requires forall k :: k in keys <==> k in store && KeyPrefix(client) <= k
    ensures Holds(store - (set k | k in keys), Unmet(live, client), KeyOf) && LiveOk(Unmet(live, client), nextId)
  {
    var kept, gone := Unmet(live, client), set k | k in keys;
    forall x ensures x in kept <==> x in live && KeyOf(x) !in gone {
      UnmetHas(live, client, x);
    }
    RemoveHolds(store, live, KeyOf, gone, kept);
    UnmetInOrder(live, client);
  }

  // ---------- the store ----------

  class Store<T(!new)> {
    var tree: map<Bytes, T>
    /** No sequence number given out so far reaches this one. */
    ghost var nextId: nat
    /** The stored messages, in push order. */
    ghost var live: seq<Stored<T>>

    ghost predicate Valid()
      reads this
    {
      Holds(tree, live, KeyOf) && LiveOk(live, nextId)
    }

    constructor ()
      ensures Valid() && live == []
    {
      tree, nextId, live := map[], 0, [];
    }

    /** The database gives out increasing sequence numbers. */
    method Push(client: Bytes, message: T, id: nat)
      requires Valid() && nextId <= id < U64
      modifies this
      ensures Valid() && live == old(live) + [Stored(client, id, message)]
      ensures forall c :: QueueOf(live, c) == QueueOf(old(live), c) + if c == client then [Stored(client, id, message)] else []
    {
      var key := KeyPrefix(client);
      key := key + BigEndian(id, 8);
      ghost var x := Stored(client, id, message);
      PushHolds(tree, live, nextId, x);
      forall c ensures QueueOf(live + [x], c) == QueueOf(live, c) + if c == client then [x] else [] {
        QueueOfAppend(live, x, c);
      }
      tree := tree[key := message];
      nextId, live := id + 1, live + [x];
    }

    /** The keys with a prefix, in order. */
    method ScanPrefix(prefix: Bytes) returns (keys: seq<Bytes>)
      ensures Sorted(keys) && forall k :: k in keys <==> k in tree && prefix <= k
    {
      keys := [];
      var todo := set k | k in tree && prefix <= k;
      while todo != {}
        invariant Sorted(keys)
        invariant forall k :: k in keys || k in todo <==> k in tree && prefix <= k
        invariant forall k, l :: k in keys && l in todo ==> Before(k, l)
        decreases |todo|
      {
        var least := LeastKey(todo);
        todo := todo - {least};
        keys := keys + [least];
      }
    }

    /**
     * What a scan for the client meets, removed; nothing else is. If it meets the client's own messages only, these are
     * exactly its queue, in push order, and no other queue changes.
     */
    method Drain(client: Bytes) returns (messages: seq<T>, ghost found: seq<Stored<T>>)
      requires Valid()
      modifies this
      ensures Valid() && live == Unmet(old(live), client)
      ensures Found(old(live), client, found) && IsPayload(messages, found)
      ensures OwnOnly(old(live), client) ==> IsQueueDrain(old(live), client, found, live)
    {
      var keys := ScanPrefix(KeyPrefix(client));
      found := ScanFinds(tree, live, nextId, client, keys);
      messages := Values(keys);
      assert forall j :: 0 <= j < |found| ==> keys[j] == KeyOf(found[j]);
      PayloadOf(tree, live, found, messages);
      RemainingHolds(tree, live, nextId, client, keys);
      RemoveAll(keys);
      DrainedQueue(live, nextId, client, found);
      live := Unmet(live, client);
    }

    method Values(keys: seq<Bytes>) returns (messages: seq<T>)
      requires forall k :: k in keys ==> k in tree
      ensures |messages| == |keys| && forall j :: 0 <= j < |keys| ==> messages[j] == tree[keys[j]]
    {
      messages := [];
      for i := 0 to |keys|
        invariant |messages| == i && forall j :: 0 <= j < i ==> messages[j] == tree[keys[j]]
      {
        messages := messages + [tree[keys[i]]];
      }
    }

    method RemoveAll(keys: seq<Bytes>)
      modifies this`tree
      ensures tree == old(tree) - set k | k in keys
    {
      for i := 0 to |keys|
        invariant tree == old(tree) - set k | k in keys[..i]
      {
        tree := tree - {keys[i]};
        assert keys[..i + 1] == keys[..i] + [keys[i]];
      }
      assert keys[..|keys|] == keys;
    }
  }

  method LeastKey(keys: set<Bytes>) returns (least: Bytes)
    requires keys != {}
    ensures least in keys && forall k :: k in keys && k != least ==> Before(least, k)
  {
    least :| least in keys;
    var todo := keys - {least};
    while todo != {}
      invariant todo <= keys && least in keys && least !in todo
      invariant forall k :: k in keys - todo && k != least ==> Before(least, k)
      decreases |todo|
    {
      var k :| k in todo;
      todo := todo - {k};
      BeforeTotal(least, k);
      if Before(k, least) {
        forall l | l in keys - todo && l != k && l != least ensures Before(k, l) {
          BeforeTransitive(k, least, l);
        }
        least := k;
      }
    }
  }
}
