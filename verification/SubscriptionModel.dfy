/**
 * The subscription index as a value: the topic tree as a map from paths to subscribers, the shared-subscription
 * table and the reverse index. Each function below is what one lock block of the broker does to one of the three.
 */
module SubscriptionModel {
  import opened Basics
  import opened Packets
  import opened Topics

  type Subscribers = map<string, QoS>
  /** Every node of the tree, by the path of levels that leads to it. */
  type Trie = map<Levels, Subscribers>
  datatype Group = Group(members: Subscribers, counter: nat)
  type GroupKey = (string, string)
  type Groups = map<GroupKey, Group>
  type FilterList = seq<(string, QoS)>
  type Reverse = map<string, FilterList>
  datatype Index = Index(trie: Trie, shared: Groups, reverse: Reverse)

  // ---------- the topic tree ----------

  const EMPTY_TRIE: Trie := map[[] := map[]]

  /** A tree: the root exists and every node has a parent. */
  ghost predicate Closed(t: Trie) {
    [] in t && forall p {:trigger Parent(p)} :: p in t ==> Parent(p) in t
  }

  function At(t: Trie, p: Levels): Subscribers {
    if p in t then t[p] else map[]
  }

  function Prefixes(path: Levels): (s: set<Levels>)
    ensures forall p :: p in s <==> p <= path
  {
    var s := set k | 0 <= k <= |path| :: path[..k];
    assert forall p :: p <= path ==> p == path[..|p|];
    s
  }

  /** Every node on the way to `path` is created if missing. */
  function Grow(t: Trie, path: Levels): Trie {
    map p | p in t.Keys + Prefixes(path) :: At(t, p)
  }

  function Insert(t: Trie, path: Levels, client: string, qos: QoS): Trie {
    Grow(t, path)[path := At(t, path)[client := qos]]
  }

  /** Below `p` there is only the way to `path`, without a single subscriber. */
  predicate Prunable(t: Trie, path: Levels, depth: nat, p: Levels) {
    |p| > depth && p <= path && forall r :: r in t && p <= r ==> r <= path && t[r] == map[]
  }

  /** Drop the empty nodes at the end of `path` that lie deeper than `depth`. */
  function Prune(t: Trie, path: Levels, depth: nat): Trie {
    map p | p in t && !Prunable(t, path, depth, p) :: t[p]
  }

  function RemoveTo(t: Trie, path: Levels, client: string, depth: nat): Trie {
    if client in At(t, path) then Prune(t[path := t[path] - {client}], path, depth) else t
  }

  function Remove(t: Trie, path: Levels, client: string): Trie {
    RemoveTo(t, path, client, 0)
  }

  /** Forget the client everywhere; no node is dropped. */
  function RemoveEverywhere(t: Trie, client: string): Trie {
    map p | p in t :: t[p] - {client}
  }

  // ---------- shared groups ----------

  function GroupAt(shared: Groups, key: GroupKey): Group {
    if key in shared then shared[key] else Group(map[], 0)
  }

  function Enter(shared: Groups, key: GroupKey, client: string, qos: QoS): Groups {
    var g := GroupAt(shared, key);
    shared[key := g.(members := g.members[client := qos])]
  }

  function Leave(shared: Groups, key: GroupKey, client: string): Groups {
    if client !in GroupAt(shared, key).members then shared
    else if shared[key].members - {client} == map[] then shared - {key}
    else shared[key := shared[key].(members := shared[key].members - {client})]
  }

  function GroupsOf(shared: Groups, client: string): set<GroupKey> {
    set k | k in shared && client in shared[k].members
  }

  /** Leave each group of `keys`; the keys were collected under an earlier lock. */
  function LeaveEach(shared: Groups, keys: set<GroupKey>, client: string): Groups {
    map k | k in shared && (k in keys ==> shared[k].members - {client} != map[])
        :: if k in keys then shared[k].(members := shared[k].members - {client}) else shared[k]
  }

  function RotateOne(g: Group, key: GroupKey, topic: string): Group {
    if TopicMatches(topic, key.1) && g.members != map[] then g.(counter := (g.counter + 1) % U64) else g
  }

  /** A publish advances the round-robin counter of every matching group. */
  function Rotate(shared: Groups, topic: string): Groups {
    map k | k in shared :: RotateOne(shared[k], k, topic)
  }

  // ---------- reverse index ----------

  function FindFilter(list: FilterList, filter: string): Option<QoS> {
    if list == [] then None
    else if list[0].0 == filter then Some(list[0].1)
    else FindFilter(list[1..], filter)
  }

  function PutFilter(list: FilterList, filter: string, qos: QoS): FilterList {
    if list == [] then [(filter, qos)]
    else if list[0].0 == filter then [(filter, qos)] + list[1..]
    else [list[0]] + PutFilter(list[1..], filter, qos)
  }

  function DropFilter(list: FilterList, filter: string): FilterList {
    if list == [] then []
    else if list[0].0 == filter then DropFilter(list[1..], filter)
    else [list[0]] + DropFilter(list[1..], filter)
  }

  function ListOf(reverse: Reverse, client: string): FilterList {
    if client in reverse then reverse[client] else []
  }

  function Record(reverse: Reverse, client: string, filter: string, qos: QoS): Reverse {
    reverse[client := PutFilter(ListOf(reverse, client), filter, qos)]
  }

  function Erase(reverse: Reverse, client: string, filter: string): Reverse {
    var list := DropFilter(ListOf(reverse, client), filter);
    if list == [] then reverse - {client} else reverse[client := list]
  }

  // ---------- one operation: its first block, on the tree or on the groups ----------

  /** Would `subscribe` take this filter? */
  predicate Accepted(filter: string) {
    match ParseShared(filter)
    case Some(shared) => ValidFilter(shared.1)
    case None => ValidFilter(filter)
  }

  /** A shared filter is taken if and only if the filter inside is valid, any other if and only if it is valid itself. */
  lemma AcceptedIff(filter: string, group: string, inner: string)
    ensures ValidGroup(group) && filter == SharedName(group, inner) ==> (Accepted(filter) <==> ValidFilter(inner))
    ensures ParseShared(filter) == None ==> (Accepted(filter) <==> ValidFilter(filter))
  {
    ParseSharedInverse(filter, group, inner);
  }

  /** The QoS at which a client holds a filter, read from the tree and the groups. */
  function Held(ix: Index, client: string, filter: string): Option<QoS> {
    var subscribers := match ParseShared(filter)
      case Some(key) => GroupAt(ix.shared, key).members
      case None => At(ix.trie, Split(filter));
    if client in subscribers then Some(subscribers[client]) else None
  }

  /** The QoS at which a client holds a filter, read from the reverse index. */
  function Listed(ix: Index, client: string, filter: string): Option<QoS> {
    FindFilter(ListOf(ix.reverse, client), filter)
  }

  function Attach(ix: Index, client: string, filter: string, qos: QoS): Index {
    match ParseShared(filter)
    case Some(key) => ix.(shared := Enter(ix.shared, key, client, qos))
    case None => ix.(trie := Insert(ix.trie, Split(filter), client, qos))
  }

  function Detach(ix: Index, client: string, filter: string): Index {
    match ParseShared(filter)
    case Some(key) => ix.(shared := Leave(ix.shared, key, client))
    case None => ix.(trie := Remove(ix.trie, Split(filter), client))
  }

  // ---------- whole operations ----------

  const EMPTY_INDEX := Index(EMPTY_TRIE, map[], map[])

  function Subscribe(ix: Index, client: string, filter: string, qos: QoS): Index {
    if Accepted(filter)
    then Attach(ix, client, filter, qos).(reverse := Record(ix.reverse, client, filter, qos))
    else ix
  }

  function Unsubscribe(ix: Index, client: string, filter: string): Index {
    if Held(ix, client, filter).Some?
    then Detach(ix, client, filter).(reverse := Erase(ix.reverse, client, filter))
    else ix
  }

  function UnsubscribeAll(ix: Index, client: string): Index {
    Index(RemoveEverywhere(ix.trie, client), LeaveEach(ix.shared, GroupsOf(ix.shared, client), client),
          ix.reverse - {client})
  }

  // ---------- soundness of the three structures ----------

  /** A path with subscribers is the path of a valid filter that is not a shared one. */
  ghost predicate NormalPath(p: Levels) {
    WellSplit(p) && ValidFilter(Join(p)) && ParseShared(Join(p)) == None
  }

  ghost predicate TrieSound(t: Trie) {
    Closed(t) && forall p :: p in t && t[p] != map[] ==> NormalPath(p)
  }

  /** No group is empty, and each is named by a group name and a valid filter. */
  ghost predicate GroupsSound(shared: Groups) {
    forall k :: k in shared ==> ValidGroup(k.0) && ValidFilter(k.1) && shared[k].members != map[]
  }

  ghost predicate NoRepeats(list: FilterList) {
    forall i, j :: 0 <= i < j < |list| ==> list[i].0 != list[j].0
  }

  /** No client has an empty list or lists a filter twice. */
  ghost predicate ReverseSound(reverse: Reverse) {
    forall c :: c in reverse ==> reverse[c] != [] && NoRepeats(reverse[c])
  }

  ghost predicate Sound(ix: Index) {
    TrieSound(ix.trie) && GroupsSound(ix.shared) && ReverseSound(ix.reverse)
  }

  // ---------- what each block changes ----------

  lemma InsertAt(t: Trie, path: Levels, client: string, qos: QoS, p: Levels)
    ensures At(Insert(t, path, client, qos), p) == if p == path then At(t, p)[client := qos] else At(t, p)
  {
  }

  lemma RemoveAt(t: Trie, path: Levels, client: string, p: Levels)
    ensures At(Remove(t, path, client), p) == if p == path then At(t, p) - {client} else At(t, p)
  {
    if client in At(t, path) {
      var u := t[path := t[path] - {client}];
      assert Prunable(u, path, 0, p) && p in u ==> u[p] == map[];
    }
  }

  lemma InsertClosed(t: Trie, path: Levels, client: string, qos: QoS)
    requires Closed(t)
    ensures Closed(Insert(t, path, client, qos))
  {
    forall p | p in Insert(t, path, client, qos) ensures Parent(p) in Insert(t, path, client, qos) {
      assert p <= path ==> Parent(p) <= path;
    }
  }

  lemma RemoveClosed(t: Trie, path: Levels, client: string)
    requires Closed(t)
    ensures Closed(Remove(t, path, client))
  {
    if client in At(t, path) {
      var u := t[path := t[path] - {client}];
      forall p | p in u && !Prunable(u, path, 0, p) ensures Parent(p) in u && !Prunable(u, path, 0, Parent(p)) {
        assert Parent(p) in t;
        if Prunable(u, path, 0, Parent(p)) {
          assert Parent(p) <= p;
          assert forall r :: r in u && p <= r ==> Parent(p) <= r;
        }
      }
    }
  }

  /** Splitting is injective, so two filters never share a path or a group. */
  lemma DistinctFilters(f: string, g: string)
    requires f != g
    ensures ParseShared(f) == None && ParseShared(g) == None ==> Split(f) != Split(g)
    ensures ParseShared(f).Some? && ParseShared(g).Some? ==> ParseShared(f) != ParseShared(g)
  {
    JoinSplit(f);
    JoinSplit(g);
    if ParseShared(f).Some? {
      ParseSharedInverse(f, ParseShared(f).value.0, ParseShared(f).value.1);
      ParseSharedInverse(g, ParseShared(f).value.0, ParseShared(f).value.1);
    }
  }

  /** Attaching changes what one client holds for one filter, and nothing else. */
  lemma AttachHeld(ix: Index, c: string, f: string, q: QoS, d: string, g: string)
    ensures Held(Attach(ix, c, f, q), d, g) == if d == c && g == f then Some(q) else Held(ix, d, g)
  {
    if f != g {
      DistinctFilters(f, g);
    }
    InsertAt(ix.trie, Split(f), c, q, Split(g));
  }

  lemma DetachHeld(ix: Index, c: string, f: string, d: string, g: string)
    ensures Held(Detach(ix, c, f), d, g) == if d == c && g == f then None else Held(ix, d, g)
  {
    if f != g {
      DistinctFilters(f, g);
    }
    RemoveAt(ix.trie, Split(f), c, Split(g));
    match ParseShared(f)
    case Some(key) =>
      if c in GroupAt(ix.shared, key).members && d != c && d in ix.shared[key].members {
        assert d in ix.shared[key].members - {c};
      }
    case None =>
  }

  lemma AttachSound(ix: Index, c: string, f: string, q: QoS)
    requires Sound(ix) && Accepted(f)
    ensures Sound(Attach(ix, c, f, q))
  {
    match ParseShared(f)
    case Some(key) =>
      ParseSharedInverse(f, key.0, key.1);
      var g := GroupAt(ix.shared, key);
      assert c in g.members[c := q];
    case None =>
      JoinSplit(f);
      InsertClosed(ix.trie, Split(f), c, q);
      assert NormalPath(Split(f));
  }

  lemma RemoveSound(t: Trie, path: Levels, c: string)
    requires TrieSound(t)
    ensures TrieSound(Remove(t, path, c))
  {
    RemoveClosed(t, path, c);
    var u := Remove(t, path, c);
    forall p | p in u && u[p] != map[] ensures NormalPath(p) {
      RemoveAt(t, path, c, p);
      assert At(t, p) != map[];
    }
  }

  lemma LeaveSound(shared: Groups, key: GroupKey, c: string)
    requires GroupsSound(shared)
    ensures GroupsSound(Leave(shared, key, c))
  {
  }

  lemma DetachSound(ix: Index, c: string, f: string)
    requires Sound(ix)
    ensures Sound(Detach(ix, c, f))
  {
    match ParseShared(f)
    case Some(key) => LeaveSound(ix.shared, key, c);
    case None => RemoveSound(ix.trie, Split(f), c);
  }

  lemma {:induction false} PutFound(list: FilterList, f: string, q: QoS, g: string)
    ensures FindFilter(PutFilter(list, f, q), g) == if g == f then Some(q) else FindFilter(list, g)
  {
    if list != [] && list[0].0 != f {
      PutFound(list[1..], f, q, g);
    }
  }

  lemma {:induction false} DropFound(list: FilterList, f: string, g: string)
    ensures FindFilter(DropFilter(list, f), g) == if g == f then None else FindFilter(list, g)
  {
    if list != [] {
      DropFound(list[1..], f, g);
    }
  }

  lemma {:induction false} FoundIffPresent(list: FilterList, f: string)
    ensures FindFilter(list, f) == None <==> forall i :: 0 <= i < |list| ==> list[i].0 != f
  {
    if list != [] {
      FoundIffPresent(list[1..], f);
      assert forall i :: 0 < i < |list| ==> list[i] == list[1..][i - 1];
      assert forall i :: 0 <= i < |list[1..]| ==> list[1..][i] == list[i + 1];
    }
  }

  lemma {:induction false} PutNoRepeats(list: FilterList, f: string, q: QoS)
    requires NoRepeats(list)
    ensures NoRepeats(PutFilter(list, f, q)) && PutFilter(list, f, q) != []
  {
    if list != [] && list[0].0 != f {
      var rest := PutFilter(list[1..], f, q);
      PutNoRepeats(list[1..], f, q);
      PutFound(list[1..], f, q, list[0].0);
      FoundIffPresent(list[1..], list[0].0);
      FoundIffPresent(rest, list[0].0);
    }
  }

  lemma {:induction false} DropNoRepeats(list: FilterList, f: string)
    requires NoRepeats(list)
    ensures NoRepeats(DropFilter(list, f))
  {
    if list != [] {
      var rest := DropFilter(list[1..], f);
      DropNoRepeats(list[1..], f);
      DropFound(list[1..], f, list[0].0);
      FoundIffPresent(list[1..], list[0].0);
      FoundIffPresent(rest, list[0].0);
    }
  }
}
