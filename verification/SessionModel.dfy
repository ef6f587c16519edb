/** The session table on values: each function is one call on the session manager. Messages are of any type T. */
module SessionModel {
  import opened Basics
  import opened Packets
  import opened OfflineQueueModel

  type Client = string

  datatype Entry<T> = Entry(
    clean: bool,
    epoch: nat,
    connected: bool,
    will: Option<LastWill>,
    queue: Option<seq<Queued<T>>>,
    expiry: Option<nat>,
    offlineAt: Option<nat>)

  datatype Sessions<T> = Sessions(entries: map<Client, Entry<T>>, epochs: nat, online: int)

  /** Clock units per second; session expiry counts whole seconds. */
  const SECOND := 1_000_000_000

  function NewEntry<T>(clean: bool, epoch: nat, will: Option<LastWill>, expiry: Option<nat>): Entry<T> {
    Entry(clean, epoch, true, will, if clean then None else Some([]), if clean then None else expiry, None)
  }

  predicate IsExpired<T>(e: Entry<T>, now: nat) {
    !e.connected &&
    match (e.expiry, e.offlineAt)
    case (Some(secs), at) => secs == 0 || (at.Some? && (if now >= at.value then now - at.value else 0) / SECOND >= secs)
    case _ => false
  }

  predicate Owns<T>(s: Sessions<T>, c: Client, epoch: nat) {
    c in s.entries && s.entries[c].epoch == epoch
  }

  function Messages<T>(items: seq<Queued<T>>): seq<T> {
    seq(|items|, i requires 0 <= i < |items| => items[i].message)
  }

  /** What a registration hands back of the session it replaces. */
  function Backlog<T>(s: Sessions<T>, c: Client, now: nat, limits: Limits): seq<T> {
    if c in s.entries && !s.entries[c].clean && s.entries[c].queue.Some? then
      Messages(Evict(s.entries[c].queue.value, now, limits.ttl))
    else []
  }

  function Register<T>(s: Sessions<T>, c: Client, clean: bool, will: Option<LastWill>, expiry: Option<nat>): Sessions<T> {
    var epoch := s.epochs + 1;
    Sessions(s.entries[c := NewEntry(clean, epoch, will, expiry)], epoch,
             if c in s.entries && s.entries[c].connected then s.online else s.online + 1)
  }

  /** What became of an attempt to hand a message to the connection's channel. */
  datatype Sending = Accepted | Full | Closed

  datatype Outcome = Sent | Enqueued | ChannelFull | Dropped | NoSession

  function DeliverOutcome<T>(s: Sessions<T>, c: Client, sending: Sending): Outcome {
    if c !in s.entries then NoSession
    else if s.entries[c].connected && sending == Accepted then Sent
    else if s.entries[c].queue.Some? then Enqueued
    else if s.entries[c].connected && sending == Full then ChannelFull
    else Dropped
  }

  function Deliver<T>(s: Sessions<T>, c: Client, m: T, now: nat, sending: Sending, limits: Limits): Sessions<T>
    requires limits.max >= 1
  {
    if DeliverOutcome(s, c, sending) == Enqueued then
      var e := s.entries[c];
      s.(entries := s.entries[c := e.(queue := Some(Enqueue(e.queue.value, m, now, limits)))])
    else s
  }

  /** The session whose queue a delivery took hold of is still there. */
  predicate Reachable<T>(s: Sessions<T>, c: Client, epoch: nat) {
    Owns(s, c, epoch) && s.entries[c].queue.Some?
  }

  /**
   * A message put in the queue that belonged to the client's session of this epoch. A delivery takes hold of the queue
   * first and enqueues later, when the session may have been replaced or removed; the queue is then out of reach.
   */
  function PutLate<T>(s: Sessions<T>, c: Client, epoch: nat, m: T, now: nat, limits: Limits): Sessions<T>
    requires limits.max >= 1
  {
    if Reachable(s, c, epoch) then
      var e := s.entries[c];
      s.(entries := s.entries[c := e.(queue := Some(Enqueue(e.queue.value, m, now, limits)))])
    else s
  }

  function Remove<T>(s: Sessions<T>, c: Client): Sessions<T> {
    if c !in s.entries then s
    else Sessions(s.entries - {c}, s.epochs, if s.entries[c].connected then s.online - 1 else s.online)
  }

  function RemoveIfEpoch<T>(s: Sessions<T>, c: Client, epoch: nat): Sessions<T> {
    if Owns(s, c, epoch) then Remove(s, c) else s
  }

  function MarkOffline<T>(s: Sessions<T>, c: Client, epoch: nat, now: nat): Sessions<T> {
    if Owns(s, c, epoch) && s.entries[c].connected then
      Sessions(s.entries[c := s.entries[c].(connected := false, offlineAt := Some(now))], s.epochs, s.online - 1)
    else s
  }

  function MarkOnline<T>(s: Sessions<T>, c: Client, epoch: nat): Sessions<T> {
    if Owns(s, c, epoch) && !s.entries[c].connected then
      Sessions(s.entries[c := s.entries[c].(connected := true, offlineAt := None)], s.epochs, s.online + 1)
    else s
  }

  function ExpiredIds<T>(s: Sessions<T>, now: nat): set<Client> {
    set c | c in s.entries && IsExpired(s.entries[c], now)
  }

  function CleanupExpired<T>(s: Sessions<T>, now: nat): Sessions<T> {
    s.(entries := s.entries - ExpiredIds(s, now))
  }

  function WillOf<T>(s: Sessions<T>, c: Client, epoch: nat): Option<LastWill> {
    if Owns(s, c, epoch) then s.entries[c].will else None
  }

  /** Taking a will and clearing it leave the same table. */
  function WithoutWill<T>(s: Sessions<T>, c: Client, epoch: nat): Sessions<T> {
    if Owns(s, c, epoch) then s.(entries := s.entries[c := s.entries[c].(will := None)]) else s
  }

  // ---------- the counter ----------

  function Connected<T>(entries: map<Client, Entry<T>>): set<Client> {
    set c | c in entries && entries[c].connected
  }

  /** Replacing one entry moves the number of connected entries by that entry alone. */
  lemma ConnectedUpdate<T>(entries: map<Client, Entry<T>>, c: Client, e: Entry<T>)
    ensures |Connected(entries[c := e])|
            == |Connected(entries)| - (if c in Connected(entries) then 1 else 0) + (if e.connected then 1 else 0)
  {
    var now := Connected(entries[c := e]);
    forall b ensures b in now <==> if b == c then e.connected else b in Connected(entries) {}
    OneDiffers(Connected(entries), now, c);
  }

  lemma OneDiffers(a: set<Client>, b: set<Client>, c: Client)
    requires forall x :: x != c ==> (x in a <==> x in b)
    ensures |b| == |a| - (if c in a then 1 else 0) + (if c in b then 1 else 0)
  {
    var rest := a - {c};
    assert rest == b - {c};
    assert |rest| == |a| - if c in a then 1 else 0;
    assert |rest| == |b| - if c in b then 1 else 0;
  }

  lemma ConnectedRemove<T>(entries: map<Client, Entry<T>>, c: Client)
    ensures |Connected(entries - {c})| == |Connected(entries)| - if c in Connected(entries) then 1 else 0
  {
    assert Connected(entries - {c}) == Connected(entries) - {c};
  }

  lemma ConnectedCleanup<T>(s: Sessions<T>, now: nat)
    ensures Connected(CleanupExpired(s, now).entries) == Connected(s.entries)
  {
  }
}
