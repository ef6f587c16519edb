/**
 * Runs of session-manager calls in any order. A message is known by its serial number. Two calls are there twice, as one
 * step and as the code's locks allow others in between: the sweep for expired sessions, as the separate check and removal
 * of each session, and the delivery, as an enqueue that comes later than the look at the session.
 */
module SessionRuns {
  import opened Basics
  import opened Packets
  import opened OfflineQueueModel
  import opened SessionModel

  datatype Call =
    | CallRegister(c: Client, clean: bool, will: Option<LastWill>, expiry: Option<nat>, now: nat)
    | CallDeliver(c: Client, now: nat, sending: Sending)
    | LatePut(c: Client, epoch: nat, now: nat)
    | CallRemove(c: Client)
    | CallRemoveIfEpoch(c: Client, epoch: nat)
    | CallMarkOffline(c: Client, epoch: nat, now: nat)
    | CallMarkOnline(c: Client, epoch: nat)
    | CallCleanup(now: nat)
    | CallTakeWill(c: Client, epoch: nat)
    | CallClearWill(c: Client, epoch: nat)
    | SweepCheck(c: Client, now: nat)
    | SweepRemove(c: Client)

  /** A will that was fired, with the registration it belonged to. */
  datatype Fired = Fired(c: Client, epoch: nat, will: LastWill)

  datatype World = World(
    s: Sessions<nat>,
    serial: nat,
    handed: map<Client, seq<nat>>,
    wills: map<nat, Option<LastWill>>,
    fired: seq<Fired>,
    condemned: set<Client>,
    stray: nat)

  function Start(): World {
    World(Sessions(map[], 0, 0), 0, map[], map[], [], {}, 0)
  }

  function Handed(w: World, c: Client): seq<nat> {
    if c in w.handed then w.handed[c] else []
  }

  function Step(w: World, call: Call, limits: Limits): World
    requires limits.max >= 1
  {
    match call
    case CallRegister(c, clean, will, expiry, now) =>
      w.(s := Register(w.s, c, clean, will, expiry),
         handed := w.handed[c := Handed(w, c) + Backlog(w.s, c, now, limits)],
         wills := w.wills[w.s.epochs + 1 := will])
    case CallDeliver(c, now, sending) => w.(s := Deliver(w.s, c, w.serial, now, sending, limits), serial := w.serial + 1)
    case LatePut(c, epoch, now) => w.(s := PutLate(w.s, c, epoch, w.serial, now, limits), serial := w.serial + 1)
    case CallRemove(c) => w.(s := Remove(w.s, c))
    case CallRemoveIfEpoch(c, epoch) => w.(s := RemoveIfEpoch(w.s, c, epoch))
    case CallMarkOffline(c, epoch, now) => w.(s := MarkOffline(w.s, c, epoch, now))
    case CallMarkOnline(c, epoch) => w.(s := MarkOnline(w.s, c, epoch))
    case CallCleanup(now) => w.(s := CleanupExpired(w.s, now))
    case CallTakeWill(c, epoch) =>
      w.(s := WithoutWill(w.s, c, epoch),
         fired := match WillOf(w.s, c, epoch)
         case None => w.fired
         case Some(will) => w.fired + [Fired(c, epoch, will)])
    case CallClearWill(c, epoch) => w.(s := WithoutWill(w.s, c, epoch))
    case SweepCheck(c, now) =>
      w.(condemned := if c in w.s.entries && IsExpired(w.s.entries[c], now) then w.condemned + {c}
                      else w.condemned - {c})
    case SweepRemove(c) =>
      if c !in w.condemned then w
      else w.(s := w.s.(entries := w.s.entries - {c}), condemned := w.condemned - {c},
              stray := if c in w.s.entries && w.s.entries[c].connected then w.stray + 1 else w.stray)
  }

  function RunFrom(w: World, calls: seq<Call>, limits: Limits): World
    requires limits.max >= 1
    decreases |calls|
  {
    if calls == [] then w else Step(RunFrom(w, calls[..|calls| - 1], limits), calls[|calls| - 1], limits)
  }

  function Run(calls: seq<Call>, limits: Limits): World
    requires limits.max >= 1
  {
    RunFrom(Start(), calls, limits)
  }

  // ---------- the online counter ----------

  predicate Counted(w: World) {
    w.s.online == |Connected(w.s.entries)| + w.stray
  }

  lemma StepKeepsCount(w: World, call: Call, limits: Limits)
    requires limits.max >= 1 && Counted(w)
    ensures Counted(Step(w, call, limits))
  {
    var entries, d := w.s.entries, Step(w, call, limits);
    match call {
      case CallRegister(c, clean, will, expiry, now) =>
        ConnectedUpdate(entries, c, d.s.entries[c]);
      case CallDeliver(c, now, sending) =>
        if c in entries { ConnectedUpdate(entries, c, d.s.entries[c]); }
      case LatePut(c, epoch, now) =>
        if c in entries { ConnectedUpdate(entries, c, d.s.entries[c]); }
      case CallRemove(c) =>
        ConnectedRemove(entries, c);
      case CallRemoveIfEpoch(c, epoch) =>
        ConnectedRemove(entries, c);
      case CallMarkOffline(c, epoch, now) =>
        if c in entries { ConnectedUpdate(entries, c, d.s.entries[c]); }
      case CallMarkOnline(c, epoch) =>
        if c in entries { ConnectedUpdate(entries, c, d.s.entries[c]); }
      case CallCleanup(now) =>
        ConnectedCleanup(w.s, now);
      case CallTakeWill(c, epoch) =>
        if c in entries { ConnectedUpdate(entries, c, d.s.entries[c]); }
      case CallClearWill(c, epoch) =>
        if c in entries { ConnectedUpdate(entries, c, d.s.entries[c]); }
      case SweepCheck(c, now) =>
      case SweepRemove(c) =>
        ConnectedRemove(entries, c);
    }
  }

  /** The counter exceeds the number of connected sessions by the connected sessions that a late removal took away. */
  lemma {:induction false} OnlineCount(calls: seq<Call>, limits: Limits)
    requires limits.max >= 1
    ensures var w := Run(calls, limits);
            w.s.online == |Connected(w.s.entries)| + w.stray
  {
    if calls != [] {
      OnlineCount(calls[..|calls| - 1], limits);
      StepKeepsCount(Run(calls[..|calls| - 1], limits), calls[|calls| - 1], limits);
    }
  }

  /** Every call is one atomic step: no removal of a sweep is separated from its check. */
  ghost predicate Atomic(calls: seq<Call>) {
    forall i :: 0 <= i < |calls| && calls[i].SweepRemove? ==>
      i > 0 && calls[i - 1].SweepCheck? && calls[i - 1].c == calls[i].c
  }

  /** With atomic calls the counter is exact. */
  lemma OnlineCountExact(calls: seq<Call>, limits: Limits)
    requires limits.max >= 1 && Atomic(calls)
    ensures var w := Run(calls, limits);
            w.s.online == |Connected(w.s.entries)|
  {
    OnlineCount(calls, limits);
    NoStray(calls, limits);
  }

  lemma {:induction false} NoStray(calls: seq<Call>, limits: Limits)
    requires limits.max >= 1 && Atomic(calls)
    ensures Run(calls, limits).stray == 0
  {
    if calls != [] {
      var n := |calls| - 1;
      var w := Run(calls[..n], limits);
      assert Atomic(calls[..n]);
      NoStray(calls[..n], limits);
      if calls[n].SweepRemove? {
        assert calls[..n][..n - 1] == calls[..n - 1] && calls[..n][n - 1] == calls[n - 1];
        assert w == Step(Run(calls[..n - 1], limits), calls[n - 1], limits);
      }
    }
  }

  /** Without atomicity it is not: a client that comes back between check and removal loses its session uncounted. */
  lemma SweepRace(c: Client, limits: Limits) returns (calls: seq<Call>)
    requires limits.max >= 1
    ensures var w := Run(calls, limits);
            w.s.online == 1 && Connected(w.s.entries) == {}
  {
    var come, go := CallRegister(c, false, None, Some(0), 0), CallMarkOffline(c, 1, 0);
    var w2 := Condemned(c, limits);
    var before := [] + [come] + [go] + [SweepCheck(c, 0)];
    calls := before + [come] + [SweepRemove(c)];
    RunMore([], come, limits);
    RunMore([] + [come], go, limits);
    RunMore([] + [come] + [go], SweepCheck(c, 0), limits);
    RunMore(before, come, limits);
    RunMore(before + [come], SweepRemove(c), limits);
    Removed(w2, c, limits);
  }

  /** An expired session, checked. */
  lemma Condemned(c: Client, limits: Limits) returns (w: World)
    requires limits.max >= 1
    ensures w == Step(Step(Step(Start(), CallRegister(c, false, None, Some(0), 0), limits),
                           CallMarkOffline(c, 1, 0), limits), SweepCheck(c, 0), limits)
    ensures w.s.entries.Keys == {c} && !w.s.entries[c].connected && w.s.online == 0 && c in w.condemned
  {
    w := Start();
    w := Step(w, CallRegister(c, false, None, Some(0), 0), limits);
    w := Step(w, CallMarkOffline(c, 1, 0), limits);
    w := Step(w, SweepCheck(c, 0), limits);
  }

  lemma Removed(w: World, c: Client, limits: Limits)
    requires limits.max >= 1
    requires w.s.entries.Keys == {c} && !w.s.entries[c].connected && w.s.online == 0 && c in w.condemned
    ensures var d := Step(Step(w, CallRegister(c, false, None, Some(0), 0), limits), SweepRemove(c), limits);
            d.s.online == 1 && Connected(d.s.entries) == {}
  {
    var back := Step(w, CallRegister(c, false, None, Some(0), 0), limits);
    assert back.s.online == 1 && back.s.entries.Keys == {c};
  }

  lemma RunMore(calls: seq<Call>, call: Call, limits: Limits)
    requires limits.max >= 1
    ensures Run(calls + [call], limits) == Step(Run(calls, limits), call, limits)
  {
    assert (calls + [call])[..|calls|] == calls;
  }

  // ---------- takeover ----------

  /** The epoch counter never goes back, and no entry is ahead of it. */
  predicate EpochsOk(w: World) {
    forall c :: c in w.s.entries ==> 1 <= w.s.entries[c].epoch <= w.s.epochs
  }

  /** What one call can do to a client's entry: keep its epoch, and its will or none; replace it under a new epoch; drop it. */
  predicate Follows(w: World, d: World, c: Client) {
    && w.s.epochs <= d.s.epochs <= w.s.epochs + 1
    && (c in d.s.entries ==>
          var e := d.s.entries[c];
          || (e.epoch == d.s.epochs && d.s.epochs == w.s.epochs + 1)
          || (c in w.s.entries && e.epoch == w.s.entries[c].epoch && (e.will == None || e.will == w.s.entries[c].will)))
  }

  lemma StepFollows(w: World, call: Call, limits: Limits, c: Client)
    requires limits.max >= 1
    ensures Follows(w, Step(w, call, limits), c)
  {
  }

  lemma {:induction false} EpochsBounded(calls: seq<Call>, limits: Limits)
    requires limits.max >= 1
    ensures EpochsOk(Run(calls, limits))
  {
    if calls != [] {
      var w, call := Run(calls[..|calls| - 1], limits), calls[|calls| - 1];
      EpochsBounded(calls[..|calls| - 1], limits);
      forall c ensures Follows(w, Step(w, call, limits), c) {
        StepFollows(w, call, limits, c);
      }
      EpochsStep(w, Step(w, call, limits));
    }
  }

  lemma EpochsStep(w: World, d: World)
    requires EpochsOk(w) && forall c :: Follows(w, d, c)
    ensures EpochsOk(d)
  {
    forall c | c in d.s.entries ensures 1 <= d.s.entries[c].epoch <= d.s.epochs {
      assert Follows(w, d, c);
    }
  }

  /** An epoch that does not own its client will never do so again. */
  lemma {:induction false} SupersededForever(w: World, calls: seq<Call>, limits: Limits, c: Client, epoch: nat)
    requires limits.max >= 1 && epoch <= w.s.epochs && !Owns(w.s, c, epoch)
    ensures !Owns(RunFrom(w, calls, limits).s, c, epoch) && epoch <= RunFrom(w, calls, limits).s.epochs
    decreases |calls|
  {
    if calls != [] {
      var d, call := RunFrom(w, calls[..|calls| - 1], limits), calls[|calls| - 1];
      SupersededForever(w, calls[..|calls| - 1], limits, c, epoch);
      StepFollows(d, call, limits, c);
      SupersededStep(d, Step(d, call, limits), c, epoch);
    }
  }

  lemma SupersededStep(w: World, d: World, c: Client, epoch: nat)
    requires Follows(w, d, c) && epoch <= w.s.epochs && !Owns(w.s, c, epoch)
    ensures !Owns(d.s, c, epoch) && epoch <= d.s.epochs
  {
  }

  /** A registration gets an epoch higher than every one before it, owns its client, and supersedes the others. */
  lemma RegisterSupersedes(calls: seq<Call>, call: Call, limits: Limits, epoch: nat)
    requires limits.max >= 1 && call.CallRegister? && epoch <= Run(calls, limits).s.epochs
    ensures var w, d := Run(calls, limits), Run(calls + [call], limits);
            && d.s.epochs == w.s.epochs + 1
            && Owns(d.s, call.c, d.s.epochs)
            && !Owns(d.s, call.c, epoch)
  {
    RunMore(calls, call, limits);
  }

  /** Calls guarded by an epoch that is not the owner's change nothing. */
  lemma StaleCallsHarmless<T>(s: Sessions<T>, c: Client, epoch: nat, now: nat)
    requires !Owns(s, c, epoch)
    ensures RemoveIfEpoch(s, c, epoch) == s
    ensures MarkOffline(s, c, epoch, now) == s && MarkOnline(s, c, epoch) == s
    ensures WithoutWill(s, c, epoch) == s && WillOf(s, c, epoch) == None
  {
  }

  // ---------- wills ----------

  /** A will that was fired is the one registered, and it is gone from the table. */
  ghost predicate WillsOk(w: World) {
    && EpochsOk(w)
    && (forall c :: c in w.s.entries ==>
          var e := w.s.entries[c];
          e.epoch in w.wills && (e.will == None || e.will == w.wills[e.epoch]))
    && (forall epoch :: epoch in w.wills ==> 1 <= epoch <= w.s.epochs)
    && (forall i :: 0 <= i < |w.fired| ==> FiredOk(w, w.fired[i]))
    && (forall i, j :: 0 <= i < j < |w.fired| ==> w.fired[i].c != w.fired[j].c || w.fired[i].epoch != w.fired[j].epoch)
  }

  predicate FiredOk(w: World, f: Fired) {
    && f.epoch in w.wills && w.wills[f.epoch] == Some(f.will)
    && f.epoch <= w.s.epochs
    && WillOf(w.s, f.c, f.epoch) == None
  }

  /** The ghost record of wills: only a registration adds to it, and only a taken will is fired. */
  predicate Records(w: World, d: World, call: Call) {
    && d.wills == (if call.CallRegister? then w.wills[w.s.epochs + 1 := call.will] else w.wills)
    && (forall c :: c in d.s.entries && (c !in w.s.entries || d.s.entries[c].epoch != w.s.entries[c].epoch) ==>
          call.CallRegister? && d.s.entries[c].will == call.will)
    && (d.fired == w.fired
        || (&& call.CallTakeWill? && WillOf(d.s, call.c, call.epoch) == None
            && WillOf(w.s, call.c, call.epoch).Some?
            && d.fired == w.fired + [Fired(call.c, call.epoch, WillOf(w.s, call.c, call.epoch).value)]))
  }

  lemma StepRecords(w: World, call: Call, limits: Limits)
    requires limits.max >= 1
    ensures Records(w, Step(w, call, limits), call)
  {
  }

  lemma FiredStays(w: World, d: World, call: Call, f: Fired)
    requires EpochsOk(w) && FiredOk(w, f) && Follows(w, d, f.c) && Records(w, d, call)
    requires forall epoch :: epoch in w.wills ==> 1 <= epoch <= w.s.epochs
    ensures FiredOk(d, f)
  {
  }

  lemma WillsStep(w: World, d: World, call: Call)
    requires WillsOk(w) && Records(w, d, call) && (forall c :: Follows(w, d, c))
    requires d.s.epochs == if call.CallRegister? then w.s.epochs + 1 else w.s.epochs
    ensures WillsOk(d)
  {
    EpochsStep(w, d);
    forall c | c in d.s.entries
      ensures d.s.entries[c].epoch in d.wills
      ensures d.s.entries[c].will == None || d.s.entries[c].will == d.wills[d.s.entries[c].epoch]
    {
      assert Follows(w, d, c);
    }
    forall i | 0 <= i < |w.fired| ensures FiredOk(d, w.fired[i]) {
      assert Follows(w, d, w.fired[i].c);
      FiredStays(w, d, call, w.fired[i]);
    }
    if d.fired != w.fired {
      assert Follows(w, d, call.c);
    }
  }

  lemma StepKeepsWills(w: World, call: Call, limits: Limits)
    requires limits.max >= 1 && WillsOk(w)
    ensures WillsOk(Step(w, call, limits))
  {
    forall c ensures Follows(w, Step(w, call, limits), c) {
      StepFollows(w, call, limits, c);
    }
    StepRecords(w, call, limits);
    WillsStep(w, Step(w, call, limits), call);
  }

  lemma {:induction false} RunKeepsWills(calls: seq<Call>, limits: Limits)
    requires limits.max >= 1
    ensures WillsOk(Run(calls, limits))
  {
    if calls != [] {
      RunKeepsWills(calls[..|calls| - 1], limits);
      StepKeepsWills(Run(calls[..|calls| - 1], limits), calls[|calls| - 1], limits);
    }
  }

  /** No registration's will is fired twice. */
  lemma WillFiresOnce(calls: seq<Call>, limits: Limits, i: nat, j: nat)
    requires limits.max >= 1 && i < j < |Run(calls, limits).fired|
    ensures var w := Run(calls, limits);
            (w.fired[i].c, w.fired[i].epoch) != (w.fired[j].c, w.fired[j].epoch)
  {
    RunKeepsWills(calls, limits);
  }

  /** What is fired is the will of that registration. */
  lemma FiredIsRegistered(calls: seq<Call>, limits: Limits, i: nat)
    requires limits.max >= 1 && i < |Run(calls, limits).fired|
    ensures var w := Run(calls, limits);
            w.fired[i].epoch in w.wills && w.wills[w.fired[i].epoch] == Some(w.fired[i].will)
  {
    RunKeepsWills(calls, limits);
    assert FiredOk(Run(calls, limits), Run(calls, limits).fired[i]);
  }

  /** Once a registration has no will left in the table, none of it is fired later. */
  lemma {:induction false} NoWillLater(w: World, calls: seq<Call>, limits: Limits, c: Client, epoch: nat)
    requires limits.max >= 1 && epoch <= w.s.epochs && WillOf(w.s, c, epoch) == None
    ensures WillSpent(w, RunFrom(w, calls, limits), c, epoch)
    decreases |calls|
  {
    if calls != [] {
      var d, call := RunFrom(w, calls[..|calls| - 1], limits), calls[|calls| - 1];
      NoWillLater(w, calls[..|calls| - 1], limits, c, epoch);
      StepFollows(d, call, limits, c);
      StepRecords(d, call, limits);
      SpentStep(w, d, Step(d, call, limits), call, c, epoch);
    }
  }

  /** Between w and d nothing was fired for this registration, and nothing can be from d on. */
  ghost predicate WillSpent(w: World, d: World, c: Client, epoch: nat) {
    && WillOf(d.s, c, epoch) == None && epoch <= d.s.epochs
    && |w.fired| <= |d.fired| && d.fired[..|w.fired|] == w.fired
    && forall i :: |w.fired| <= i < |d.fired| ==> d.fired[i].c != c || d.fired[i].epoch != epoch
  }

  lemma SpentStep(w: World, d: World, d': World, call: Call, c: Client, epoch: nat)
    requires WillSpent(w, d, c, epoch) && Follows(d, d', c) && Records(d, d', call)
    ensures WillSpent(w, d', c, epoch)
  {
  }

  /** After a processed DISCONNECT (its will cleared), and after a takeover, a registration's will never fires. */
  lemma NoWillAfterClearOrTakeover(before: seq<Call>, call: Call, after: seq<Call>, limits: Limits, c: Client, epoch: nat)
    requires limits.max >= 1 && epoch <= Run(before, limits).s.epochs
    requires call == CallClearWill(c, epoch) || (call.CallRegister? && call.c == c)
    ensures WillSpent(Run(before, limits), RunFrom(Run(before + [call], limits), after, limits), c, epoch)
  {
    RunMore(before, call, limits);
    NoWillLater(Run(before + [call], limits), after, limits, c, epoch);
  }

  // ---------- queued messages ----------

  ghost predicate Increasing(s: seq<nat>, bound: nat) {
    && (forall i, j :: 0 <= i < j < |s| ==> s[i] < s[j])
    && (forall i :: 0 <= i < |s| ==> s[i] < bound)
  }

  function Waiting(w: World, c: Client): seq<nat> {
    if c in w.s.entries && w.s.entries[c].queue.Some? then Messages(w.s.entries[c].queue.value) else []
  }

  /** What a client was handed and what waits for it, together, is in the order of delivery and without repetition. */
  ghost predicate HandedOk(w: World, c: Client) {
    Increasing(Handed(w, c) + Waiting(w, c), w.serial)
  }

  lemma MessagesSuffix(items: seq<Queued<nat>>, k: nat)
    requires k <= |items|
    ensures Messages(items[k..]) == Messages(items)[k..]
  {
  }

  /** Leaving out part of the waiting messages keeps the order. */
  lemma IncreasingSuffix(a: seq<nat>, b: seq<nat>, k: nat, bound: nat)
    requires k <= |b| && Increasing(a + b, bound)
    ensures Increasing(a + b[k..], bound) && Increasing(a, bound) && Increasing(a + [], bound)
  {
    var all, some := a + b, a + b[k..];
    forall i, j | 0 <= i < j < |some| ensures some[i] < some[j] {
      var i', j' := if i < |a| then i else i + k, if j < |a| then j else j + k;
      assert some[i] == all[i'] && some[j] == all[j'];
    }
    forall i | 0 <= i < |some| ensures some[i] < bound {
      assert some[i] == all[if i < |a| then i else i + k];
    }
    assert forall i :: 0 <= i < |a| ==> a[i] == all[i];
    assert a + [] == a;
  }

  lemma IncreasingMore(s: seq<nat>, bound: nat)
    requires Increasing(s, bound)
    ensures Increasing(s + [bound], bound + 1) && Increasing(s, bound + 1)
  {
  }

  lemma EnqueueKeepsOrder(a: seq<nat>, items: seq<Queued<nat>>, serial: nat, now: nat, limits: Limits)
    requires limits.max >= 1 && Increasing(a + Messages(items), serial)
    ensures Increasing(a + Messages(Enqueue(items, serial, now, limits)), serial + 1)
  {
    var k := EvictIsSuffix(items, now, limits.ttl);
    var evicted := Evict(items, now, limits.ttl);
    var room := Newest(evicted, limits.max - 1);
    var n := if |evicted| <= limits.max - 1 then k else k + |evicted| - (limits.max - 1);
    assert room == items[n..];
    MessagesSuffix(items, n);
    IncreasingSuffix(a, Messages(items), n, serial);
    IncreasingMore(a + Messages(room), serial);
    assert Messages(room + [Queued(serial, now)]) == Messages(room) + [serial];
    assert a + (Messages(room) + [serial]) == a + Messages(room) + [serial];
  }

  /** The queue of a client after a call: as it was, gone, emptied into what was handed out, or one message longer. */
  lemma RegisterHands(w: World, call: Call, limits: Limits, c: Client)
    requires limits.max >= 1 && HandedOk(w, c) && call.CallRegister? && call.c == c
    ensures HandedOk(Step(w, call, limits), c)
  {
    var a, b := Handed(w, c), Waiting(w, c);
    var d := Step(w, call, limits);
    assert Waiting(d, c) == [];
    assert Handed(d, c) + [] == a + Backlog(w.s, c, call.now, limits);
    if c in w.s.entries && w.s.entries[c].queue.Some? {
      var items := w.s.entries[c].queue.value;
      var k := EvictIsSuffix(items, call.now, limits.ttl);
      MessagesSuffix(items, k);
      IncreasingSuffix(a, b, k, w.serial);
    } else {
      IncreasingSuffix(a, b, 0, w.serial);
    }
  }

  /** The call puts its message in the client's queue. */
  predicate Queues(w: World, call: Call, c: Client) {
    || (call.CallDeliver? && call.c == c && DeliverOutcome(w.s, c, call.sending) == Enqueued)
    || (call.LatePut? && call.c == c && Reachable(w.s, c, call.epoch))
  }

  lemma DeliverQueues(w: World, call: Call, limits: Limits, c: Client)
    requires limits.max >= 1 && HandedOk(w, c) && (call.CallDeliver? || call.LatePut?)
    ensures HandedOk(Step(w, call, limits), c)
  {
    var d := Step(w, call, limits);
    if Queues(w, call, c) {
      EnqueueKeepsOrder(Handed(w, c), w.s.entries[c].queue.value, w.serial, call.now, limits);
    } else {
      assert Waiting(d, c) == Waiting(w, c);
      IncreasingMore(Handed(w, c) + Waiting(w, c), w.serial);
    }
  }

  lemma StepKeepsHanded(w: World, call: Call, limits: Limits, c: Client)
    requires limits.max >= 1 && HandedOk(w, c)
    ensures HandedOk(Step(w, call, limits), c)
  {
    if call.CallDeliver? || call.LatePut? {
      DeliverQueues(w, call, limits, c);
    } else if call.CallRegister? && call.c == c {
      RegisterHands(w, call, limits, c);
    } else {
      IncreasingSuffix(Handed(w, c), Waiting(w, c), 0, w.serial);
      OthersKeepQueue(w, call, limits, c);
    }
  }

  lemma OthersKeepQueue(w: World, call: Call, limits: Limits, c: Client)
    requires limits.max >= 1 && !call.CallDeliver? && !call.LatePut? && !(call.CallRegister? && call.c == c)
    ensures var d := Step(w, call, limits);
            && d.serial == w.serial && Handed(d, c) == Handed(w, c)
            && (Waiting(d, c) == [] || Waiting(d, c) == Waiting(w, c))
  {
  }

  /** Over every run, the messages a client's registrations hand back are in order of delivery, each at most once. */
  lemma {:induction false} HandedInOrder(calls: seq<Call>, limits: Limits, c: Client)
    requires limits.max >= 1
    ensures var w := Run(calls, limits);
            Increasing(Handed(w, c) + Waiting(w, c), w.serial)
  {
    if calls != [] {
      HandedInOrder(calls[..|calls| - 1], limits, c);
      StepKeepsHanded(Run(calls[..|calls| - 1], limits), calls[|calls| - 1], limits, c);
    }
  }

  // ---------- what a registration hands back ----------

  /** The messages put in the queue of the client's present session, with their times, oldest first. */
  function QueuedFor(calls: seq<Call>, limits: Limits, c: Client): seq<Queued<nat>>
    requires limits.max >= 1
    decreases |calls|
  {
    if calls == [] then []
    else
      var before, call := calls[..|calls| - 1], calls[|calls| - 1];
      var w, queued := Run(before, limits), QueuedFor(before, limits, c);
      if call.CallRegister? && call.c == c then []
      else if Queues(w, call, c) then queued + [Queued(w.serial, call.now)]
      else queued
  }

  predicate Enqueues(call: Call) {
    call.CallDeliver? || call.LatePut?
  }

  ghost predicate ClockForward(calls: seq<Call>) {
    forall i, j :: 0 <= i < j < |calls| && Enqueues(calls[i]) && Enqueues(calls[j]) ==> calls[i].now <= calls[j].now
  }

  /** No message is queued later than at this time. */
  ghost predicate QueuedBy(calls: seq<Call>, now: nat) {
    forall i :: 0 <= i < |calls| && Enqueues(calls[i]) ==> calls[i].now <= now
  }

  lemma QueueStays(w: World, call: Call, limits: Limits, c: Client)
    requires limits.max >= 1 && !Queues(w, call, c) && !(call.CallRegister? && call.c == c)
    ensures var d := Step(w, call, limits);
            c in d.s.entries ==> c in w.s.entries && d.s.entries[c].queue == w.s.entries[c].queue
  {
  }

  lemma QueueGrows(w: World, call: Call, limits: Limits, c: Client)
    requires limits.max >= 1 && Queues(w, call, c)
    ensures c in w.s.entries && w.s.entries[c].queue.Some?
    ensures var d := Step(w, call, limits);
            c in d.s.entries
            && d.s.entries[c].queue == Some(Enqueue(w.s.entries[c].queue.value, w.serial, call.now, limits))
  {
  }

  /** The queue of a session lags behind what was put in it by no more than a drain makes up for. */
  lemma {:induction false} QueueLags(calls: seq<Call>, limits: Limits, c: Client, now: nat) returns (n: nat)
    requires limits.max >= 1 && ClockForward(calls) && QueuedBy(calls, now)
    ensures var w := Run(calls, limits);
            c in w.s.entries && w.s.entries[c].queue.Some? ==>
            Lagging(w.s.entries[c].queue.value, QueuedFor(calls, limits, c), n, now, limits)
    decreases |calls|
  {
    n := 0;
    if calls != [] {
      var before, call := calls[..|calls| - 1], calls[|calls| - 1];
      var w := Run(before, limits);
      if call.CallRegister? && call.c == c {
        n := 0;
      } else if Queues(w, call, c) {
        forall i | 0 <= i < |before| && Enqueues(before[i]) ensures before[i].now <= call.now {
          assert before[i] == calls[i];
        }
        var a := QueueLags(before, limits, c, call.now);
        QueueGrows(w, call, limits, c);
        var op := Enq(w.serial, call.now);
        n := ApplyLags(w.s.entries[c].queue.value, QueuedFor(before, limits, c), a, op, limits);
        LagsOn(Apply(w.s.entries[c].queue.value, op, limits), QueuedFor(calls, limits, c), n, call.now, now, limits);
      } else {
        n := QueueLags(before, limits, c, now);
        QueueStays(w, call, limits, c);
      }
    }
  }

  /**
   * With a clock that goes forward, a registration hands back exactly the longest suffix of the messages put in the queue
   * of the session it replaces that fits the capacity and has not expired; nothing if there is no such queue.
   */
  lemma HandsBackLongestSuffix(calls: seq<Call>, limits: Limits, c: Client, now: nat) returns (n: nat)
    requires limits.max >= 1 && ClockForward(calls) && QueuedBy(calls, now)
    ensures var w, queued := Run(calls, limits), QueuedFor(calls, limits, c);
            if c in w.s.entries && !w.s.entries[c].clean && w.s.entries[c].queue.Some? then
              && n <= |queued| && Backlog(w.s, c, now, limits) == Messages(queued[n..])
              && Keepable(queued, n, now, limits)
              && forall k: nat :: k <= |queued| && Keepable(queued, k, now, limits) ==> n <= k
            else Backlog(w.s, c, now, limits) == []
  {
    n := 0;
    var w, queued := Run(calls, limits), QueuedFor(calls, limits, c);
    if c in w.s.entries && w.s.entries[c].queue.Some? {
      var a := QueueLags(calls, limits, c, now);
      n := EvictLags(w.s.entries[c].queue.value, queued, a, now, now, limits);
    }
  }

  // ---------- a delivery that comes too late ----------

  /** The message with this serial has been handed to nobody and waits for nobody. */
  ghost predicate Nowhere(w: World, serial: nat) {
    serial < w.serial && forall c :: serial !in Handed(w, c) && serial !in Waiting(w, c)
  }

  /** A late enqueue reaches the client exactly when the session it looked at is still in place. */
  lemma LatePutExact(calls: seq<Call>, limits: Limits, c: Client, epoch: nat, now: nat)
    requires limits.max >= 1
    ensures var w, d := Run(calls, limits), Run(calls + [LatePut(c, epoch, now)], limits);
            if c in w.s.entries && w.s.entries[c].epoch == epoch && w.s.entries[c].queue.Some?
            then w.serial in Waiting(d, c)
            else d.s == w.s && Nowhere(d, w.serial)
  {
    var w := Run(calls, limits);
    RunMore(calls, LatePut(c, epoch, now), limits);
    if Reachable(w.s, c, epoch) {
      var queue := Enqueue(w.s.entries[c].queue.value, w.serial, now, limits);
      assert Messages(queue)[|queue| - 1] == w.serial;
    } else {
      var d := Run(calls + [LatePut(c, epoch, now)], limits);
      forall b ensures w.serial !in Handed(d, b) && w.serial !in Waiting(d, b) {
        HandedInOrder(calls, limits, b);
        NotYet(Handed(w, b), Waiting(w, b), w.serial);
        assert Handed(d, b) == Handed(w, b) && Waiting(d, b) == Waiting(w, b);
      }
    }
  }

  lemma NotYet(a: seq<nat>, b: seq<nat>, serial: nat)
    requires Increasing(a + b, serial)
    ensures serial !in a && serial !in b
  {
    assert forall i :: 0 <= i < |a| ==> a[i] == (a + b)[i];
    assert forall i :: 0 <= i < |b| ==> b[i] == (a + b)[|a| + i];
  }

  /** A message that missed its queue is never handed to anybody, whatever calls follow. */
  lemma {:induction false} NowhereForever(w: World, calls: seq<Call>, limits: Limits, serial: nat)
    requires limits.max >= 1 && Nowhere(w, serial)
    ensures Nowhere(RunFrom(w, calls, limits), serial)
    decreases |calls|
  {
    if calls != [] {
      var d, call := RunFrom(w, calls[..|calls| - 1], limits), calls[|calls| - 1];
      NowhereForever(w, calls[..|calls| - 1], limits, serial);
      forall c ensures serial !in Handed(Step(d, call, limits), c) && serial !in Waiting(Step(d, call, limits), c) {
        NowhereStep(d, call, limits, serial, c);
      }
    }
  }

  lemma NowhereStep(w: World, call: Call, limits: Limits, serial: nat, c: Client)
    requires limits.max >= 1 && Nowhere(w, serial)
    ensures var d := Step(w, call, limits);
            serial < d.serial && serial !in Handed(d, c) && serial !in Waiting(d, c)
  {
    assert serial !in Handed(w, c) && serial !in Waiting(w, c);
    if Queues(w, call, c) {
      QueueGrows(w, call, limits, c);
      EnqueuedMessages(w.s.entries[c].queue.value, w.serial, call.now, limits);
    } else if call.CallRegister? && call.c == c {
      if c in w.s.entries && w.s.entries[c].queue.Some? {
        var items := w.s.entries[c].queue.value;
        var k := EvictIsSuffix(items, call.now, limits.ttl);
        MessagesSuffix(items, k);
      }
    } else {
      QueueStays(w, call, limits, c);
      var d := Step(w, call, limits);
      assert Handed(d, c) == Handed(w, c);
      assert Waiting(d, c) == [] || Waiting(d, c) == Waiting(w, c);
    }
  }

  lemma EnqueuedMessages(items: seq<Queued<nat>>, m: nat, now: nat, limits: Limits)
    requires limits.max >= 1
    ensures forall x :: x in Messages(Enqueue(items, m, now, limits)) ==> x in Messages(items) || x == m
  {
    var k := EvictIsSuffix(items, now, limits.ttl);
    var queue := Enqueue(items, m, now, limits);
    var skipped := |items| + 1 - |queue|;
    forall i | 0 <= i < |queue| ensures Messages(queue)[i] in Messages(items) || Messages(queue)[i] == m {
      if i < |queue| - 1 {
        assert queue[i] == items[skipped + i];
        assert Messages(items)[skipped + i] == queue[i].message;
      }
    }
  }
}
