/**
 * The life of one session, told by the calls made: from a registration to its disconnection, from there to its expiry,
 * and what becomes of its will and of the messages for it. Nothing here is said through the session table's own functions.
 */
module SessionHistory {
  import opened Basics
  import opened Packets
  import opened OfflineQueueModel
  import opened SessionModel
  import opened SessionRuns

  // ---------- calls that matter to a session ----------

  /** The call replaces or removes the session that the client has under this epoch. */
  predicate Ends(call: Call, c: Client, epoch: nat) {
    || (call.CallRegister? && call.c == c)
    || call == CallRemove(c)
    || call == CallRemoveIfEpoch(c, epoch)
  }

  ghost predicate StaysOnline(calls: seq<Call>, c: Client, epoch: nat) {
    forall i :: 0 <= i < |calls| ==>
      !Ends(calls[i], c, epoch) && !(calls[i].CallMarkOffline? && calls[i].c == c && calls[i].epoch == epoch)
  }

  ghost predicate StaysOffline(calls: seq<Call>, c: Client, epoch: nat) {
    forall i :: 0 <= i < |calls| ==> !Ends(calls[i], c, epoch) && calls[i] != CallMarkOnline(c, epoch)
  }

  /** Call i sweeps the client's session at this time: the whole table, or this session checked just before. */
  predicate SweptAt(calls: seq<Call>, i: nat, c: Client, now: nat)
    requires i < |calls|
  {
    calls[i] == CallCleanup(now) || (calls[i] == SweepRemove(c) && i > 0 && calls[i - 1] == SweepCheck(c, now))
  }

  /** The session expiry interval, in seconds, has passed by `now` since the disconnection at `since`, in nanoseconds. */
  predicate Lapsed(expiry: Option<nat>, since: nat, now: nat) {
    expiry.Some? && (expiry.value == 0 || now >= since + expiry.value * 1_000_000_000)
  }

  ghost predicate LapsedBySweep(calls: seq<Call>, c: Client, expiry: Option<nat>, since: nat) {
    exists i: nat, now: nat :: i < |calls| && SweptAt(calls, i, c, now) && Lapsed(expiry, since, now)
  }

  /** The last call is such a sweep. */
  ghost predicate LapsedAtLast(calls: seq<Call>, c: Client, expiry: Option<nat>, since: nat)
    requires calls != []
  {
    exists now: nat :: SweptAt(calls, |calls| - 1, c, now) && Lapsed(expiry, since, now)
  }

  // ---------- what the table says of it ----------

  /** The session of this registration: a persistent one has a queue and its expiry interval, a clean one has neither. */
  predicate Present(w: World, c: Client, epoch: nat, clean: bool, expiry: Option<nat>) {
    && c in w.s.entries && w.s.entries[c].epoch == epoch && w.s.entries[c].clean == clean
    && (w.s.entries[c].queue.Some? <==> !clean)
    && w.s.entries[c].expiry == if clean then None else expiry
  }

  predicate Online(w: World, c: Client, epoch: nat, clean: bool, expiry: Option<nat>) {
    Present(w, c, epoch, clean, expiry) && w.s.entries[c].connected && w.s.entries[c].offlineAt == None
  }

  predicate Offline(w: World, c: Client, epoch: nat, clean: bool, expiry: Option<nat>, since: nat) {
    Present(w, c, epoch, clean, expiry) && !w.s.entries[c].connected && w.s.entries[c].offlineAt == Some(since)
  }

  lemma ExpiredIffLapsed<T>(e: Entry<T>, since: nat, now: nat)
    requires !e.connected && e.offlineAt == Some(since)
    ensures IsExpired(e, now) <==> Lapsed(e.expiry, since, now)
  {
  }

  lemma OnlineStep(w: World, call: Call, limits: Limits, c: Client, epoch: nat, clean: bool, expiry: Option<nat>)
    requires limits.max >= 1 && Online(w, c, epoch, clean, expiry) && StaysOnline([call], c, epoch)
    requires call == SweepRemove(c) ==> c !in w.condemned
    ensures Online(Step(w, call, limits), c, epoch, clean, expiry)
  {
    assert [call][0] == call;
  }

  /** What the check just before a removal decided. */
  lemma CheckedJustBefore(w: World, calls: seq<Call>, limits: Limits, c: Client)
    requires limits.max >= 1 && Atomic(calls) && calls != [] && calls[|calls| - 1] == SweepRemove(c)
    ensures |calls| > 1 && calls[|calls| - 2].SweepCheck? && calls[|calls| - 2].c == c
    ensures var d := RunFrom(w, calls[..|calls| - 1], limits);
      c in d.condemned <==> c in d.s.entries && IsExpired(d.s.entries[c], calls[|calls| - 2].now)
  {
    var n := |calls| - 1;
    assert calls[..n][..n - 1] == calls[..n - 1] && calls[..n][n - 1] == calls[n - 1];
    assert RunFrom(w, calls[..n], limits) == Step(RunFrom(w, calls[..n - 1], limits), calls[n - 1], limits);
  }

  /** While nobody ends it or marks it offline, a registered session stays, connected, through every sweep. */
  lemma {:induction false} OnlineLife(w: World, calls: seq<Call>, limits: Limits, c: Client, epoch: nat, clean: bool,
                                      expiry: Option<nat>)
    requires limits.max >= 1 && Online(w, c, epoch, clean, expiry) && StaysOnline(calls, c, epoch) && Atomic(calls)
    ensures Online(RunFrom(w, calls, limits), c, epoch, clean, expiry)
    decreases |calls|
  {
    if calls != [] {
      var n := |calls| - 1;
      OnlineLife(w, calls[..n], limits, c, epoch, clean, expiry);
      if calls[n] == SweepRemove(c) {
        CheckedJustBefore(w, calls, limits, c);
      }
      OnlineStep(RunFrom(w, calls[..n], limits), calls[n], limits, c, epoch, clean, expiry);
    }
  }

  // ---------- expiry ----------

  lemma OfflineStep(w: World, call: Call, limits: Limits, c: Client, epoch: nat, clean: bool, expiry: Option<nat>, since: nat)
    requires limits.max >= 1 && Offline(w, c, epoch, clean, expiry, since) && StaysOffline([call], c, epoch)
    requires call == SweepRemove(c) ==> c !in w.condemned
    requires call.CallCleanup? ==> !IsExpired(w.s.entries[c], call.now)
    ensures Offline(Step(w, call, limits), c, epoch, clean, expiry, since)
  {
    assert [call][0] == call;
  }

  lemma GoneStep(w: World, call: Call, limits: Limits, c: Client, epoch: nat)
    requires limits.max >= 1 && c !in w.s.entries && !Ends(call, c, epoch)
    ensures c !in Step(w, call, limits).s.entries
  {
  }

  /** Marked online again, it is as it was when registered. */
  lemma BackOnline(w: World, limits: Limits, c: Client, epoch: nat, clean: bool, expiry: Option<nat>, since: nat)
    requires limits.max >= 1 && Offline(w, c, epoch, clean, expiry, since)
    ensures Online(Step(w, CallMarkOnline(c, epoch), limits), c, epoch, clean, expiry)
  {
  }

  lemma SweptMore(calls: seq<Call>, c: Client, expiry: Option<nat>, since: nat)
    requires calls != []
    ensures LapsedBySweep(calls, c, expiry, since) <==>
      LapsedBySweep(calls[..|calls| - 1], c, expiry, since) || LapsedAtLast(calls, c, expiry, since)
  {
    var n := |calls| - 1;
    forall i: nat, now: nat | i < n ensures SweptAt(calls, i, c, now) <==> SweptAt(calls[..n], i, c, now) {
      assert calls[..n][i] == calls[i] && (i > 0 ==> calls[..n][i - 1] == calls[i - 1]);
    }
    if LapsedBySweep(calls, c, expiry, since) {
      var i: nat, now: nat :| i < |calls| && SweptAt(calls, i, c, now) && Lapsed(expiry, since, now);
      assert i < n ==> SweptAt(calls[..n], i, c, now);
    }
    if LapsedBySweep(calls[..n], c, expiry, since) {
      var i: nat, now: nat :| i < n && SweptAt(calls[..n], i, c, now) && Lapsed(expiry, since, now);
      assert SweptAt(calls, i, c, now);
    }
  }

  /**
   * An offline session that nobody ends or marks online is there, with what it had, until the first sweep at which its
   * expiry interval has passed, and is gone from then on.
   */
  lemma {:induction false} OfflineLife(w: World, calls: seq<Call>, limits: Limits, c: Client, epoch: nat, clean: bool,
                                       expiry: Option<nat>, since: nat)
    requires limits.max >= 1 && Offline(w, c, epoch, clean, expiry, since)
    requires StaysOffline(calls, c, epoch) && Atomic(calls)
    ensures var d := RunFrom(w, calls, limits);
      if LapsedBySweep(calls, c, if clean then None else expiry, since) then c !in d.s.entries
      else Offline(d, c, epoch, clean, expiry, since)
    decreases |calls|
  {
    if calls != [] {
      var n, kept := |calls| - 1, if clean then None else expiry;
      OfflineLife(w, calls[..n], limits, c, epoch, clean, expiry, since);
      SweptMore(calls, c, kept, since);
      var d := RunFrom(w, calls[..n], limits);
      if LapsedBySweep(calls[..n], c, kept, since) {
        GoneStep(d, calls[n], limits, c, epoch);
      } else {
        OfflineNext(w, calls, limits, c, epoch, clean, expiry, since);
      }
    }
  }

  lemma OfflineNext(w: World, calls: seq<Call>, limits: Limits, c: Client, epoch: nat, clean: bool,
                    expiry: Option<nat>, since: nat)
    requires limits.max >= 1 && calls != [] && StaysOffline(calls, c, epoch) && Atomic(calls)
    requires Offline(RunFrom(w, calls[..|calls| - 1], limits), c, epoch, clean, expiry, since)
    ensures var d := RunFrom(w, calls, limits);
      if LapsedAtLast(calls, c, if clean then None else expiry, since) then c !in d.s.entries
      else Offline(d, c, epoch, clean, expiry, since)
  {
    var n := |calls| - 1;
    var call, d := calls[n], RunFrom(w, calls[..n], limits);
    if call.CallCleanup? {
      ExpiredIffLapsed(d.s.entries[c], since, call.now);
      assert SweptAt(calls, n, c, call.now);
    } else if call == SweepRemove(c) {
      CheckedJustBefore(w, calls, limits, c);
      ExpiredIffLapsed(d.s.entries[c], since, calls[n - 1].now);
      assert SweptAt(calls, n, c, calls[n - 1].now);
    }
    if !(call.CallCleanup? && IsExpired(d.s.entries[c], call.now)) && !(call == SweepRemove(c) && c in d.condemned) {
      OfflineStep(d, call, limits, c, epoch, clean, expiry, since);
    }
  }

  // ---------- over a run ----------

  lemma RunFromMore(w: World, calls: seq<Call>, call: Call, limits: Limits)
    requires limits.max >= 1
    ensures RunFrom(w, calls + [call], limits) == Step(RunFrom(w, calls, limits), call, limits)
  {
    assert (calls + [call])[..|calls|] == calls;
  }

  lemma {:induction false} RunOn(w: World, a: seq<Call>, b: seq<Call>, limits: Limits)
    requires limits.max >= 1
    ensures RunFrom(w, a + b, limits) == RunFrom(RunFrom(w, a, limits), b, limits)
    decreases |b|
  {
    if b == [] {
      assert a + b == a;
    } else {
      var less, last := b[..|b| - 1], b[|b| - 1];
      assert b == less + [last] && a + b == (a + less) + [last];
      RunOn(w, a, less, limits);
      RunFromMore(w, a + less, last, limits);
      RunFromMore(RunFrom(w, a, limits), less, last, limits);
    }
  }

  lemma RunSplit(calls: seq<Call>, i: nat, n: nat, limits: Limits)
    requires limits.max >= 1 && i <= n <= |calls|
    ensures SessionRuns.Run(calls[..n], limits) == RunFrom(SessionRuns.Run(calls[..i], limits), calls[i..n], limits)
  {
    assert calls[..n] == calls[..i] + calls[i..n];
    RunOn(Start(), calls[..i], calls[i..n], limits);
  }

  lemma RunNext(calls: seq<Call>, i: nat, limits: Limits)
    requires limits.max >= 1 && i < |calls|
    ensures SessionRuns.Run(calls[..i + 1], limits) == Step(SessionRuns.Run(calls[..i], limits), calls[i], limits)
  {
    assert calls[..i + 1] == calls[..i] + [calls[i]];
    RunFromMore(Start(), calls[..i], calls[i], limits);
  }

  lemma AtomicPart(calls: seq<Call>, i: nat, n: nat)
    requires Atomic(calls) && 0 < i <= n <= |calls| && !calls[i - 1].SweepCheck?
    ensures Atomic(calls[i..n])
  {
    forall j | 0 <= j < n - i && calls[i..n][j].SweepRemove?
      ensures j > 0 && calls[i..n][j - 1].SweepCheck? && calls[i..n][j - 1].c == calls[i..n][j].c
    {
      assert calls[i..n][j] == calls[i + j] && (j > 0 ==> calls[i..n][j - 1] == calls[i + j - 1]);
    }
  }

  /** Call r registers the client, under the next epoch; nobody ends that session or marks it offline before call o. */
  ghost predicate RegisteredAt(calls: seq<Call>, r: nat, o: nat, epoch: nat, limits: Limits)
    requires limits.max >= 1
  {
    && r < o <= |calls| && calls[r].CallRegister?
    && epoch == SessionRuns.Run(calls[..r], limits).s.epochs + 1
    && StaysOnline(calls[r + 1..o], calls[r].c, epoch)
  }

  /** Call o then marks the session offline, and nobody ends it or marks it online from there on. */
  ghost predicate LeftAt(calls: seq<Call>, r: nat, o: nat, epoch: nat, since: nat, limits: Limits)
    requires limits.max >= 1
  {
    && o < |calls| && RegisteredAt(calls, r, o, epoch, limits)
    && calls[o] == CallMarkOffline(calls[r].c, epoch, since)
    && StaysOffline(calls[o + 1..], calls[r].c, epoch)
  }

  /** A registered session is connected; persistent, it has its queue and its expiry interval, clean, it has neither. */
  lemma OnlineAt(calls: seq<Call>, r: nat, o: nat, epoch: nat, limits: Limits)
    requires limits.max >= 1 && Atomic(calls) && RegisteredAt(calls, r, o, epoch, limits)
    ensures Online(SessionRuns.Run(calls[..o], limits), calls[r].c, epoch, calls[r].clean, calls[r].expiry)
  {
    RunNext(calls, r, limits);
    RunSplit(calls, r + 1, o, limits);
    AtomicPart(calls, r + 1, o);
    OnlineLife(SessionRuns.Run(calls[..r + 1], limits), calls[r + 1..o], limits, calls[r].c, epoch, calls[r].clean,
               calls[r].expiry);
  }

  /**
   * Over every run of atomic calls: a session that was registered and then marked offline at `since` is swept away exactly
   * when a sweep comes at which its expiry interval has passed, and has all it had until then.
   */
  lemma ExpiryExact(calls: seq<Call>, r: nat, o: nat, epoch: nat, since: nat, limits: Limits)
    requires limits.max >= 1 && Atomic(calls) && LeftAt(calls, r, o, epoch, since, limits)
    ensures var c, w := calls[r].c, SessionRuns.Run(calls, limits);
      && (c !in w.s.entries <==> !calls[r].clean && LapsedBySweep(calls[o + 1..], c, calls[r].expiry, since))
      && (c in w.s.entries ==> Offline(w, c, epoch, calls[r].clean, calls[r].expiry, since))
  {
    var reg := calls[r];
    assert Offline(SessionRuns.Run(calls[..o + 1], limits), reg.c, epoch, reg.clean, reg.expiry, since) by {
      OnlineAt(calls, r, o, epoch, limits);
      MarkedAt(calls, o, limits, reg.c, epoch, reg.clean, reg.expiry, since);
    }
    assert Atomic(calls[o + 1..]) by {
      AtomicPart(calls, o + 1, |calls|);
    }
    SweptAfter(calls, o + 1, limits, reg.c, epoch, reg.clean, reg.expiry, since);
  }

  lemma SweptAfter(calls: seq<Call>, n: nat, limits: Limits, c: Client, epoch: nat, clean: bool, expiry: Option<nat>, since: nat)
    requires limits.max >= 1 && n <= |calls| && Atomic(calls[n..]) && StaysOffline(calls[n..], c, epoch)
    requires Offline(SessionRuns.Run(calls[..n], limits), c, epoch, clean, expiry, since)
    ensures var w := SessionRuns.Run(calls, limits);
      && (c !in w.s.entries <==> !clean && LapsedBySweep(calls[n..], c, expiry, since))
      && (c in w.s.entries ==> Offline(w, c, epoch, clean, expiry, since))
  {
    RunSplit(calls, n, |calls|, limits);
    assert calls[..|calls|] == calls;
    OfflineLife(SessionRuns.Run(calls[..n], limits), calls[n..], limits, c, epoch, clean, expiry, since);
    assert !LapsedBySweep(calls[n..], c, None, since);
  }

  lemma MarkedAt(calls: seq<Call>, o: nat, limits: Limits, c: Client, epoch: nat, clean: bool, expiry: Option<nat>, since: nat)
    requires limits.max >= 1 && o < |calls| && calls[o] == CallMarkOffline(c, epoch, since)
    requires Online(SessionRuns.Run(calls[..o], limits), c, epoch, clean, expiry)
    ensures Offline(SessionRuns.Run(calls[..o + 1], limits), c, epoch, clean, expiry, since)
  {
    RunNext(calls, o, limits);
  }

  // ---------- deliveries ----------

  /** What a delivery does, by the session's life: sent, queued for later, or lost. */
  lemma DeliveryTold(w: World, c: Client, epoch: nat, clean: bool, expiry: Option<nat>, since: nat, now: nat,
                     sending: Sending, limits: Limits)
    requires limits.max >= 1
    ensures var outcome, d := DeliverOutcome(w.s, c, sending), Step(w, CallDeliver(c, now, sending), limits);
      && (Online(w, c, epoch, clean, expiry) ==>
            outcome == match sending
              case Accepted => Sent
              case Full => if clean then ChannelFull else Enqueued
              case Closed => if clean then Dropped else Enqueued)
      && (Offline(w, c, epoch, clean, expiry, since) ==> outcome == if clean then Dropped else Enqueued)
      && (c !in w.s.entries ==> outcome == NoSession)
      && (if outcome == Enqueued then Waiting(d, c) != [] && Waiting(d, c)[|Waiting(d, c)| - 1] == w.serial else d.s == w.s)
  {
  }

  lemma {:induction false} QueuedIncreasing(calls: seq<Call>, limits: Limits, c: Client)
    requires limits.max >= 1
    ensures Increasing(Messages(QueuedFor(calls, limits, c)), SessionRuns.Run(calls, limits).serial)
    decreases |calls|
  {
    if calls != [] {
      var n := |calls| - 1;
      var queued, w := QueuedFor(calls[..n], limits, c), SessionRuns.Run(calls[..n], limits);
      QueuedIncreasing(calls[..n], limits, c);
      IncreasingMore(Messages(queued), w.serial);
      SerialStep(w, calls[n], limits);
      if Queues(w, calls[n], c) {
        assert Messages(queued + [Queued(w.serial, calls[n].now)]) == Messages(queued) + [w.serial];
      }
    }
  }

  lemma SerialStep(w: World, call: Call, limits: Limits)
    requires limits.max >= 1
    ensures Step(w, call, limits).serial == if Enqueues(call) then w.serial + 1 else w.serial
  {
  }

  /** The call registers the client anew. */
  predicate Registers(call: Call, c: Client) {
    call.CallRegister? && call.c == c
  }

  lemma QueuedMore(calls: seq<Call>, limits: Limits, c: Client)
    requires limits.max >= 1 && calls != [] && !Registers(calls[|calls| - 1], c)
    ensures QueuedFor(calls[..|calls| - 1], limits, c) <= QueuedFor(calls, limits, c)
  {
  }

  lemma {:induction false} QueuedPrefix(calls: seq<Call>, i: nat, limits: Limits, c: Client)
    requires limits.max >= 1 && i <= |calls| && forall j :: i <= j < |calls| ==> !Registers(calls[j], c)
    ensures QueuedFor(calls[..i], limits, c) <= QueuedFor(calls, limits, c)
    decreases |calls|
  {
    if i == |calls| {
      assert calls[..i] == calls;
    } else {
      assert calls[..|calls| - 1][..i] == calls[..i];
      QueuedPrefix(calls[..|calls| - 1], i, limits, c);
      QueuedMore(calls, limits, c);
    }
  }

  /** With times going forward, how far back a drain reaches is decided by one message. */
  lemma KeepableIff(h: seq<Queued<nat>>, k: nat, now: nat, limits: Limits)
    requires k < |h| && TimesForward(h) && forall i :: 0 <= i < |h| ==> h[i].at <= now
    ensures Keepable(h, k, now, limits) <==> |h| - k <= limits.max && now < h[k].at + limits.ttl
  {
  }

  /**
   * A message put in the queue is handed back by the next registration exactly if fewer messages than the queue holds
   * were queued after it and it is younger than the time to live.
   */
  lemma ComesBackIff(calls: seq<Call>, i: nat, limits: Limits, c: Client, now: nat)
    requires limits.max >= 1 && SessionRuns.ClockForward(calls) && QueuedBy(calls, now)
    requires i < |calls| && Queues(SessionRuns.Run(calls[..i], limits), calls[i], c)
    requires forall j :: i < j < |calls| ==> !Registers(calls[j], c)
    requires var w := SessionRuns.Run(calls, limits); c in w.s.entries && !w.s.entries[c].clean && w.s.entries[c].queue.Some?
    ensures SessionRuns.Run(calls[..i], limits).serial in Backlog(SessionRuns.Run(calls, limits).s, c, now, limits) <==>
      && |QueuedFor(calls, limits, c)| - |QueuedFor(calls[..i + 1], limits, c)| < limits.max
      && now < calls[i].now + limits.ttl
  {
    var queued, serial := QueuedFor(calls, limits, c), SessionRuns.Run(calls[..i], limits).serial;
    var k := |QueuedFor(calls[..i], limits, c)|;
    QueuedAt(calls, i, limits, c);
    var n := HandsBackLongestSuffix(calls, limits, c, now);
    var a := QueueLags(calls, limits, c, now);
    QueuedIncreasing(calls, limits, c);
    FoundFrom(queued, n, k, serial, SessionRuns.Run(calls, limits).serial);
    KeepableFrom(queued, n, k, now, limits);
    KeepableIff(queued, k, now, limits) by { QueuedTimes(calls, limits, c, now); }
  }

  lemma QueuedAt(calls: seq<Call>, i: nat, limits: Limits, c: Client)
    requires limits.max >= 1 && i < |calls| && Queues(SessionRuns.Run(calls[..i], limits), calls[i], c)
    requires forall j :: i < j < |calls| ==> !Registers(calls[j], c)
    ensures var queued, k := QueuedFor(calls, limits, c), |QueuedFor(calls[..i], limits, c)|;
      && k < |queued| && queued[k] == Queued(SessionRuns.Run(calls[..i], limits).serial, calls[i].now)
      && |QueuedFor(calls[..i + 1], limits, c)| == k + 1
  {
    assert calls[..i + 1][..i] == calls[..i] && calls[..i + 1][i] == calls[i];
    QueuedPrefix(calls, i + 1, limits, c);
  }

  lemma FoundFrom(queued: seq<Queued<nat>>, n: nat, k: nat, serial: nat, bound: nat)
    requires n <= |queued| && k < |queued| && queued[k].message == serial && Increasing(Messages(queued), bound)
    ensures serial in Messages(queued[n..]) <==> n <= k
  {
    var rest := Messages(queued[n..]);
    assert forall j :: 0 <= j < |rest| ==> rest[j] == Messages(queued)[n + j];
    assert Messages(queued)[k] == serial;
    if n <= k {
      assert rest[k - n] == serial;
    }
  }

  lemma KeepableFrom(h: seq<Queued<nat>>, n: nat, k: nat, now: nat, limits: Limits)
    requires n <= |h| && k < |h| && Keepable(h, n, now, limits)
    requires forall j: nat :: j <= |h| && Keepable(h, j, now, limits) ==> n <= j
    ensures n <= k <==> Keepable(h, k, now, limits)
  {
  }

  lemma {:induction false} QueuedTimes(calls: seq<Call>, limits: Limits, c: Client, now: nat)
    requires limits.max >= 1 && QueuedBy(calls, now)
    ensures forall i :: 0 <= i < |QueuedFor(calls, limits, c)| ==> QueuedFor(calls, limits, c)[i].at <= now
    decreases |calls|
  {
    if calls != [] {
      assert QueuedBy(calls[..|calls| - 1], now);
      QueuedTimes(calls[..|calls| - 1], limits, c, now);
    }
  }

  lemma LapsedLater(calls: seq<Call>, n: nat, c: Client, expiry: Option<nat>, since: nat)
    requires n <= |calls| && LapsedBySweep(calls[..n], c, expiry, since)
    ensures LapsedBySweep(calls, c, expiry, since)
  {
    var i: nat, now: nat :| i < n && SweptAt(calls[..n], i, c, now) && Lapsed(expiry, since, now);
    assert SweptAt(calls, i, c, now);
  }

  lemma LeftBefore(calls: seq<Call>, r: nat, o: nat, epoch: nat, since: nat, n: nat, limits: Limits)
    requires limits.max >= 1 && Atomic(calls) && LeftAt(calls, r, o, epoch, since, limits) && o < n <= |calls|
    ensures Atomic(calls[..n]) && LeftAt(calls[..n], r, o, epoch, since, limits)
    ensures calls[..n][o + 1..] == calls[o + 1..][..n - o - 1]
  {
    assert calls[..n][..r] == calls[..r] && calls[..n][r + 1..o] == calls[r + 1..o];
    assert calls[..n][o + 1..] == calls[o + 1..][..n - o - 1];
  }

  /** A persistent session is there at every point of the run after it was left, if no sweep finds it lapsed. */
  lemma AwayAt(calls: seq<Call>, r: nat, o: nat, epoch: nat, since: nat, n: nat, limits: Limits)
    requires limits.max >= 1 && Atomic(calls) && LeftAt(calls, r, o, epoch, since, limits) && o < n <= |calls|
    requires !calls[r].clean && !LapsedBySweep(calls[o + 1..], calls[r].c, calls[r].expiry, since)
    ensures Offline(SessionRuns.Run(calls[..n], limits), calls[r].c, epoch, false, calls[r].expiry, since)
  {
    LeftBefore(calls, r, o, epoch, since, n, limits);
    ExpiryExact(calls[..n], r, o, epoch, since, limits);
    if LapsedBySweep(calls[..n][o + 1..], calls[r].c, calls[r].expiry, since) {
      LapsedLater(calls[o + 1..], n - o - 1, calls[r].c, calls[r].expiry, since);
    }
  }

  /**
   * A message for a persistent client that is away is queued, whatever its channel would say, and the next registration
   * hands it back exactly if it is young enough and not crowded out.
   */
  lemma AwayDeliveryComesBack(calls: seq<Call>, r: nat, o: nat, i: nat, epoch: nat, since: nat, now: nat, limits: Limits)
    requires limits.max >= 1 && Atomic(calls) && LeftAt(calls, r, o, epoch, since, limits)
    requires !calls[r].clean && !LapsedBySweep(calls[o + 1..], calls[r].c, calls[r].expiry, since)
    requires o < i < |calls| && calls[i].CallDeliver? && calls[i].c == calls[r].c
    requires SessionRuns.ClockForward(calls) && QueuedBy(calls, now)
    ensures var c, w := calls[r].c, SessionRuns.Run(calls[..i], limits);
      && DeliverOutcome(w.s, c, calls[i].sending) == Enqueued
      && w.serial in Waiting(SessionRuns.Run(calls[..i + 1], limits), c)
      && (w.serial in Backlog(SessionRuns.Run(calls, limits).s, c, now, limits) <==>
            && |QueuedFor(calls, limits, c)| - |QueuedFor(calls[..i + 1], limits, c)| < limits.max
            && now < calls[i].now + limits.ttl)
  {
    var c, expiry := calls[r].c, calls[r].expiry;
    AwayAt(calls, r, o, epoch, since, i, limits);
    AwayAt(calls, r, o, epoch, since, |calls|, limits);
    assert calls[..|calls|] == calls;
    AwayQueued(calls, i, limits, c, epoch, expiry, since);
    forall j | i < j < |calls| ensures !Registers(calls[j], c) {
      assert calls[j] == calls[o + 1..][j - o - 1] && !Ends(calls[o + 1..][j - o - 1], c, epoch);
    }
    ComesBackIff(calls, i, limits, c, now);
  }

  lemma AwayQueued(calls: seq<Call>, i: nat, limits: Limits, c: Client, epoch: nat, expiry: Option<nat>, since: nat)
    requires limits.max >= 1 && i < |calls| && calls[i].CallDeliver? && calls[i].c == c
    requires Offline(SessionRuns.Run(calls[..i], limits), c, epoch, false, expiry, since)
    ensures var w := SessionRuns.Run(calls[..i], limits);
      && DeliverOutcome(w.s, c, calls[i].sending) == Enqueued && Queues(w, calls[i], c)
      && w.serial in Waiting(SessionRuns.Run(calls[..i + 1], limits), c)
  {
    DeliveryTold(SessionRuns.Run(calls[..i], limits), c, epoch, false, expiry, since, calls[i].now, calls[i].sending, limits);
    RunNext(calls, i, limits);
  }

  // ---------- the will ----------

  predicate TakesWill(call: Call, c: Client, epoch: nat) {
    call == CallTakeWill(c, epoch) || call == CallClearWill(c, epoch)
  }

  lemma WillStep(w: World, call: Call, limits: Limits, c: Client, epoch: nat)
    requires limits.max >= 1 && Owns(w.s, c, epoch) && epoch <= w.s.epochs && !TakesWill(call, c, epoch)
    ensures var d := Step(w, call, limits); Owns(d.s, c, epoch) ==> d.s.entries[c].will == w.s.entries[c].will
  {
  }

  /** As long as nobody takes or clears it, the session keeps the will it was registered with. */
  lemma {:induction false} WillStays(w: World, calls: seq<Call>, limits: Limits, c: Client, epoch: nat)
    requires limits.max >= 1 && Owns(w.s, c, epoch) && epoch <= w.s.epochs
    requires forall i :: 0 <= i < |calls| ==> !TakesWill(calls[i], c, epoch)
    ensures var d := RunFrom(w, calls, limits);
      epoch <= d.s.epochs && (Owns(d.s, c, epoch) ==> d.s.entries[c].will == w.s.entries[c].will)
    decreases |calls|
  {
    if calls != [] {
      var n := |calls| - 1;
      var d := RunFrom(w, calls[..n], limits);
      WillStays(w, calls[..n], limits, c, epoch);
      StepFollows(d, calls[n], limits, c);
      if Owns(d.s, c, epoch) {
        WillStep(d, calls[n], limits, c, epoch);
      }
    }
  }

  /** A connection that still owns its session when it breaks off fires the will it registered, if there was one. */
  lemma WillFires(w: World, reg: Call, calls: seq<Call>, limits: Limits)
    requires limits.max >= 1 && reg.CallRegister?
    requires forall i :: 0 <= i < |calls| ==> !TakesWill(calls[i], reg.c, w.s.epochs + 1)
    ensures var c, epoch := reg.c, w.s.epochs + 1;
      var d := RunFrom(Step(w, reg, limits), calls, limits);
      Step(d, CallTakeWill(c, epoch), limits).fired ==
        if Owns(d.s, c, epoch) && reg.will.Some? then d.fired + [Fired(c, epoch, reg.will.value)] else d.fired
  {
    var c, epoch := reg.c, w.s.epochs + 1;
    var up := Step(w, reg, limits);
    assert Owns(up.s, c, epoch) && up.s.epochs == epoch && up.s.entries[c].will == reg.will;
    WillStays(up, calls, limits, c, epoch);
    TakenFires(RunFrom(up, calls, limits), c, epoch, limits);
  }

  lemma TakenFires(w: World, c: Client, epoch: nat, limits: Limits)
    requires limits.max >= 1
    ensures Step(w, CallTakeWill(c, epoch), limits).fired ==
      if Owns(w.s, c, epoch) && w.s.entries[c].will.Some? then w.fired + [Fired(c, epoch, w.s.entries[c].will.value)]
      else w.fired
  {
  }
}
