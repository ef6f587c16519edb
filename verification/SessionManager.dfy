/** The session manager, changed in place, and the disconnect handlers built on its calls. */
module SessionManager {
  import opened Basics
  import opened Packets
  import opened OfflineQueueModel
  import Model = SessionModel
  import opened SessionModel

  // ---------- what a disconnect leaves behind ----------

  /** A clean session goes; a persistent one is marked offline, and goes too when it has expired by then. */
  function AfterCleanup<T>(s: Sessions<T>, c: Client, epoch: nat, clean: bool, now: nat): Sessions<T> {
    if clean then RemoveIfEpoch(s, c, epoch)
    else
      var t := Model.MarkOffline(s, c, epoch, now);
      if Owns(t, c, epoch) && IsExpired(t.entries[c], now) then RemoveIfEpoch(t, c, epoch) else t
  }

  /** A connection that lost its session leaves everything as it is. */
  lemma StaleCleanup<T>(s: Sessions<T>, c: Client, epoch: nat, clean: bool, now: nat)
    requires !Owns(s, c, epoch)
    ensures AfterCleanup(s, c, epoch, clean, now) == s
  {
  }

  /** The owner's session survives its disconnect exactly when it is persistent and its expiry interval is not 0. */
  lemma CleanupKeeps<T>(s: Sessions<T>, c: Client, epoch: nat, clean: bool, now: nat)
    requires Owns(s, c, epoch) && s.entries[c].connected
    ensures var t := AfterCleanup(s, c, epoch, clean, now);
            && (c in t.entries <==> !clean && s.entries[c].expiry != Some(0))
            && (c in t.entries ==> t.entries[c] == s.entries[c].(connected := false, offlineAt := Some(now)))
            && t.entries - {c} == s.entries - {c}
            && t.online == s.online - 1
  {
    var t := AfterCleanup(s, c, epoch, clean, now);
    assert (s.entries - {c}) - {c} == s.entries - {c};
    if !clean {
      var e := s.entries[c].(connected := false, offlineAt := Some(now));
      assert s.entries[c := e] - {c} == s.entries - {c};
    }
  }

  /** Offline, with an expiry interval (seconds) that is 0 or has passed since the disconnection (nanoseconds). */
  predicate Overdue<T>(e: Entry<T>, now: nat) {
    && !e.connected && e.expiry.Some?
    && (e.expiry.value == 0 || (e.offlineAt.Some? && now >= e.offlineAt.value + e.expiry.value * 1_000_000_000))
  }

  lemma ExpiredIffOverdue<T>(e: Entry<T>, now: nat)
    ensures IsExpired(e, now) <==> Overdue(e, now)
  {
  }

  // ---------- deliveries ----------

  /** What a delivery knows of a session after its look: connected or not, and its queue, named by the epoch. */
  datatype Handle = Handle(connected: bool, queue: bool, epoch: nat)

  function HandleOf<T>(s: Sessions<T>, c: Client): Option<Handle> {
    if c in s.entries then Some(Handle(s.entries[c].connected, s.entries[c].queue.Some?, s.entries[c].epoch)) else None
  }

  function SendOutcome(handle: Handle, sending: Sending): Outcome {
    if handle.connected && sending == Accepted then Sent
    else if handle.queue then Enqueued
    else if handle.connected && sending == Full then ChannelFull
    else Dropped
  }

  class Manager<T> {
    var entries: map<Client, Entry<T>>
    var epochs: nat
    var online: int
    const limits: Limits

    ghost function State(): Sessions<T>
      reads this
    {
      Sessions(entries, epochs, online)
    }

    constructor (maxOffline: nat, ttl: nat)
      ensures State() == Sessions(map[], 0, 0) && limits == Limits(maxOffline, ttl)
    {
      entries, epochs, online, limits := map[], 0, 0, Limits(maxOffline, ttl);
    }

    /** Register or take over; also the epoch, whether a session was present, and the messages queued for it. */
    method Register(c: Client, clean: bool, will: Option<LastWill>, expiry: Option<nat>, now: nat)
      returns (epoch: nat, present: bool, drained: seq<T>)
      modifies this
      ensures State() == Model.Register(old(State()), c, clean, will, expiry)
      ensures epoch == old(epochs) + 1 && Owns(State(), c, epoch)
      ensures clean ==> entries == old(entries)[c := Entry(true, epoch, true, will, None, None, None)]
      ensures !clean ==> entries == old(entries)[c := Entry(false, epoch, true, will, Some([]), expiry, None)]
      ensures online == old(online) + if c in old(entries) && old(entries)[c].connected then 0 else 1
      ensures present == (c in old(entries) && !old(entries)[c].clean)
      ensures drained == Backlog(old(State()), c, now, limits)
    {
      epochs := epochs + 1;
      epoch := epochs;
      drained, present := [], false;
      var entry := NewEntry(clean, epoch, will, expiry);
      var increment := false;
      if c in entries {
        var before := entries[c];
        if !before.clean {
          present := true;
          if before.queue.Some? {
            drained := Messages(Evict(before.queue.value, now, limits.ttl));
          }
        }
        if !before.connected {
          increment := true;
        }
      } else {
        increment := true;
      }
      entries := entries[c := entry];
      if increment {
        online := online + 1;
      }
    }

    /** What a delivery takes from the session before it lets go of the table. */
    method Look(c: Client) returns (handle: Option<Handle>)
      ensures handle == HandleOf(State(), c)
    {
      if c !in entries {
        return None;
      }
      handle := Some(Handle(entries[c].connected, entries[c].queue.Some?, entries[c].epoch));
    }

    /**
     * The rest of a delivery, in whatever state the table is by then: the outcome is that of the look, and the message is
     * put in the queue that was taken hold of, which is out of reach if the session is not in place any more.
     */
    method Send(c: Client, handle: Handle, m: T, now: nat, sending: Sending) returns (outcome: Outcome)
      requires limits.max >= 1
      modifies this`entries
      ensures outcome == SendOutcome(handle, sending)
      ensures State() == if outcome == Enqueued then PutLate(old(State()), c, handle.epoch, m, now, limits) else old(State())
    {
      if handle.connected && sending == Accepted {
        return Sent;
      }
      if handle.queue {
        if c in entries && entries[c].epoch == handle.epoch && entries[c].queue.Some? {
          var e := entries[c];
          entries := entries[c := e.(queue := Some(Enqueue(e.queue.value, m, now, limits)))];
        }
        return Enqueued;
      }
      return if handle.connected && sending == Full then ChannelFull else Dropped;
    }

    /** A delivery with nothing in between. */
    method Deliver(c: Client, m: T, now: nat, sending: Sending) returns (outcome: Outcome)
      requires limits.max >= 1
      modifies this`entries
      ensures State() == Model.Deliver(old(State()), c, m, now, sending, limits)
      ensures outcome == DeliverOutcome(old(State()), c, sending)
    {
      var handle := Look(c);
      if handle == None {
        return NoSession;
      }
      outcome := Send(c, handle.value, m, now, sending);
    }

    method Remove(c: Client) returns (removed: Option<Entry<T>>)
      modifies this
      ensures State() == Model.Remove(old(State()), c)
      ensures removed == if c in old(entries) then Some(old(entries)[c]) else None
    {
      removed := None;
      if c in entries {
        removed := Some(entries[c]);
        entries := entries - {c};
        if removed.value.connected {
          online := online - 1;
        }
      }
    }

    method RemoveIfEpoch(c: Client, epoch: nat) returns (removed: Option<Entry<T>>)
      modifies this
      ensures State() == Model.RemoveIfEpoch(old(State()), c, epoch)
      ensures removed == if Owns(old(State()), c, epoch) then Some(old(entries)[c]) else None
    {
      removed := None;
      if c in entries && entries[c].epoch == epoch {
        removed := Remove(c);
      }
    }

    method MarkOffline(c: Client, epoch: nat, now: nat)
      modifies this
      ensures State() == Model.MarkOffline(old(State()), c, epoch, now)
    {
      if c in entries && entries[c].epoch == epoch && entries[c].connected {
        entries := entries[c := entries[c].(connected := false, offlineAt := Some(now))];
        online := online - 1;
      }
    }

    method MarkOnline(c: Client, epoch: nat)
      modifies this
      ensures State() == Model.MarkOnline(old(State()), c, epoch)
    {
      if c in entries && entries[c].epoch == epoch && !entries[c].connected {
        entries := entries[c := entries[c].(connected := true, offlineAt := None)];
        online := online + 1;
      }
    }

    method TakeWill(c: Client, epoch: nat) returns (will: Option<LastWill>)
      modifies this`entries
      ensures State() == WithoutWill(old(State()), c, epoch) && will == WillOf(old(State()), c, epoch)
    {
      will := None;
      if c in entries && entries[c].epoch == epoch {
        will := entries[c].will;
        entries := entries[c := entries[c].(will := None)];
      }
    }

    method ClearWill(c: Client, epoch: nat)
      modifies this`entries
      ensures State() == WithoutWill(old(State()), c, epoch)
    {
      if c in entries && entries[c].epoch == epoch {
        entries := entries[c := entries[c].(will := None)];
      }
    }

    // ---------- the sweep ----------

    method CollectExpired(now: nat) returns (ids: seq<Client>)
      ensures forall c :: c in ids <==> c in entries && IsExpired(entries[c], now)
      ensures forall i, j :: 0 <= i < j < |ids| ==> ids[i] != ids[j]
    {
      ids := [];
      var todo := entries.Keys;
      while todo != {}
        invariant todo <= entries.Keys
        invariant forall c :: c in ids <==> c in entries && c !in todo && IsExpired(entries[c], now)
        invariant forall i, j :: 0 <= i < j < |ids| ==> ids[i] != ids[j]
        decreases |todo|
      {
        var c :| c in todo;
        todo := todo - {c};
        if IsExpired(entries[c], now) {
          ids := ids + [c];
        }
      }
    }

    /** Two passes: collect the expired sessions, then remove each that is expired still. */
    method CleanupExpired(now: nat) returns (removed: seq<Client>)
      modifies this`entries
      ensures State() == Model.CleanupExpired(old(State()), now)
      ensures forall c :: c in removed <==> c in old(entries) && Overdue(old(entries)[c], now)
      ensures entries == map c | c in old(entries) && !Overdue(old(entries)[c], now) :: old(entries)[c]
      ensures forall i, j :: 0 <= i < j < |removed| ==> removed[i] != removed[j]
    {
      var ids := CollectExpired(now);
      removed := [];
      for i := 0 to |ids|
        invariant removed == ids[..i]
        invariant entries == old(entries) - set c | c in ids[..i]
      {
        assert ids[i] !in ids[..i];
        if ids[i] in entries && IsExpired(entries[ids[i]], now) {
          entries := entries - {ids[i]};
          removed := removed + [ids[i]];
        }
        assert ids[..i + 1] == ids[..i] + [ids[i]];
      }
      assert ids[..|ids|] == ids;
      assert (set c | c in ids) == ExpiredIds(old(State()), now);
      forall c | c in old(entries) ensures IsExpired(old(entries)[c], now) <==> Overdue(old(entries)[c], now) {
        ExpiredIffOverdue(old(entries)[c], now);
      }
    }

    // ---------- disconnect handlers ----------

    /** The end of a connection; true when its subscriptions are to be dropped too. */
    method Cleanup(c: Client, epoch: nat, clean: bool, now: nat) returns (unsubscribe: bool)
      modifies this
      ensures State() == AfterCleanup(old(State()), c, epoch, clean, now)
      ensures unsubscribe == (Owns(old(State()), c, epoch) && c !in entries)
    {
      if clean {
        var removed := RemoveIfEpoch(c, epoch);
        return removed.Some?;
      }
      MarkOffline(c, epoch, now);
      if !(c in entries && entries[c].epoch == epoch) {
        return false;
      }
      if IsExpired(entries[c], now) {
        var removed := RemoveIfEpoch(c, epoch);
        return removed.Some?;
      }
      return false;
    }

    /** A connection that broke off: its will is fired if it still owns the session. */
    method OnAbnormalDisconnect(c: Client, epoch: nat, clean: bool, now: nat)
      returns (fired: Option<LastWill>, unsubscribe: bool)
      modifies this
      ensures fired == WillOf(old(State()), c, epoch)
      ensures State() == AfterCleanup(WithoutWill(old(State()), c, epoch), c, epoch, clean, now)
      ensures !Owns(old(State()), c, epoch) ==> State() == old(State()) && fired == None && !unsubscribe
    {
      fired := None;
      if c in entries && entries[c].epoch == epoch {
        fired := TakeWill(c, epoch);
      } else {
        StaleCleanup(State(), c, epoch, clean, now);
      }
      unsubscribe := Cleanup(c, epoch, clean, now);
    }

    /** DISCONNECT: the will is discarded. */
    method OnDisconnect(c: Client, epoch: nat, clean: bool, now: nat) returns (unsubscribe: bool)
      modifies this
      ensures State() == AfterCleanup(WithoutWill(old(State()), c, epoch), c, epoch, clean, now)
      ensures !Owns(old(State()), c, epoch) ==> State() == old(State()) && !unsubscribe
    {
      ClearWill(c, epoch);
      unsubscribe := Cleanup(c, epoch, clean, now);
    }
  }
}
