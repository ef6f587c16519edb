/** The end of a connection on sessions and subscriptions together, with nothing of other connections in between. */
module ConnectionEnd {
  import opened Basics
  import opened Packets
  import opened SessionModel
  import opened SessionManager
  import opened SubscriptionHistory
  import opened SubscriptionTree

  /** What a client's subscriptions are after the end of its connection: gone with its session, or as they were. */
  function SubscriptionsAfter<T>(before: Sessions<T>, after: Sessions<T>, c: Client, epoch: nat,
                                 held: map<(string, string), QoS>): map<(string, string), QoS>
  {
    if Owns(before, c, epoch) && c !in after.entries then ApplyFlat(held, UnsubAll(c)) else held
  }

  method Cleanup<T>(sessions: Manager<T>, index: SubscriptionIndex, c: Client, epoch: nat, clean: bool, now: nat)
    requires index.Valid()
    modifies sessions, index, index.tree
    ensures index.Valid() && sessions.State() == AfterCleanup(old(sessions.State()), c, epoch, clean, now)
    ensures index.held == SubscriptionsAfter(old(sessions.State()), sessions.State(), c, epoch, old(index.held))
    ensures !Owns(old(sessions.State()), c, epoch) ==> sessions.State() == old(sessions.State()) && index.held == old(index.held)
  {
    ghost var before := sessions.State();
    var unsubscribe := sessions.Cleanup(c, epoch, clean, now);
    if unsubscribe {
      index.UnsubscribeAll(c);
    } else if !Owns(before, c, epoch) {
      StaleCleanup(before, c, epoch, clean, now);
    }
  }
}
