/**
 * The end of a connection in two steps: its session is removed, then its client's subscriptions are. Other connections may
 * come in between. The relation of clients and filters stands for the subscription index, which refines it; each
 * subscription has a serial number.
 */
module CleanupRuns {
  import opened Basics
  import opened SessionModel

  datatype Event =
    | Connect(c: Client, clean: bool)
    | Subscribe(c: Client, filter: string)
    | Unsubscribe(c: Client, filter: string)
    | RemoveSession(c: Client, epoch: nat)
    | RemoveSubscriptions(c: Client)

  datatype World = World(s: Sessions<nat>, subs: map<(Client, string), nat>, serial: nat)

  function Start(): World {
    World(Sessions(map[], 0, 0), map[], 0)
  }

  function Step(w: World, ev: Event): World {
    match ev
    case Connect(c, clean) => w.(s := Register(w.s, c, clean, None, None))
    case Subscribe(c, f) => w.(subs := w.subs[(c, f) := w.serial], serial := w.serial + 1)
    case Unsubscribe(c, f) => w.(subs := w.subs - {(c, f)})
    case RemoveSession(c, epoch) => w.(s := RemoveIfEpoch(w.s, c, epoch))
    case RemoveSubscriptions(c) => w.(subs := map k | k in w.subs && k.0 != c :: w.subs[k])
  }

  function Run(w: World, events: seq<Event>): World
    decreases |events|
  {
    if events == [] then w else Step(Run(w, events[..|events| - 1]), events[|events| - 1])
  }

  /** Subscriptions are older than the next serial number. */
  ghost predicate Numbered(w: World) {
    forall k :: k in w.subs ==> w.subs[k] < w.serial
  }

  lemma {:induction false} RunNumbered(w: World, events: seq<Event>)
    requires Numbered(w)
    ensures Numbered(Run(w, events)) && w.serial <= Run(w, events).serial
    decreases |events|
  {
    if events != [] {
      RunNumbered(w, events[..|events| - 1]);
    }
  }

  /** The event decides whether the client holds the filter. */
  predicate Touches(ev: Event, c: Client, f: string) {
    ev == Subscribe(c, f) || ev == Unsubscribe(c, f) || ev == RemoveSubscriptions(c)
  }

  /** Event j subscribes the client to the filter, and no later one touches that. */
  ghost predicate SubscribedLast(events: seq<Event>, j: nat, c: Client, f: string) {
    && j < |events| && events[j] == Subscribe(c, f)
    && forall k :: j < k < |events| ==> !Touches(events[k], c, f)
  }

  /** The subscription was made since the world was w. */
  predicate MadeSince(w: World, d: World, c: Client, f: string) {
    (c, f) in d.subs && d.subs[(c, f)] >= w.serial
  }

  lemma {:induction false} MadeSinceExact(w: World, events: seq<Event>, c: Client, f: string)
    requires Numbered(w)
    ensures MadeSince(w, Run(w, events), c, f) <==> exists j: nat :: SubscribedLast(events, j, c, f)
    decreases |events|
  {
    if events != [] {
      var n := |events| - 1;
      var before, ev := events[..n], events[n];
      MadeSinceExact(w, before, c, f);
      RunNumbered(w, before);
      if ev == Subscribe(c, f) {
        assert SubscribedLast(events, n, c, f);
      } else if Touches(ev, c, f) {
        forall j: nat ensures !SubscribedLast(events, j, c, f) {}
      } else {
        forall j: nat ensures SubscribedLast(events, j, c, f) <==> SubscribedLast(before, j, c, f) {
          LastStays(before, ev, j, c, f);
          assert before + [ev] == events;
        }
      }
    }
  }

  lemma LastStays(before: seq<Event>, ev: Event, j: nat, c: Client, f: string)
    requires !Touches(ev, c, f)
    ensures SubscribedLast(before + [ev], j, c, f) <==> SubscribedLast(before, j, c, f)
  {
    var events := before + [ev];
    assert forall k :: 0 <= k < |before| ==> events[k] == before[k];
  }

  /**
   * Between the two steps of a connection's end: there is a subscription made since the first step for the second to take
   * away exactly if the client was subscribed to the filter in between and nothing undid that.
   */
  lemma CleanupLosesIff(before: seq<Event>, c: Client, epoch: nat, between: seq<Event>, f: string)
    requires Owns(Run(Start(), before).s, c, epoch)
    ensures var removed := Step(Run(Start(), before), RemoveSession(c, epoch));
            var d := Run(removed, between);
            && !Owns(removed.s, c, epoch)
            && (MadeSince(removed, d, c, f) <==> exists j: nat :: SubscribedLast(between, j, c, f))
            && (c, f) !in Step(d, RemoveSubscriptions(c)).subs
  {
    RunNumbered(Start(), before);
    MadeSinceExact(Step(Run(Start(), before), RemoveSession(c, epoch)), between, c, f);
  }

  /** No other client's subscription is touched by the second step. */
  lemma CleanupSparesOthers(w: World, c: Client, other: Client, f: string)
    requires other != c
    ensures var d := Step(w, RemoveSubscriptions(c));
            (other, f) in d.subs <==> (other, f) in w.subs
  {
  }

  /** For instance: a client that comes back and subscribes in between is connected and holds nothing. */
  lemma CleanupRace(w: World, c: Client, epoch: nat, f: string)
    requires Owns(w.s, c, epoch)
    ensures var d := Step(Step(Step(w, RemoveSession(c, epoch)), Connect(c, true)), Subscribe(c, f));
            var e := Step(d, RemoveSubscriptions(c));
            && MadeSince(w, d, c, f)
            && Owns(e.s, c, w.s.epochs + 1) && e.s.entries[c].connected && (c, f) !in e.subs
  {
    var removed := Step(w, RemoveSession(c, epoch));
    var back := Step(removed, Connect(c, true));
    assert removed.s.epochs == w.s.epochs && back.s.entries[c] == NewEntry(true, w.s.epochs + 1, None, None);
  }
}
