/**
 * What the limiter lets through in a window of a run. A client's bucket is dropped when the client disconnects and when
 * the rate is set, so each such event inside the window is worth one more full bucket: no more than that, and as much.
 */
module LimiterRuns {
  import opened RateLimiter

  /** Operation k is a publish of the client, and it was let through. */
  predicate PassedAt(rate: nat, ops: seq<Op>, client: string, k: nat)
    requires k < |ops|
  {
    AskBy(ops[k], client) && Ask(RunOps(rate, ops[..k]), client, ops[k].now).1
  }

  /** How many of the operations i, ..., k - 1 are publishes of the client that were let through. */
  function Passed(rate: nat, ops: seq<Op>, client: string, i: nat, k: nat): nat
    requires k <= |ops|
    decreases k
  {
    if k <= i then 0 else Passed(rate, ops, client, i, k - 1) + if PassedAt(rate, ops, client, k - 1) then 1 else 0
  }

  /** How many of them drop the client's bucket: its disconnections, and changes of the rate. */
  function Drops(ops: seq<Op>, client: string, i: nat, k: nat): nat
    requires k <= |ops|
    decreases k
  {
    if k <= i then 0 else Drops(ops, client, i, k - 1) + if Empties(ops[k - 1], client) then 1 else 0
  }

  /** The tokens of d + 1 full buckets: (d + 1) * CapacityFor(rate), by BucketsProduct. */
  function Buckets(rate: nat, d: nat): nat {
    if d == 0 then CapacityFor(rate) else Buckets(rate, d - 1) + CapacityFor(rate)
  }

  lemma {:induction false} BucketsProduct(rate: nat, d: nat)
    ensures Buckets(rate, d) == (d + 1) * CapacityFor(rate)
  {
    if d > 0 {
      BucketsProduct(rate, d - 1);
    }
  }

  ghost predicate ClockForward(ops: seq<Op>) {
    forall i, j :: 0 <= i < j < |ops| && ops[i].OpAsk? && ops[j].OpAsk? ==> ops[i].now <= ops[j].now
  }

  // ---------- one bucket in a run ----------

  /** What a client could take at time t. */
  function TokensFor(l: Limiter, client: string, t: real): real {
    Refill(BucketOf(l, client, t), t).tokens
  }

  /** A bucket of a limiter with this rate, last used no later than t. */
  predicate BucketOk(b: Bucket, rate: nat, t: real) {
    b.capacity == CapacityFor(rate) && b.rate == rate && 0.0 <= b.tokens <= b.capacity as real && b.last <= t
  }

  lemma {:induction false} BucketsOk(rate: nat, ops: seq<Op>, client: string, t: real)
    requires RateAfter(rate, ops) > 0 && ClockForward(ops)
    requires forall i :: 0 <= i < |ops| && ops[i].OpAsk? ==> ops[i].now <= t
    ensures RunOps(rate, ops).rate == RateAfter(rate, ops)
    ensures BucketOk(BucketOf(RunOps(rate, ops), client, t), RateAfter(rate, ops), t)
    decreases |ops|
  {
    if ops != [] && !ops[|ops| - 1].OpReset? {
      var n := |ops| - 1;
      var before, op := ops[..n], ops[n];
      assert ClockForward(before);
      if AskBy(op, client) {
        forall i | 0 <= i < n && ops[i].OpAsk? ensures ops[i].now <= op.now {}
        BucketsOk(rate, before, client, op.now);
        ConsumeOk(BucketOf(RunOps(rate, before), client, op.now), RateAfter(rate, before), op.now, t);
      } else {
        BucketsOk(rate, before, client, t);
      }
    }
  }

  lemma ConsumeOk(b: Bucket, rate: nat, now: real, t: real)
    requires BucketOk(b, rate, now) && now <= t
    ensures BucketOk(Consume(b, 1, now).0, rate, t)
  {
    RefillProduces(b, now, b.last);
    ProducedBetween(rate, b.last, now);
  }

  /** A bucket gains no more than the rate produces. */
  lemma RefillGains(b: Bucket, rate: nat, u: real, t: real)
    requires BucketOk(b, rate, u) && u <= t
    ensures 0.0 <= Refill(b, t).tokens <= CapacityFor(rate) as real
    ensures b.last == u ==> Refill(b, t).tokens <= b.tokens + Produced(rate, t) - Produced(rate, u)
  {
    RefillProduces(b, t, b.last);
    ProducedBetween(rate, b.last, t);
  }

  // ---------- the bound ----------

  /** From operation i to operation k the limiter is on, and its rate is at most `most`. */
  ghost predicate RatesWithin(rate: nat, ops: seq<Op>, i: nat, k: nat, most: nat)
    requires k <= |ops|
  {
    forall j: nat :: i <= j <= k ==> 0 < RateAfter(rate, ops[..j]) <= most
  }

  lemma FasterProducesMore(r: nat, most: nat, u: real, t: real)
    requires r <= most && u <= t
    ensures Produced(r, t) - Produced(r, u) <= Produced(most, t) - Produced(most, u)
  {
    ProducedBetween(r, u, t);
    ProducedBetween(most, u, t);
    var more := (most - r) as real;
    NonNegative(t - u, more);
    assert (t - u) * most as real == (t - u) * r as real + (t - u) * more;
  }

  /** What a client could take is at most a full bucket. */
  lemma AtMostFull(rate: nat, ops: seq<Op>, client: string, t: real, most: nat)
    requires 0 < RateAfter(rate, ops) <= most && ClockForward(ops)
    requires forall i :: 0 <= i < |ops| && ops[i].OpAsk? ==> ops[i].now <= t
    ensures 0.0 <= TokensFor(RunOps(rate, ops), client, t) <= CapacityFor(most) as real
  {
    BucketsOk(rate, ops, client, t);
    RefillGains(BucketOf(RunOps(rate, ops), client, t), RateAfter(rate, ops), t, t);
  }

  /** From a start time s: what passed, and what could still be taken at t, is within the buckets and the rate. */
  lemma {:induction false} WindowBound(
    rate: nat, ops: seq<Op>, client: string, i: nat, k: nat, s: real, t: real, most: nat)
    requires i <= k <= |ops| && ClockForward(ops) && s <= t && RatesWithin(rate, ops, i, k, most)
    requires forall j :: 0 <= j < k && ops[j].OpAsk? ==> ops[j].now <= t
    requires forall j :: i <= j < k && ops[j].OpAsk? ==> s <= ops[j].now
    ensures Passed(rate, ops, client, i, k) as real + TokensFor(RunOps(rate, ops[..k]), client, t)
            <= Buckets(most, Drops(ops, client, i, k)) as real + Produced(most, t) - Produced(most, s)
    decreases k
  {
    assert 0 < RateAfter(rate, ops[..k]) <= most;
    AtMostFull(rate, ops[..k], client, t, most);
    if k == i {
      ProducedBetween(most, s, t);
    } else {
      var n := k - 1;
      assert ops[..k][..n] == ops[..n] && ops[..k][n] == ops[n];
      assert 0 < RateAfter(rate, ops[..n]) <= most;
      if Empties(ops[n], client) {
        AtMostFull(rate, ops[..n], client, t, most);
        WindowBound(rate, ops, client, i, n, s, t, most);
      } else if AskBy(ops[n], client) {
        WindowBound(rate, ops, client, i, n, s, ops[n].now, most);
        AskWithin(rate, ops, client, n, t, most);
      } else {
        WindowBound(rate, ops, client, i, n, s, t, most);
      }
    }
  }

  lemma AskWithin(rate: nat, ops: seq<Op>, client: string, n: nat, t: real, most: nat)
    requires n < |ops| && ClockForward(ops) && AskBy(ops[n], client) && ops[n].now <= t
    requires 0 < RateAfter(rate, ops[..n]) <= most
    ensures (if PassedAt(rate, ops, client, n) then 1.0 else 0.0) + TokensFor(RunOps(rate, ops[..n + 1]), client, t)
            <= TokensFor(RunOps(rate, ops[..n]), client, ops[n].now) + Produced(most, t) - Produced(most, ops[n].now)
  {
    AskStep(rate, ops, client, n, t);
    FasterProducesMore(RateAfter(rate, ops[..n]), most, ops[n].now, t);
  }

  /** One publish: what it takes leaves that much less for later. */
  lemma AskStep(rate: nat, ops: seq<Op>, client: string, n: nat, t: real)
    requires n < |ops| && ClockForward(ops) && AskBy(ops[n], client) && ops[n].now <= t
    requires RateAfter(rate, ops[..n]) > 0
    ensures var r, u := RateAfter(rate, ops[..n]), ops[n].now;
            (if PassedAt(rate, ops, client, n) then 1.0 else 0.0) + TokensFor(RunOps(rate, ops[..n + 1]), client, t)
            <= TokensFor(RunOps(rate, ops[..n]), client, u) + Produced(r, t) - Produced(r, u)
  {
    var r, u := RateAfter(rate, ops[..n]), ops[n].now;
    assert ops[..n + 1][..n] == ops[..n] && ops[..n + 1][n] == ops[n];
    forall j | 0 <= j < n && ops[..n][j].OpAsk? ensures ops[..n][j].now <= u {}
    BucketsOk(rate, ops[..n], client, u);
    var b := BucketOf(RunOps(rate, ops[..n]), client, u);
    ConsumeOk(b, r, u, u);
    RefillProduces(b, u, b.last);
    RefillGains(Consume(b, 1, u).0, r, u, t);
  }

  /**
   * In any window of any run, whatever other clients do, what a client gets is at most a full bucket, another for each time
   * its bucket is dropped inside the window, and what the rate produces in the window's length. When the rate changes, this
   * holds with the highest rate in force; rate 0 means no limit.
   */
  lemma DisconnectBound(rate: nat, ops: seq<Op>, client: string, i: nat, k: nat, most: nat)
    requires i <= k < |ops| && ClockForward(ops) && ops[i].OpAsk? && ops[k].OpAsk? && RatesWithin(rate, ops, i, k + 1, most)
    ensures Passed(rate, ops, client, i, k + 1) as real
            <= Buckets(most, Drops(ops, client, i, k + 1)) as real + (ops[k].now - ops[i].now) * most as real
  {
    var produced := (ops[k].now - ops[i].now) * most as real;
    assert produced == Produced(most, ops[k].now) - Produced(most, ops[i].now) by {
      ProducedBetween(most, ops[i].now, ops[k].now);
    }
    PassedWithin(rate, ops, client, i, k, most, Buckets(most, Drops(ops, client, i, k + 1)));
  }

  lemma PassedWithin(rate: nat, ops: seq<Op>, client: string, i: nat, k: nat, most: nat, full: nat)
    requires i <= k < |ops| && ClockForward(ops) && ops[i].OpAsk? && ops[k].OpAsk? && RatesWithin(rate, ops, i, k + 1, most)
    requires full == Buckets(most, Drops(ops, client, i, k + 1))
    ensures Passed(rate, ops, client, i, k + 1) as real
            <= full as real + Produced(most, ops[k].now) - Produced(most, ops[i].now)
  {
    var t := ops[k].now;
    WindowBound(rate, ops, client, i, k + 1, ops[i].now, t, most);
    assert 0 < RateAfter(rate, ops[..k + 1]) <= most;
    AtMostFull(rate, ops[..k + 1], client, t, most);
  }

  // ---------- the bound is reached ----------

  lemma RunMore(rate: nat, ops: seq<Op>, op: Op, client: string)
    ensures RunOps(rate, ops + [op]) == Step(RunOps(rate, ops), op)
    ensures Passed(rate, ops + [op], client, 0, |ops| + 1) == Passed(rate, ops, client, 0, |ops|) +
              if AskBy(op, client) && Ask(RunOps(rate, ops), client, op.now).1 then 1 else 0
    ensures Drops(ops + [op], client, 0, |ops| + 1)
            == Drops(ops, client, 0, |ops|) + if Empties(op, client) then 1 else 0
  {
    var more := ops + [op];
    assert more[..|ops|] == ops && more[|ops|] == op;
    PassedPrefix(rate, ops, op, client, |ops|);
  }

  lemma {:induction false} PassedPrefix(rate: nat, ops: seq<Op>, op: Op, client: string, k: nat)
    requires k <= |ops|
    ensures Passed(rate, ops + [op], client, 0, k) == Passed(rate, ops, client, 0, k)
    ensures Drops(ops + [op], client, 0, k) == Drops(ops, client, 0, k)
    decreases k
  {
    if k > 0 {
      PassedPrefix(rate, ops, op, client, k - 1);
      assert (ops + [op])[..k - 1] == ops[..k - 1] && (ops + [op])[k - 1] == ops[k - 1];
    }
  }

  /** A disconnection of the client, or a reset to the same rate. */
  predicate IsDrop(drop: Op, rate: nat, client: string) {
    drop == OpDisconnect(client) || drop == OpReset(rate)
  }

  /** All operations are publishes of this client at time 0, or drop its bucket. */
  ghost predicate AtOnce(ops: seq<Op>, client: string, drop: Op) {
    forall i :: 0 <= i < |ops| ==> ops[i] == OpAsk(client, 0.0) || ops[i] == drop
  }

  /** From a full bucket, m publishes at once all pass, for m up to the capacity. */
  lemma {:induction false} Burst(rate: nat, start: seq<Op>, client: string, drop: Op, m: nat) returns (ops: seq<Op>)
    requires rate > 0 && m <= CapacityFor(rate) && AtOnce(start, client, drop)
    requires RunOps(rate, start).rate == rate && client !in RunOps(rate, start).buckets
    ensures AtOnce(ops, client, drop) && start <= ops && |ops| == |start| + m
    ensures forall j :: |start| <= j < |ops| ==> ops[j] == OpAsk(client, 0.0)
    ensures RunOps(rate, ops).rate == rate
    ensures BucketOf(RunOps(rate, ops), client, 0.0) == Full(CapacityFor(rate), rate, 0.0).(tokens := (CapacityFor(rate) - m) as real)
    ensures Passed(rate, ops, client, 0, |ops|) == Passed(rate, start, client, 0, |start|) + m
    ensures Drops(ops, client, 0, |ops|) == Drops(start, client, 0, |start|)
    decreases m
  {
    if m == 0 {
      ops := start;
    } else {
      var before := Burst(rate, start, client, drop, m - 1);
      ops := before + [OpAsk(client, 0.0)];
      BurstStep(rate, before, client, CapacityFor(rate) - m);
    }
  }

  lemma BurstStep(rate: nat, before: seq<Op>, client: string, left: nat)
    requires rate > 0 && RunOps(rate, before).rate == rate
    requires BucketOf(RunOps(rate, before), client, 0.0) == Bucket(CapacityFor(rate), rate, (left + 1) as real, 0.0)
    ensures var ops := before + [OpAsk(client, 0.0)];
            && RunOps(rate, ops).rate == rate
            && BucketOf(RunOps(rate, ops), client, 0.0) == Bucket(CapacityFor(rate), rate, left as real, 0.0)
            && Passed(rate, ops, client, 0, |ops|) == Passed(rate, before, client, 0, |before|) + 1
            && Drops(ops, client, 0, |ops|) == Drops(before, client, 0, |before|)
  {
    RunMore(rate, before, OpAsk(client, 0.0), client);
  }

  lemma {:induction false} Bursts(rate: nat, client: string, drop: Op, d: nat) returns (ops: seq<Op>)
    requires rate > 0 && IsDrop(drop, rate, client)
    ensures AtOnce(ops, client, drop) && ops != [] && ops[0] == ops[|ops| - 1] == OpAsk(client, 0.0)
    ensures Drops(ops, client, 0, |ops|) == d
    ensures Passed(rate, ops, client, 0, |ops|) == Buckets(rate, d)
    ensures RunOps(rate, ops).rate == rate
    decreases d
  {
    if d == 0 {
      ops := Burst(rate, [], client, drop, CapacityFor(rate));
    } else {
      var before := Bursts(rate, client, drop, d - 1);
      var start := Dropped(rate, before, client, drop);
      ops := Burst(rate, start, client, drop, CapacityFor(rate));
      assert ops[0] == start[0];
    }
  }

  lemma Dropped(rate: nat, before: seq<Op>, client: string, drop: Op) returns (ops: seq<Op>)
    requires IsDrop(drop, rate, client) && AtOnce(before, client, drop) && before != [] && RunOps(rate, before).rate == rate
    ensures AtOnce(ops, client, drop) && ops != [] && ops[0] == before[0]
    ensures RunOps(rate, ops).rate == rate && client !in RunOps(rate, ops).buckets
    ensures Passed(rate, ops, client, 0, |ops|) == Passed(rate, before, client, 0, |before|)
    ensures Drops(ops, client, 0, |ops|) == Drops(before, client, 0, |before|) + 1
  {
    ops := before + [drop];
    RunMore(rate, before, drop, client);
  }

  /** For every d: a run of publishes at one instant, with d disconnections or d resets, in which d + 1 full buckets pass. */
  lemma DisconnectBoundReached(rate: nat, client: string, drop: Op, d: nat) returns (ops: seq<Op>)
    requires rate > 0 && IsDrop(drop, rate, client)
    ensures AtOnce(ops, client, drop) && ops != [] && ops[0] == ops[|ops| - 1] == OpAsk(client, 0.0)
    ensures Drops(ops, client, 0, |ops|) == d
    ensures Passed(rate, ops, client, 0, |ops|) == (d + 1) * CapacityFor(rate)
  {
    ops := Bursts(rate, client, drop, d);
    BucketsProduct(rate, d);
  }

  // ---------- no limit at rate 0 ----------

  /** While the rate is 0 there is no bound: for every n, n publishes at one instant all pass. */
  lemma {:induction false} NoLimitAtZero(rate: nat, client: string, n: nat) returns (ops: seq<Op>)
    ensures |ops| == n + 1 && ops[0] == OpReset(0) && forall i :: 0 < i < |ops| ==> ops[i] == OpAsk(client, 0.0)
    ensures RunOps(rate, ops).rate == 0 && Passed(rate, ops, client, 0, |ops|) == n
  {
    if n == 0 {
      ops := [] + [OpReset(0)];
      RunMore(rate, [], OpReset(0), client);
    } else {
      var before := NoLimitAtZero(rate, client, n - 1);
      ops := before + [OpAsk(client, 0.0)];
      RunMore(rate, before, OpAsk(client, 0.0), client);
    }
  }
}
