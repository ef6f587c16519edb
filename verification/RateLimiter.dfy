/** Token buckets, one per client, in real arithmetic: what a bucket grants is exactly what its rate allows. */
module RateLimiter {

  datatype Bucket = Bucket(capacity: nat, rate: nat, tokens: real, last: real)

  function Full(capacity: nat, rate: nat, now: real): Bucket {
    Bucket(capacity, rate, capacity as real, now)
  }

  function Min(a: real, b: real): real {
    if a <= b then a else b
  }

  function Refill(b: Bucket, now: real): Bucket {
    if now <= b.last then b
    else b.(tokens := Min(b.tokens + (now - b.last) * b.rate as real, b.capacity as real), last := now)
  }

  function Consume(b: Bucket, n: nat, now: real): (Bucket, bool) {
    var r := Refill(b, now);
    if r.tokens >= n as real then (r.(tokens := r.tokens - n as real), true) else (r, false)
  }

  // ---------- runs of one bucket ----------

  /** A request for n tokens at a time. */
  datatype Request = Request(n: nat, now: real)

  ghost predicate ClockForward(start: real, requests: seq<Request>) {
    && (forall i :: 0 <= i < |requests| ==> start <= requests[i].now)
    && (forall i, j :: 0 <= i < j < |requests| ==> requests[i].now <= requests[j].now)
  }

  function After(b: Bucket, requests: seq<Request>): Bucket {
    if requests == [] then b
    else Consume(After(b, requests[..|requests| - 1]), requests[|requests| - 1].n, requests[|requests| - 1].now).0
  }

  /** Whether request k was granted. */
  predicate GrantedAt(b: Bucket, requests: seq<Request>, k: nat)
    requires k < |requests|
  {
    Consume(After(b, requests[..k]), requests[k].n, requests[k].now).1
  }

  /** Tokens granted to requests i, ..., k - 1. */
  function Granted(b: Bucket, requests: seq<Request>, i: nat, k: nat): nat
    requires k <= |requests|
    decreases k
  {
    if k <= i then 0
    else Granted(b, requests, i, k - 1) + if GrantedAt(b, requests, k - 1) then requests[k - 1].n else 0
  }

  /** What the rate allows from request i to request k. */
  function Allowance(b: Bucket, requests: seq<Request>, i: nat, k: nat): real
    requires i <= k < |requests|
  {
    b.capacity as real + (requests[k].now - requests[i].now) * b.rate as real
  }

  /** No window that ends with request k would exceed its allowance if that request were granted. */
  ghost predicate WindowsAllow(b: Bucket, requests: seq<Request>, k: nat)
    requires k < |requests|
  {
    forall i: nat :: i <= k ==> (Granted(b, requests, i, k) + requests[k].n) as real <= Allowance(b, requests, i, k)
  }

  /** The tokens in the bucket when request k comes, after the refill. */
  function TokensAt(b: Bucket, requests: seq<Request>, k: nat): real
    requires k < |requests|
  {
    Refill(After(b, requests[..k]), requests[k].now).tokens
  }

  // ---------- the same run in units of tokens ----------

  /** Requests by the tokens that the rate has produced when they come. */
  datatype Demand = Demand(n: nat, produced: real)

  ghost predicate Forward(demands: seq<Demand>) {
    forall i, j :: 0 <= i < j < |demands| ==> demands[i].produced <= demands[j].produced
  }

  /** The level at demand k, from full. */
  function Level(capacity: nat, demands: seq<Demand>, k: nat): real
    requires k < |demands|
    decreases k, 0
  {
    if k == 0 then capacity as real
    else Min(Left(capacity, demands, k - 1) + demands[k].produced - demands[k - 1].produced, capacity as real)
  }

  function Left(capacity: nat, demands: seq<Demand>, k: nat): real
    requires k < |demands|
    decreases k, 2
  {
    Level(capacity, demands, k) - Taken(capacity, demands, k) as real
  }

  function Taken(capacity: nat, demands: seq<Demand>, k: nat): nat
    requires k < |demands|
    decreases k, 1
  {
    if Level(capacity, demands, k) >= demands[k].n as real then demands[k].n else 0
  }

  function TakenFrom(capacity: nat, demands: seq<Demand>, i: nat, k: nat): nat
    requires k <= |demands|
    decreases k
  {
    if k <= i then 0 else TakenFrom(capacity, demands, i, k - 1) + Taken(capacity, demands, k - 1)
  }

  /** The level is the least, over all windows that end here, of what the window still allows. */
  lemma {:induction false} LevelExact(capacity: nat, demands: seq<Demand>, k: nat) returns (i: nat)
    requires k < |demands|
    ensures i <= k && Level(capacity, demands, k) == Spare(capacity, demands, i, k)
    ensures forall j: nat :: j <= k ==> Level(capacity, demands, k) <= Spare(capacity, demands, j, k)
    decreases k
  {
    if k == 0 {
      i := 0;
    } else {
      i := LevelExact(capacity, demands, k - 1);
      forall j: nat | j <= k - 1
        ensures Spare(capacity, demands, j, k)
                == Spare(capacity, demands, j, k - 1) - Taken(capacity, demands, k - 1) as real
                   + demands[k].produced - demands[k - 1].produced
      {
      }
      if Level(capacity, demands, k) == capacity as real {
        i := k;
      }
    }
  }

  /** What a window that ends with demand k still allows to it. */
  function Spare(capacity: nat, demands: seq<Demand>, i: nat, k: nat): real
    requires i <= k < |demands|
  {
    capacity as real + demands[k].produced - demands[i].produced - TakenFrom(capacity, demands, i, k) as real
  }

  // ---------- from times to tokens ----------

  function Produced(rate: nat, t: real): real {
    t * rate as real
  }

  lemma ProducedBetween(rate: nat, a: real, b: real)
    ensures (b - a) * rate as real == Produced(rate, b) - Produced(rate, a)
    ensures a <= b ==> Produced(rate, a) <= Produced(rate, b)
  {
    var r := rate as real;
    assert (b - a) * r == b * r - a * r;
    if a <= b {
      NonNegative(b - a, r);
    }
  }

  lemma NonNegative(x: real, y: real)
    requires 0.0 <= x && 0.0 <= y
    ensures 0.0 <= x * y
  {
  }

  function DemandOf(rate: nat, r: Request): Demand {
    Demand(r.n, Produced(rate, r.now))
  }

  function Demands(rate: nat, requests: seq<Request>): (demands: seq<Demand>)
    ensures |demands| == |requests|
  {
    seq(|requests|, i requires 0 <= i < |requests| => DemandOf(rate, requests[i]))
  }

  lemma RefillProduces(b: Bucket, now: real, past: real)
    requires b.last == past && past <= now && b.tokens <= b.capacity as real
    ensures Refill(b, now) == b.(last := now,
              tokens := Min(b.tokens + Produced(b.rate, now) - Produced(b.rate, past), b.capacity as real))
  {
    ProducedBetween(b.rate, past, now);
    var gained := (now - past) * b.rate as real;
    assert gained == Produced(b.rate, now) - Produced(b.rate, past);
    if now > past {
      assert Refill(b, now).tokens == Min(b.tokens + gained, b.capacity as real);
    }
  }

  /** What a bucket is after request k, in terms of the level. */
  ghost predicate Tracks(b: Bucket, capacity: nat, rate: nat, demands: seq<Demand>, requests: seq<Request>, k: nat)
    requires k < |demands| == |requests|
  {
    b == Bucket(capacity, rate, Left(capacity, demands, k), requests[k].now)
  }

  lemma LeftBounds(capacity: nat, demands: seq<Demand>, k: nat)
    requires k < |demands| && Forward(demands)
    ensures 0.0 <= Left(capacity, demands, k) <= Level(capacity, demands, k) <= capacity as real
    decreases k
  {
    if k > 0 {
      LeftBounds(capacity, demands, k - 1);
    }
  }

  lemma DemandsForward(rate: nat, start: real, requests: seq<Request>)
    requires ClockForward(start, requests)
    ensures Forward(Demands(rate, requests))
  {
    var d := Demands(rate, requests);
    forall i, j | 0 <= i < j < |d| ensures d[i].produced <= d[j].produced {
      ProducedBetween(rate, requests[i].now, requests[j].now);
    }
  }

  /** A bucket's run is the run in units of tokens. */
  lemma {:induction false} RunTracks(capacity: nat, rate: nat, start: real, requests: seq<Request>, k: nat)
    requires k < |requests| && ClockForward(start, requests)
    ensures var b, demands := Full(capacity, rate, start), Demands(rate, requests);
            && TokensAt(b, requests, k) == Level(capacity, demands, k)
            && (GrantedAt(b, requests, k) <==> Level(capacity, demands, k) >= requests[k].n as real)
            && Tracks(After(b, requests[..k + 1]), capacity, rate, demands, requests, k)
    decreases k
  {
    var b, demands := Full(capacity, rate, start), Demands(rate, requests);
    var upTo, now := requests[..k + 1], requests[k].now;
    assert upTo[..k] == requests[..k] && upTo[k] == requests[k];
    DemandsForward(rate, start, requests);
    if k == 0 {
      RefillProduces(b, now, start);
      ProducedBetween(rate, start, now);
    } else {
      RunTracks(capacity, rate, start, requests, k - 1);
      LeftBounds(capacity, demands, k - 1);
      RefillProduces(After(b, requests[..k]), now, requests[k - 1].now);
    }
  }

  lemma {:induction false} GrantedIsTaken(capacity: nat, rate: nat, start: real, requests: seq<Request>, i: nat, k: nat)
    requires k <= |requests| && ClockForward(start, requests)
    ensures Granted(Full(capacity, rate, start), requests, i, k) == TakenFrom(capacity, Demands(rate, requests), i, k)
    decreases k
  {
    if k > i {
      GrantedIsTaken(capacity, rate, start, requests, i, k - 1);
      RunTracks(capacity, rate, start, requests, k - 1);
    }
  }

  lemma AllowanceIsProduced(b: Bucket, requests: seq<Request>, i: nat, k: nat)
    requires i <= k < |requests|
    ensures Allowance(b, requests, i, k)
            == b.capacity as real + Demands(b.rate, requests)[k].produced - Demands(b.rate, requests)[i].produced
  {
    ProducedBetween(b.rate, requests[i].now, requests[k].now);
  }

  // ---------- the bounds ----------

  /** Tokens stay between nothing and the capacity, whatever is asked for. */
  lemma TokensBounded(capacity: nat, rate: nat, start: real, requests: seq<Request>)
    requires ClockForward(start, requests)
    ensures 0.0 <= After(Full(capacity, rate, start), requests).tokens <= capacity as real
  {
    if requests != [] {
      var k := |requests| - 1;
      RunTracks(capacity, rate, start, requests, k);
      assert requests[..k + 1] == requests;
      DemandsForward(rate, start, requests);
      LeftBounds(capacity, Demands(rate, requests), k);
    }
  }

  /** A request is granted exactly when no window that ends with it goes over capacity plus rate times its length. */
  lemma GrantExact(capacity: nat, rate: nat, start: real, requests: seq<Request>, k: nat)
    requires k < |requests| && ClockForward(start, requests)
    ensures var b := Full(capacity, rate, start);
            GrantedAt(b, requests, k) <==> WindowsAllow(b, requests, k)
  {
    var b, demands := Full(capacity, rate, start), Demands(rate, requests);
    RunTracks(capacity, rate, start, requests, k);
    var least := LevelExact(capacity, demands, k);
    forall i: nat | i <= k
      ensures Allowance(b, requests, i, k) - Granted(b, requests, i, k) as real == Spare(capacity, demands, i, k)
    {
      AllowanceIsProduced(b, requests, i, k);
      GrantedIsTaken(capacity, rate, start, requests, i, k);
    }
  }

  /** The rate bound: what is granted in any window is at most the capacity plus what the rate adds in its length. */
  lemma {:induction false} RateBound(capacity: nat, rate: nat, start: real, requests: seq<Request>, i: nat, k: nat)
    requires i <= k < |requests| && ClockForward(start, requests)
    ensures var b := Full(capacity, rate, start);
            Granted(b, requests, i, k + 1) as real <= Allowance(b, requests, i, k)
    decreases k
  {
    var demands := Demands(rate, requests);
    AllowanceIsProduced(Full(capacity, rate, start), requests, i, k);
    GrantedIsTaken(capacity, rate, start, requests, i, k + 1);
    DemandsForward(rate, start, requests);
    LeftBounds(capacity, demands, k);
    var least := LevelExact(capacity, demands, k);
    assert Level(capacity, demands, k) <= Spare(capacity, demands, i, k);
  }

  // ---------- one bucket per client ----------

  datatype Limiter = Limiter(rate: nat, buckets: map<string, Bucket>)

  const U32_MAX := 0xFFFF_FFFF

  /** Twice the rate, within 32 bits, and at least one. */
  function CapacityFor(rate: nat): (c: nat)
    ensures c >= 1
  {
    if 2 * rate > U32_MAX then U32_MAX else if rate == 0 then 1 else 2 * rate
  }

  function BucketOf(l: Limiter, client: string, now: real): Bucket {
    if client in l.buckets then l.buckets[client] else Full(CapacityFor(l.rate), l.rate, now)
  }

  /** A publish of the client; rate 0 means no limit. */
  function Ask(l: Limiter, client: string, now: real): (Limiter, bool) {
    if l.rate == 0 then (l, true)
    else
      var (b, granted) := Consume(BucketOf(l, client, now), 1, now);
      (l.(buckets := l.buckets[client := b]), granted)
  }

  /** A publish, a disconnection, or a change of the configured rate. */
  datatype Op = OpAsk(client: string, now: real) | OpDisconnect(client: string) | OpReset(newRate: nat)

  function Step(l: Limiter, op: Op): Limiter {
    match op
    case OpAsk(client, now) => Ask(l, client, now).0
    case OpDisconnect(client) => l.(buckets := l.buckets - {client})
    case OpReset(newRate) => Limiter(newRate, map[])
  }

  function RunOps(rate: nat, ops: seq<Op>): Limiter {
    if ops == [] then Limiter(rate, map[]) else Step(RunOps(rate, ops[..|ops| - 1]), ops[|ops| - 1])
  }

  /** The rate in force after the operations. */
  function RateAfter(rate: nat, ops: seq<Op>): nat {
    if ops == [] then rate
    else if ops[|ops| - 1].OpReset? then ops[|ops| - 1].newRate
    else RateAfter(rate, ops[..|ops| - 1])
  }

  /** The operation leaves the client without a bucket, so that its next one is full. */
  predicate Empties(op: Op, client: string) {
    op.OpReset? || op == OpDisconnect(client)
  }

  predicate AskBy(op: Op, client: string) {
    op.OpAsk? && op.client == client
  }

  /** The client's own requests since it last disconnected, or the rate was last set. */
  function RequestsOf(ops: seq<Op>, client: string): seq<Request> {
    if ops == [] then []
    else
      var before, op := RequestsOf(ops[..|ops| - 1], client), ops[|ops| - 1];
      if Empties(op, client) then [] else if AskBy(op, client) then before + [Request(1, op.now)] else before
  }

  /** What the client's bucket would be if it were the only one. */
  function Alone(rate: nat, requests: seq<Request>): Bucket
    requires requests != []
  {
    After(Full(CapacityFor(rate), rate, requests[0].now), requests)
  }

  lemma AloneStep(rate: nat, requests: seq<Request>, r: Request)
    ensures Alone(rate, requests + [r]) ==
            Consume(if requests == [] then Full(CapacityFor(rate), rate, r.now) else Alone(rate, requests), r.n, r.now).0
  {
    var more := requests + [r];
    assert more[..|requests|] == requests && more[|requests|] == r;
    var b := Full(CapacityFor(rate), rate, more[0].now);
    assert more[0] == if requests == [] then r else requests[0];
    assert After(b, more) == Consume(After(b, requests), r.n, r.now).0;
  }

  /** Whatever other clients do, a client's bucket is that of its own requests since its bucket was last dropped. */
  lemma {:induction false} ClientsIndependent(rate: nat, ops: seq<Op>, client: string)
    requires RateAfter(rate, ops) > 0
    ensures var l, requests := RunOps(rate, ops), RequestsOf(ops, client);
            && l.rate == RateAfter(rate, ops)
            && (client in l.buckets <==> requests != [])
            && (client in l.buckets ==> l.buckets[client] == Alone(l.rate, requests))
  {
    if ops != [] && !ops[|ops| - 1].OpReset? {
      var before, op := ops[..|ops| - 1], ops[|ops| - 1];
      ClientsIndependent(rate, before, client);
      if AskBy(op, client) {
        AloneStep(RateAfter(rate, before), RequestsOf(before, client), Request(1, op.now));
      }
    }
  }

  lemma CapacityIs(rate: nat)
    requires rate > 0
    ensures CapacityFor(rate) == if rate <= 2_147_483_647 then 2 * rate else 4_294_967_295
  {
  }

  /** Whether the limiter lets a publish through is decided by the client's own windows since its bucket was last dropped. */
  lemma AskExact(start: nat, ops: seq<Op>, client: string, now: real)
    requires RateAfter(start, ops) > 0
    requires ClockForward(if RequestsOf(ops, client) == [] then now else RequestsOf(ops, client)[0].now,
                          RequestsOf(ops, client) + [Request(1, now)])
    ensures var rate, requests := RateAfter(start, ops), RequestsOf(ops, client) + [Request(1, now)];
            var capacity := if rate <= 2_147_483_647 then 2 * rate else 4_294_967_295;
            var b := Bucket(capacity, rate, capacity as real, requests[0].now);
            Ask(RunOps(start, ops), client, now).1 <==> WindowsAllow(b, requests, |requests| - 1)
  {
    var rate, requests := RateAfter(start, ops), RequestsOf(ops, client) + [Request(1, now)];
    assert Full(CapacityFor(rate), rate, requests[0].now) ==
           var capacity := if rate <= 2_147_483_647 then 2 * rate else 4_294_967_295;
           Bucket(capacity, rate, capacity as real, requests[0].now) by {
      CapacityIs(rate);
    }
    AskIsGrant(start, ops, client, now);
    GrantExact(CapacityFor(rate), rate, requests[0].now, requests, |requests| - 1);
  }

  lemma AskIsGrant(start: nat, ops: seq<Op>, client: string, now: real)
    requires RateAfter(start, ops) > 0
    ensures var rate, requests := RateAfter(start, ops), RequestsOf(ops, client) + [Request(1, now)];
            Ask(RunOps(start, ops), client, now).1
            <==> GrantedAt(Full(CapacityFor(rate), rate, requests[0].now), requests, |requests| - 1)
  {
    var own := RequestsOf(ops, client);
    ClientsIndependent(start, ops, client);
    assert (own + [Request(1, now)])[..|own|] == own;
  }

  class TokenBucket {
    const capacity: nat
    const rate: nat
    var tokens: real
    var lastRefill: real

    ghost function State(): Bucket
      reads this
    {
      Bucket(capacity, rate, tokens, lastRefill)
    }

    constructor (capacity: nat, rate: nat, now: real)
      ensures State() == Full(capacity, rate, now)
    {
      this.capacity, this.rate, tokens, lastRefill := capacity, rate, capacity as real, now;
    }

    method RefillTo(now: real)
      modifies this
      ensures State() == Refill(old(State()), now)
    {
      var elapsed := if now >= lastRefill then now - lastRefill else 0.0;
      if elapsed <= 0.0 {
        return;
      }
      var added := elapsed * rate as real;
      tokens := if tokens + added <= capacity as real then tokens + added else capacity as real;
      lastRefill := now;
    }

    method TryConsume(n: nat, now: real) returns (granted: bool)
      modifies this
      ensures (State(), granted) == Consume(old(State()), n, now)
    {
      RefillTo(now);
      granted := tokens >= n as real;
      if granted {
        tokens := tokens - n as real;
      }
    }
  }

  class ClientLimiter {
    var capacity: nat
    var rate: nat
    var buckets: map<string, TokenBucket>

    ghost predicate Valid()
      reads this, buckets.Values
    {
      && capacity == CapacityFor(rate)
      && (forall a, b :: a in buckets && b in buckets && a != b ==> buckets[a] != buckets[b])
    }

    ghost function State(): Limiter
      reads this, buckets.Values
    {
      Limiter(rate, map c | c in buckets :: buckets[c].State())
    }

    constructor (rate: nat)
      ensures Valid() && State() == Limiter(rate, map[])
    {
      this.rate, this.capacity, this.buckets := rate, CapacityFor(rate), map[];
    }

    /** One token of the client's own bucket. */
    method TakeFrom(client: string, now: real) returns (granted: bool)
      requires Valid() && client in buckets
      modifies buckets[client]
      ensures Valid()
      ensures (State(), granted) ==
              var (b, ok) := Consume(old(State()).buckets[client], 1, now);
              (old(State()).(buckets := old(State()).buckets[client := b]), ok)
    {
      granted := buckets[client].TryConsume(1, now);
      assert State().buckets == old(State()).buckets[client := buckets[client].State()];
    }

    method TryConsume(client: string, now: real) returns (granted: bool)
      requires Valid()
      modifies this, buckets.Values
      ensures Valid() && (State(), granted) == Ask(old(State()), client, now)
      ensures fresh(buckets.Values - old(buckets.Values))
    {
      if rate == 0 {
        return true;
      }
      if client in buckets {
        granted := TakeFrom(client, now);
        return;
      }
      var bucket := new TokenBucket(capacity, rate, now);
      granted := bucket.TryConsume(1, now);
      buckets := buckets[client := bucket];
      assert State().buckets == old(State()).buckets[client := bucket.State()];
    }

    method Remove(client: string)
      requires Valid()
      modifies this
      ensures Valid() && State() == Step(old(State()), OpDisconnect(client))
    {
      buckets := buckets - {client};
    }

    /** A new rate; every client starts with a full bucket. */
    method Reset(newRate: nat)
      modifies this
      ensures Valid() && State() == Step(old(State()), OpReset(newRate))
    {
      capacity, rate, buckets := CapacityFor(newRate), newRate, map[];
    }
  }
}
