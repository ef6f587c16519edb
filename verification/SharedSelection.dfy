/** Round-robin choice of one member of a shared-subscription group per publish (section 4.8.2 of MQTT 5.0). */
module SharedSelection {
  import opened Arithmetic
  import opened Basics
  import opened SubscriptionModel

  // ---------- the order of the members ----------

  predicate Less(a: string, b: string) {
    if b == "" then false
    else if a == "" then true
    else if a[0] == b[0] then Less(a[1..], b[1..])
    else a[0] < b[0]
  }

  /** The strings agree up to position i, where the first one ends or has the lower character. */
  predicate LowerAt(a: string, b: string, i: nat) {
    i <= |a| && i < |b| && a[..i] == b[..i] && (i < |a| ==> a[i] < b[i])
  }

  lemma {:induction false} LessMeans(a: string, b: string)
    ensures Less(a, b) <==> exists i: nat :: LowerAt(a, b, i)
  {
    if a == "" || b == "" {
      assert b != "" ==> LowerAt(a, b, 0);
    } else if a[0] != b[0] {
      assert a[0] < b[0] ==> LowerAt(a, b, 0);
      forall i: nat | 0 < i <= |a| && i < |b| ensures !LowerAt(a, b, i) {
        assert a[..i][0] == a[0] && b[..i][0] == b[0];
      }
    } else {
      LessMeans(a[1..], b[1..]);
      forall i: nat ensures LowerAt(a, b, i + 1) <==> LowerAt(a[1..], b[1..], i) {
        if i < |a| && i + 1 < |b| {
          assert a[..i + 1] == [a[0]] + a[1..][..i] && b[..i + 1] == [b[0]] + b[1..][..i];
        }
      }
      assert !LowerAt(a, b, 0);
      if exists i: nat :: LowerAt(a, b, i) {
        var i: nat :| LowerAt(a, b, i);
        assert LowerAt(a[1..], b[1..], i - 1);
      }
      if exists i: nat :: LowerAt(a[1..], b[1..], i) {
        var i: nat :| LowerAt(a[1..], b[1..], i);
        assert LowerAt(a, b, i + 1);
      }
    }
  }

  lemma {:induction false} LessTotal(a: string, b: string)
    ensures Less(a, b) || Less(b, a) || a == b
    ensures !(Less(a, b) && Less(b, a)) && !Less(a, a)
  {
    if a != "" {
      LessTotal(a[1..], a[1..]);
      if b != "" {
        LessTotal(a[1..], b[1..]);
        assert a == [a[0]] + a[1..] && b == [b[0]] + b[1..];
      }
    }
  }

  lemma {:induction false} LessTransitive(a: string, b: string, c: string)
    requires Less(a, b) && Less(b, c)
    ensures Less(a, c)
  {
    if a != "" && a[0] == b[0] == c[0] {
      LessTransitive(a[1..], b[1..], c[1..]);
    }
  }

  ghost predicate IsLeast(s: set<string>, m: string) {
    m in s && forall x :: x in s && x != m ==> Less(m, x)
  }

  /** The least member of a set, found by scanning it. */
  method FindLeast(s: set<string>) returns (m: string)
    requires s != {}
    ensures IsLeast(s, m)
  {
    m :| m in s;
    var todo := s - {m};
    while todo != {}
      invariant todo <= s && m in s - todo
      invariant forall x :: x in s - todo && x != m ==> Less(m, x)
    {
      var x :| x in todo;
      LessTotal(m, x);
      if Less(x, m) {
        forall y | y in s - todo && y != m ensures Less(x, y) { LessTransitive(x, m, y); }
        m := x;
      }
      todo := todo - {x};
    }
  }

  lemma {:induction false} LeastExists(s: set<string>)
    requires s != {}
    ensures exists m :: IsLeast(s, m)
  {
    var x :| x in s;
    if s == {x} {
      assert IsLeast(s, x);
    } else {
      assert s - {x} != {};
      LeastExists(s - {x});
      var m :| IsLeast(s - {x}, m);
      LessTotal(m, x);
      if Less(x, m) {
        forall y | y in s && y != x ensures Less(x, y) { if y != m { LessTransitive(x, m, y); } }
        assert IsLeast(s, x);
      } else {
        assert IsLeast(s, m);
      }
    }
  }

  lemma LeastUnique(s: set<string>, a: string, b: string)
    requires IsLeast(s, a) && IsLeast(s, b)
    ensures a == b
  {
    LessTotal(a, b);
  }

  /** The members in ascending order. */
  ghost function Sorted(s: set<string>): (r: seq<string>)
    ensures |r| == |s|
  {
    if s == {} then []
    else
      LeastExists(s);
      var m :| IsLeast(s, m);
      [m] + Sorted(s - {m})
  }

  lemma SortedLeast(s: set<string>, m: string)
    requires IsLeast(s, m)
    ensures Sorted(s) == [m] + Sorted(s - {m})
  {
    LeastExists(s);
    forall x | IsLeast(s, x) ensures x == m { LeastUnique(s, x, m); }
  }

  /** Every member has exactly one place in the order. */
  lemma {:induction false} SortedFacts(s: set<string>)
    ensures forall x :: x in Sorted(s) <==> x in s
    ensures forall i, j :: 0 <= i < j < |Sorted(s)| ==> Less(Sorted(s)[i], Sorted(s)[j])
  {
    if s != {} {
      LeastExists(s);
      var m :| IsLeast(s, m);
      SortedLeast(s, m);
      SortedFacts(s - {m});
      LeastFirst(m, s, Sorted(s - {m}));
    }
  }

  lemma LeastFirst(m: string, s: set<string>, rest: seq<string>)
    requires IsLeast(s, m) && forall x :: x in rest <==> x in s - {m}
    requires forall i, j :: 0 <= i < j < |rest| ==> Less(rest[i], rest[j])
    ensures forall x :: x in [m] + rest <==> x in s
    ensures forall i, j :: 0 <= i < j < |[m] + rest| ==> Less(([m] + rest)[i], ([m] + rest)[j])
  {
    forall i | 0 <= i < |rest| ensures Less(m, rest[i]) { assert rest[i] in rest; }
  }

  lemma SortedDistinct(s: set<string>, i: nat, j: nat)
    requires i < |s| && j < |s|
    ensures Sorted(s)[i] == Sorted(s)[j] <==> i == j
  {
    SortedFacts(s);
    LessTotal(Sorted(s)[i], Sorted(s)[j]);
  }

  lemma MoveOver(r: seq<string>, m: string, rest: seq<string>)
    ensures r + ([m] + rest) == (r + [m]) + rest
  {
  }

  method SortMembers(s: set<string>) returns (r: seq<string>)
    ensures r == Sorted(s)
  {
    r := [];
    var todo := s;
    while todo != {}
      invariant r + Sorted(todo) == Sorted(s)
    {
      var m := FindLeast(todo);
      SortedLeast(todo, m);
      MoveOver(r, m, Sorted(todo - {m}));
      r := r + [m];
      todo := todo - {m};
    }
  }

  // ---------- the choice ----------

  ghost function Chosen(g: Group): (c: string)
    requires g.members != map[]
    ensures c in g.members
  {
    var order := Sorted(g.members.Keys);
    SortedFacts(g.members.Keys);
    order[g.counter % |order|]
  }

  function Advanced(g: Group): Group {
    g.(counter := (g.counter + 1) % U64)
  }

  /** The choices of `k` consecutive matching publishes while the members stay the same. */
  ghost function Choices(g: Group, k: nat): (r: seq<string>)
    requires g.members != map[]
    ensures |r| == k
    decreases k
  {
    if k == 0 then [] else [Chosen(g)] + Choices(Advanced(g), k - 1)
  }

  ghost function Count(s: seq<string>, c: string): nat {
    if s == [] then 0 else (if s[0] == c then 1 else 0) + Count(s[1..], c)
  }

  // ---------- fairness ----------

  /** The member in place i of the sorted members. */
  ghost predicate InPlace(members: Subscribers, i: nat, c: string) {
    i < |members| && |Sorted(members.Keys)| == |members| && Sorted(members.Keys)[i] == c
  }

  /** How often c is chosen in k consecutive publishes, for any way to choose by the counter. */
  ghost function Turns(choose: nat -> string, c: string, counter: nat, k: nat): nat
    decreases k
  {
    if k == 0 then 0 else (if choose(counter) == c then 1 else 0) + Turns(choose, c, (counter + 1) % U64, k - 1)
  }

  /** The choice gives c its turn exactly at the counters that leave remainder i. */
  ghost predicate TurnOf(choose: nat -> string, n: nat, i: nat, c: string)
    requires n > 0
  {
    forall a: nat :: choose(a) == c <==> a % n == i
  }

  lemma TurnIs(choose: nat -> string, n: nat, i: nat, c: string, a: nat)
    requires n > 0 && TurnOf(choose, n, i, c)
    ensures choose(a) == c <==> a % n == i
  {
  }

  lemma TurnsAreResidues(choose: nat -> string, n: nat, i: nat, c: string, counter: nat, k: nat)
    requires n > 0 && TurnOf(choose, n, i, c) && counter + k <= U64 && counter < U64
    ensures Turns(choose, c, counter, k) == Residues(counter, k, n, i)
  {
    TurnsAreHits(choose, c, counter, k);
    HitsAreResidues(choose, n, i, c, counter, k);
  }

  /** The same count for a counter that does not wrap. */
  ghost function Hits(choose: nat -> string, c: string, a: nat, k: nat): nat
    decreases k
  {
    if k == 0 then 0 else (if choose(a) == c then 1 else 0) + Hits(choose, c, a + 1, k - 1)
  }

  lemma {:induction false} TurnsAreHits(choose: nat -> string, c: string, counter: nat, k: nat)
    requires counter + k <= U64 && counter < U64
    ensures Turns(choose, c, counter, k) == Hits(choose, c, counter, k)
    decreases k
  {
    if k > 1 {
      assert (counter + 1) % U64 == counter + 1;
      TurnsAreHits(choose, c, counter + 1, k - 1);
    }
  }

  lemma {:induction false} HitsAreResidues(choose: nat -> string, n: nat, i: nat, c: string, a: nat, k: nat)
    requires n > 0 && TurnOf(choose, n, i, c)
    ensures Hits(choose, c, a, k) == Residues(a, k, n, i)
    decreases k
  {
    if k > 0 {
      TurnIs(choose, n, i, c, a);
      HitsAreResidues(choose, n, i, c, a + 1, k - 1);
    }
  }

  /** How a group chooses. */
  ghost function Chooser(members: Subscribers): nat -> string
    requires members != map[]
  {
    (a: nat) => Chosen(Group(members, a))
  }

  lemma {:induction false} ChoicesAreTurns(g: Group, k: nat, c: string)
    requires g.members != map[]
    ensures Count(Choices(g, k), c) == Turns(Chooser(g.members), c, g.counter, k)
    decreases k
  {
    if k > 0 {
      ChoicesAreTurns(Advanced(g), k - 1, c);
      CountHead(Chosen(g), Choices(Advanced(g), k - 1), c);
      assert Chooser(g.members)(g.counter) == Chosen(g);
    }
  }

  lemma ChooserTurns(members: Subscribers, i: nat, c: string)
    requires members != map[] && InPlace(members, i, c)
    ensures TurnOf(Chooser(members), |members|, i, c)
  {
    forall a: nat ensures Chooser(members)(a) == c <==> a % |members| == i {
      ChosenIff(Group(members, a), i, c);
    }
  }

  /** Whose turn it is. */
  lemma ChosenIff(g: Group, i: nat, c: string)
    requires g.members != map[] && InPlace(g.members, i, c)
    ensures Chosen(g) == c <==> g.counter % |g.members| == i
  {
    var ids := g.members.Keys;
    assert |ids| == |g.members|;
    SortedFacts(ids);
    SortedDistinct(ids, g.counter % |ids|, i);
  }

  lemma CountHead(x: string, s: seq<string>, c: string)
    ensures Count([x] + s, c) == (if x == c then 1 else 0) + Count(s, c)
  {
    assert ([x] + s)[1..] == s;
  }

  /** Over any k consecutive matching publishes, every member is chosen between floor(k/n) and ceil(k/n) times. */
  lemma RoundRobinFair(g: Group, k: nat, c: string)
    requires c in g.members && g.counter < U64 && g.counter + k <= U64
    ensures k / |g.members| <= Count(Choices(g, k), c) <= Ceil(k, |g.members|)
  {
    var i := PlaceOf(g.members, c);
    ChoicesAreTurns(g, k, c);
    ChooserTurns(g.members, i, c);
    TurnsAreResidues(Chooser(g.members), |g.members|, i, c, g.counter, k);
    ResiduesWindow(g.counter, k, |g.members|, i);
  }

  lemma PlaceOf(members: Subscribers, c: string) returns (i: nat)
    requires c in members
    ensures InPlace(members, i, c)
  {
    var ids := members.Keys;
    assert |ids| == |members|;
    SortedFacts(ids);
    i :| 0 <= i < |Sorted(ids)| && Sorted(ids)[i] == c;
  }

  // ---------- across the wrap of the 64-bit counter ----------

  ghost predicate Fair(members: Subscribers, counter: nat, k: nat, c: string)
    requires members != map[]
  {
    k / |members| <= Count(Choices(Group(members, counter), k), c) <= Ceil(k, |members|)
  }

  lemma WrappedResidues(counter: nat, k: nat, n: nat, i: nat)
    requires n > 0 && counter < U64 && U64 % n == 0
    ensures Residues((counter + 1) % U64, k, n, i) == Residues(counter + 1, k, n, i)
  {
    if counter + 1 == U64 {
      assert 0 % n == 0;
      ResiduesPeriodic(0, U64, k, n, i);
    }
  }

  lemma {:induction false} TurnsAreResiduesWrapping(
    choose: nat -> string, n: nat, i: nat, c: string, counter: nat, k: nat)
    requires n > 0 && TurnOf(choose, n, i, c) && counter < U64 && U64 % n == 0
    ensures Turns(choose, c, counter, k) == Residues(counter, k, n, i)
    decreases k
  {
    if k > 0 {
      TurnIs(choose, n, i, c, counter);
      TurnsAreResiduesWrapping(choose, n, i, c, (counter + 1) % U64, k - 1);
      WrappedResidues(counter, k - 1, n, i);
    }
  }

  lemma {:induction false} AdvancedFar(g: Group, r: nat)
    requires g.members != map[] && g.counter + r == U64 && r >= 1
    ensures Choices(g, r + 1)[r] == Chosen(Group(g.members, 0))
    decreases r
  {
    if r > 1 {
      AdvancedFar(Advanced(g), r - 1);
    } else {
      assert Choices(Advanced(g), 1) == [Chosen(Advanced(g))] + Choices(Advanced(Advanced(g)), 0);
    }
  }

  lemma {:induction false} CountAtLeastTwo(s: seq<string>, j: nat, c: string)
    requires 0 < j < |s| && s[0] == c && s[j] == c
    ensures Count(s, c) >= 2
  {
    CountPresent(s[1..], j - 1, c);
  }

  lemma {:induction false} CountPresent(s: seq<string>, j: nat, c: string)
    requires j < |s| && s[j] == c
    ensures Count(s, c) >= 1
  {
    if j > 0 {
      CountPresent(s[1..], j - 1, c);
    }
  }

  /** When 2^64 is not a multiple of the group size, the first member is chosen twice within one round at the wrap. */
  lemma UnfairAtWrap(members: Subscribers) returns (counter: nat, k: nat, c: string)
    requires members != map[] && U64 % |members| != 0
    ensures counter < U64 < counter + k && k <= |members| && c in members
    ensures Count(Choices(Group(members, counter), k), c) >= 2 && !Fair(members, counter, k, c)
  {
    var n := |members|;
    var r := U64 % n;
    ModAtMost(U64, n);
    counter, k, c := U64 - r, r + 1, Sorted(members.Keys)[0];
    var g := Group(members, counter);
    SortedFacts(members.Keys);
    DivMul(U64, n);
    MulDiv(U64 / n, 0, n);
    assert g.counter % n == 0;
    AdvancedFar(g, r);
    assert 0 % n == 0;
    assert Chosen(g) == c && Chosen(Group(members, 0)) == c;
    CountAtLeastTwo(Choices(g, k), r, c);
    CeilDiv(k, n);
    SmallDiv(k, n);
  }

  lemma SmallDiv(k: nat, n: nat)
    requires 0 < k <= n
    ensures k / n + (if k % n == 0 then 0 else 1) == 1
  {
    if k < n {
      MulDiv(0, k, n);
    } else {
      MulDiv(1, 0, n);
    }
  }

  lemma FairWhenDividing(members: Subscribers, counter: nat, k: nat, c: string)
    requires c in members && counter < U64 && U64 % |members| == 0
    ensures Fair(members, counter, k, c)
  {
    var i := PlaceOf(members, c);
    ChoicesAreTurns(Group(members, counter), k, c);
    ChooserTurns(members, i, c);
    TurnsAreResiduesWrapping(Chooser(members), |members|, i, c, counter, k);
    ResiduesWindow(counter, k, |members|, i);
  }

  ghost predicate AlwaysFair(members: Subscribers)
    requires members != map[]
  {
    forall counter: nat, k: nat, c: string {:trigger Fair(members, counter, k, c)} ::
      counter < U64 && c in members ==> Fair(members, counter, k, c)
  }

  lemma NotAlwaysFair(members: Subscribers, counter: nat, k: nat, c: string)
    requires members != map[] && counter < U64 && c in members && !Fair(members, counter, k, c)
    ensures !AlwaysFair(members)
  {
  }

  lemma AlwaysFairWhenDividing(members: Subscribers)
    requires members != map[] && U64 % |members| == 0
    ensures AlwaysFair(members)
  {
    forall counter: nat, k: nat, c: string | counter < U64 && c in members ensures Fair(members, counter, k, c) {
      FairWhenDividing(members, counter, k, c);
    }
  }

  lemma NeverFairOtherwise(members: Subscribers)
    requires members != map[] && U64 % |members| != 0
    ensures !AlwaysFair(members)
  {
    var counter, k, c := UnfairAtWrap(members);
    NotAlwaysFair(members, counter, k, c);
  }

  /** Fairness over every window, wraps included, holds exactly for group sizes that divide 2^64. */
  lemma FairEverywhere(members: Subscribers)
    requires members != map[]
    ensures AlwaysFair(members) <==> 0x1_0000_0000_0000_0000 % |members| == 0
  {
    if U64 % |members| == 0 {
      AlwaysFairWhenDividing(members);
    } else {
      NeverFairOtherwise(members);
    }
  }
}
