/** Keys of the offline store: two bytes of client-id length, the client id, eight bytes of sequence number. */
module StoreKeys {
  import opened Basics
  import opened Packets

  /** The low n bytes of a number, most significant first. */
  function BigEndian(v: nat, n: nat): (bytes: Bytes)
    ensures |bytes| == n
    decreases n
  {
    if n == 0 then [] else BigEndian(v / 256, n - 1) + [v % 256]
  }

  /** The number fits in n bytes. */
  predicate FitsBytes(v: nat, n: nat)
    decreases n
  {
    if n == 0 then v == 0 else FitsBytes(v / 256, n - 1)
  }

  // ---------- the order of keys ----------

  /** Lexicographic order on byte strings. */
  predicate Before(a: Bytes, b: Bytes)
    decreases |a|
  {
    if a == [] then b != []
    else b != [] && (a[0] < b[0] || (a[0] == b[0] && Before(a[1..], b[1..])))
  }

  lemma {:induction false} BeforeIrreflexive(a: Bytes)
    ensures !Before(a, a)
    decreases |a|
  {
    if a != [] { BeforeIrreflexive(a[1..]); }
  }

  lemma {:induction false} BeforeTransitive(a: Bytes, b: Bytes, c: Bytes)
    requires Before(a, b) && Before(b, c)
    ensures Before(a, c)
    decreases |a|
  {
    if a != [] && a[0] == b[0] == c[0] {
      BeforeTransitive(a[1..], b[1..], c[1..]);
    }
  }

  lemma {:induction false} BeforeTotal(a: Bytes, b: Bytes)
    ensures Before(a, b) || a == b || Before(b, a)
    decreases |a|
  {
    if a != [] && b != [] && a[0] == b[0] {
      BeforeTotal(a[1..], b[1..]);
      assert a == [a[0]] + a[1..] && b == [b[0]] + b[1..];
    }
  }

  lemma {:induction false} BeforePrefix(p: Bytes, a: Bytes, b: Bytes)
    ensures Before(p + a, p + b) <==> Before(a, b)
  {
    if p == [] {
      assert p + a == a && p + b == b;
    } else {
      BeforePrefix(p[1..], a, b);
      assert (p + a)[1..] == p[1..] + a && (p + b)[1..] == p[1..] + b;
    }
  }

  lemma {:induction false} BeforeSnoc(a: Bytes, x: byte, b: Bytes, y: byte)
    requires |a| == |b|
    ensures Before(a + [x], b + [y]) <==> Before(a, b) || (a == b && x < y)
    decreases |a|
  {
    if a == [] {
      assert a + [x] == [x] && b + [y] == [y];
    } else {
      BeforeSnoc(a[1..], x, b[1..], y);
      assert (a + [x])[1..] == a[1..] + [x] && (b + [y])[1..] == b[1..] + [y];
      assert a == b <==> a[0] == b[0] && a[1..] == b[1..] by {
        assert a == [a[0]] + a[1..] && b == [b[0]] + b[1..];
      }
    }
  }

  /** Fixed-width big-endian numbers are ordered as byte strings as they are as numbers. */
  lemma {:induction false} BigEndianOrder(a: nat, b: nat, n: nat)
    requires FitsBytes(a, n) && FitsBytes(b, n)
    ensures Before(BigEndian(a, n), BigEndian(b, n)) <==> a < b
    ensures BigEndian(a, n) == BigEndian(b, n) <==> a == b
    decreases n
  {
    if n > 0 {
      BigEndianOrder(a / 256, b / 256, n - 1);
      var s, t := BigEndian(a / 256, n - 1), BigEndian(b / 256, n - 1);
      BeforeSnoc(s, a % 256, t, b % 256);
      assert (s + [a % 256])[..n - 1] == s && (t + [b % 256])[..n - 1] == t;
      assert (s + [a % 256])[n - 1] == a % 256 && (t + [b % 256])[n - 1] == b % 256;
    }
  }

  // ---------- keys ----------

  /** The length is cut to 16 bits. */
  function KeyPrefix(client: Bytes): Bytes {
    BigEndian(|client| % 65536, 2) + client
  }

  function Key(client: Bytes, id: nat): Bytes {
    KeyPrefix(client) + BigEndian(id, 8)
  }

  /** Two bytes of length, the client id, eight bytes of number. */
  lemma KeyLayout(client: Bytes, id: nat)
    ensures var key, n := Key(client, id), |client|;
            && |key| == n + 10
            && key[0] == n / 256 % 256 && key[1] == n % 256 && key[2..n + 2] == client
            && key[n + 9] == id % 256 && key[n + 8] == id / 256 % 256
  {
    var head, tail := BigEndian(|client| % 65536, 2), BigEndian(id, 8);
    assert Key(client, id) == head + client + tail;
    TwoLowBytes(|client| % 65536, 2);
    TwoLowBytes(id, 8);
    LengthBytes(|client|);
  }

  lemma TwoLowBytes(v: nat, n: nat)
    requires n >= 2
    ensures BigEndian(v, n)[n - 1] == v % 256 && BigEndian(v, n)[n - 2] == v / 256 % 256
  {
    assert BigEndian(v, n) == BigEndian(v / 256, n - 1) + [v % 256];
    assert BigEndian(v / 256, n - 1) == BigEndian(v / 256 / 256, n - 2) + [v / 256 % 256];
  }

  lemma LengthBytes(n: nat)
    ensures n % 65536 / 256 % 256 == n / 256 % 256 && n % 65536 % 256 == n % 256
  {
    var q, r := n / 65536, n % 65536;
    assert n == 65536 * q + r;
    assert n / 256 == 256 * q + r / 256;
  }

  lemma FitsU64(id: nat)
    requires id < U64
    ensures FitsBytes(id, 8)
  {
    var a := id / 256;
    var b := a / 256;
    var c := b / 256;
    var d := c / 256;
    var e := d / 256;
    var f := e / 256;
    var g := f / 256;
    assert g / 256 == 0;
    assert FitsBytes(g, 1) && FitsBytes(f, 2) && FitsBytes(e, 3) && FitsBytes(d, 4) && FitsBytes(c, 5);
    assert FitsBytes(b, 6) && FitsBytes(a, 7);
  }

  lemma FitsU16(v: nat)
    requires v < 65536
    ensures FitsBytes(v, 2)
  {
    assert v / 256 / 256 == 0;
    assert FitsBytes(v / 256, 1);
  }

  /** Keys of one client sort by sequence number. */
  lemma KeyOrder(client: Bytes, a: nat, b: nat)
    requires a < U64 && b < U64
    ensures Before(Key(client, a), Key(client, b)) <==> a < b
    ensures Key(client, a) == Key(client, b) <==> a == b
  {
    FitsU64(a);
    FitsU64(b);
    BigEndianOrder(a, b, 8);
    BeforePrefix(KeyPrefix(client), BigEndian(a, 8), BigEndian(b, 8));
    var p := KeyPrefix(client);
    assert (p + BigEndian(a, 8))[|p|..] == BigEndian(a, 8) && (p + BigEndian(b, 8))[|p|..] == BigEndian(b, 8);
  }

  /** Keys determine client id and number, however long the id. */
  lemma KeyInjective(client: Bytes, id: nat, client': Bytes, id': nat)
    requires id < U64 && id' < U64
    ensures Key(client, id) == Key(client', id') <==> client == client' && id == id'
  {
    var k, k' := Key(client, id), Key(client', id');
    if k == k' {
      assert |client| == |client'|;
      assert k[2..2 + |client|] == client && k'[2..2 + |client'|] == client';
      KeyOrder(client, id, id');
    }
  }

  /** When a scan for one client meets a key of another: lengths equal modulo 65536, and one id leads the other's key. */
  lemma PrefixMeets(client: Bytes, other: Bytes, id: nat)
    ensures KeyPrefix(client) <= Key(other, id) <==>
            |client| % 65536 == |other| % 65536 && client <= other + BigEndian(id, 8)
  {
    var n, m := |client| % 65536, |other| % 65536;
    var head, head' := BigEndian(n, 2), BigEndian(m, 2);
    var tail := other + BigEndian(id, 8);
    FitsU16(n);
    FitsU16(m);
    BigEndianOrder(n, m, 2);
    assert Key(other, id) == head' + tail;
    if head + client <= head' + tail {
      assert (head' + tail)[..2] == head' && (head' + tail)[..2] == (head + client)[..2] == head;
      assert (head' + tail)[2..] == tail && (head + client)[2..] == client;
      assert client == tail[..|client|] by {
        assert forall i :: 0 <= i < |client| ==> client[i] == (head + client)[i + 2] == (head' + tail)[i + 2] == tail[i];
      }
    }
  }

  /** For ids of at most 65535 bytes a scan meets the client's own keys only. */
  lemma PrefixesApart(client: Bytes, other: Bytes, id: nat)
    requires |client| < 65536 && |other| < 65536
    ensures KeyPrefix(client) <= Key(other, id) <==> client == other
  {
    PrefixMeets(client, other, id);
    if |client| == |other| {
      assert (other + BigEndian(id, 8))[..|client|] == other;
    }
  }

  lemma SameCut(n: nat, m: nat)
    requires m == n + 65536
    ensures m % 65536 == n % 65536
  {
    var q, r := n / 65536, n % 65536;
    assert m == (q + 1) * 65536 + r;
  }

  /** A longer id is cut in the length field: whatever the id, its scan meets the keys of one that is 65536 bytes longer. */
  lemma LongIdsMeet(client: Bytes, other: Bytes, id: nat)
    requires client <= other && |other| == |client| + 65536
    ensures KeyPrefix(client) <= Key(other, id) && other != client
  {
    SameCut(|client|, |other|);
    LeadsMore(client, other, BigEndian(id, 8));
    PrefixMeets(client, other, id);
  }

  lemma LeadsMore(a: Bytes, b: Bytes, c: Bytes)
    requires a <= b
    ensures a <= b + c
  {
  }
}
