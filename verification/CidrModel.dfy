/** Addresses as numbers of a fixed width, CIDR rules (section 3.1 of RFC 4632), and what it means that a rule covers one. */
module CidrModel {

  // ---------- shifts and masks ----------

  function Shr(v: nat, k: nat): nat {
    if k == 0 then v else Shr(v / 2, k - 1)
  }

  function Shl(v: nat, k: nat): nat {
    if k == 0 then v else 2 * Shl(v, k - 1)
  }

  /** The number fits in `width` bits. */
  predicate Fits(v: nat, width: nat) {
    Shr(v, width) == 0
  }

  /** n ones. */
  function Ones(n: nat): nat {
    if n == 0 then 0 else 2 * Ones(n - 1) + 1
  }

  /** Bitwise conjunction. */
  function And(a: nat, b: nat): nat
    decreases a
  {
    if a == 0 then 0 else (if a % 2 == 1 && b % 2 == 1 then 1 else 0) + 2 * And(a / 2, b / 2)
  }

  /** `prefix` ones followed by zeros; a longer prefix than the width counts as the width. */
  function ApplyMask(v: nat, width: nat, prefix: nat): nat {
    var ones := if prefix <= width then prefix else width;
    And(v, Shl(Ones(ones), width - ones))
  }

  lemma {:induction false} ShrStep(v: nat, k: nat)
    ensures Shr(v, k + 1) == Shr(v, k) / 2
  {
    if k > 0 {
      ShrStep(v / 2, k - 1);
    }
  }

  lemma {:induction false} ShrZero(k: nat)
    ensures Shr(0, k) == 0 && Shl(0, k) == 0
  {
    if k > 0 {
      ShrZero(k - 1);
    }
  }

  lemma {:induction false} ShlShr(v: nat, k: nat)
    ensures Shr(Shl(v, k), k) == v
  {
    if k > 0 {
      ShlShr(v, k - 1);
      assert Shl(v, k) / 2 == Shl(v, k - 1);
    }
  }

  lemma {:induction false} AndAllOnes(v: nat, n: nat)
    requires Fits(v, n)
    ensures And(v, Ones(n)) == v
  {
    if v > 0 {
      AndAllOnes(v / 2, n - 1);
      assert Ones(n) / 2 == Ones(n - 1) && Ones(n) % 2 == 1;
    }
  }

  /** Conjunction with ones above k zeros clears the k low bits. */
  lemma {:induction false} AndHighOnes(v: nat, ones: nat, k: nat)
    requires Fits(v, ones + k)
    ensures And(v, Shl(Ones(ones), k)) == Shl(Shr(v, k), k)
    decreases k
  {
    if v == 0 {
      ShrZero(k);
    } else if k == 0 {
      AndAllOnes(v, ones);
    } else {
      AndHighOnes(v / 2, ones, k - 1);
      assert Shl(Ones(ones), k) / 2 == Shl(Ones(ones), k - 1) && Shl(Ones(ones), k) % 2 == 0;
    }
  }

  /** A mask keeps the part above the host bits and clears those. */
  lemma MaskClears(v: nat, width: nat, prefix: nat)
    requires prefix <= width && Fits(v, width)
    ensures ApplyMask(v, width, prefix) == Shl(Shr(v, width - prefix), width - prefix)
    ensures Shr(ApplyMask(v, width, prefix), width - prefix) == Shr(v, width - prefix)
  {
    var k := width - prefix;
    assert ApplyMask(v, width, prefix) == Shl(Shr(v, k), k) by {
      AndHighOnes(v, prefix, k);
    }
    ShlShr(Shr(v, k), k);
  }

  lemma {:induction false} ShrMore(a: nat, b: nat, k: nat, more: nat)
    requires Shr(a, k) == Shr(b, k)
    ensures Shr(a, k + more) == Shr(b, k + more)
  {
    if more > 0 {
      ShrMore(a, b, k, more - 1);
      ShrStep(a, k + more - 1);
      ShrStep(b, k + more - 1);
    }
  }

  // ---------- leading bits ----------

  type Bits = seq<bool>

  /** Bit i of a number of the given width, counted from the most significant. */
  predicate BitAt(v: nat, width: nat, i: nat)
    requires i < width
  {
    Shr(v, width - 1 - i) % 2 == 1
  }

  /** The n most significant bits. */
  function TopBits(v: nat, width: nat, n: nat): (bits: Bits)
    requires n <= width
    ensures |bits| == n
  {
    seq(n, i requires 0 <= i < n => BitAt(v, width, i))
  }

  lemma TopBitsEach(a: nat, b: nat, width: nat, n: nat)
    requires n <= width
    ensures TopBits(a, width, n) == TopBits(b, width, n)
            <==> forall i :: 0 <= i < n ==> BitAt(a, width, i) == BitAt(b, width, i)
  {
    if TopBits(a, width, n) == TopBits(b, width, n) {
      forall i | 0 <= i < n ensures BitAt(a, width, i) == BitAt(b, width, i) {
        assert TopBits(a, width, n)[i] == TopBits(b, width, n)[i];
      }
    }
  }

  lemma TopBitsStep(v: nat, width: nat, n: nat)
    requires n < width
    ensures TopBits(v, width, n + 1) == TopBits(v, width, n) + [BitAt(v, width, n)]
    ensures Shr(v, width - n - 1) == 2 * Shr(v, width - n) + if BitAt(v, width, n) then 1 else 0
  {
    ShrStep(v, width - 1 - n);
  }

  /** Two numbers have the same leading bits exactly when shifting out the rest leaves the same. */
  lemma {:induction false} TopBitsAgree(a: nat, b: nat, width: nat, n: nat)
    requires n <= width && Fits(a, width) && Fits(b, width)
    ensures TopBits(a, width, n) == TopBits(b, width, n) <==> Shr(a, width - n) == Shr(b, width - n)
    decreases n
  {
    if n > 0 {
      TopBitsAgree(a, b, width, n - 1);
      TopBitsStep(a, width, n - 1);
      TopBitsStep(b, width, n - 1);
      SnocEqual(TopBits(a, width, n - 1), BitAt(a, width, n - 1), TopBits(b, width, n - 1), BitAt(b, width, n - 1));
    }
  }

  lemma SnocEqual(s: Bits, x: bool, t: Bits, y: bool)
    ensures s + [x] == t + [y] <==> s == t && x == y
  {
    if s + [x] == t + [y] {
      assert (s + [x])[..|s|] == s && (t + [y])[..|t|] == t;
      assert (s + [x])[|s|] == x && (t + [y])[|t|] == y;
    }
  }

  /** Masked addresses are equal exactly when the leading bits are; masking keeps those bits. */
  lemma MaskEqualIffTopBits(a: nat, b: nat, width: nat, prefix: nat)
    requires prefix <= width && Fits(a, width) && Fits(b, width)
    ensures ApplyMask(a, width, prefix) == ApplyMask(b, width, prefix)
            <==> TopBits(a, width, prefix) == TopBits(b, width, prefix)
    ensures Fits(ApplyMask(a, width, prefix), width)
    ensures TopBits(ApplyMask(a, width, prefix), width, prefix) == TopBits(a, width, prefix)
  {
    MaskClears(a, width, prefix);
    MaskClears(b, width, prefix);
    TopBitsAgree(a, b, width, prefix);
    ShrMore(ApplyMask(a, width, prefix), a, width - prefix, prefix);
    TopBitsAgree(a, ApplyMask(a, width, prefix), width, prefix);
  }

  // ---------- addresses and rules ----------

  datatype IpAddr = V4(bits: nat) | V6(bits: nat) {
    function Width(): nat {
      if V4? then 32 else 128
    }

    predicate Valid() {
      Fits(bits, Width())
    }
  }

  function Masked(ip: IpAddr, prefix: nat): IpAddr {
    ip.(bits := ApplyMask(ip.bits, ip.Width(), prefix))
  }

  datatype Rule = Rule(network: IpAddr, prefix: nat) {
    predicate Valid() {
      network.Valid() && prefix <= network.Width()
    }
  }

  /** The rule covers the address: same version, and equal under the rule's mask. */
  predicate Covers(r: Rule, ip: IpAddr) {
    r.network.V4? == ip.V4? && Masked(ip, r.prefix) == Masked(r.network, r.prefix)
  }

  /** A rule covers an address of its version exactly when its network bits lead the address. */
  lemma CoversIffLeads(r: Rule, ip: IpAddr)
    requires r.Valid() && ip.Valid() && r.network.V4? == ip.V4?
    ensures Covers(r, ip) <==>
            TopBits(r.network.bits, ip.Width(), r.prefix) <= TopBits(ip.bits, ip.Width(), ip.Width())
  {
    var w := ip.Width();
    MaskEqualIffTopBits(ip.bits, r.network.bits, w, r.prefix);
    assert TopBits(ip.bits, w, r.prefix) == TopBits(ip.bits, w, w)[..r.prefix];
  }

  /** A normalised rule covers what the rule it came from covers. */
  lemma NormalisedCovers(r: Rule, ip: IpAddr)
    requires r.Valid() && ip.Valid()
    ensures var n := Rule(Masked(r.network, r.prefix), r.prefix);
            n.Valid() && (Covers(n, ip) <==> Covers(r, ip))
  {
    var n := Rule(Masked(r.network, r.prefix), r.prefix);
    MaskEqualIffTopBits(r.network.bits, r.network.bits, r.network.Width(), r.prefix);
    if r.network.V4? == ip.V4? {
      CoversIffLeads(r, ip);
      CoversIffLeads(n, ip);
    }
  }
}
