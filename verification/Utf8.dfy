/** Well-formed UTF-8: the strings of the wire are exactly the encodings of sequences of Unicode scalar values. */
module Utf8 {
  import opened Packets

  /** A code point that is not a surrogate. */
  predicate IsScalar(c: nat) {
    c < 0xD800 || 0xE000 <= c < 0x11_0000
  }

  /** The encoding of one scalar value (section 3 of RFC 3629), six bits a byte after the first. */
  function ScalarForm(c: nat): Bytes
    requires IsScalar(c)
  {
    var c1 := c / 0x40;
    var c2 := c1 / 0x40;
    if c < 0x80 then [c]
    else if c < 0x800 then [0xC0 + c1, 0x80 + c % 0x40]
    else if c < 0x1_0000 then [0xE0 + c2, 0x80 + c1 % 0x40, 0x80 + c % 0x40]
    else [0xF0 + c2 / 0x40, 0x80 + c2 % 0x40, 0x80 + c1 % 0x40, 0x80 + c % 0x40]
  }

  function TextForm(text: seq<nat>): Bytes
    requires forall c :: c in text ==> IsScalar(c)
  {
    if text == [] then [] else ScalarForm(text[0]) + TextForm(text[1..])
  }

  lemma ScalarIsAccepted(c: nat, tail: Bytes)
    requires IsScalar(c)
    ensures ScalarLength(ScalarForm(c) + tail) == |ScalarForm(c)|
  {
    var form := ScalarForm(c);
    assert forall i :: 0 <= i < |form| ==> (form + tail)[i] == form[i];
  }

  /** The number with the base-64 digits `q` and `r`. */
  function Shifted(q: nat, r: nat): nat {
    0x40 * q + r
  }

  lemma ShiftedBack(q: nat, r: nat)
    requires r < 0x40
    ensures Shifted(q, r) / 0x40 == q && Shifted(q, r) % 0x40 == r
  {
  }

  /** The scalar value at the front of well-formed bytes. */
  function FirstScalar(s: Bytes): nat
    requires ScalarLength(s) > 0
  {
    match ScalarLength(s)
    case 1 => s[0]
    case 2 => Shifted(s[0] - 0xC0, s[1] - 0x80)
    case 3 => Shifted(Shifted(s[0] - 0xE0, s[1] - 0x80), s[2] - 0x80)
    case _ => Shifted(Shifted(Shifted(s[0] - 0xF0, s[1] - 0x80), s[2] - 0x80), s[3] - 0x80)
  }

  lemma TwoByteScalar(a: byte, b: byte)
    requires 0xC2 <= a < 0xE0 && Continuation(b)
    ensures var c := Shifted(a - 0xC0, b - 0x80); 0x80 <= c < 0x800 && ScalarForm(c) == [a, b]
  {
    ShiftedBack(a - 0xC0, b - 0x80);
  }

  lemma ThreeByteScalar(a: byte, b: byte, c: byte)
    requires 0xE0 <= a < 0xF0 && Continuation(b) && Continuation(c)
    requires (a == 0xE0 ==> b >= 0xA0) && (a == 0xED ==> b < 0xA0)
    ensures var n := Shifted(Shifted(a - 0xE0, b - 0x80), c - 0x80);
      0x800 <= n < 0x1_0000 && IsScalar(n) && ScalarForm(n) == [a, b, c]
  {
    ShiftedBack(a - 0xE0, b - 0x80);
    ShiftedBack(Shifted(a - 0xE0, b - 0x80), c - 0x80);
  }

  lemma FourByteScalar(a: byte, b: byte, c: byte, d: byte)
    requires 0xF0 <= a < 0xF5 && Continuation(b) && Continuation(c) && Continuation(d)
    requires (a == 0xF0 ==> b >= 0x90) && (a == 0xF4 ==> b < 0x90)
    ensures var n := Shifted(Shifted(Shifted(a - 0xF0, b - 0x80), c - 0x80), d - 0x80);
      0x1_0000 <= n < 0x11_0000 && ScalarForm(n) == [a, b, c, d]
  {
    var n1 := Shifted(a - 0xF0, b - 0x80);
    ShiftedBack(a - 0xF0, b - 0x80);
    ShiftedBack(n1, c - 0x80);
    ShiftedBack(Shifted(n1, c - 0x80), d - 0x80);
  }

  lemma AcceptedIsScalar(s: Bytes)
    requires ScalarLength(s) > 0
    ensures IsScalar(FirstScalar(s)) && ScalarForm(FirstScalar(s)) == s[..ScalarLength(s)]
  {
    match ScalarLength(s) {
      case 1 =>
      case 2 => TwoByteScalar(s[0], s[1]);
      case 3 => ThreeByteScalar(s[0], s[1], s[2]);
      case _ => FourByteScalar(s[0], s[1], s[2], s[3]);
    }
  }

  lemma {:induction false} FormIsValid(text: seq<nat>)
    requires forall c :: c in text ==> IsScalar(c)
    ensures ValidUtf8(TextForm(text))
  {
    if text != [] {
      var tail := TextForm(text[1..]);
      FormIsValid(text[1..]);
      ScalarIsAccepted(text[0], tail);
      assert (ScalarForm(text[0]) + tail)[|ScalarForm(text[0])|..] == tail;
    }
  }

  lemma {:induction false} ValidHasForm(s: Bytes) returns (text: seq<nat>)
    requires ValidUtf8(s)
    ensures (forall c :: c in text ==> IsScalar(c)) && TextForm(text) == s
    decreases |s|
  {
    if s == [] {
      text := [];
    } else {
      var c, n := FirstScalar(s), ScalarLength(s);
      AcceptedIsScalar(s);
      var rest := ValidHasForm(s[n..]);
      text := FormOf(s, c, n, rest);
    }
  }

  lemma FormOf(s: Bytes, c: nat, n: nat, rest: seq<nat>) returns (text: seq<nat>)
    requires n <= |s| && IsScalar(c) && ScalarForm(c) == s[..n]
    requires (forall d :: d in rest ==> IsScalar(d)) && TextForm(rest) == s[n..]
    ensures (forall d :: d in text ==> IsScalar(d)) && TextForm(text) == s
  {
    text := [c] + rest;
    OneMore(c, rest);
    assert s[..n] + s[n..] == s;
  }

  lemma OneMore(c: nat, rest: seq<nat>)
    requires IsScalar(c) && forall d :: d in rest ==> IsScalar(d)
    ensures (forall d :: d in [c] + rest ==> IsScalar(d)) && TextForm([c] + rest) == ScalarForm(c) + TextForm(rest)
  {
    assert ([c] + rest)[1..] == rest;
  }

  /** A string is accepted exactly when it is the encoding of some sequence of scalar values. */
  lemma ValidIffForm(s: Bytes)
    ensures ValidUtf8(s) <==> exists text: seq<nat> :: (forall c :: c in text ==> IsScalar(c)) && TextForm(text) == s
  {
    if ValidUtf8(s) {
      var text := ValidHasForm(s);
    }
    forall text: seq<nat> | (forall c :: c in text ==> IsScalar(c)) && TextForm(text) == s
      ensures ValidUtf8(s)
    {
      FormIsValid(text);
    }
  }
}
