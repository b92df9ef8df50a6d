/** Bytes and two's complement integers in network order (IMServer/net/Endian.h). */
module Bytes {

  type byte = x: int | 0 <= x < 256

  type bytes = seq<byte>

  function Pow256(w: nat): (p: nat)
    ensures p >= 1
    ensures w > 0 ==> p % 2 == 0
  {
    if w == 0 then 1 else 256 * Pow256(w - 1)
  }

  /** The low w bytes of x, most significant first. */
  function BigEndian(x: int, w: nat): (s: bytes)
    ensures |s| == w
    decreases w
  {
    if w == 0 then [] else BigEndian(x / 256, w - 1) + [x % 256]
  }

  function Unsigned(s: bytes): nat {
    if s == [] then 0 else 256 * Unsigned(s[..|s| - 1]) + s[|s| - 1]
  }

  function Signed(s: bytes): int {
    if Unsigned(s) < Pow256(|s|) / 2 || s == [] then Unsigned(s) else Unsigned(s) - Pow256(|s|)
  }

  lemma {:induction false} UnsignedBound(s: bytes)
    ensures Unsigned(s) < Pow256(|s|)
  {
    if s == [] {
    } else {
      UnsignedBound(s[..|s| - 1]);
    }
  }

  /** Encoding keeps x modulo 256 to the w. */
  lemma {:induction false} BigEndianModulo(x: int, w: nat) returns (k: int)
    ensures x == k * Pow256(w) + Unsigned(BigEndian(x, w))
    decreases w
  {
    if w == 0 {
      k := x;
    } else {
      var s := BigEndian(x / 256, w - 1);
      assert BigEndian(x, w)[..w - 1] == s;
      k := BigEndianModulo(x / 256, w - 1);
      Widen(x / 256, x % 256, k, Pow256(w - 1), Unsigned(s));
    }
  }

  /** Each byte is its digit of x to the base 256, negative numbers in two's complement. */
  lemma {:induction false} BigEndianDigit(x: int, w: nat, i: nat)
    requires i < w
    ensures BigEndian(x, w)[i] == x / Pow256(w - 1 - i) % 256
    decreases w
  {
    if i < w - 1 {
      BigEndianDigit(x / 256, w - 1, i);
      DivideTwice(x, Pow256(w - 2 - i));
    }
  }

  lemma DivideTwice(x: int, p: nat)
    requires p > 0
    ensures x / 256 / p == x / (256 * p)
  {
    var q := x / 256 / p;
    var r := x / 256 - q * p;
    assert 0 <= r < p;
    Quotient(x, 256 * p, q, 256 * r + x % 256);
  }

  lemma Quotient(x: int, d: nat, q: int, r: int)
    requires 0 <= r < d && x == q * d + r
    ensures x / d == q
  {
    var e := q - x / d;
    assert e * d == x % d - r;
    Multiples(e, d);
    Multiples(-e, d);
  }

  lemma Widen(q: int, r: int, k: int, p: nat, u: nat)
    requires q == k * p + u
    ensures 256 * q + r == k * (256 * p) + (256 * u + r)
  {
  }

  /** Every integer that fits survives encoding and decoding. */
  lemma SignedRoundTrip(x: int, w: nat)
    requires w > 0 && -(Pow256(w) / 2) <= x < Pow256(w) / 2
    ensures Signed(BigEndian(x, w)) == x
  {
    var k := BigEndianModulo(x, w);
    UnsignedBound(BigEndian(x, w));
    hide Unsigned, BigEndian, Pow256;
    Residue(x, k, Pow256(w), Unsigned(BigEndian(x, w)));
  }

  lemma Residue(x: int, k: int, p: nat, u: nat)
    requires x == k * p + u && u < p && p % 2 == 0 && -(p / 2) <= x < p / 2
    ensures x == if u < p / 2 then u else u - p
  {
    Multiples(k, p);
  }

  lemma Multiples(k: int, p: nat)
    ensures k >= 1 ==> k * p >= p
    ensures k <= -2 ==> k * p <= -2 * p
  {
  }

  /** Decoding loses nothing: different bytes are different integers. */
  lemma {:induction false} UnsignedInjective(s: bytes, t: bytes)
    requires |s| == |t| && Unsigned(s) == Unsigned(t)
    ensures s == t
  {
    if s == [] {
    } else {
      var n := |s| - 1;
      UnsignedInjective(s[..n], t[..n]);
      assert s == s[..n] + [s[n]] && t == t[..n] + [t[n]];
    }
  }

  lemma SignedInjective(s: bytes, t: bytes)
    requires |s| == |t| && Signed(s) == Signed(t)
    ensures s == t
  {
    UnsignedBound(s);
    UnsignedBound(t);
    UnsignedInjective(s, t);
  }
}
