/**
 The Adler-32 checksum of section 2.2 of RFC 1950, which ProtobufCodecLite::checksum takes from zlib
 (IMServer/net/protobuf/ProtobufCodecLite.cc), and the errors it is sure to detect.
 */
module Adler32 {
  import opened Bytes

  const BASE := 65521

  /** s1: one plus the sum of the bytes, modulo BASE after every byte. */
  function S1(s: bytes): (a: nat)
    ensures a < BASE
  {
    if s == [] then 1 else (S1(s[..|s| - 1]) + s[|s| - 1]) % BASE
  }

  /** s2: the sum of the values s1 took, modulo BASE after every byte. */
  function S2(s: bytes): (b: nat)
    ensures b < BASE
  {
    if s == [] then 0 else (S2(s[..|s| - 1]) + S1(s)) % BASE
  }

  function Adler(s: bytes): (sum: nat)
    ensures sum < 0x1_0000_0000
  {
    S2(s) * 65536 + S1(s)
  }

  // ---- the sums without reduction ------------------------------------------------------------

  ghost function Sum1(s: bytes): nat {
    if s == [] then 1 else Sum1(s[..|s| - 1]) + s[|s| - 1]
  }

  ghost function Sum2(s: bytes): nat {
    if s == [] then 0 else Sum2(s[..|s| - 1]) + Sum1(s)
  }

  lemma {:induction false} Reduced(s: bytes)
    ensures S1(s) == Sum1(s) % BASE
    ensures S2(s) == Sum2(s) % BASE
  {
    if s == [] {
    } else {
      var t := s[..|s| - 1];
      Reduced(t);
      ReduceSum(Sum1(t), s[|s| - 1]);
      ReduceSums(Sum2(t), Sum1(s));
    }
  }

  lemma ReduceSum(u: nat, x: nat)
    ensures (u % BASE + x) % BASE == (u + x) % BASE
  {
  }

  lemma ReduceSums(u: nat, v: nat)
    ensures (u % BASE + v % BASE) % BASE == (u + v) % BASE
  {
    ReduceSum(u, v);
    ReduceSum(v, u % BASE);
  }

  // ---- the definition of RFC 1950 ------------------------------------------------------------

  ghost function Total(s: bytes): nat {
    if s == [] then 0 else s[0] + Total(s[1..])
  }

  /** The first byte counts as often as there are bytes, the last one once. */
  ghost function Weighted(s: bytes): nat {
    if s == [] then 0 else |s| * s[0] + Weighted(s[1..])
  }

  lemma {:induction false} WeightedSnoc(s: bytes, x: byte)
    ensures Total(s + [x]) == Total(s) + x
    ensures Weighted(s + [x]) == Weighted(s) + Total(s) + x
  {
    if s == [] {
      assert [] + [x] == [x];
    } else {
      assert (s + [x])[1..] == s[1..] + [x];
      WeightedSnoc(s[1..], x);
      assert (|s| + 1) * s[0] == |s| * s[0] + s[0];
    }
  }

  lemma {:induction false} SumsByWeight(s: bytes)
    ensures Sum1(s) == 1 + Total(s)
    ensures Sum2(s) == |s| + Weighted(s)
  {
    if s == [] {
    } else {
      var n := |s| - 1;
      SumsByWeight(s[..n]);
      WeightedSnoc(s[..n], s[n]);
      assert s == s[..n] + [s[n]];
    }
  }

  /** The checksum in closed form: the weighted sum in the high half, the plain one in the low half. */
  lemma AdlerByWeight(s: bytes)
    ensures Adler(s) / 65536 == (|s| + Weighted(s)) % BASE
    ensures Adler(s) % 65536 == (1 + Total(s)) % BASE
  {
    Reduced(s);
    SumsByWeight(s);
    hide S1, S2, Sum1, Sum2, Weighted, Total;
  }

  lemma {:induction false} Sum1Update(s: bytes, i: nat, x: byte)
    requires i < |s|
    ensures Sum1(s[i := x]) == Sum1(s) - s[i] + x
  {
    var n := |s| - 1;
    if i < n {
      Sum1Update(s[..n], i, x);
      assert s[i := x][..n] == s[..n][i := x];
    } else {
      assert s[i := x][..n] == s[..n];
    }
  }

  function Swap(s: bytes, i: nat): bytes
    requires i + 1 < |s|
  {
    s[i := s[i + 1]][i + 1 := s[i]]
  }

  lemma Sum1Swap(s: bytes, i: nat)
    requires i + 1 < |s|
    ensures Sum1(Swap(s, i)) == Sum1(s)
  {
    Sum1Update(s, i, s[i + 1]);
    Sum1Update(s[i := s[i + 1]], i + 1, s[i]);
  }

  lemma {:induction false} Sum2Swap(s: bytes, i: nat)
    requires i + 1 < |s|
    ensures Sum2(Swap(s, i)) == Sum2(s) + s[i + 1] - s[i]
  {
    var n := |s| - 1;
    var t := Swap(s, i);
    Sum1Swap(s, i);
    if i + 1 < n {
      Sum2Swap(s[..n], i);
      assert t[..n] == Swap(s[..n], i);
    } else {
      assert t[..n] == s[..n][i := s[i + 1]];
      Sum1Update(s[..n], i, s[i + 1]);
      assert s[..n][i := s[i + 1]][..i] == s[..n][..i];
    }
  }

  lemma ShiftsResidue(u: nat, v: nat)
    requires u != v && -BASE < v - u < BASE
    ensures u % BASE != v % BASE
  {
  }

  // ---- the results ---------------------------------------------------------------------------

  /** Equal checksums mean equal halves. */
  lemma AdlerHalves(s: bytes, t: bytes)
    ensures Adler(s) == Adler(t) <==> S1(s) == S1(t) && S2(s) == S2(t)
  {
  }

  /** Changing one byte changes the checksum. */
  lemma OneByteChangesSum(s: bytes, i: nat, x: byte)
    requires i < |s| && x != s[i]
    ensures Adler(s[i := x]) != Adler(s)
  {
    Reduced(s);
    Reduced(s[i := x]);
    Sum1Update(s, i, x);
    ShiftsResidue(Sum1(s), Sum1(s[i := x]));
    AdlerHalves(s, s[i := x]);
  }

  /** Swapping two different neighbours changes the checksum. */
  lemma SwapChangesSum(s: bytes, i: nat)
    requires i + 1 < |s| && s[i] != s[i + 1]
    ensures Adler(Swap(s, i)) != Adler(s)
  {
    Reduced(s);
    Reduced(Swap(s, i));
    Sum2Swap(s, i);
    ShiftsResidue(Sum2(s), Sum2(Swap(s, i)));
    AdlerHalves(s, Swap(s, i));
  }
}
