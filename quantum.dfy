/** Quantum arithmetic of the modelled build (16-bit quanta, no HDRI): the range of a
    depth, the two scaling helpers, the round trip through a smaller depth, and the
    rounding of a depth to a legal quantum depth. */
module Quantum {

  /** MAGICKCORE_QUANTUM_DEPTH of the modelled build. */
  const QuantumDepth: nat := 16

  /** QuantumRange == 2^QuantumDepth - 1. */
  const QuantumRange: nat := 65535

  function Pow2(n: nat): (p: nat)
    ensures p >= 1
  {
    if n == 0 then 1 else 2 * Pow2(n - 1)
  }

  lemma {:induction false} Pow2Monotone(m: nat, n: nat)
    requires m <= n
    ensures Pow2(m) <= Pow2(n)
  {
    if m < n {
      Pow2Monotone(m, n - 1);
    }
  }

  /** GetQuantumRange: the largest value representable with `depth` bits. */
  function GetQuantumRange(depth: nat): (r: nat)
    ensures depth >= 1 ==> r >= 1
  {
    Pow2(depth) - 1
  }

  lemma {:induction false} Pow2Add(m: nat, n: nat)
    ensures Pow2(m + n) == Pow2(m) * Pow2(n)
  {
    if n > 0 {
      Pow2Add(m, n - 1);
      assert Pow2(m + n) == 2 * Pow2(m + n - 1);
    }
  }

  lemma Pow2Fifteen()
    ensures Pow2(15) == 32768 && Pow2(16) == 65536
  {
    assert Pow2(3) == 8;
    Pow2Add(3, 3);
    Pow2Add(6, 6);
    Pow2Add(12, 3);
    Pow2Add(15, 1);
  }

  lemma QuantumRangeIsFullDepth()
    ensures GetQuantumRange(QuantumDepth) == QuantumRange
  {
    Pow2Fifteen();
  }

  /** Every depth below the quantum depth has a range strictly below QuantumRange. */
  lemma RangeBelowQuantumRange(depth: nat)
    requires depth < QuantumDepth
    ensures GetQuantumRange(depth) < QuantumRange
  {
    Pow2Monotone(depth, QuantumDepth - 1);
    Pow2Fifteen();
  }

  /** ScaleQuantumToAny: round(q * range / QuantumRange), in exact integers. */
  function ScaleQuantumToAny(q: nat, range: nat): nat
  {
    (2 * q * range + QuantumRange) / (2 * QuantumRange)
  }

  /** ScaleAnyToQuantum: round(a * QuantumRange / range), in exact integers. */
  function ScaleAnyToQuantum(a: nat, range: nat): nat
    requires range >= 1
  {
    (2 * a * QuantumRange + range) / (2 * range)
  }

  /** A quantum sent to `range` levels and back. */
  function RoundTrip(q: nat, range: nat): nat
    requires range >= 1
  {
    ScaleAnyToQuantum(ScaleQuantumToAny(q, range), range)
  }

  /** IsPixelAtDepth: the quantum survives the round trip through `range` unchanged. */
  predicate IsPixelAtDepth(q: nat, range: nat)
    requires range >= 1
  {
    q == RoundTrip(q, range)
  }

  /** Floor division is pinned down by a pair of bounds. */
  lemma MulMonotone(a: nat, b: nat, c: nat)
    requires a <= b
    ensures a * c <= b * c
  {
  }

  /** Floor division is bounded above by any k with n < d * (k + 1). */
  lemma DivUpper(n: nat, d: nat, k: nat)
    requires d > 0 && n < d * (k + 1)
    ensures n / d <= k
  {
    var m := n / d;
    assert d * m + n % d == n;
  }

  /** Floor division is bounded below by any k with d * k <= n. */
  lemma DivLower(n: nat, d: nat, k: nat)
    requires d > 0 && d * k <= n
    ensures k <= n / d
  {
    var m := n / d;
    assert d * m + n % d == n;
    if m < k {
      MulMonotone(m + 1, k, d);
    }
  }

  lemma DivBetween(n: nat, d: nat, k: nat)
    requires d > 0 && d * k <= n < d * (k + 1)
    ensures n / d == k
  {
    DivUpper(n, d, k);
    DivLower(n, d, k);
  }

  /** A quantum never scales past the top level of the smaller range. */
  lemma ScaleQuantumToAnyBound(q: nat, range: nat)
    requires q <= QuantumRange && range >= 1
    ensures ScaleQuantumToAny(q, range) <= range
  {
    MulMonotone(q, QuantumRange, range);
    DivUpper(2 * q * range + QuantumRange, 2 * QuantumRange, range);
  }

  /** The round trip of a valid quantum is a valid quantum. */
  lemma RoundTripBound(q: nat, range: nat)
    requires q <= QuantumRange && range >= 1
    ensures RoundTrip(q, range) <= QuantumRange
  {
    var a := ScaleQuantumToAny(q, range);
    ScaleQuantumToAnyBound(q, range);
    MulMonotone(a, range, QuantumRange);
    DivUpper(2 * a * QuantumRange + range, 2 * range, QuantumRange);
  }

  /** Sending the result of a round trip through the same range again changes nothing:
      every rescaled quantum is at that depth. */
  lemma RoundTripAtDepth(q: nat, range: nat)
    requires range >= 1 && range <= QuantumRange
    ensures IsPixelAtDepth(RoundTrip(q, range), range)
  {
    var R := QuantumRange;
    var a := ScaleQuantumToAny(q, range);
    var q' := ScaleAnyToQuantum(a, range);
    // q' is the rounding of a * R / range: 2*range*q' <= 2*a*R + range < 2*range*q' + 2*range
    var n := 2 * a * R + range;
    assert n == (2 * range) * q' + n % (2 * range);
    assert 2 * range * q' <= 2 * a * R + range;
    assert 2 * a * R - range < 2 * range * q';
    // hence a is the rounding of q' * range / R
    var m := 2 * q' * range + R;
    assert 2 * R * a <= m;
    if range < R {
      assert m < 2 * R * (a + 1);
    } else {
      assert range == R;
      assert q' <= a;
      assert m < 2 * R * (a + 1);
    }
    DivBetween(m, 2 * R, a);
    assert ScaleQuantumToAny(q', range) == a;
  }

  /** At the full quantum range every quantum is exact. */
  lemma AtFullRange(q: nat)
    requires q <= QuantumRange
    ensures IsPixelAtDepth(q, QuantumRange)
  {
    var R := QuantumRange;
    DivBetween(2 * q * R + R, 2 * R, q);
    assert ScaleQuantumToAny(q, R) == q;
    DivBetween(2 * q * R + R, 2 * R, q);
  }

  /** GetImageQuantumDepth: round a depth up to 8, 16, 32 or 64 (a depth above 64 is
      kept), then, under `constrain`, cap it at the quantum depth. */
  function GetImageQuantumDepth(depth: nat, constrain: bool): (r: nat)
    ensures !constrain && depth <= 64 ==>
      r in {8, 16, 32, 64} && depth <= r && (r == 8 || r / 2 < depth)
    ensures !constrain && depth > 64 ==> r == depth
    ensures constrain ==> r <= QuantumDepth && r in {8, 16}
  {
    var rounded :=
      if depth <= 8 then 8
      else if depth <= 16 then 16
      else if depth <= 32 then 32
      else if depth <= 64 then 64
      else depth;
    if constrain then (if rounded < QuantumDepth then rounded else QuantumDepth) else rounded
  }

  /** Under `constrain` the result is the unconstrained rounding capped at the quantum depth. */
  lemma QuantumDepthConstrained(depth: nat)
    ensures GetImageQuantumDepth(depth, true)
            == if GetImageQuantumDepth(depth, false) < QuantumDepth
               then GetImageQuantumDepth(depth, false) else QuantumDepth
  {
  }

  /** Rounding a legal depth again gives it back. */
  lemma QuantumDepthIdempotent(depth: nat, constrain: bool)
    ensures GetImageQuantumDepth(GetImageQuantumDepth(depth, constrain), constrain)
            == GetImageQuantumDepth(depth, constrain)
  {
  }
}
