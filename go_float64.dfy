/** Whole numbers as float64 values. A number that Go's `encoding/json` decodes into an
    `interface{}` becomes a float64: the double nearest to it, ties to even. Doubles have a
    53-bit significand, so every integer of magnitude at most 2^53 is kept exactly and larger
    ones are rounded to a multiple of a power of two. */
module GoFloat64 {

  const TWO_TO_THE_53: int := 0x20_0000_0000_0000

  function Pow2(k: nat): (p: nat)
    ensures p >= 1
  {
    if k == 0 then 1 else 2 * Pow2(k - 1)
  }

  /** The exponent of the spacing of doubles around `n`: near `n`, neighbouring doubles are
      2^UlpExp(n) apart. */
  function UlpExp(n: nat): nat
  {
    if n < TWO_TO_THE_53 then 0 else 1 + UlpExp(n / 2)
  }

  /** `n` rounded to the nearest multiple of `u`; on a tie, to the multiple whose quotient is even. */
  function RoundToSpacing(n: nat, u: nat): nat
    requires u >= 1
  {
    var q, r := n / u, n % u;
    if 2 * r > u || (2 * r == u && q % 2 == 1) then (q + 1) * u else q * u
  }

  /** The double nearest to `x` (ties to even), as the integer it denotes. No int64 lies near the
      top of the double range, so no rounding reaches infinity. */
  function ToFloat64(x: int): int
  {
    if x >= 0 then RoundToSpacing(x, Pow2(UlpExp(x)))
    else 0 - RoundToSpacing(-x, Pow2(UlpExp(-x))) as int
  }

  /** The distance between two integers. */
  function Dist(a: int, b: int): nat
  {
    if a <= b then b - a else a - b
  }

  /** Integers of magnitude at most 2^53 are doubles already. */
  lemma {:induction false} ToFloat64Exact(x: int)
    requires -TWO_TO_THE_53 <= x <= TWO_TO_THE_53
    ensures ToFloat64(x) == x
  {
    var n := if x >= 0 then x else -x;
    if n == TWO_TO_THE_53 {
      assert UlpExp(n) == 1 + UlpExp(n / 2) == 1;
      assert Pow2(1) == 2;
    } else {
      assert UlpExp(n) == 0;
    }
  }

  lemma {:induction false} Pow2Monotone(i: nat, j: nat)
    requires i <= j
    ensures Pow2(i) <= Pow2(j)
    decreases j
  {
    if i < j {
      Pow2Monotone(i, j - 1);
    }
  }

  /** The spacing exponent grows with the number. */
  lemma {:induction false} UlpExpMonotone(n: nat, m: nat)
    requires n <= m
    ensures UlpExp(n) <= UlpExp(m)
    decreases m
  {
    if n >= TWO_TO_THE_53 {
      UlpExpMonotone(n / 2, m / 2);
    }
  }

  /** `n` lies in the binade of its spacing: below 2^53 spacings, and, when the spacing is above
      1, at least 2^52 of them. */
  lemma {:induction false} UlpExpBounds(n: nat)
    ensures n < TWO_TO_THE_53 * Pow2(UlpExp(n))
    ensures UlpExp(n) >= 1 ==> TWO_TO_THE_53 * Pow2(UlpExp(n) - 1) <= n
    decreases n
  {
    if n >= TWO_TO_THE_53 {
      var h := n / 2;
      UlpExpBounds(h);
      var e := UlpExp(h);
      assert UlpExp(n) == e + 1;
      assert Pow2(e + 1) == 2 * Pow2(e);
      assert h < TWO_TO_THE_53 * Pow2(e);
      if e >= 1 {
        assert Pow2(e) == 2 * Pow2(e - 1);
      }
    }
  }

  /** Rounding to a fixed spacing never lands more than one spacing away from the quotient. */
  lemma {:induction false} RoundToSpacingBounds(n: nat, u: nat)
    requires u >= 1
    ensures (n / u) * u <= RoundToSpacing(n, u) <= (n / u + 1) * u
  {
  }

  /** Multiplying by a positive number keeps the order. */
  lemma {:induction false} MulMonotone(a: nat, b: nat, u: nat)
    requires a <= b
    ensures a * u <= b * u
  {
    assert b * u == a * u + (b - a) * u;
  }

  /** The quotient times the divisor lies within one divisor below the dividend. */
  lemma {:induction false} DivBounds(n: nat, u: nat)
    requires u >= 1
    ensures (n / u) * u <= n < (n / u + 1) * u
  {
  }

  /** A multiple of `u` divides back exactly. */
  lemma {:induction false} DivMul(k: nat, u: nat)
    requires u >= 1
    ensures (k * u) / u == k && (k * u) % u == 0
  {
    var n := k * u;
    DivBounds(n, u);
    if n / u < k {
      MulMonotone(n / u + 1, k, u);
      assert false;
    } else if n / u > k {
      MulMonotone(k + 1, n / u, u);
      assert false;
    }
  }

  /** The multiple of `u` just below `n`, or the one just above it, with its quotient and its
      distance to `n`. */
  lemma {:induction false} NeighbourMultiple(n: nat, u: nat, q: nat, r: nat, up: bool)
    requires u >= 1 && r < u && n == q * u + r
    ensures var d := if up then (q + 1) * u else q * u;
      d % u == 0 && d / u == (if up then q + 1 else q) && Dist(d, n) == (if up then u - r else r)
  {
    var qu := q * u;
    if up {
      assert (q + 1) * u == qu + u;
      DivMul(q + 1, u);
    } else {
      DivMul(q, u);
    }
  }

  /** The rounding rule, on the quotient `q` and remainder `r`: the chosen neighbour is at most
      half a spacing away, and a tie goes to the even quotient. */
  lemma {:induction false} RoundingChoice(u: nat, q: nat, r: nat, up: bool, dq: nat, dist: nat)
    requires r < u && up == (2 * r > u || (2 * r == u && q % 2 == 1))
    requires dq == (if up then q + 1 else q) && dist == (if up then u - r else r)
    ensures 2 * dist <= u
    ensures 2 * dist == u ==> dq % 2 == 0
  {
  }

  /** The value rounding picks, as the multiple just below or just above `n`, with its quotient
      and its distance to `n`. */
  lemma {:induction false} RoundToSpacingShape(n: nat, u: nat) returns (q: nat, r: nat, up: bool)
    requires u >= 1
    ensures q == n / u && r == n % u && n == q * u + r && r < u
    ensures up == (2 * r > u || (2 * r == u && q % 2 == 1))
    ensures RoundToSpacing(n, u) == if up then (q + 1) * u else q * u
    ensures RoundToSpacing(n, u) % u == 0
    ensures RoundToSpacing(n, u) / u == (if up then q + 1 else q)
    ensures Dist(RoundToSpacing(n, u), n) == (if up then u - r else r)
  {
    q, r := n / u, n % u;
    up := 2 * r > u || (2 * r == u && q % 2 == 1);
    DivBounds(n, u);
    assert n == q * u + r;
    NeighbourMultiple(n, u, q, r, up);
  }

  /** Rounding to a spacing lands on a multiple of it, at most half a spacing away, and on a tie
      at the multiple whose quotient is even. */
  lemma {:induction false} RoundToSpacingNearest(n: nat, u: nat)
    requires u >= 1
    ensures RoundToSpacing(n, u) % u == 0
    ensures 2 * Dist(RoundToSpacing(n, u), n) <= u
    ensures 2 * Dist(RoundToSpacing(n, u), n) == u ==> (RoundToSpacing(n, u) / u) % 2 == 0
  {
    var q, r, up := RoundToSpacingShape(n, u);
    var d := RoundToSpacing(n, u);
    RoundingChoice(u, q, r, up, d / u, Dist(d, n));
  }

  /** A point within half a spacing of `n` is at least as close to `n` as any point a whole
      spacing away from it. */
  lemma {:induction false} CloserThanSpacingAway(d: int, n: int, m: int, u: int)
    requires 2 * Dist(d, n) <= u
    requires m + u <= d || d + u <= m
    ensures Dist(d, n) <= Dist(m, n)
  {
  }

  /** A multiple of `u` within half a spacing of `n` is at least as close to `n` as any other
      multiple of `u`. */
  lemma {:induction false} HalfSpacingIsClosest(d: nat, n: nat, u: nat, k: nat)
    requires u >= 1 && d % u == 0 && 2 * Dist(d, n) <= u
    ensures Dist(d, n) <= Dist(k * u, n)
  {
    var j := d / u;
    var ku := k * u;
    assert d == j * u;
    if k < j {
      MulMonotone(k + 1, j, u);
      assert (k + 1) * u == ku + u;
      CloserThanSpacingAway(d, n, ku, u);
    } else if k > j {
      MulMonotone(j + 1, k, u);
      assert (j + 1) * u == d + u;
      CloserThanSpacingAway(d, n, ku, u);
    }
  }

  /** No other multiple of the spacing lies closer to `n` than the rounded value. */
  lemma {:induction false} RoundToSpacingClosest(n: nat, u: nat, k: nat)
    requires u >= 1
    ensures Dist(RoundToSpacing(n, u), n) <= Dist(k * u, n)
  {
    RoundToSpacingNearest(n, u);
    HalfSpacingIsClosest(RoundToSpacing(n, u), n, u, k);
  }

  /** `ToFloat64` is the double nearest to its argument, ties to even: the result is a whole
      number of spacings, no whole number of spacings is closer, and a tie picks an even number of
      spacings. It is symmetric about zero. */
  lemma {:induction false} ToFloat64Nearest(x: nat, k: nat)
    ensures ToFloat64(x) % Pow2(UlpExp(x)) == 0
    ensures 2 * Dist(ToFloat64(x), x) <= Pow2(UlpExp(x))
    ensures Dist(ToFloat64(x), x) <= Dist(k * Pow2(UlpExp(x)), x)
    ensures 2 * Dist(ToFloat64(x), x) == Pow2(UlpExp(x)) ==> (ToFloat64(x) / Pow2(UlpExp(x))) % 2 == 0
    ensures ToFloat64(-(x as int)) == -ToFloat64(x)
  {
    var u := Pow2(UlpExp(x));
    assert ToFloat64(x) == RoundToSpacing(x, u);
    RoundToSpacingNearest(x, u);
    RoundToSpacingClosest(x, u, k);
  }

  /** Whole division by a positive number keeps the order. */
  lemma {:induction false} QuotientMonotone(n: nat, m: nat, u: nat)
    requires u >= 1 && n <= m
    ensures n / u <= m / u
  {
    DivBounds(n, u);
    DivBounds(m, u);
    if m / u < n / u {
      MulMonotone(m / u + 1, n / u, u);
      assert false;
    }
  }

  /** Rounding to a fixed spacing is monotone: the larger number never rounds to fewer spacings. */
  lemma {:induction false} RoundToSpacingMonotone(n: nat, m: nat, u: nat)
    requires u >= 1 && n <= m
    ensures RoundToSpacing(n, u) <= RoundToSpacing(m, u)
  {
    var qn, rn, upn := RoundToSpacingShape(n, u);
    var qm, rm, upm := RoundToSpacingShape(m, u);
    QuotientMonotone(n, m, u);
    var kn := if upn then qn + 1 else qn;
    var km := if upm then qm + 1 else qm;
    if qn == qm {
      assert rn <= rm;
    }
    assert kn <= km;
    MulMonotone(kn, km, u);
  }

  /** A number whose spacing exponent is below `e` rounds to at most 2^53 * 2^e. */
  lemma {:induction false} RoundBelowBinade(n: nat, e: nat)
    requires UlpExp(n) <= e
    ensures RoundToSpacing(n, Pow2(UlpExp(n))) <= TWO_TO_THE_53 * Pow2(e)
  {
    var u := Pow2(UlpExp(n));
    UlpExpBounds(n);
    RoundToSpacingBounds(n, u);
    DivBounds(n, u);
    if n / u >= TWO_TO_THE_53 {
      MulMonotone(TWO_TO_THE_53, n / u, u);
      assert false;
    }
    MulMonotone(n / u + 1, TWO_TO_THE_53, u);
    Pow2Monotone(UlpExp(n), e);
    assert TWO_TO_THE_53 * u <= TWO_TO_THE_53 * Pow2(e);
  }

  /** A number whose spacing exponent is `e + 1` rounds to at least 2^53 * 2^e. */
  lemma {:induction false} RoundAboveBinade(m: nat, e: nat)
    requires UlpExp(m) == e + 1
    ensures TWO_TO_THE_53 * Pow2(e) <= RoundToSpacing(m, Pow2(UlpExp(m)))
  {
    var u := Pow2(e + 1);
    var b := TWO_TO_THE_53 / 2;
    assert b * u == TWO_TO_THE_53 * Pow2(e) by {
      assert u == 2 * Pow2(e);
    }
    UlpExpBounds(m);
    assert b * u <= m;
    RoundToSpacingBounds(m, u);
    DivBounds(m, u);
    if m / u < b {
      MulMonotone(m / u + 1, b, u);
      assert false;
    }
    MulMonotone(b, m / u, u);
  }

  /** Rounding of naturals is monotone. */
  lemma {:induction false} RoundNatMonotone(n: nat, m: nat)
    requires n <= m
    ensures RoundToSpacing(n, Pow2(UlpExp(n))) <= RoundToSpacing(m, Pow2(UlpExp(m)))
  {
    UlpExpMonotone(n, m);
    if UlpExp(n) == UlpExp(m) {
      RoundToSpacingMonotone(n, m, Pow2(UlpExp(n)));
    } else {
      var e := UlpExp(m) - 1;
      RoundBelowBinade(n, e);
      RoundAboveBinade(m, e);
    }
  }

  /** Converting to float64 keeps the order of its arguments (possibly merging neighbours). */
  lemma {:induction false} ToFloat64Monotone(x: int, y: int)
    requires x <= y
    ensures ToFloat64(x) <= ToFloat64(y)
  {
    if 0 <= x {
      RoundNatMonotone(x, y);
    } else if y < 0 {
      RoundNatMonotone(-y, -x);
    }
  }

  /** The spacing exponent of a number in the binade [2^53 * 2^(e-1), 2^53 * 2^e) is `e`. */
  lemma {:induction false} UlpExpOfBinade(n: nat, e: nat)
    requires e >= 1 && TWO_TO_THE_53 * Pow2(e - 1) <= n < TWO_TO_THE_53 * Pow2(e)
    ensures UlpExp(n) == e
  {
    UlpExpBounds(n);
    var k := UlpExp(n);
    if k < e {
      Pow2Monotone(k, e - 1);
      assert false;
    } else if k > e {
      Pow2Monotone(e, k - 1);
      assert false;
    }
  }

  /** Nanosecond timestamps of current dates lie where doubles are 256 apart:
      1700000000000000001 becomes 1700000000000000000, 1700000000000000200 rounds up to
      1700000000000000256, and the halfway points +128 and +384 go to the neighbour with an even
      number of spacings. */
  lemma NanosecondTimestampRounds()
    ensures ToFloat64(1_700_000_000_000_000_001) == 1_700_000_000_000_000_000
    ensures ToFloat64(1_700_000_000_000_000_000) == 1_700_000_000_000_000_000
    ensures ToFloat64(1_700_000_000_000_000_200) == 1_700_000_000_000_000_256
    ensures ToFloat64(1_700_000_000_000_000_128) == 1_700_000_000_000_000_000
    ensures ToFloat64(1_700_000_000_000_000_384) == 1_700_000_000_000_000_512
  {
    assert Pow2(7) == 128 && Pow2(8) == 256;
    UlpExpOfBinade(1_700_000_000_000_000_001, 8);
    UlpExpOfBinade(1_700_000_000_000_000_000, 8);
    UlpExpOfBinade(1_700_000_000_000_000_200, 8);
    UlpExpOfBinade(1_700_000_000_000_000_128, 8);
    UlpExpOfBinade(1_700_000_000_000_000_384, 8);
  }
}
