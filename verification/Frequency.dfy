/**
 Frequencies: packets carry an integer number of kHz, radios and settings a float32 in MHz,
 and all matching is float equality (voice/protocol.go, state/settings.go).
 */
module Frequency {
  import opened Basics
  import opened Float32

  const UINT32_LIMIT: nat := 0x1_0000_0000

  /** The last kHz value up to which float matching still tells every two values apart. */
  const LAST_DISTINCT: nat := 16_384_001

  /** The conversion float32(k) of an unsigned integer. */
  function FromUint(k: nat): Float {
    Round(k * Pow2(BIAS), 1)
  }

  /** float32(kHz) / 1000.0: two roundings, one for each operation. */
  function Megahertz(kHz: nat): Float
    requires kHz < UINT32_LIMIT
  {
    FromUintFinite(kHz);
    Round(Units(FromUint(kHz)), 1000)
  }

  lemma FiniteBelow(n: nat, d: nat, s: nat)
    requires 0 < d && s < TOP && n < LIMIT * (Pow2(s) * d)
    ensures Round(n, d).Finite? && !Round(n, d).negative
  {
    FindScaleAtMost(n, d, s);
    RoundBounds(n, d);
  }

  lemma FromUintFinite(k: nat)
    requires k < UINT32_LIMIT
    ensures FromUint(k).Finite? && !FromUint(k).negative
  {
    var p := Pow2(BIAS + 8);
    assert p == 256 * Pow2(BIAS) by {
      Pow2Add(8, BIAS);
      assert Pow2(8) == 256;
    }
    WideInteger(k, Pow2(BIAS), p, k * Pow2(BIAS));
    FiniteBelow(k * Pow2(BIAS), 1, BIAS + 8);
  }

  lemma WideInteger(k: nat, u: nat, p: nat, n: nat)
    requires k < UINT32_LIMIT && 0 < u && p == 256 * u && n == k * u
    ensures n < LIMIT * (p * 1)
  {
  }

  /** 24-bit integers convert exactly. */
  lemma FromUintExact(k: nat) returns (n: nat)
    requires k <= LIMIT
    ensures FromUint(k).Finite? && n == Units(FromUint(k)) && n == k * Pow2(BIAS)
  {
    n := k * Pow2(BIAS);
    assert Pow2(BIAS) * 1 == Pow2(BIAS);
    RoundExact(n, k, BIAS, 1);
  }

  /**
   The two roundings are worth one: the result is the float nearest to kHz / 1000, the even one
   in a tie, for every kHz value that fits in 24 bits.
   */
  lemma MegahertzIsNearest(k: nat, g: Float)
    requires k <= LIMIT && g.Finite?
    ensures Megahertz(k).Finite? && !Megahertz(k).negative
    ensures var f, n := Megahertz(k), k * Pow2(BIAS);
            Distance(f, n, 1000) <= Distance(g, n, 1000) &&
            (Distance(f, n, 1000) == Distance(g, n, 1000) && SignedUnits(f) != SignedUnits(g) ==> f.significand % 2 == 0)
  {
    var n := FromUintExact(k);
    Below24(k, Pow2(BIAS), n);
    FiniteBelow(n, 1000, BIAS);
    RoundIsNearest(n, 1000, g);
  }

  lemma Below24(k: nat, p: nat, n: nat)
    requires k <= LIMIT && 0 < p && n == k * p
    ensures n < LIMIT * (p * 1000)
  {
    MulOrder(k, LIMIT, p);
    assert LIMIT * (p * 1000) == 1000 * (LIMIT * p);
  }

  /** Whole megahertz come out exactly. */
  lemma WholeMegahertz(m: nat)
    requires m <= 16_777
    ensures Megahertz(1000 * m).Finite? && !Megahertz(1000 * m).negative
    ensures Units(Megahertz(1000 * m)) == m * Pow2(BIAS)
  {
    var n := FromUintExact(1000 * m);
    Thousand(m, Pow2(BIAS), n);
    RoundExact(n, m, BIAS, 1000);
  }

  lemma Thousand(m: nat, p: nat, n: nat)
    requires n == 1000 * m * p
    ensures n == m * (p * 1000)
  {
  }

  /** 2^-10 MHz, the step of the binade just below 16384 MHz, in units. */
  const STEP: nat := Pow2(BIAS - 10)

  lemma UnitSteps()
    ensures Pow2(BIAS) == 1024 * STEP
    ensures Pow2(BIAS - 9) == 2 * STEP
    ensures Pow2(BIAS - 10) == STEP
    ensures 0 < STEP
  {
  }

  lemma QuotientRange(kHz: nat, p: nat, n: nat)
    requires 0 < p && n == kHz * (1024 * p)
    ensures kHz <= LAST_DISTINCT + 1 ==> n < LIMIT * (2 * p * 1000)
    ensures n < LIMIT * (p * 1000) <==> kHz < 16_384_000
  {
    var q := 1024 * p;
    MulOrder(kHz, 16_384_002, q);
    MulOrder(kHz, 16_383_999, q);
    MulOrder(16_384_000, kHz, q);
  }

  /** The dividend of the division, in units. */
  lemma Dividend(kHz: nat) returns (n: nat)
    requires kHz <= LIMIT
    ensures FromUint(kHz).Finite? && n == Units(FromUint(kHz)) && n == kHz * (1024 * STEP)
  {
    n := FromUintExact(kHz);
    DividendInSteps(kHz, Pow2(BIAS), n);
  }

  lemma DividendInSteps(kHz: nat, p: nat, n: nat)
    requires p == Pow2(BIAS) && n == kHz * p
    ensures n == kHz * (1024 * STEP)
  {
  }

  /** At which scale the division by 1000 rounds. */
  lemma DivisionScale(kHz: nat, n: nat)
    requires kHz <= LAST_DISTINCT + 1 && n == kHz * (1024 * STEP)
    ensures var s := FindScale(n, 1000, 0); s <= BIAS - 9 && (s <= BIAS - 10 <==> kHz < 16_384_000)
    ensures Round(n, 1000).Finite? && !Round(n, 1000).negative
  {
    UnitSteps();
    QuotientRange(kHz, STEP, n);
    FindScaleAtMost(n, 1000, BIAS - 9);
    FindScaleAtMost(n, 1000, BIAS - 10);
    FiniteBelow(n, 1000, BIAS - 9);
  }

  /** The rounding error of the division, a thousandfold: exact at 16384 MHz, half a STEP below, a STEP above. */
  lemma DivisionError(kHz: nat, n: nat)
    requires kHz <= LAST_DISTINCT + 1 && n == kHz * (1024 * STEP)
    ensures Round(n, 1000).Finite?
    ensures Abs(1000 * Units(Round(n, 1000)) - n)
            <= if kHz < 16_384_000 then 500 * STEP else if kHz == 16_384_000 then 0 else 1000 * STEP
  {
    var s := FindScale(n, 1000, 0);
    DivisionScale(kHz, n);
    UnitSteps();
    RoundError(n, 1000);
    if kHz < 16_384_000 {
      Pow2Monotone(s, BIAS - 10);
    } else if kHz == 16_384_000 {
      RoundExact(n, 0x80_0000, BIAS - 9, 1000);
    } else {
      Pow2Monotone(s, BIAS - 9);
    }
  }

  /** Conversion keeps order and distinctness up to LAST_DISTINCT kHz. */
  lemma StrictlyIncreasing(j: nat, k: nat)
    requires j < k <= LAST_DISTINCT
    ensures Megahertz(j).Finite? && Megahertz(k).Finite?
    ensures SignedUnits(Megahertz(j)) < SignedUnits(Megahertz(k))
  {
    var m := Dividend(j);
    var n := Dividend(k);
    DivisionIncreasing(j, m, k, n);
  }

  lemma DivisionIncreasing(j: nat, m: nat, k: nat, n: nat)
    requires j < k <= LAST_DISTINCT && m == j * (1024 * STEP) && n == k * (1024 * STEP)
    ensures Round(m, 1000).Finite? && Round(n, 1000).Finite?
    ensures SignedUnits(Round(m, 1000)) < SignedUnits(Round(n, 1000))
  {
    DivisionScale(j, m);
    DivisionScale(k, n);
    DivisionError(j, m);
    DivisionError(k, n);
    Spacing(j, k, STEP);
    assert 0 < STEP by { UnitSteps(); }
  }

  lemma Spacing(j: nat, k: nat, p: nat)
    requires j < k
    ensures k * (1024 * p) - j * (1024 * p) >= 1024 * p
    ensures j + 1 < k ==> k * (1024 * p) - j * (1024 * p) >= 2048 * p
  {
    var q := 1024 * p;
    MulOrder(j + 1, k, q);
    MulOrder(j + 2, k, q);
    MulDistribute(j, 1, q);
    MulDistribute(j, 2, q);
  }

  /** The first two kHz values that float matching confuses. */
  lemma FirstCollision()
    ensures Megahertz(LAST_DISTINCT) == Megahertz(LAST_DISTINCT + 1)
  {
    var m := Dividend(LAST_DISTINCT);
    var n := Dividend(LAST_DISTINCT + 1);
    CollisionQuotients(m, n);
  }

  lemma CollisionQuotients(m: nat, n: nat)
    requires m == LAST_DISTINCT * (1024 * STEP) && n == (LAST_DISTINCT + 1) * (1024 * STEP)
    ensures Round(m, 1000) == Round(n, 1000)
  {
    UnitSteps();
    DivisionScale(LAST_DISTINCT, m);
    DivisionScale(LAST_DISTINCT + 1, n);
    SameQuotient(m, n, STEP);
  }

  lemma SameQuotient(m: nat, n: nat, p: nat)
    requires 0 < p && m == LAST_DISTINCT * (1024 * p) && n == (LAST_DISTINCT + 1) * (1024 * p)
    ensures RoundHalfEven(m, 2000 * p) == RoundHalfEven(n, 2000 * p) == 8_388_609
  {
    QuotientIs(m, 2000 * p, 8_388_608, 1024 * p);
    QuotientIs(n, 2000 * p, 8_388_609, 48 * p);
  }

  lemma QuotientIs(n: nat, m: nat, q: nat, r: nat)
    requires n == q * m + r && r < m
    ensures n / m == q && n % m == r
  {
    DivAtLeast(n, m, q);
    MulDistribute(q, 1, m);
    DivBelow(n, m, q + 1);
  }

  /** Float equality on converted frequencies is kHz equality. */
  lemma MatchIsKilohertzEquality(j: nat, k: nat)
    requires j <= LAST_DISTINCT && k <= LAST_DISTINCT
    ensures Eq(Megahertz(j), Megahertz(k)) <==> j == k
  {
    var n := Dividend(j);
    DivisionScale(j, n);
    if j < k {
      StrictlyIncreasing(j, k);
    } else if k < j {
      StrictlyIncreasing(k, j);
    }
  }

  ghost predicate DistinctUpTo(bound: nat)
    requires bound < UINT32_LIMIT
  {
    forall j: nat, k: nat | j <= bound && k <= bound && Eq(Megahertz(j), Megahertz(k)) :: j == k
  }

  /** The exact range on which matching by float32 is matching by kHz. */
  lemma DistinctExactlyUpTo(bound: nat)
    requires bound < UINT32_LIMIT
    ensures DistinctUpTo(bound) <==> bound <= LAST_DISTINCT
  {
    if bound <= LAST_DISTINCT {
      forall j: nat, k: nat | j <= bound && k <= bound && Eq(Megahertz(j), Megahertz(k))
        ensures j == k
      {
        MatchIsKilohertzEquality(j, k);
      }
    } else {
      FirstCollision();
      var n := Dividend(LAST_DISTINCT);
      DivisionScale(LAST_DISTINCT, n);
      assert Eq(Megahertz(LAST_DISTINCT), Megahertz(LAST_DISTINCT + 1));
    }
  }
}
