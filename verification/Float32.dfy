/**
 IEEE 754 binary32 values, with round-to-nearest, ties-to-even, defined concretely
 (24-bit significand, exponent search; section 4.3.1 of IEEE 754-2019).

 Every finite binary32 value is an integer multiple of 2^-149, so all arithmetic below
 is on natural numbers that count units of 2^-149.
 */
module Float32 {
  import opened Basics

  const HIDDEN: nat := 0x80_0000    // 2^23
  const LIMIT: nat := 0x100_0000    // 2^24
  const BIAS: nat := 149
  const TOP: nat := 253             // largest biased exponent

  /** A finite value is significand * 2^(scale - 149), negated if asked. */
  datatype Raw =
    | NaN
    | Infinity(negative: bool)
    | Finite(negative: bool, significand: nat, scale: nat)

  /** One representation per value: only scale 0 may leave the hidden bit clear. */
  predicate Canonical(f: Raw) {
    f.Finite? ==> f.significand < LIMIT && f.scale <= TOP && (f.scale == 0 || HIDDEN <= f.significand)
  }

  type Float = f: Raw | Canonical(f) witness NaN

  function Pow2(n: nat): (p: nat)
    ensures n < p
  {
    if n == 0 then 1 else 2 * Pow2(n - 1)
  }

  /** Magnitude in units of 2^-149. */
  function Units(f: Float): nat
    requires f.Finite?
  {
    f.significand * Pow2(f.scale)
  }

  function SignedUnits(f: Float): int
    requires f.Finite?
  {
    if f.negative then -(Units(f) as int) else Units(f)
  }

  /** Go's == on float32: NaN differs from everything, the two zeros are equal. */
  predicate Eq(a: Float, b: Float) {
    !a.NaN? && !b.NaN? &&
    (a == b || (a.Finite? && b.Finite? && a.significand == b.significand == 0))
  }

  /** The membership test slices.Contains, with Go's == on floats. */
  predicate Contains(frequencies: seq<Float>, f: Float) {
    exists i | 0 <= i < |frequencies| :: Eq(frequencies[i], f)
  }

  /** n / m rounded to the nearest integer, ties to the even one. */
  function RoundHalfEven(n: nat, m: nat): nat
    requires 0 < m
  {
    var q, r := n / m, n % m;
    if 2 * r < m || (2 * r == m && q % 2 == 0) then q else q + 1
  }

  /** The least scale at or above e whose binade reaches up to n / d. */
  function FindScale(n: nat, d: nat, e: nat): (s: nat)
    requires 0 < d
    requires e == 0 || LIMIT * (Pow2(e - 1) * d) <= n
    ensures n < LIMIT * (Pow2(s) * d)
    ensures s == 0 || LIMIT * (Pow2(s - 1) * d) <= n
    decreases n - e
  {
    if n < LIMIT * (Pow2(e) * d) then e
    else
      ScaleBelow(n, Pow2(e), d);
      FindScale(n, d, e + 1)
  }

  lemma ScaleBelow(n: nat, p: nat, d: nat)
    requires 0 < d && LIMIT * (p * d) <= n
    ensures p <= n
  {
  }

  /** The binary32 value nearest to n / d units. */
  function Round(n: nat, d: nat): Float
    requires 0 < d
  {
    var s := FindScale(n, d, 0);
    var q := RoundHalfEven(n, Pow2(s) * d);
    RoundBounds(n, d);
    if q == LIMIT then Pack(HIDDEN, s + 1) else Pack(q, s)
  }

  function Pack(significand: nat, scale: nat): Float
    requires significand < LIMIT && (scale == 0 || HIDDEN <= significand)
  {
    if TOP < scale then Infinity(false) else Finite(false, significand, scale)
  }

  lemma RoundBounds(n: nat, d: nat)
    requires 0 < d
    ensures var s := FindScale(n, d, 0); var q := RoundHalfEven(n, Pow2(s) * d);
            q <= LIMIT && (s == 0 || HIDDEN <= q)
  {
    var s := FindScale(n, d, 0);
    var m := Pow2(s) * d;
    DivBelow(n, m, LIMIT);
    if s != 0 {
      assert Pow2(s) == 2 * Pow2(s - 1);
      assert m == 2 * (Pow2(s - 1) * d);
      DivAtLeast(n, m, HIDDEN);
    }
  }

  lemma MulOrder(a: int, b: int, m: nat)
    ensures a <= b ==> a * m <= b * m
  {
  }

  lemma MulAssoc(a: int, b: int, c: int)
    ensures a * b * c == a * (b * c)
  {
  }

  lemma DivBelow(n: nat, m: nat, k: nat)
    requires 0 < m && n < k * m
    ensures n / m < k
  {
  }

  lemma DivAtLeast(n: nat, m: nat, k: nat)
    requires 0 < m && k * m <= n
    ensures k <= n / m
  {
    MulOrder(n / m + 1, k, m);
  }

  // ---- Rounding really is nearest, ties to even ----

  /** No integer multiple of m is closer to n; only an even quotient can be tied. */
  lemma HalfEvenIsNearest(n: nat, m: nat, k: int)
    requires 0 < m
    ensures var q := RoundHalfEven(n, m);
            Abs(q * m - n) <= Abs(k * m - n) &&
            (Abs(q * m - n) == Abs(k * m - n) && k != q ==> q % 2 == 0)
    ensures 2 * Abs(RoundHalfEven(n, m) * m - n) <= m
  {
    var a, r := n / m, n % m;
    var km, am := k * m, a * m;
    assert n == am + r;
    assert (a + 1) * m == am + m;
    MulOrder(k, a, m);
    MulOrder(k, a - 1, m);
    MulOrder(a + 1, k, m);
    MulOrder(a + 2, k, m);
    assert (a - 1) * m == am - m;
    assert (a + 2) * m == am + 2 * m;
  }

  lemma Pow2Add(a: nat, b: nat)
    ensures Pow2(a + b) == Pow2(a) * Pow2(b)
  {
    if a == 0 {
    } else {
      Pow2Add(a - 1, b);
      MulAssoc(2, Pow2(a - 1), Pow2(b));
    }
  }

  lemma Pow2Monotone(a: nat, b: nat)
    requires a <= b
    ensures Pow2(a) <= Pow2(b)
  {
  }

  /** The magnitude Round delivers is the quotient it rounded to, before any renormalisation. */
  lemma RoundUnits(n: nat, d: nat)
    requires 0 < d && Round(n, d).Finite?
    ensures var s := FindScale(n, d, 0); var q := RoundHalfEven(n, Pow2(s) * d);
            Units(Round(n, d)) == q * Pow2(s) && !Round(n, d).negative &&
            Round(n, d).significand == (if q == LIMIT then HIDDEN else q)
  {
  }

  /** Distance from a finite value to n / d, in units, multiplied by d. */
  function Distance(f: Float, n: nat, d: nat): nat
    requires f.Finite?
  {
    Abs(SignedUnits(f) * d - n)
  }

  /** How far rounding moves the quotient: at most half a step of the chosen binade. */
  lemma RoundError(n: nat, d: nat)
    requires 0 < d && Round(n, d).Finite?
    ensures 2 * Distance(Round(n, d), n, d) <= Pow2(FindScale(n, d, 0)) * d
  {
    var p := Pow2(FindScale(n, d, 0));
    var q := RoundHalfEven(n, p * d);
    RoundUnits(n, d);
    HalfEvenIsNearest(n, p * d, q);
    MulAssoc(q, p, d);
  }

  /** No representable value is nearer than the one Round picks, and a tie goes to an even significand. */
  lemma RoundIsNearest(n: nat, d: nat, g: Float)
    requires 0 < d && Round(n, d).Finite? && g.Finite?
    ensures Distance(Round(n, d), n, d) <= Distance(g, n, d)
    ensures Distance(Round(n, d), n, d) == Distance(g, n, d) && SignedUnits(g) != SignedUnits(Round(n, d))
            ==> Round(n, d).significand % 2 == 0
  {
    var s := FindScale(n, d, 0);
    var p := Pow2(s);
    var q := RoundHalfEven(n, p * d);
    RoundUnits(n, d);
    RoundBounds(n, d);
    if s <= g.scale {
      var k := MultipleOfStep(g, s);
      NearestMultiple(n, d, p, q, k);
    } else {
      SmallerBinade(g, s, d);
      NearestMultiple(n, d, p, q, HIDDEN);
      MulAssoc(2, Pow2(s - 1), d);
      MulAssoc(HIDDEN, p, d);
    }
  }

  lemma NearestMultiple(n: nat, d: nat, p: nat, q: nat, k: int)
    requires 0 < p * d && q == RoundHalfEven(n, p * d)
    ensures Abs(q * p * d - n) <= Abs(k * p * d - n)
    ensures Abs(q * p * d - n) == Abs(k * p * d - n) && k != q ==> q % 2 == 0
  {
    HalfEvenIsNearest(n, p * d, k);
    MulAssoc(q, p, d);
    MulAssoc(k, p, d);
  }

  /** A value of scale s or more is a whole number of steps of binade s. */
  lemma MultipleOfStep(g: Float, s: nat) returns (k: int)
    requires g.Finite? && s <= g.scale
    ensures SignedUnits(g) == k * Pow2(s)
  {
    var a, b := Pow2(g.scale - s), Pow2(s);
    Pow2Add(g.scale - s, s);
    assert Pow2(g.scale) == a * b;
    MulAssoc(g.significand, a, b);
    MulAssoc(-1, g.significand * a, b);
    k := if g.negative then -1 * (g.significand * a) else g.significand * a;
  }

  /** A value of smaller scale lies below the bottom of binade s. */
  lemma SmallerBinade(g: Float, s: nat, d: nat)
    requires g.Finite? && g.scale < s && 0 < d
    ensures SignedUnits(g) * d < HIDDEN * (Pow2(s) * d)
  {
    var u, p := Pow2(g.scale), Pow2(s - 1);
    Pow2Monotone(g.scale, s - 1);
    MulOrder(g.significand, LIMIT - 1, u);
    assert Units(g) < LIMIT * u <= LIMIT * p;
    var x, y := SignedUnits(g), HIDDEN * Pow2(s);
    assert x + 1 <= y;
    MulOrder(x + 1, y, d);
    MulDistribute(x, 1, d);
    MulAssoc(HIDDEN, Pow2(s), d);
  }

  lemma MulDistribute(a: int, b: int, d: int)
    ensures (a + b) * d == a * d + b * d
  {
  }

  /** The chosen scale is s or lower exactly for quotients below the top of binade s. */
  lemma FindScaleAtMost(n: nat, d: nat, s: nat)
    requires 0 < d
    ensures FindScale(n, d, 0) <= s <==> n < LIMIT * (Pow2(s) * d)
  {
    var t := FindScale(n, d, 0);
    if s < t {
      Pow2Monotone(s, t - 1);
      MulOrder(Pow2(s), Pow2(t - 1), d);
    } else {
      Pow2Monotone(t, s);
      MulOrder(Pow2(t), Pow2(s), d);
    }
  }

  /** A whole number of steps, of at most 24 bits, rounds to itself. */
  lemma RoundExact(n: nat, k: nat, s: nat, d: nat)
    requires 0 < d && k <= LIMIT && s + 2 <= TOP
    requires n == k * (Pow2(s) * d)
    ensures Round(n, d).Finite? && !Round(n, d).negative
    ensures Units(Round(n, d)) == k * Pow2(s)
  {
    ExactQuotient(n, k, s, d);
    RoundBounds(n, d);
    RoundUnits(n, d);
  }

  lemma ExactQuotient(n: nat, k: nat, s: nat, d: nat)
    requires 0 < d && k <= LIMIT && n == k * (Pow2(s) * d)
    ensures var t := FindScale(n, d, 0);
            t <= s + 1 && RoundHalfEven(n, Pow2(t) * d) * Pow2(t) == k * Pow2(s)
  {
    var t := FindScale(n, d, 0);
    ExactScale(n, k, Pow2(s) * d, s, d);
    if t == s + 1 {
      DoubledStep(Pow2(s), Pow2(t), d);
    } else {
      Pow2Add(s - t, t);
      FinerSteps(k, Pow2(s - t), Pow2(t), Pow2(s), d);
    }
  }

  lemma DoubledStep(p: nat, b: nat, d: nat)
    requires b == 2 * p && 0 < b * d
    ensures RoundHalfEven(LIMIT * (p * d), b * d) * b == LIMIT * p
  {
    MulAssoc(2, p, d);
    QuotientOfMultiple(HIDDEN, b * d);
  }

  lemma FinerSteps(k: nat, a: nat, b: nat, p: nat, d: nat)
    requires p == a * b && 0 < b * d
    ensures RoundHalfEven(k * (p * d), b * d) * b == k * p
  {
    MulAssoc(k, a, b);
    StepsOfSteps(k, a, b, d);
    QuotientOfMultiple(k * a, b * d);
  }

  lemma StepsOfSteps(k: int, a: int, b: int, d: int)
    ensures k * (a * b * d) == k * a * (b * d)
  {
  }

  lemma ExactScale(n: nat, k: nat, m: nat, s: nat, d: nat)
    requires 0 < d && k <= LIMIT && m == Pow2(s) * d && n == k * m
    ensures var t := FindScale(n, d, 0); t <= s + 1 && (t == s + 1 ==> k == LIMIT)
  {
    FindScaleAtMost(n, d, s + 1);
    FindScaleAtMost(n, d, s);
    assert Pow2(s + 1) * d == 2 * m by { MulAssoc(2, Pow2(s), d); }
    BelowTop(k, m);
  }

  lemma BelowTop(k: nat, m: nat)
    requires 0 < m && k <= LIMIT
    ensures k * m < LIMIT * (2 * m)
    ensures k < LIMIT ==> k * m < LIMIT * m
  {
  }

  lemma QuotientOfMultiple(k: nat, m: nat)
    requires 0 < m
    ensures RoundHalfEven(k * m, m) == k
  {
  }

  // ---- Equality ----

  /** A finite value has one representation, but for the sign of zero: == compares the numbers. */
  lemma EqIffSameNumber(a: Float, b: Float)
    requires a.Finite? && b.Finite?
    ensures Eq(a, b) <==> SignedUnits(a) == SignedUnits(b)
  {
    if a.scale < b.scale {
      HigherBinade(a, b);
    } else if b.scale < a.scale {
      HigherBinade(b, a);
    } else {
      SameScale(a.significand, b.significand, Pow2(a.scale));
    }
  }

  lemma SameScale(j: nat, k: nat, p: nat)
    requires 0 < p
    ensures j * p == k * p <==> j == k
    ensures j * p == 0 <==> j == 0
  {
    MulOrder(j, k - 1, p);
    MulOrder(k, j - 1, p);
    MulDistribute(j, 1, p);
    MulDistribute(k, 1, p);
  }

  lemma HigherBinade(a: Float, b: Float)
    requires a.Finite? && b.Finite? && a.scale < b.scale
    ensures Units(a) < Units(b)
  {
    var p, q := Pow2(a.scale), Pow2(b.scale);
    Pow2Monotone(a.scale + 1, b.scale);
    BinadesApart(a.significand, p, b.significand, q);
  }

  lemma BinadesApart(j: nat, p: nat, k: nat, q: nat)
    requires j < LIMIT && HIDDEN <= k && 0 < p && 2 * p <= q
    ensures j * p < k * q
  {
    MulOrder(j, LIMIT - 1, p);
    MulOrder(HIDDEN, k, q);
  }
}
