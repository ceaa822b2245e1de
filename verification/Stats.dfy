/** The Wilson lower bound, its square root given by its defining equation. */
module Wilson {
  import opened Prelude
  import opened Reals

  /** p(1 - p)/n + z^2/(4 n^2): what the spread is the root of. */
  function Radicand(p: real, n: real, z: real): real
    requires n > 0.0
  {
    SquaredPositive(n);
    p * (1.0 - p) / n + Squared(z) / (4.0 * Squared(n))
  }

  function Clamp(x: real): real {
    var least := if x < 1.0 then x else 1.0;
    if least > 0.0 then least else 0.0
  }

  function Centre(p: real, n: real, z: real): real
    requires n > 0.0
  {
    p + Squared(z) / (2.0 * n)
  }

  function Bound(p: real, n: real, z: real, root: real): real
    requires n > 0.0
  {
    Narrow(n, z);
    (Centre(p, n, z) - z * root) / (1.0 + Squared(z) / n)
  }

  lemma Narrow(n: real, z: real)
    requires n > 0.0
    ensures Squared(z) / n >= 0.0
  {
    SquaredPositive(z);
    QuotientSign(Squared(z), n);
  }

  /** root is what the square root of the radicand comes to. */
  function WilsonLb(successes: int, trials: int, z: real, root: real): Result<real> {
    if trials <= 0 then Ok(0.0)
    else if successes < 0 || successes > trials then Err("successes must lie between zero and trials")
    else Ok(Clamp(Bound(successes as real / trials as real, trials as real, z, root)))
  }

  // ---------------------------------------------------------------- the score equation, in p and w = z^2/n

  /** (p - x)^2 - w x (1 - x), whose zeros are the ends of the score interval. */
  function Excess(p: real, w: real, x: real): real {
    (p - x) * (p - x) - w * x * (1.0 - x)
  }

  /** x is the lower end: (1 + w) x is the centre less a spread whose square is the radicand. */
  ghost predicate IsLower(p: real, w: real, spread: real, x: real) {
    && 0.0 <= p <= 1.0 && w > 0.0 && spread >= 0.0
    && spread * spread == w * p * (1.0 - p) + w * w / 4.0
    && (1.0 + w) * x == p + w / 2.0 - spread
  }

  /** Completing the square. */
  lemma Completed(p: real, w: real, x: real)
    ensures (1.0 + w) * Excess(p, w, x)
      == ((1.0 + w) * x - (p + w / 2.0)) * ((1.0 + w) * x - (p + w / 2.0)) - (w * p * (1.0 - p) + w * w / 4.0)
  {
  }

  /** How far (1 + w) x lies from the centre. */
  function Offset(p: real, w: real, x: real): real {
    (1.0 + w) * x - (p + w / 2.0)
  }

  ghost predicate Within(p: real, w: real, spread: real, x: real) {
    -spread <= Offset(p, w, x) <= spread
  }

  /** The equation is at most zero exactly within the spread around the centre. */
  lemma ExcessSign(p: real, w: real, spread: real, low: real, x: real)
    requires IsLower(p, w, spread, low)
    ensures Excess(p, w, x) <= 0.0 <==> Within(p, w, spread, x)
  {
    var d := Offset(p, w, x);
    Completed(p, w, x);
    assert (1.0 + w) * Excess(p, w, x) == d * d - spread * spread;
    SignOfFactor(1.0 + w, Excess(p, w, x));
    Squares(d, spread);
  }

  lemma LowerIsRoot(p: real, w: real, spread: real, low: real)
    requires IsLower(p, w, spread, low)
    ensures Excess(p, w, low) == 0.0
  {
    Completed(p, w, low);
    var d := Offset(p, w, low);
    assert d == -spread;
    assert d * d == spread * spread;
    ZeroFactor(1.0 + w, Excess(p, w, low));
  }

  /** Whatever lies within the spread lies at or above the lower end. */
  lemma WithinIsAbove(p: real, w: real, spread: real, low: real, x: real)
    requires IsLower(p, w, spread, low) && Within(p, w, spread, x)
    ensures low <= x
  {
    OrderByFactor(1.0 + w, low, x);
  }

  lemma AtRate(p: real, w: real)
    requires 0.0 <= p <= 1.0 && w > 0.0
    ensures Excess(p, w, p) <= 0.0
  {
    NonNegativeTimes(p, 1.0 - p);
    NonNegativeTimes(w, p * (1.0 - p));
    assert Excess(p, w, p) == -(w * (p * (1.0 - p)));
  }

  lemma LowerBetween(p: real, w: real, spread: real, low: real)
    requires IsLower(p, w, spread, low)
    ensures 0.0 <= low <= p
    ensures low == 0.0 <==> p == 0.0
  {
    AtRate(p, w);
    ExcessSign(p, w, spread, low, p);
    WithinIsAbove(p, w, spread, low, p);
    LowerIsRoot(p, w, spread, low);
    NotBelowZero(p, w, low);
    if low == 0.0 {
      assert p * p == 0.0;
      NoSquareRootOfZero(p);
    }
  }

  lemma NotBelowZero(p: real, w: real, x: real)
    requires 0.0 <= p && w > 0.0 && Excess(p, w, x) == 0.0
    ensures x >= 0.0
  {
    if x < 0.0 {
      BelowZero(p, w, x);
    }
  }

  lemma BelowZero(p: real, w: real, x: real)
    requires 0.0 <= p && w > 0.0 && x < 0.0
    ensures Excess(p, w, x) > 0.0
  {
    PositiveTimes(p - x, p - x);
    PositiveTimes(-x, 1.0 - x);
    PositiveTimes(w, -x * (1.0 - x));
    assert w * (-x * (1.0 - x)) == -(w * x * (1.0 - x));
  }

  /** A higher rate has a higher lower end. */
  lemma LowerGrows(p: real, q: real, w: real, spread: real, spread': real, low: real, low': real)
    requires IsLower(p, w, spread, low) && IsLower(q, w, spread', low') && p < q
    ensures low < low'
  {
    LowerBetween(p, w, spread, low);
    LowerIsRoot(p, w, spread, low);
    FurtherOff(p, q, w, low);
    AtRate(q, w);
    if low' <= low {
      Inside(q, w, spread', low', low);
    }
  }

  /** Between the lower end and the rate the equation stays at most zero. */
  lemma Inside(q: real, w: real, spread: real, low: real, x: real)
    requires IsLower(q, w, spread, low) && low <= x <= q
    ensures Excess(q, w, x) <= 0.0
  {
    AtRate(q, w);
    ExcessSign(q, w, spread, low, q);
    ExcessSign(q, w, spread, low, x);
    WithinBetween(q, w, spread, low, x);
  }

  lemma WithinBetween(q: real, w: real, spread: real, low: real, x: real)
    requires IsLower(q, w, spread, low) && Within(q, w, spread, q) && low <= x <= q
    ensures Within(q, w, spread, x)
  {
    Steps(1.0 + w, low, x, q);
  }

  lemma FurtherOff(p: real, q: real, w: real, x: real)
    requires x <= p < q
    ensures Excess(q, w, x) > Excess(p, w, x)
  {
    assert (q - x) * (q - x) - (p - x) * (p - x) == (q - p) * (q + p - 2.0 * x);
    PositiveTimes(q - p, q + p - 2.0 * x);
  }

  lemma StrictlyBelow(p: real, w: real, spread: real, low: real)
    requires IsLower(p, w, spread, low) && p > 0.0
    ensures low < p
  {
    LowerBetween(p, w, spread, low);
    if low == p {
      AtTheRate(p, w, spread);
    }
  }

  /** The lower end meets the rate only at zero. */
  lemma AtTheRate(p: real, w: real, spread: real)
    requires IsLower(p, w, spread, p)
    ensures p == 0.0
  {
    assert (1.0 + w) * p == p + w * p;
    assert spread == w / 2.0 - w * p;
    assert spread * spread == w * w / 4.0 - w * w * p * (1.0 - p);
    assert (w + w * w) * (p * (1.0 - p)) == 0.0;
    PositiveTimes(w, w);
    if p > 0.0 {
      if p < 1.0 {
        PositiveTimes(p, 1.0 - p);
        PositiveTimes(w + w * w, p * (1.0 - p));
      }
    }
  }

  // ---------------------------------------------------------------- the bound

  lemma ScaledRadicand(p: real, n: real, z: real)
    requires n > 0.0
    ensures var w := Squared(z) / n; Squared(z) * Radicand(p, n, z) == w * p * (1.0 - p) + w * w / 4.0
  {
    SquaredPositive(n);
    ScaledSum(Squared(z), p * (1.0 - p), n);
    var w := Squared(z) / n;
    assert w * p * (1.0 - p) == w * (p * (1.0 - p));
  }

  lemma ScaledSum(u: real, v: real, n: real)
    requires n > 0.0 && Squared(n) > 0.0
    ensures u * (v / n + u / (4.0 * Squared(n))) == (u / n) * v + (u / n) * (u / n) / 4.0
  {
    Portion(u, v, n);
    Fourth(u, n);
    Spread(u, v / n, u / (4.0 * Squared(n)));
  }

  lemma BoundIsLower(p: real, n: real, z: real, root: real)
    requires 0.0 <= p <= 1.0 && n > 0.0 && z > 0.0 && root >= 0.0 && root * root == Radicand(p, n, z)
    ensures IsLower(p, Squared(z) / n, z * root, Bound(p, n, z, root))
  {
    SquaredPositive(z);
    QuotientSign(Squared(z), n);
    NonNegativeTimes(z, root);
    SquareOfProduct(z, root, Radicand(p, n, z));
    ScaledRadicand(p, n, z);
    BoundTimes(p, n, z, root);
  }

  lemma BoundTimes(p: real, n: real, z: real, root: real)
    requires n > 0.0
    ensures (1.0 + Squared(z) / n) * Bound(p, n, z, root) == p + Squared(z) / n / 2.0 - z * root
  {
    Narrow(n, z);
    HalfOf(Squared(z), n);
    Undivided(Centre(p, n, z) - z * root, 1.0 + Squared(z) / n);
  }

  lemma RateInside(successes: int, trials: int)
    requires 0 <= successes <= trials && trials > 0
    ensures 0.0 <= successes as real / trials as real <= 1.0
    ensures successes as real / trials as real == 0.0 <==> successes == 0
  {
    var p := successes as real / trials as real;
    assert p * trials as real == successes as real;
  }

  /**
   * The bound is the lower root of (p - L)^2 = z^2 L (1 - L)/n: it lies between nothing and the pass rate, clamping
   * never moves it, and it is nothing only without a success.
   */
  lemma WilsonIsLowerRoot(successes: int, trials: int, z: real, root: real)
    requires 0 <= successes <= trials && trials > 0 && z > 0.0 && root >= 0.0
    requires root * root == Radicand(successes as real / trials as real, trials as real, z)
    ensures var p, n := successes as real / trials as real, trials as real;
      var r := WilsonLb(successes, trials, z, root);
      && r == Ok(Bound(p, n, z, root))
      && Excess(p, Squared(z) / n, r.value) == 0.0
      && IsLeast(p, Squared(z) / n, r.value)
      && 0.0 <= r.value <= p && (successes > 0 ==> 0.0 < r.value < p)
  {
    var p, n := successes as real / trials as real, trials as real;
    RateInside(successes, trials);
    BoundIsLower(p, n, z, root);
    RootFacts(p, Squared(z) / n, z * root, Bound(p, n, z, root));
  }

  /** When there is an answer at all, and what it is without trials. */
  lemma WilsonAnswers(successes: int, trials: int, z: real, root: real)
    ensures WilsonLb(successes, trials, z, root).Err? <==> trials > 0 && !(0 <= successes <= trials)
    ensures trials <= 0 ==> WilsonLb(successes, trials, z, root) == Ok(0.0)
    ensures WilsonLb(successes, trials, z, root).Ok? ==> 0.0 <= WilsonLb(successes, trials, z, root).value <= 1.0
  {
  }

  /** No x below low solves the score inequality. */
  ghost predicate IsLeast(p: real, w: real, low: real) {
    forall x :: Excess(p, w, x) <= 0.0 ==> low <= x
  }

  lemma RootFacts(p: real, w: real, spread: real, low: real)
    requires IsLower(p, w, spread, low)
    ensures Excess(p, w, low) == 0.0
    ensures IsLeast(p, w, low)
    ensures 0.0 <= low <= p <= 1.0 && (p > 0.0 ==> 0.0 < low < p) && Clamp(low) == low
  {
    LowerIsRoot(p, w, spread, low);
    LowerBetween(p, w, spread, low);
    if p > 0.0 {
      StrictlyBelow(p, w, spread, low);
    }
    forall x | Excess(p, w, x) <= 0.0 ensures low <= x {
      ExcessSign(p, w, spread, low, x);
      WithinIsAbove(p, w, spread, low, x);
    }
  }

  lemma RatesOrdered(a: int, b: int, trials: int)
    requires a < b && trials > 0
    ensures a as real / trials as real < b as real / trials as real
  {
    var p, q := a as real / trials as real, b as real / trials as real;
    assert p * trials as real == a as real && q * trials as real == b as real;
  }

  /** Of the same number of trials, more successes have a strictly higher bound. */
  lemma MoreSuccessesMore(a: int, b: int, trials: int, z: real, rootA: real, rootB: real)
    requires 0 <= a < b <= trials && z > 0.0 && rootA >= 0.0 && rootB >= 0.0
    requires rootA * rootA == Radicand(a as real / trials as real, trials as real, z)
    requires rootB * rootB == Radicand(b as real / trials as real, trials as real, z)
    ensures WilsonLb(a, trials, z, rootA).Ok? && WilsonLb(b, trials, z, rootB).Ok?
    ensures WilsonLb(a, trials, z, rootA).value < WilsonLb(b, trials, z, rootB).value
  {
    var p, q, n := a as real / trials as real, b as real / trials as real, trials as real;
    RateInside(a, trials);
    RateInside(b, trials);
    RatesOrdered(a, b, trials);
    BoundIsLower(p, n, z, rootA);
    BoundIsLower(q, n, z, rootB);
    RootFacts(p, Squared(z) / n, z * rootA, Bound(p, n, z, rootA));
    RootFacts(q, Squared(z) / n, z * rootB, Bound(q, n, z, rootB));
    LowerGrows(p, q, Squared(z) / n, z * rootA, z * rootB, Bound(p, n, z, rootA), Bound(q, n, z, rootB));
  }
}
