/**
 The one-sided exact sign test of the search-quality gates and the two gate rules built on it.
 Probabilities are reals: floating-point rounding is not modelled.
*/
module SignTest {

  /** The binomial coefficient, by Pascal's rule; 0 when `k` exceeds `n`. */
  function Comb(n: nat, k: nat): nat
  {
    if k == 0 then 1
    else if n == 0 then 0
    else Comb(n - 1, k - 1) + Comb(n - 1, k)
  }

  function Pow2(n: nat): nat
  {
    if n == 0 then 1 else 2 * Pow2(n - 1)
  }

  /** The sum of `Comb(d, j)` for j from `count` through `d`. */
  function UpperTail(count: nat, d: nat): nat
    decreases d + 1 - count
  {
    if count > d then 0 else Comb(d, count) + UpperTail(count + 1, d)
  }

  lemma {:induction false} Pow2Positive(n: nat)
    ensures Pow2(n) > 0
  {
    if n > 0 {
      Pow2Positive(n - 1);
    }
  }

  /** One-sided exact p: the chance of `count` or more of `discordant` pairs on one side. */
  function SignTestP(count: nat, discordant: nat): real
  {
    if discordant == 0 then 1.0
    else
      Pow2Positive(discordant);
      UpperTail(count, discordant) as real / Pow2(discordant) as real
  }

  predicate GainPasses(improved: nat, regressed: nat, netMin: int, pMax: real)
  {
    improved - regressed >= netMin && SignTestP(improved, improved + regressed) < pMax
  }

  /** A tripwire fails only when regressions exceed improvements and the sign test says so. */
  predicate TripwireFails(improved: nat, regressed: nat, pMax: real)
  {
    regressed > improved && SignTestP(regressed, improved + regressed) < pMax
  }

  // ---------- The sign test against an independent reference ----------

  function Factorial(n: nat): nat
  {
    if n == 0 then 1 else n * Factorial(n - 1)
  }

  lemma {:induction false} CombIsZeroAbove(n: nat, k: nat)
    requires k > n
    ensures Comb(n, k) == 0
  {
    if n > 0 {
      CombIsZeroAbove(n - 1, k - 1);
      CombIsZeroAbove(n - 1, k);
    }
  }

  lemma FactorialStep(a: nat, b: nat, p: nat, q: nat, k: nat, m: nat)
    ensures (a + b) * ((k * p) * (m * q)) == k * (a * (p * (m * q))) + m * (b * ((k * p) * q))
  {
    assert (a + b) * ((k * p) * (m * q)) == a * ((k * p) * (m * q)) + b * ((k * p) * (m * q));
    assert a * ((k * p) * (m * q)) == k * (a * (p * (m * q))) by {
      var x := m * q;
      assert a * ((k * p) * x) == k * (a * (p * x));
    }
    assert b * ((k * p) * (m * q)) == m * (b * ((k * p) * q)) by {
      var y := k * p;
      assert b * (y * (m * q)) == m * (b * (y * q));
    }
  }

  lemma PascalOfFactorials(a: nat, b: nat, p: nat, q: nat, k: nat, m: nat, f: nat)
    requires a * (p * (m * q)) == f && b * ((k * p) * q) == f
    ensures (a + b) * ((k * p) * (m * q)) == (k + m) * f
  {
    FactorialStep(a, b, p, q, k, m);
    assert k * f + m * f == (k + m) * f;
  }

  lemma FactorialOfAll(a: nat, p: nat, k: nat, f: nat)
    requires a * (p * 1) == f
    ensures (a + 0) * ((k * p) * 1) == k * f
  {
    assert a * (k * p) == k * (a * p);
  }

  /** Pascal's rule gives the factorial formula of the binomial coefficient. */
  lemma {:induction false} CombIsFactorialRatio(n: nat, k: nat)
    requires k <= n
    ensures Comb(n, k) * (Factorial(k) * Factorial(n - k)) == Factorial(n)
  {
    if 0 < k < n {
      var m := n - k;
      CombIsFactorialRatio(n - 1, k - 1);
      CombIsFactorialRatio(n - 1, k);
      PascalOfFactorials(Comb(n - 1, k - 1), Comb(n - 1, k), Factorial(k - 1), Factorial(m - 1), k, m,
                         Factorial(n - 1));
    } else if k == n > 0 {
      CombIsFactorialRatio(n - 1, n - 1);
      CombIsZeroAbove(n - 1, n);
      FactorialOfAll(Comb(n - 1, n - 1), Factorial(n - 1), n, Factorial(n - 1));
    }
  }

  /** The chance that at least `count` of `d` fair coin flips, taken one at a time, show heads. */
  function AtLeastHeads(count: int, d: nat): real
    decreases d
  {
    if d == 0 then (if count <= 0 then 1.0 else 0.0)
    else (AtLeastHeads(count - 1, d - 1) + AtLeastHeads(count, d - 1)) / 2.0
  }

  lemma {:induction false} UpperTailPascal(count: nat, d: nat)
    requires count > 0
    ensures UpperTail(count, d + 1) == UpperTail(count, d) + UpperTail(count - 1, d)
    decreases d + 2 - count
  {
    if count > d + 1 {
    } else {
      CombIsZeroAbove(d, d + 1);
      UpperTailPascal(count + 1, d);
    }
  }

  lemma {:induction false} UpperTailOfAll(d: nat)
    ensures UpperTail(0, d) == Pow2(d)
  {
    if d > 0 {
      UpperTailOfAll(d - 1);
      UpperTailPascal(1, d - 1);
    }
  }

  lemma HalfOfQuotients(x: real, y: real, power: real)
    requires power > 0.0
    ensures (x + y) / (2.0 * power) == (y / power + x / power) / 2.0
  {
    assert x / power * power == x && y / power * power == y;
  }

  lemma SignTestHalves(count: nat, d: nat)
    requires count > 0 && d > 0
    ensures SignTestP(count, d + 1) == (SignTestP(count - 1, d) + SignTestP(count, d)) / 2.0
  {
    Pow2Positive(d);
    UpperTailPascal(count, d);
    HalfOfQuotients(UpperTail(count, d) as real, UpperTail(count - 1, d) as real, Pow2(d) as real);
    assert Pow2(d + 1) as real == 2.0 * Pow2(d) as real;
  }

  /** The closed sum over binomial coefficients is the chance under fair, independent flips, and 1 without any flip. */
  lemma {:induction false} SignTestIsFairCoinTail(count: nat, discordant: nat)
    ensures SignTestP(count, discordant) == if discordant == 0 then 1.0 else AtLeastHeads(count, discordant)
    decreases discordant
  {
    if discordant == 0 {
    } else if count == 0 {
      UpperTailOfAll(discordant);
      HeadsBounds(0, discordant);
    } else if discordant == 1 {
      assert UpperTail(count, 1) == if count == 1 then 1 else 0;
      assert Pow2(1) == 2;
    } else {
      SignTestIsFairCoinTail(count - 1, discordant - 1);
      SignTestIsFairCoinTail(count, discordant - 1);
      SignTestHalves(count, discordant - 1);
    }
  }

  // ---------- Shape of the sign test ----------

  lemma {:induction false} HeadsBounds(count: int, d: nat)
    ensures 0.0 <= AtLeastHeads(count, d) <= 1.0
    ensures count <= 0 ==> AtLeastHeads(count, d) == 1.0
    ensures count > d ==> AtLeastHeads(count, d) == 0.0
    decreases d
  {
    if d > 0 {
      HeadsBounds(count - 1, d - 1);
      HeadsBounds(count, d - 1);
    }
  }

  lemma {:induction false} HeadsStepDown(count: int, d: nat)
    ensures AtLeastHeads(count + 1, d) <= AtLeastHeads(count, d)
    decreases d
  {
    if d > 0 {
      HeadsStepDown(count - 1, d - 1);
      HeadsStepDown(count, d - 1);
    }
  }

  lemma {:induction false} HeadsDecrease(low: int, high: int, d: nat)
    requires low <= high
    ensures AtLeastHeads(high, d) <= AtLeastHeads(low, d)
    decreases high - low
  {
    if low < high {
      HeadsDecrease(low + 1, high, d);
      HeadsStepDown(low, d);
    }
  }

  lemma {:induction false} HeadsSymmetry(count: int, d: nat)
    ensures AtLeastHeads(count, d) + AtLeastHeads(d - count + 1, d) == 1.0
    decreases d
  {
    if d > 0 {
      HeadsSymmetry(count - 1, d - 1);
      HeadsSymmetry(count, d - 1);
    }
  }

  /** The two one-sided tests share every outcome between them, with no overlap. */
  lemma SignTestComplement(count: nat, discordant: nat)
    requires discordant >= 1 && count <= discordant + 1
    ensures SignTestP(count, discordant) + SignTestP(discordant - count + 1, discordant) == 1.0
  {
    SignTestIsFairCoinTail(count, discordant);
    SignTestIsFairCoinTail(discordant - count + 1, discordant);
    HeadsSymmetry(count, discordant);
  }

  lemma SignTestNonIncreasing(low: nat, high: nat, discordant: nat)
    requires low <= high && discordant >= 1
    ensures SignTestP(high, discordant) <= SignTestP(low, discordant)
  {
    SignTestIsFairCoinTail(low, discordant);
    SignTestIsFairCoinTail(high, discordant);
    HeadsDecrease(low, high, discordant);
  }

  /** One more improved question never raises p, and one more regressed question never lowers it. */
  lemma SignTestMonotone(improved: nat, regressed: nat)
    ensures SignTestP(improved + 1, improved + 1 + regressed) <= SignTestP(improved, improved + regressed)
    ensures SignTestP(improved, improved + regressed) <= SignTestP(improved, improved + regressed + 1)
  {
    var d := improved + regressed;
    SignTestIsFairCoinTail(improved, d);
    SignTestIsFairCoinTail(improved + 1, d + 1);
    SignTestIsFairCoinTail(improved, d + 1);
    HeadsStepDown(improved, d);
    HeadsStepDown(improved - 1, d);
  }

  /** At p of one half or less the sign test already says that improvements exceed regressions. */
  lemma SmallPMeansMoreImproved(improved: nat, regressed: nat)
    requires SignTestP(improved, improved + regressed) < 0.5
    ensures improved > regressed
  {
    var d := improved + regressed;
    if improved <= regressed {
      SignTestIsFairCoinTail(improved, d);
      HeadsSymmetry(improved, d);
      HeadsDecrease(improved, regressed + 1, d);
    }
  }

  /** No outcome passes a gain gate and fails a tripwire, however far below zero the net gain may be allowed to fall. */
  lemma NeverBoth(improved: nat, regressed: nat, netMin: int, gainPMax: real, tripPMax: real)
    requires gainPMax <= 0.5
    ensures !(GainPasses(improved, regressed, netMin, gainPMax) && TripwireFails(improved, regressed, tripPMax))
  {
    if GainPasses(improved, regressed, netMin, gainPMax) {
      SmallPMeansMoreImproved(improved, regressed);
    }
  }

  /** With both thresholds at 0.9, a gate that tolerates a net loss of one passes an outcome that a tripwire fails. */
  lemma BothAtNineTenths()
    ensures GainPasses(1, 2, -1, 0.9) && TripwireFails(1, 2, 0.9)
  {
    assert UpperTail(2, 3) == 4 && UpperTail(1, 3) == 7 by {
      assert Comb(1, 1) == 1 && Comb(2, 1) == 2 && Comb(2, 2) == 1;
      assert Comb(3, 1) == 3 && Comb(3, 2) == 3 && Comb(3, 3) == 1;
    }
    assert Pow2(2) == 4 && Pow2(3) == 8;
  }
}
