/** How the gate pass rates behave, for every sample size, every threshold and every pair of shares. */
module GateTheorems {
  import opened FiniteSums
  import opened SignTest
  import opened Outcomes
  import opened Convolution
  import opened PassRates

  // ---------- A question more or less ----------

  ghost predicate Improving(score: Outcome -> real)
  {
    && (forall x :: score(x) <= score(Improve(x)))
    && (forall x :: score(Regress(x)) <= score(x))
  }

  ghost predicate Below(low: Outcome -> real, high: Outcome -> real)
  {
    forall x :: low(x) <= high(x)
  }

  ghost predicate NonNegative(score: Outcome -> real)
  {
    forall x :: 0.0 <= score(x)
  }

  lemma ScaleUp(share: real, low: real, high: real)
    requires share >= 0.0 && low <= high
    ensures Times(share, low) <= Times(share, high)
  {
  }

  lemma MixMonotone(a: real, b: real, x1: real, x2: real, x3: real, y1: real, y2: real, y3: real)
    requires ValidShares(a, b) && x1 <= y1 && x2 <= y2 && x3 <= y3
    ensures Mix(a, b, x1, x2, x3) <= Mix(a, b, y1, y2, y3)
  {
    hide Times;
    ScaleUp(a, x1, y1);
    ScaleUp(b, x2, y2);
    ScaleUp(1.0 - a - b, x3, y3);
  }

  /** Share moved from "same" to "improved" helps when improving helps; moved to "regressed", it hurts. */
  lemma MixMoved(a: real, b: real, delta: real, x1: real, x2: real, x3: real)
    requires delta >= 0.0
    ensures x3 <= x1 ==> Mix(a, b, x1, x2, x3) <= Mix(a + delta, b, x1, x2, x3)
    ensures x2 <= x3 ==> Mix(a, b + delta, x1, x2, x3) <= Mix(a, b, x1, x2, x3)
  {
    assert Mix(a + delta, b, x1, x2, x3) == Mix(a, b, x1, x2, x3) + delta * (x1 - x3);
    assert Mix(a, b + delta, x1, x2, x3) == Mix(a, b, x1, x2, x3) + delta * (x2 - x3);
  }

  lemma {:induction false} ExpectImproving(n: nat, a: real, b: real, score: Outcome -> real, x: Outcome)
    requires ValidShares(a, b) && Improving(score)
    ensures Expect(n, a, b, score, x) <= Expect(n, a, b, score, Improve(x))
    ensures Expect(n, a, b, score, Regress(x)) <= Expect(n, a, b, score, x)
  {
    if n > 0 {
      ExpectImproving(n - 1, a, b, score, x);
      ExpectImproving(n - 1, a, b, score, Improve(x));
      ExpectImproving(n - 1, a, b, score, Regress(x));
      assert Improve(Regress(x)) == Regress(Improve(x));
      hide Expect, Mix;
      MixMonotone(a, b, Expect(n - 1, a, b, score, Improve(x)), Expect(n - 1, a, b, score, Regress(x)),
                  Expect(n - 1, a, b, score, x),
                  Expect(n - 1, a, b, score, Improve(Improve(x))), Expect(n - 1, a, b, score, Regress(Improve(x))),
                  Expect(n - 1, a, b, score, Improve(x)));
      MixMonotone(a, b, Expect(n - 1, a, b, score, Improve(Regress(x))),
                  Expect(n - 1, a, b, score, Regress(Regress(x))),
                  Expect(n - 1, a, b, score, Regress(x)),
                  Expect(n - 1, a, b, score, Improve(x)), Expect(n - 1, a, b, score, Regress(x)),
                  Expect(n - 1, a, b, score, x));
    }
  }

  /** Moving share from "same" to "improved", under a score at least as high, never lowers the expectation. */
  lemma {:induction false} ExpectMoreImproved(n: nat, a: real, b: real, delta: real,
                                              low: Outcome -> real, high: Outcome -> real, x: Outcome)
    requires ValidShares(a, b) && delta >= 0.0 && ValidShares(a + delta, b)
    requires Improving(low) && Below(low, high)
    ensures Expect(n, a, b, low, x) <= Expect(n, a + delta, b, high, x)
  {
    if n > 0 {
      var e1, e2, e3 := Expect(n - 1, a, b, low, Improve(x)), Expect(n - 1, a, b, low, Regress(x)),
          Expect(n - 1, a, b, low, x);
      ExpectMoreImproved(n - 1, a, b, delta, low, high, Improve(x));
      ExpectMoreImproved(n - 1, a, b, delta, low, high, Regress(x));
      ExpectMoreImproved(n - 1, a, b, delta, low, high, x);
      ExpectImproving(n - 1, a, b, low, x);
      hide Expect, Mix;
      MixMoved(a, b, delta, e1, e2, e3);
      MixMonotone(a + delta, b, e1, e2, e3, Expect(n - 1, a + delta, b, high, Improve(x)),
                  Expect(n - 1, a + delta, b, high, Regress(x)), Expect(n - 1, a + delta, b, high, x));
    }
  }

  /** Moving share from "same" to "regressed", under a score at most as high, never raises the expectation. */
  lemma {:induction false} ExpectMoreRegressed(n: nat, a: real, b: real, delta: real,
                                               low: Outcome -> real, high: Outcome -> real, x: Outcome)
    requires ValidShares(a, b) && delta >= 0.0 && ValidShares(a, b + delta)
    requires Improving(high) && Below(low, high)
    ensures Expect(n, a, b + delta, low, x) <= Expect(n, a, b, high, x)
  {
    if n > 0 {
      var e1, e2, e3 := Expect(n - 1, a, b, high, Improve(x)), Expect(n - 1, a, b, high, Regress(x)),
          Expect(n - 1, a, b, high, x);
      ExpectMoreRegressed(n - 1, a, b, delta, low, high, Improve(x));
      ExpectMoreRegressed(n - 1, a, b, delta, low, high, Regress(x));
      ExpectMoreRegressed(n - 1, a, b, delta, low, high, x);
      ExpectImproving(n - 1, a, b, high, x);
      hide Expect, Mix;
      MixMoved(a, b, delta, e1, e2, e3);
      MixMonotone(a, b + delta, Expect(n - 1, a, b + delta, low, Improve(x)),
                  Expect(n - 1, a, b + delta, low, Regress(x)),
                  Expect(n - 1, a, b + delta, low, x), e1, e2, e3);
    }
  }

  lemma {:induction false} ExpectNonNegative(n: nat, a: real, b: real, score: Outcome -> real, x: Outcome)
    requires ValidShares(a, b) && NonNegative(score)
    ensures 0.0 <= Expect(n, a, b, score, x)
  {
    if n > 0 {
      ExpectNonNegative(n - 1, a, b, score, Improve(x));
      ExpectNonNegative(n - 1, a, b, score, Regress(x));
      ExpectNonNegative(n - 1, a, b, score, x);
      assert Mix(a, b, 0.0, 0.0, 0.0) == 0.0;
      hide Expect, Mix;
      MixMonotone(a, b, 0.0, 0.0, 0.0, Expect(n - 1, a, b, score, Improve(x)), Expect(n - 1, a, b, score, Regress(x)),
                  Expect(n - 1, a, b, score, x));
    }
  }

  // ---------- Several corpora ----------

  lemma GuardImproving(guarded: bool, score: Outcome -> real)
    requires Improving(score) && NonNegative(score)
    ensures Improving(Guard(guarded, score)) && NonNegative(Guard(guarded, score))
  {
  }

  lemma AfterImproving(score: Outcome -> real, x: Outcome)
    requires Improving(score) && NonNegative(score)
    ensures Improving(After(score, x)) && NonNegative(After(score, x))
    ensures Below(After(score, x), After(score, Improve(x)))
    ensures Below(After(score, Regress(x)), After(score, x))
  {
    var here := After(score, x);
    forall y
      ensures 0.0 <= here(y) <= here(Improve(y)) && here(Regress(y)) <= here(y)
      ensures here(y) <= After(score, Improve(x))(y) && After(score, Regress(x))(y) <= here(y)
    {
      assert Plus(x, Improve(y)) == Improve(Plus(x, y)) == Plus(Improve(x), y);
      assert Plus(x, Regress(y)) == Regress(Plus(x, y)) == Plus(Regress(x), y);
      assert here(y) == score(Plus(x, y));
    }
  }

  lemma GuardBelow(guardLow: bool, guardHigh: bool, low: Outcome -> real, high: Outcome -> real, x: Outcome)
    requires Below(low, high) && NonNegative(high) && (guardHigh ==> guardLow)
    ensures Below(Guard(guardLow, After(low, x)), Guard(guardHigh, After(high, x)))
  {
    forall y ensures Guard(guardLow, After(low, x))(y) <= Guard(guardHigh, After(high, x))(y) {
      assert low(Plus(x, y)) <= high(Plus(x, y)) && 0.0 <= high(Plus(x, y));
    }
  }

  lemma {:induction false} JointImproving(guarded: bool, sizes: seq<nat>, a: real, b: real, score: Outcome -> real)
    requires ValidShares(a, b) && Improving(score) && NonNegative(score)
    ensures Improving(JointFrom(guarded, sizes, a, b, score)) && NonNegative(JointFrom(guarded, sizes, a, b, score))
    decreases |sizes|
  {
    if sizes != [] {
      var tail := JointFrom(guarded, sizes[1..], a, b, score);
      JointImproving(guarded, sizes[1..], a, b, score);
      forall x
        ensures 0.0 <= Joint(guarded, sizes, a, b, score, x)
        ensures Joint(guarded, sizes, a, b, score, x) <= Joint(guarded, sizes, a, b, score, Improve(x))
        ensures Joint(guarded, sizes, a, b, score, Regress(x)) <= Joint(guarded, sizes, a, b, score, x)
      {
        JointImprovingAt(guarded, sizes, a, b, score, tail, x);
      }
    }
  }

  lemma JointImprovingAt(guarded: bool, sizes: seq<nat>, a: real, b: real, score: Outcome -> real,
                         tail: Outcome -> real,
                         x: Outcome)
    requires ValidShares(a, b) && sizes != [] && tail == JointFrom(guarded, sizes[1..], a, b, score)
    requires Improving(tail) && NonNegative(tail)
    ensures 0.0 <= Joint(guarded, sizes, a, b, score, x)
    ensures Joint(guarded, sizes, a, b, score, x) <= Joint(guarded, sizes, a, b, score, Improve(x))
    ensures Joint(guarded, sizes, a, b, score, Regress(x)) <= Joint(guarded, sizes, a, b, score, x)
  {
    var here, better, worse := Guard(guarded, After(tail, x)), Guard(guarded, After(tail, Improve(x))),
        Guard(guarded, After(tail, Regress(x)));
    AfterImproving(tail, x);
    AfterImproving(tail, Regress(x));
    GuardImproving(guarded, After(tail, x));
    assert Below(here, better) && Below(worse, here);
    hide Expect;
    ExpectNonNegative(sizes[0], a, b, here, NONE_FLIPPED);
    ExpectMoreImproved(sizes[0], a, b, 0.0, here, better, NONE_FLIPPED);
    ExpectMoreRegressed(sizes[0], a, b, 0.0, worse, here, NONE_FLIPPED);
  }

  lemma {:induction false} JointMoreImproved(guarded: bool, sizes: seq<nat>, a: real, b: real, delta: real,
                                             score: Outcome -> real, x: Outcome)
    requires ValidShares(a, b) && delta >= 0.0 && ValidShares(a + delta, b)
    requires Improving(score) && NonNegative(score)
    ensures Joint(guarded, sizes, a, b, score, x) <= Joint(guarded, sizes, a + delta, b, score, x)
    decreases |sizes|
  {
    if sizes != [] {
      var low, high := JointFrom(guarded, sizes[1..], a, b, score), JointFrom(guarded, sizes[1..], a + delta, b, score);
      forall y ensures low(y) <= high(y) {
        JointMoreImproved(guarded, sizes[1..], a, b, delta, score, y);
      }
      JointImproving(guarded, sizes[1..], a, b, score);
      AfterImproving(low, x);
      GuardImproving(guarded, After(low, x));
      JointImproving(guarded, sizes[1..], a + delta, b, score);
      GuardBelow(guarded, guarded, low, high, x);
      hide Expect;
      ExpectMoreImproved(sizes[0], a, b, delta, Guard(guarded, After(low, x)), Guard(guarded, After(high, x)),
                         NONE_FLIPPED);
    }
  }

  lemma {:induction false} JointMoreRegressed(guarded: bool, sizes: seq<nat>, a: real, b: real, delta: real,
                                              score: Outcome -> real, x: Outcome)
    requires ValidShares(a, b) && delta >= 0.0 && ValidShares(a, b + delta)
    requires Improving(score) && NonNegative(score)
    ensures Joint(guarded, sizes, a, b + delta, score, x) <= Joint(guarded, sizes, a, b, score, x)
    decreases |sizes|
  {
    if sizes != [] {
      var low, high := JointFrom(guarded, sizes[1..], a, b + delta, score), JointFrom(guarded, sizes[1..], a, b, score);
      forall y ensures low(y) <= high(y) {
        JointMoreRegressed(guarded, sizes[1..], a, b, delta, score, y);
      }
      JointImproving(guarded, sizes[1..], a, b, score);
      AfterImproving(high, x);
      GuardImproving(guarded, After(high, x));
      GuardBelow(guarded, guarded, low, high, x);
      hide Expect;
      ExpectMoreRegressed(sizes[0], a, b, delta, Guard(guarded, After(low, x)), Guard(guarded, After(high, x)),
                          NONE_FLIPPED);
    }
  }

  /** Requiring that no corpus is net negative never raises a pass rate. */
  lemma {:induction false} GuardingNeverHelps(sizes: seq<nat>, a: real, b: real, score: Outcome -> real, x: Outcome)
    requires ValidShares(a, b) && Improving(score) && NonNegative(score)
    ensures Joint(true, sizes, a, b, score, x) <= Joint(false, sizes, a, b, score, x)
    decreases |sizes|
  {
    if sizes != [] {
      var low, high := JointFrom(true, sizes[1..], a, b, score), JointFrom(false, sizes[1..], a, b, score);
      forall y ensures low(y) <= high(y) {
        GuardingNeverHelps(sizes[1..], a, b, score, y);
      }
      JointImproving(false, sizes[1..], a, b, score);
      JointImproving(true, sizes[1..], a, b, score);
      AfterImproving(low, x);
      AfterImproving(high, x);
      GuardImproving(true, After(low, x));
      GuardBelow(true, false, low, high, x);
      hide Expect;
      ExpectMoreImproved(sizes[0], a, b, 0.0, Guard(true, After(low, x)), Guard(false, After(high, x)), NONE_FLIPPED);
    }
  }

  // ---------- The gate regions are monotone ----------

  lemma GainGateImproving(gain: Gain)
    ensures Improving(Indicator(GainGate(gain))) && NonNegative(Indicator(GainGate(gain)))
  {
    hide SignTestP;
    var score := Indicator(GainGate(gain));
    forall x ensures score(x) <= score(Improve(x)) && score(Regress(x)) <= score(x) {
      SignTestMonotone(x.improved, x.regressed);
    }
  }

  lemma TripwireImproving(pMax: real)
    ensures Improving(Indicator(TripwireHolds(pMax))) && NonNegative(Indicator(TripwireHolds(pMax)))
  {
    hide SignTestP;
    var score := Indicator(TripwireHolds(pMax));
    forall x ensures score(x) <= score(Improve(x)) && score(Regress(x)) <= score(x) {
      SignTestMonotone(x.regressed, x.improved);
    }
  }

  // ---------- Main results ----------

  ghost predicate AtMost(low: Rates, high: Rates)
  {
    low.g1Verbatim <= high.g1Verbatim && low.tripwire <= high.tripwire && low.g2KeywordGain <= high.g2KeywordGain
  }

  /** More improvement at the same regression never lowers any of the three pass rates. */
  lemma MoreImprovementNeverLowers(a: real, b: real, delta: real, t: Thresholds)
    requires ValidShares(a, b) && delta >= 0.0 && ValidShares(a + delta, b)
    ensures AtMost(RatesOf(a, b, t), RatesOf(a + delta, b, t))
  {
    GainGateImproving(t.g1);
    GainGateImproving(t.g2);
    TripwireImproving(t.tripPMax);
    JointMoreImproved(t.neitherCorpusNetNegative, t.perCorpus, a, b, delta, Indicator(GainGate(t.g1)), NONE_FLIPPED);
    JointMoreImproved(false, t.perCorpus, a, b, delta, Indicator(GainGate(t.g2)), NONE_FLIPPED);
    JointMoreImproved(false, t.perCorpus, a, b, delta, Indicator(TripwireHolds(t.tripPMax)), NONE_FLIPPED);
  }

  /** More regression at the same improvement never raises any of the three pass rates. */
  lemma MoreRegressionNeverRaises(a: real, b: real, delta: real, t: Thresholds)
    requires ValidShares(a, b) && delta >= 0.0 && ValidShares(a, b + delta)
    ensures AtMost(RatesOf(a, b + delta, t), RatesOf(a, b, t))
  {
    GainGateImproving(t.g1);
    GainGateImproving(t.g2);
    TripwireImproving(t.tripPMax);
    JointMoreRegressed(t.neitherCorpusNetNegative, t.perCorpus, a, b, delta, Indicator(GainGate(t.g1)), NONE_FLIPPED);
    JointMoreRegressed(false, t.perCorpus, a, b, delta, Indicator(GainGate(t.g2)), NONE_FLIPPED);
    JointMoreRegressed(false, t.perCorpus, a, b, delta, Indicator(TripwireHolds(t.tripPMax)), NONE_FLIPPED);
  }

  /** The G1 rate with the per-corpus filter is at most the rate without it. */
  lemma FilterNeverRaisesG1(a: real, b: real, t: Thresholds)
    requires ValidShares(a, b)
    ensures PassChance(true, t.perCorpus, a, b, GainGate(t.g1)) <= PassChance(false, t.perCorpus, a, b, GainGate(t.g1))
  {
    GainGateImproving(t.g1);
    GuardingNeverHelps(t.perCorpus, a, b, Indicator(GainGate(t.g1)), NONE_FLIPPED);
  }

  lemma {:induction false} ExpectCongruent(n: nat, a: real, b: real, f: Outcome -> real, g: Outcome -> real, x: Outcome)
    requires forall y :: f(y) == g(y)
    ensures Expect(n, a, b, f, x) == Expect(n, a, b, g, x)
  {
    if n > 0 {
      ExpectCongruent(n - 1, a, b, f, g, Improve(x));
      ExpectCongruent(n - 1, a, b, f, g, Regress(x));
      ExpectCongruent(n - 1, a, b, f, g, x);
    }
  }

  lemma {:induction false} ExpectInTwoParts(m: nat, n: nat, a: real, b: real, score: Outcome -> real,
                                            later: Outcome -> real,
                                            x: Outcome)
    requires forall y :: later(y) == Expect(n, a, b, score, y)
    ensures Expect(m, a, b, later, x) == Expect(m + n, a, b, score, x)
  {
    if m > 0 {
      ExpectInTwoParts(m - 1, n, a, b, score, later, Improve(x));
      ExpectInTwoParts(m - 1, n, a, b, score, later, Regress(x));
      ExpectInTwoParts(m - 1, n, a, b, score, later, x);
    }
  }

  lemma {:induction false} ExpectShifted(n: nat, a: real, b: real, score: Outcome -> real, x: Outcome, y: Outcome)
    ensures Expect(n, a, b, After(score, x), y) == Expect(n, a, b, score, Plus(x, y))
  {
    if n > 0 {
      ExpectShifted(n - 1, a, b, score, x, Improve(y));
      ExpectShifted(n - 1, a, b, score, x, Regress(y));
      ExpectShifted(n - 1, a, b, score, x, y);
      assert Plus(x, Improve(y)) == Improve(Plus(x, y)) && Plus(x, Regress(y)) == Regress(Plus(x, y));
    }
  }

  /** Without the per-corpus rule, corpora in any split behave like one sample of their total size. */
  lemma {:induction false} OnlyTheTotalCounts(sizes: seq<nat>, a: real, b: real, score: Outcome -> real, x: Outcome)
    ensures Joint(false, sizes, a, b, score, x) == Expect(Total(sizes), a, b, score, x)
    decreases |sizes|
  {
    if sizes != [] {
      var tail := JointFrom(false, sizes[1..], a, b, score);
      forall y ensures tail(y) == Expect(Total(sizes[1..]), a, b, score, y) {
        OnlyTheTotalCounts(sizes[1..], a, b, score, y);
      }
      ExpectCongruent(sizes[0], a, b, Guard(false, After(tail, x)), After(tail, x), NONE_FLIPPED);
      ExpectShifted(sizes[0], a, b, tail, x, NONE_FLIPPED);
      assert Plus(x, NONE_FLIPPED) == x;
      ExpectInTwoParts(sizes[0], Total(sizes[1..]), a, b, score, tail, x);
    }
  }

  /** The tripwire rate and the G2 rate depend on the corpora only through the total number of questions. */
  lemma SplitDoesNotMatter(a: real, b: real, t: Thresholds, u: Thresholds)
    requires t.(perCorpus := []) == u.(perCorpus := []) && Total(t.perCorpus) == Total(u.perCorpus)
    ensures RatesOf(a, b, t).tripwire == RatesOf(a, b, u).tripwire
    ensures RatesOf(a, b, t).g2KeywordGain == RatesOf(a, b, u).g2KeywordGain
  {
    OnlyTheTotalCounts(t.perCorpus, a, b, Indicator(TripwireHolds(t.tripPMax)), NONE_FLIPPED);
    OnlyTheTotalCounts(u.perCorpus, a, b, Indicator(TripwireHolds(t.tripPMax)), NONE_FLIPPED);
    OnlyTheTotalCounts(t.perCorpus, a, b, Indicator(GainGate(t.g2)), NONE_FLIPPED);
    OnlyTheTotalCounts(u.perCorpus, a, b, Indicator(GainGate(t.g2)), NONE_FLIPPED);
  }

  lemma {:induction false} ExpectOfOne(n: nat, a: real, b: real, one: Outcome -> real, x: Outcome)
    requires forall y :: one(y) == 1.0
    ensures Expect(n, a, b, one, x) == 1.0
  {
    if n > 0 {
      ExpectOfOne(n - 1, a, b, one, Improve(x));
      ExpectOfOne(n - 1, a, b, one, Regress(x));
      ExpectOfOne(n - 1, a, b, one, x);
    }
  }

  /** Every dictionary of a sample sums to 1. */
  lemma DistributionSumsToOne(d: Distribution, n: nat, a: real, b: real)
    requires DistributionOf(d, n, a, b)
    ensures Sum(d.Keys, x => At(d, x)) == 1.0
  {
    var one := (x: Outcome) => 1.0;
    WeighOfSample(d, n, a, b, one);
    ExpectOfOne(n, a, b, one, NONE_FLIPPED);
    SumCongruent(d.Keys, x => At(d, x), Scored(d, one));
  }

  // ---------- Duality of the two gates ----------

  function Swap(x: Outcome): Outcome { Outcome(x.regressed, x.improved) }

  lemma {:induction false} ExpectSwapped(n: nat, a: real, b: real, f: Outcome -> real, g: Outcome -> real, x: Outcome)
    requires forall y :: g(y) == f(Swap(y))
    ensures Expect(n, a, b, f, Swap(x)) == Expect(n, b, a, g, x)
  {
    if n > 0 {
      ExpectSwapped(n - 1, a, b, f, g, Improve(x));
      ExpectSwapped(n - 1, a, b, f, g, Regress(x));
      ExpectSwapped(n - 1, a, b, f, g, x);
      assert Swap(Improve(x)) == Regress(Swap(x)) && Swap(Regress(x)) == Improve(Swap(x));
    }
  }

  lemma {:induction false} ExpectComplement(n: nat, a: real, b: real, f: Outcome -> real, g: Outcome -> real,
                                            x: Outcome)
    requires forall y :: f(y) + g(y) == 1.0
    ensures Expect(n, a, b, f, x) + Expect(n, a, b, g, x) == 1.0
  {
    if n > 0 {
      ExpectComplement(n - 1, a, b, f, g, Improve(x));
      ExpectComplement(n - 1, a, b, f, g, Regress(x));
      ExpectComplement(n - 1, a, b, f, g, x);
      ComplementStep(a, b, Expect(n - 1, a, b, f, Improve(x)), Expect(n - 1, a, b, f, Regress(x)),
                     Expect(n - 1, a, b, f, x));
    }
  }

  lemma ComplementStep(a: real, b: real, x1: real, x2: real, x3: real)
    ensures Mix(a, b, x1, x2, x3) + Mix(a, b, 1.0 - x1, 1.0 - x2, 1.0 - x3) == 1.0
  {
    MixAdd(a, b, x1, x2, x3, 1.0 - x1, 1.0 - x2, 1.0 - x3);
  }

  /** The chance that the tripwire fails is the chance of a net gain of 1 or more in the mirrored truth. */
  lemma TripwireMirrorsGain(sizes: seq<nat>, a: real, b: real, pMax: real)
    ensures 1.0 - PassChance(false, sizes, a, b, TripwireHolds(pMax))
            == PassChance(false, sizes, b, a, GainGate(Gain(1, pMax)))
  {
    hide SignTestP;
    var n := Total(sizes);
    var holds, gains := Indicator(TripwireHolds(pMax)), Indicator(GainGate(Gain(1, pMax)));
    var fails := (x: Outcome) => 1.0 - holds(x);
    OnlyTheTotalCounts(sizes, a, b, holds, NONE_FLIPPED);
    OnlyTheTotalCounts(sizes, b, a, gains, NONE_FLIPPED);
    ExpectComplement(n, a, b, holds, fails, NONE_FLIPPED);
    ExpectSwapped(n, b, a, gains, fails, NONE_FLIPPED);
    assert Swap(NONE_FLIPPED) == NONE_FLIPPED;
  }
}
