/**
 The release check of the retrieval suite: its overall and subset rates are recomputed from the cases. An accepted suite
 of any number of cases therefore keeps numeric bounds that no single check states.
*/
module RetrievalSuite {
  import opened Options
  import opened JsonStrings
  import opened RetrievalCases

  datatype Metric = RecallAt1 | RecallAt5 | ReciprocalRank

  datatype Rates = Rates(recallAt1: Number, recallAt5: Number, mrr: Number)

  datatype Subset = Subset(exactKeys: bool, queryCount: Option<int>, rates: Rates)

  /** `otherChecks` stands for the checks of the suite that read no rate: its title, backend, stages and seeding. */
  datatype Suite = Suite(cases: seq<Case>, queryCount: Option<int>, overall: Rates, onlyTwoSubsets: bool,
                         lexical: Subset, paraphrase: Subset, otherChecks: bool)

  const LEXICAL_COUNT: nat := 32
  const PARAPHRASE_COUNT: nat := 16

  // ---------- Means over cases ----------

  function MetricOf(c: Case, metric: Metric): Number
  {
    if c.NotAnObject? || c.metrics.None? then NotANumber
    else
      match metric
      case RecallAt1 => c.metrics.value.recallAt1
      case RecallAt5 => c.metrics.value.recallAt5
      case ReciprocalRank => c.metrics.value.reciprocalRank
  }

  predicate AllNumbers(cases: seq<Case>, metric: Metric)
  {
    forall i :: 0 <= i < |cases| ==> MetricOf(cases[i], metric).Number?
  }

  function ValueOf(n: Number): real
  {
    if n.Number? then n.value else 0.0
  }

  function Total(cases: seq<Case>, metric: Metric): real
  {
    if cases == [] then 0.0 else ValueOf(MetricOf(cases[0], metric)) + Total(cases[1..], metric)
  }

  function Mean(total: real, count: nat): real
    requires count > 0
  {
    total / count as real
  }

  /** The mean of a metric, or None if there is no case or one without the metric. */
  function MeanOf(cases: seq<Case>, metric: Metric): Option<real>
  {
    if cases == [] || !AllNumbers(cases, metric) then None else Some(Mean(Total(cases, metric), |cases|))
  }

  lemma {:induction false} TotalGrows(cases: seq<Case>, c: Case, metric: Metric)
    ensures Total(cases + [c], metric) == Total(cases, metric) + ValueOf(MetricOf(c, metric))
  {
    hide MetricOf;
    if cases != [] {
      TotalGrows(cases[1..], c, metric);
      assert (cases + [c])[1..] == cases[1..] + [c];
    } else {
      assert [] + [c] == [c];
    }
  }

  method MeanCaseMetric(cases: seq<Case>, metric: Metric) returns (mean: Option<real>)
    ensures mean == MeanOf(cases, metric)
  {
    hide MetricOf;
    var sum := 0.0;
    for i := 0 to |cases|
      invariant sum == Total(cases[..i], metric)
      invariant forall k :: 0 <= k < i ==> MetricOf(cases[k], metric).Number?
    {
      var value := MetricOf(cases[i], metric);
      if value.NotANumber? {
        return None;
      }
      TotalGrows(cases[..i], cases[i], metric);
      assert cases[..i + 1] == cases[..i] + [cases[i]];
      sum := sum + value.value;
    }
    assert cases[..|cases|] == cases;
    mean := if cases == [] then None else Some(Mean(sum, |cases|));
  }

  // ---------- The check ----------

  function Abs(x: real): real { if x < 0.0 then -x else x }

  function Max(x: real, y: real): real { if x < y then y else x }

  const RELATIVE: real := 0.000000001
  const ABSOLUTE: real := 0.000000000001

  predicate IsClose(a: real, b: real)
  {
    Abs(a - b) <= Max(RELATIVE * Max(Abs(a), Abs(b)), ABSOLUTE)
  }

  predicate Derived(value: Number, expected: Option<real>)
  {
    expected.Some? && value.Number? && IsClose(value.value, expected.value)
  }

  predicate RatesOfCases(rates: Rates, cases: seq<Case>)
  {
    && InUnit(rates.recallAt1) && Derived(rates.recallAt1, MeanOf(cases, RecallAt1))
    && InUnit(rates.recallAt5) && Derived(rates.recallAt5, MeanOf(cases, RecallAt5))
    && InUnit(rates.mrr) && Derived(rates.mrr, MeanOf(cases, ReciprocalRank))
  }

  function InSubset(cases: seq<Case>, name: SubsetName): seq<Case>
  {
    if cases == [] then []
    else (if cases[0].Case? && cases[0].subset == name then [cases[0]] else []) + InSubset(cases[1..], name)
  }

  predicate SubsetIsGood(subset: Subset, cases: seq<Case>, name: SubsetName, count: nat)
  {
    subset.exactKeys && subset.queryCount == Some(count) && RatesOfCases(subset.rates, InSubset(cases, name))
  }

  predicate MeetsTargets(suite: Suite)
  {
    && suite.lexical.rates.recallAt5.Number? && suite.lexical.rates.recallAt5.value >= 0.8
    && suite.lexical.rates.mrr.Number? && suite.lexical.rates.mrr.value >= 0.6
    && suite.paraphrase.rates.recallAt5.Number? && suite.paraphrase.rates.recallAt5.value >= 0.7
  }

  predicate AllGood(cases: seq<Case>, canonical: seq<CanonicalCase>)
  {
    && |cases| == |canonical|
    && forall i :: 0 <= i < |cases| ==> cases[i].Case? && cases[i].key == canonical[i].key
                                        && GoodCase(cases[i], canonical[i])
  }

  predicate Accepted(suite: Suite, canonical: seq<CanonicalCase>)
  {
    && AllGood(suite.cases, canonical)
    && suite.queryCount == Some(|canonical|)
    && RatesOfCases(suite.overall, suite.cases)
    && suite.onlyTwoSubsets
    && SubsetIsGood(suite.lexical, suite.cases, LexicalOverlap, LEXICAL_COUNT)
    && SubsetIsGood(suite.paraphrase, suite.cases, Paraphrase, PARAPHRASE_COUNT)
    && MeetsTargets(suite)
    && suite.otherChecks
  }

  method RateIssues(rates: Rates, cases: seq<Case>) returns (issues: nat)
    ensures issues == 0 <==> RatesOfCases(rates, cases)
  {
    hide IsClose, MeanOf;
    issues := 0;
    if !InUnit(rates.recallAt1) {
      issues := issues + 1;
    }
    if !InUnit(rates.recallAt5) {
      issues := issues + 1;
    }
    if !InUnit(rates.mrr) {
      issues := issues + 1;
    }
    var expected := MeanCaseMetric(cases, RecallAt1);
    if !Derived(rates.recallAt1, expected) {
      issues := issues + 1;
    }
    expected := MeanCaseMetric(cases, RecallAt5);
    if !Derived(rates.recallAt5, expected) {
      issues := issues + 1;
    }
    expected := MeanCaseMetric(cases, ReciprocalRank);
    if !Derived(rates.mrr, expected) {
      issues := issues + 1;
    }
  }

  /** Every case against its canonical one: issues of the cases, of their keys and of their number. */
  method AllCaseIssues(cases: seq<Case>, canonical: seq<CanonicalCase>) returns (issues: nat)
    ensures issues == 0 <==> AllGood(cases, canonical)
  {
    hide GoodCase;
    issues := if |cases| == |canonical| then 0 else 1;
    for i := 0 to |cases|
      invariant issues == 0 ==> |cases| == |canonical|
      invariant issues == 0 <==> |cases| == |canonical| && AllGood(cases[..i], canonical[..i])
    {
      if i >= |canonical| {
        return 1;
      }
      if cases[i].NotAnObject? {
        issues := issues + 1;
      } else {
        if cases[i].key != canonical[i].key {
          issues := issues + 1;
        }
        var found := CaseIssues(cases[i], canonical[i]);
        issues := issues + |found|;
      }
    }
    assert cases[..|cases|] == cases;
    assert |cases| == |canonical| ==> canonical[..|cases|] == canonical;
  }

  method SuiteIssues(suite: Suite, canonical: seq<CanonicalCase>) returns (issues: nat)
    ensures issues == 0 <==> Accepted(suite, canonical)
  {
    hide AllGood, RatesOfCases, InSubset, MeetsTargets;
    issues := if MeetsTargets(suite) && suite.otherChecks then 0 else 1;
    var ofCases := AllCaseIssues(suite.cases, canonical);
    issues := issues + ofCases;
    if suite.queryCount != Some(|canonical|) {
      issues := issues + 1;
    }
    var ofRates := RateIssues(suite.overall, suite.cases);
    issues := issues + ofRates;
    if !suite.onlyTwoSubsets {
      issues := issues + 1;
    }
    var ofLexical := SubsetIssues(suite.lexical, suite.cases, LexicalOverlap, LEXICAL_COUNT);
    var ofParaphrase := SubsetIssues(suite.paraphrase, suite.cases, Paraphrase, PARAPHRASE_COUNT);
    issues := issues + ofLexical + ofParaphrase;
  }

  method SubsetIssues(subset: Subset, cases: seq<Case>, name: SubsetName, count: nat) returns (issues: nat)
    ensures issues == 0 <==> SubsetIsGood(subset, cases, name, count)
  {
    hide RatesOfCases;
    issues := if subset.exactKeys then 0 else 1;
    if subset.queryCount != Some(count) {
      issues := issues + 1;
    }
    var ofRates := RateIssues(subset.rates, InSubset(cases, name));
    issues := issues + ofRates;
  }

  // ---------- Totals of accepted cases ----------

  predicate CaseIsBounded(c: Case)
  {
    && c.Case? && c.metrics.Some?
    && var m := c.metrics.value;
       && InUnit(m.recallAt1) && InUnit(m.recallAt5) && InUnit(m.reciprocalRank)
       && BetweenBounds(m.recallAt1.value, m.recallAt5.value, m.reciprocalRank.value)
  }

  predicate AllBounded(cases: seq<Case>)
  {
    forall i :: 0 <= i < |cases| ==> CaseIsBounded(cases[i])
  }

  lemma AcceptedCasesAreBounded(cases: seq<Case>, canonical: seq<CanonicalCase>)
    requires AllGood(cases, canonical)
    ensures AllBounded(cases)
  {
    hide GoodCase;
    forall i | 0 <= i < |cases| ensures CaseIsBounded(cases[i]) {
      AcceptedCaseIsBounded(cases[i], canonical[i]);
      FieldsOfGoodCase(cases[i], canonical[i]);
    }
  }

  lemma FieldsOfGoodCase(c: Case, canonical: CanonicalCase)
    requires GoodCase(c, canonical)
    ensures c.Case? && c.metrics.Some?
  {
  }

  lemma {:induction false} BoundedTotals(cases: seq<Case>)
    requires AllBounded(cases)
    ensures var t1, t5, tr := Total(cases, RecallAt1), Total(cases, RecallAt5), Total(cases, ReciprocalRank);
            var n := |cases| as real;
            && t1 + (t5 - t1) / 5.0 <= tr <= t1 + (t5 - t1) / 2.0 + (n - t5) / 6.0
            && 0.0 <= t1 <= n && 0.0 <= t5 <= n && 0.0 <= tr <= n
  {
    if cases != [] {
      assert CaseIsBounded(cases[0]);
      BoundedTotals(cases[1..]);
    }
  }

  lemma MeanIsMonotone(a: real, b: real, n: nat)
    requires n > 0 && a <= b
    ensures Mean(a, n) <= Mean(b, n)
  {
    assert Mean(b, n) - Mean(a, n) == (b - a) / n as real;
  }

  lemma MeanOfMix(a: real, x: real, b: real, y: real, c: real, z: real, n: nat)
    requires n > 0
    ensures Mean(a * x + b * y + c * z, n) == a * Mean(x, n) + b * Mean(y, n) + c * Mean(z, n)
  {
    assert a * x / n as real == a * Mean(x, n);
    assert b * y / n as real == b * Mean(y, n);
    assert c * z / n as real == c * Mean(z, n);
  }

  lemma MeanIsLinear(n: nat, t1: real, t5: real, tr: real)
    requires n > 0
    requires t1 + (t5 - t1) / 5.0 <= tr <= t1 + (t5 - t1) / 2.0 + (n as real - t5) / 6.0
    ensures BetweenBounds(Mean(t1, n), Mean(t5, n), Mean(tr, n))
  {
    hide Mean;
    var low := 0.8 * t1 + 0.2 * t5 + 0.0 * tr;
    var high := 0.5 * t1 + (1.0 / 3.0) * t5 + (1.0 / 6.0) * n as real;
    MeanIsMonotone(low, tr, n);
    MeanIsMonotone(tr, high, n);
    MeanOfMix(0.8, t1, 0.2, t5, 0.0, tr, n);
    MeanOfMix(0.5, t1, 1.0 / 3.0, t5, 1.0 / 6.0, n as real, n);
    MeanOfAll(n);
  }

  lemma MeanOfAll(n: nat)
    requires n > 0
    ensures Mean(n as real, n) == 1.0
  {
  }

  lemma MeanInUnit(total: real, n: nat)
    requires n > 0 && 0.0 <= total <= n as real
    ensures 0.0 <= Mean(total, n) <= 1.0
  {
    MeanIsMonotone(0.0, total, n);
    MeanIsMonotone(total, n as real, n);
  }

  predicate Near(a: real, b: real) { Abs(a - b) <= RELATIVE }

  lemma CloseIsNear(a: real, b: real)
    requires IsClose(a, b) && 0.0 <= a <= 1.0 && 0.0 <= b <= 1.0
    ensures Near(a, b)
  {
  }

  /** Reported rates are within 1e-9 of the means of the cases they were recomputed from. */
  lemma ReportedAreNear(rates: Rates, cases: seq<Case>)
    requires RatesOfCases(rates, cases) && AllBounded(cases)
    ensures cases != []
    ensures Near(rates.recallAt1.value, Mean(Total(cases, RecallAt1), |cases|))
    ensures Near(rates.recallAt5.value, Mean(Total(cases, RecallAt5), |cases|))
    ensures Near(rates.mrr.value, Mean(Total(cases, ReciprocalRank), |cases|))
  {
    hide IsClose, Mean, CaseIsBounded, Total;
    BoundedTotals(cases);
    MeanInUnit(Total(cases, RecallAt1), |cases|);
    MeanInUnit(Total(cases, RecallAt5), |cases|);
    MeanInUnit(Total(cases, ReciprocalRank), |cases|);
    CloseIsNear(rates.recallAt1.value, Mean(Total(cases, RecallAt1), |cases|));
    CloseIsNear(rates.recallAt5.value, Mean(Total(cases, RecallAt5), |cases|));
    CloseIsNear(rates.mrr.value, Mean(Total(cases, ReciprocalRank), |cases|));
  }

  // ---------- The bounds of an accepted suite ----------

  predicate WithinSlack(r1: real, r5: real, mrr: real)
  {
    && r1 + (r5 - r1) / 5.0 - 2.0 * RELATIVE <= mrr
    && mrr <= r1 + (r5 - r1) / 2.0 + (1.0 - r5) / 6.0 + 11.0 * RELATIVE / 6.0
  }

  lemma NearKeepsBounds(r1: real, r5: real, mrr: real, m1: real, m5: real, mr: real)
    requires Near(r1, m1) && Near(r5, m5) && Near(mrr, mr) && BetweenBounds(m1, m5, mr)
    ensures WithinSlack(r1, r5, mrr)
  {
  }

  lemma RatesWithinSlack(rates: Rates, cases: seq<Case>)
    requires RatesOfCases(rates, cases) && AllBounded(cases)
    ensures WithinSlack(rates.recallAt1.value, rates.recallAt5.value, rates.mrr.value)
  {
    hide Mean, WithinSlack, Near, BetweenBounds, Derived, CaseIsBounded, Total;
    ReportedAreNear(rates, cases);
    BoundedTotals(cases);
    var t1, t5, tr := Total(cases, RecallAt1), Total(cases, RecallAt5), Total(cases, ReciprocalRank);
    MeanIsLinear(|cases|, t1, t5, tr);
    NearKeepsBounds(rates.recallAt1.value, rates.recallAt5.value, rates.mrr.value,
                    Mean(t1, |cases|), Mean(t5, |cases|), Mean(tr, |cases|));
  }

  lemma {:induction false} SubsetIsBounded(cases: seq<Case>, name: SubsetName)
    requires AllBounded(cases)
    ensures AllBounded(InSubset(cases, name))
  {
    hide CaseIsBounded;
    if cases != [] {
      SubsetIsBounded(cases[1..], name);
    }
  }

  /** An accepted suite keeps the rank bounds overall and in each subset. */
  lemma AcceptedSuiteIsBounded(suite: Suite, canonical: seq<CanonicalCase>)
    requires Accepted(suite, canonical)
    ensures WithinSlack(suite.overall.recallAt1.value, suite.overall.recallAt5.value, suite.overall.mrr.value)
    ensures var lexical := suite.lexical.rates;
            WithinSlack(lexical.recallAt1.value, lexical.recallAt5.value, lexical.mrr.value)
    ensures var paraphrase := suite.paraphrase.rates;
            WithinSlack(paraphrase.recallAt1.value, paraphrase.recallAt5.value, paraphrase.mrr.value)
  {
    hide WithinSlack, AllGood, AllBounded, InSubset, Derived;
    AcceptedCasesAreBounded(suite.cases, canonical);
    RatesWithinSlack(suite.overall, suite.cases);
    SubsetIsBounded(suite.cases, LexicalOverlap);
    SubsetIsBounded(suite.cases, Paraphrase);
    RatesWithinSlack(suite.lexical.rates, InSubset(suite.cases, LexicalOverlap));
    RatesWithinSlack(suite.paraphrase.rates, InSubset(suite.cases, Paraphrase));
  }

  // ---------- Overall rates are the weighted mean of the subset rates ----------

  /** The cases in neither of the two subsets. */
  function Outside(cases: seq<Case>): seq<Case>
  {
    if cases == [] then []
    else
      (if cases[0].Case? && (cases[0].subset == LexicalOverlap || cases[0].subset == Paraphrase) then []
       else [cases[0]])
      + Outside(cases[1..])
  }

  lemma {:induction false} TotalsSplit(cases: seq<Case>, metric: Metric)
    ensures |cases| == |InSubset(cases, LexicalOverlap)| + |InSubset(cases, Paraphrase)| + |Outside(cases)|
    ensures Total(cases, metric)
            == Total(InSubset(cases, LexicalOverlap), metric) + Total(InSubset(cases, Paraphrase), metric)
               + Total(Outside(cases), metric)
  {
    hide MetricOf, Total;
    if cases == [] {
      TotalOfNone(metric);
    } else {
      var c, rest := cases[0], cases[1..];
      TotalsSplit(rest, metric);
      assert [c] + rest == cases;
      TotalOfKept(c, true, rest, metric);
      TotalOfKept(c, c.Case? && c.subset == LexicalOverlap, InSubset(rest, LexicalOverlap), metric);
      TotalOfKept(c, c.Case? && c.subset == Paraphrase, InSubset(rest, Paraphrase), metric);
      TotalOfKept(c, !(c.Case? && (c.subset == LexicalOverlap || c.subset == Paraphrase)), Outside(rest), metric);
    }
  }

  lemma TotalOfNone(metric: Metric)
    ensures Total([], metric) == 0.0
  {
  }

  lemma TotalOfKept(c: Case, keep: bool, rest: seq<Case>, metric: Metric)
    ensures Total((if keep then [c] else []) + rest, metric)
            == (if keep then ValueOf(MetricOf(c, metric)) else 0.0) + Total(rest, metric)
  {
    hide MetricOf;
    if keep {
      assert ([c] + rest)[1..] == rest;
    } else {
      assert [] + rest == rest;
    }
  }

  function Times(a: real, n: nat): real { a * n as real }

  /** The mean over all cases when m of them have mean a, n have mean b, and the other k add up to `rest`. */
  function Weighted(a: real, m: nat, b: real, n: nat, rest: real, k: nat): real
    requires m + n + k > 0
  {
    Mean(Times(a, m) + Times(b, n) + rest, m + n + k)
  }

  lemma WeightedMeans(s: real, m: nat, t: real, n: nat, rest: real, k: nat)
    requires m > 0 && n > 0
    ensures Weighted(Mean(s, m), m, Mean(t, n), n, rest, k) == Mean(s + t + rest, m + n + k)
  {
    assert Times(Mean(s, m), m) == s;
    assert Times(Mean(t, n), n) == t;
  }

  lemma TimesIsMonotone(a: real, b: real, n: nat)
    requires a <= b
    ensures Times(a, n) <= Times(b, n)
  {
  }

  lemma WeightedIsMonotone(a: real, c: real, m: nat, b: real, d: real, n: nat, rest: real, k: nat)
    requires m > 0 && n > 0 && a <= c && b <= d
    ensures Weighted(a, m, b, n, rest, k) <= Weighted(c, m, d, n, rest, k)
  {
    hide Times, Mean;
    TimesIsMonotone(a, c, m);
    TimesIsMonotone(b, d, n);
    MeanIsMonotone(Times(a, m) + Times(b, n) + rest, Times(c, m) + Times(d, n) + rest, m + n + k);
  }

  lemma ShiftedSum(a: real, m: nat, b: real, n: nat, e: real)
    ensures Times(a + e, m) + Times(b + e, n) == Times(a, m) + Times(b, n) + Times(e, m + n)
  {
    assert (m + n) as real == m as real + n as real;
    assert (a + e) * m as real == a * m as real + e * m as real;
    assert (b + e) * n as real == b * n as real + e * n as real;
  }

  lemma MeanOfSum(x: real, y: real, n: nat)
    requires n > 0
    ensures Mean(x + y, n) == Mean(x, n) + Mean(y, n)
  {
  }

  lemma MeanOfPart(e: real, part: nat, whole: nat)
    requires 0 < part <= whole && e >= 0.0
    ensures 0.0 <= Mean(Times(e, part), whole) <= e
  {
    hide Mean;
    TimesIsMonotone(0.0, e, part);
    MeanOfZero(whole);
    MeanIsMonotone(0.0, Times(e, part), whole);
    PartIsLess(e, part, whole);
    MeanIsMonotone(Times(e, part), Times(e, whole), whole);
    MeanOfWhole(e, whole);
  }

  lemma MeanOfZero(n: nat)
    requires n > 0
    ensures Mean(0.0, n) == 0.0
  {
  }

  lemma PartIsLess(e: real, part: nat, whole: nat)
    requires part <= whole && e >= 0.0
    ensures Times(e, part) <= Times(e, whole)
  {
    var p, w := part as real, whole as real;
    assert p <= w;
    assert w * e >= p * e;
  }

  lemma MeanOfWhole(e: real, whole: nat)
    requires whole > 0
    ensures Mean(Times(e, whole), whole) == e
  {
    var w := whole as real;
    assert w > 0.0;
    assert (e * w) / w == e;
  }

  /** Moving both means up by e moves the whole mean up by no more. */
  lemma WeightedShift(a: real, m: nat, b: real, n: nat, rest: real, k: nat, e: real)
    requires m > 0 && n > 0 && e >= 0.0
    ensures Weighted(a + e, m, b + e, n, rest, k) <= Weighted(a, m, b, n, rest, k) + e
  {
    hide Times, Mean;
    ShiftedSum(a, m, b, n, e);
    MeanOfSum(Times(a, m) + Times(b, n) + rest, Times(e, m + n), m + n + k);
    MeanOfPart(e, m + n, m + n + k);
  }

  /** Near each of two rates gives near the mean they are part of. */
  lemma WeightedIsNear(a: real, c: real, m: nat, b: real, d: real, n: nat, rest: real, k: nat)
    requires m > 0 && n > 0 && Near(a, c) && Near(b, d)
    ensures Near(Weighted(a, m, b, n, rest, k), Weighted(c, m, d, n, rest, k))
  {
    hide Weighted;
    WeightedIsMonotone(a, c + RELATIVE, m, b, d + RELATIVE, n, rest, k);
    WeightedIsMonotone(c, a + RELATIVE, m, d, b + RELATIVE, n, rest, k);
    WeightedShift(c, m, d, n, rest, k, RELATIVE);
    WeightedShift(a, m, b, n, rest, k, RELATIVE);
  }

  /**
   An overall rate is within 2e-9 of the mean that the two subset rates and the cases outside both subsets give, each
   rate weighted by how many cases its subset has.
  */
  predicate IsWeightedMean(overall: real, a: real, b: real, cases: seq<Case>, metric: Metric)
    requires cases != []
  {
    var m, n := |InSubset(cases, LexicalOverlap)|, |InSubset(cases, Paraphrase)|;
    var rest := Outside(cases);
    m + n + |rest| > 0 &&
    Abs(overall - Weighted(a, m, b, n, Total(rest, metric), |rest|)) <= 2.0 * RELATIVE
  }

  lemma OneRateIsWeighted(cases: seq<Case>, metric: Metric, overall: real, a: real, b: real)
    requires InSubset(cases, LexicalOverlap) != [] && InSubset(cases, Paraphrase) != [] && cases != []
    requires Near(overall, Mean(Total(cases, metric), |cases|))
    requires var part := InSubset(cases, LexicalOverlap); Near(a, Mean(Total(part, metric), |part|))
    requires var part := InSubset(cases, Paraphrase); Near(b, Mean(Total(part, metric), |part|))
    ensures IsWeightedMean(overall, a, b, cases, metric)
  {
    hide Weighted, Mean, InSubset, Outside, Total;
    var lexical, paraphrase := InSubset(cases, LexicalOverlap), InSubset(cases, Paraphrase);
    var m, n, k := |lexical|, |paraphrase|, |Outside(cases)|;
    var s, t, rest := Total(lexical, metric), Total(paraphrase, metric), Total(Outside(cases), metric);
    TotalsSplit(cases, metric);
    WeightedMeans(s, m, t, n, rest, k);
    WeightedIsNear(a, Mean(s, m), m, b, Mean(t, n), n, rest, k);
  }

  /**
   In an accepted suite no subset is empty, and each overall rate is the case-weighted mean of the subset rates, with
   whatever cases there are outside both subsets counted in.
  */
  lemma OverallIsWeightedMean(suite: Suite, canonical: seq<CanonicalCase>)
    requires Accepted(suite, canonical)
    ensures InSubset(suite.cases, LexicalOverlap) != [] && InSubset(suite.cases, Paraphrase) != []
    ensures |suite.cases| == |canonical| > 0
    ensures var overall, lexical, paraphrase := suite.overall, suite.lexical.rates, suite.paraphrase.rates;
            && IsWeightedMean(overall.recallAt1.value, lexical.recallAt1.value, paraphrase.recallAt1.value, suite.cases,
                              RecallAt1)
            && IsWeightedMean(overall.recallAt5.value, lexical.recallAt5.value, paraphrase.recallAt5.value, suite.cases,
                              RecallAt5)
            && IsWeightedMean(overall.mrr.value, lexical.mrr.value, paraphrase.mrr.value, suite.cases, ReciprocalRank)
  {
    hide IsWeightedMean, AllGood, AllBounded, InSubset, Derived, Near;
    var cases := suite.cases;
    AcceptedCasesAreBounded(cases, canonical);
    SubsetIsBounded(cases, LexicalOverlap);
    SubsetIsBounded(cases, Paraphrase);
    ReportedAreNear(suite.overall, cases);
    ReportedAreNear(suite.lexical.rates, InSubset(cases, LexicalOverlap));
    ReportedAreNear(suite.paraphrase.rates, InSubset(cases, Paraphrase));
    SameCount(cases, canonical);
    OneRateIsWeighted(cases, RecallAt1, suite.overall.recallAt1.value, suite.lexical.rates.recallAt1.value,
                      suite.paraphrase.rates.recallAt1.value);
    OneRateIsWeighted(cases, RecallAt5, suite.overall.recallAt5.value, suite.lexical.rates.recallAt5.value,
                      suite.paraphrase.rates.recallAt5.value);
    OneRateIsWeighted(cases, ReciprocalRank, suite.overall.mrr.value, suite.lexical.rates.mrr.value,
                      suite.paraphrase.rates.mrr.value);
  }

  lemma SameCount(cases: seq<Case>, canonical: seq<CanonicalCase>)
    requires AllGood(cases, canonical)
    ensures |cases| == |canonical|
  {
  }

  /** There are cases outside both subsets exactly when some canonical case is. */
  lemma OutsideIsCanonical(suite: Suite, canonical: seq<CanonicalCase>)
    requires Accepted(suite, canonical)
    ensures Outside(suite.cases) == [] <==>
              forall i :: 0 <= i < |canonical| ==>
                canonical[i].subset == LexicalOverlap || canonical[i].subset == Paraphrase
  {
    OutsideOfGood(suite.cases, canonical);
  }

  lemma {:induction false} OutsideOfGood(cases: seq<Case>, canonical: seq<CanonicalCase>)
    requires AllGood(cases, canonical)
    ensures Outside(cases) == [] <==>
              forall i :: 0 <= i < |canonical| ==>
                canonical[i].subset == LexicalOverlap || canonical[i].subset == Paraphrase
  {
    hide GoodEvidence, MetricsOfRank;
    if cases != [] {
      OutsideOfGood(cases[1..], canonical[1..]);
      assert canonical == [canonical[0]] + canonical[1..];
    }
  }

  // ---------- Recall at 5 is the share of passing cases ----------

  function Passes(cases: seq<Case>): nat
  {
    if cases == [] then 0 else (if cases[0].Case? && cases[0].status == Pass then 1 else 0) + Passes(cases[1..])
  }

  predicate RecallIsStatus(c: Case)
  {
    c.Case? && MetricOf(c, RecallAt5) == Number(if c.status == Pass then 1.0 else 0.0)
  }

  lemma {:induction false} TotalIsPasses(cases: seq<Case>)
    requires forall i :: 0 <= i < |cases| ==> RecallIsStatus(cases[i])
    ensures Total(cases, RecallAt5) == Passes(cases) as real
  {
    hide MetricOf;
    if cases != [] {
      assert RecallIsStatus(cases[0]);
      TotalIsPasses(cases[1..]);
    }
  }

  lemma GoodCaseRecallIsStatus(c: Case, canonical: CanonicalCase)
    requires GoodCase(c, canonical)
    ensures RecallIsStatus(c)
  {
    AcceptedCaseIsBounded(c, canonical);
  }

  /** The reported recall at 5 is, up to rounding, the share of the cases whose status is pass. */
  lemma RecallIsPassShare(suite: Suite, canonical: seq<CanonicalCase>)
    requires Accepted(suite, canonical)
    ensures |canonical| > 0
    ensures Near(suite.overall.recallAt5.value, Mean(Passes(suite.cases) as real, |canonical|))
  {
    hide Near, Mean, CaseIsBounded, Derived, GoodCase, InSubset;
    AcceptedCasesAreBounded(suite.cases, canonical);
    ReportedAreNear(suite.overall, suite.cases);
    forall i | 0 <= i < |suite.cases| ensures RecallIsStatus(suite.cases[i]) {
      GoodCaseRecallIsStatus(suite.cases[i], canonical[i]);
    }
    TotalIsPasses(suite.cases);
  }
}
