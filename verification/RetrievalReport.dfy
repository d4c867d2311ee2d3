/** What the release check asks of a retrieval report, with every number written out. */
module RetrievalReport {
  import opened Options
  import opened JsonStrings
  import opened RetrievalCases
  import opened RetrievalSuite

  // ---------- One case ----------

  /** The first of the displayed keys that is `key` is in this place, counted from 1. */
  predicate DisplayedAt(keys: seq<Item>, key: Text, place: nat)
  {
    1 <= place <= |keys| && keys[place - 1] == Key(key) && forall i :: 0 <= i < place - 1 ==> keys[i] != Key(key)
  }

  /** The numbers of a passing case whose target is displayed in this place. */
  predicate PassesAt(metrics: Metrics, status: Status, place: nat)
  {
    && metrics.recallAt5 == Number(1.0) && metrics.recallAt1 == Number(if place == 1 then 1.0 else 0.0)
    && metrics.reciprocalRank.Number? && metrics.reciprocalRank.value * place as real == 1.0 && status.Pass?
  }

  /** The numbers of a failing case: its target may still rank sixth through tenth. */
  predicate FailsOffWindow(metrics: Metrics, status: Status)
  {
    && metrics.recallAt5 == Number(0.0) && metrics.recallAt1 == Number(0.0) && metrics.reciprocalRank.Number?
    && metrics.reciprocalRank.value in {0.0, 1.0 / 6.0, 1.0 / 7.0, 1.0 / 8.0, 1.0 / 9.0, 1.0 / 10.0} && status.Fail?
  }

  lemma OffWindowExactly(value: real)
    ensures OffWindow(value) <==> value in {0.0, 1.0 / 6.0, 1.0 / 7.0, 1.0 / 8.0, 1.0 / 9.0, 1.0 / 10.0}
  {
    assert Reciprocal(6) == 1.0 / 6.0 && Reciprocal(7) == 1.0 / 7.0 && Reciprocal(8) == 1.0 / 8.0;
    assert Reciprocal(9) == 1.0 / 9.0 && Reciprocal(10) == 1.0 / 10.0;
    if OffWindow(value) && value != 0.0 {
      var rank :| EVIDENCE_LIMIT < rank <= RECALL_LIMIT && value == Reciprocal(rank);
      assert rank == 6 || rank == 7 || rank == 8 || rank == 9 || rank == 10;
    }
  }

  lemma RankIsPlace(keys: seq<Item>, key: Text, place: nat)
    requires DisplayedAt(keys, key, place)
    ensures RankOf(key, keys) == place
  {
    assert keys[place - 1] in keys;
    PlaceIsDisplayed(keys, key);
  }

  lemma ReciprocalExactly(value: real, rank: nat)
    requires rank > 0
    ensures value == Reciprocal(rank) <==> value * rank as real == 1.0
  {
  }

  lemma MetricsSay(metrics: Metrics, status: Status, keys: seq<Item>, key: Text)
    ensures MetricsOfRank(metrics, status, RankOf(key, keys)) <==>
              || (exists place: nat :: DisplayedAt(keys, key, place) && PassesAt(metrics, status, place))
              || (Key(key) !in keys && FailsOffWindow(metrics, status))
  {
    hide OffWindow, Reciprocal, RankOf;
    var rank := RankOf(key, keys);
    if rank > 0 {
      PlaceIsDisplayed(keys, key);
      if metrics.reciprocalRank.Number? {
        ReciprocalExactly(metrics.reciprocalRank.value, rank);
      }
      forall place: nat | DisplayedAt(keys, key, place) ensures place == rank {
        RankIsPlace(keys, key, place);
      }
    } else if metrics.reciprocalRank.Number? {
      OffWindowExactly(metrics.reciprocalRank.value);
    }
  }

  lemma PlaceIsDisplayed(keys: seq<Item>, key: Text)
    requires Key(key) in keys
    ensures DisplayedAt(keys, key, RankOf(key, keys))
  {
    var rank := RankOf(key, keys);
    forall i | 0 <= i < rank - 1 ensures keys[i] != Key(key) {
      assert keys[..rank - 1][i] == keys[i];
    }
  }

  /** One to five keys, all different, each a text without blanks at its ends. */
  predicate DisplaysKeys(keys: seq<Item>)
  {
    && 1 <= |keys| <= 5
    && (forall item :: item in keys ==> item.Key? && IsNonemptyString(item.text))
    && (forall i, j :: 0 <= i < j < |keys| ==> keys[i] != keys[j])
  }

  /** An accepted case, field by field. */
  lemma CaseSays(c: Case, canonical: CanonicalCase)
    requires c.Case?
    ensures GoodCase(c, canonical) <==>
              && c.exactKeys && c.subset == canonical.subset && c.metrics.Some? && c.evidence.Some?
              && var m, e := c.metrics.value, c.evidence.value;
                 && m.latency.Number? && m.latency.value >= 0.0
                 && e.query == Some(canonical.query) && IsNonemptyString(canonical.query)
                 && e.expectedKey == Some(canonical.expectedKey) && e.topKeys.Some? && DisplaysKeys(e.topKeys.value)
                 && e.vectorStageEnabled && e.candidates.Some? && e.candidates.value >= 1
                 && (|| (exists place: nat ::
                           DisplayedAt(e.topKeys.value, canonical.expectedKey, place) && PassesAt(m, c.status, place))
                     || (Key(canonical.expectedKey) !in e.topKeys.value && FailsOffWindow(m, c.status)))
  {
    hide IsNonemptyString, MetricsOfRank, RankOf, PassesAt, FailsOffWindow, DisplayedAt, DisplaysKeys, GoodTopKeys;
    if c.metrics.Some? && c.evidence.Some? && c.evidence.value.topKeys.Some? {
      MetricsSay(c.metrics.value, c.status, c.evidence.value.topKeys.value, canonical.expectedKey);
      KeysSay(c.evidence.value.topKeys.value);
    } else if c.evidence.Some? && c.evidence.value.topKeys.None? {
      NoKeys(c.evidence.value.topKeys);
    }
  }

  lemma KeysSay(keys: seq<Item>)
    ensures GoodTopKeys(Some(keys)) <==> DisplaysKeys(keys)
  {
    hide IsNonemptyString;
  }

  lemma NoKeys(keys: Option<seq<Item>>)
    requires keys.None?
    ensures !GoodTopKeys(keys)
  {
  }

  // ---------- The suite ----------

  /** As close as the check asks: within 1e-9 of either number's size, or within 1e-12. */
  predicate Close(a: real, b: real)
  {
    var gap := if a < b then b - a else a - b;
    || gap <= 0.000000001 * (if a < 0.0 then -a else a)
    || gap <= 0.000000001 * (if b < 0.0 then -b else b)
    || gap <= 0.000000000001
  }

  lemma CloseExactly(a: real, b: real)
    ensures IsClose(a, b) <==> Close(a, b)
  {
  }

  /** The number is in the unit interval and close to the mean of the metric over the cases, which all have it. */
  ghost predicate IsMean(rate: Number, cases: seq<Case>, metric: Metric)
  {
    && rate.Number? && 0.0 <= rate.value <= 1.0
    && cases != [] && (forall i :: 0 <= i < |cases| ==> MetricOf(cases[i], metric).Number?)
    && Close(rate.value, Total(cases, metric) / |cases| as real)
  }

  lemma MeanExactly(rate: Number, cases: seq<Case>, metric: Metric)
    ensures InUnit(rate) && Derived(rate, MeanOf(cases, metric)) <==> IsMean(rate, cases, metric)
  {
    hide IsClose, Close, MetricOf, Total;
    if cases != [] && rate.Number? {
      CloseExactly(rate.value, Mean(Total(cases, metric), |cases|));
    }
  }

  ghost predicate AreMeans(rates: Rates, cases: seq<Case>)
  {
    && IsMean(rates.recallAt1, cases, RecallAt1) && IsMean(rates.recallAt5, cases, RecallAt5)
    && IsMean(rates.mrr, cases, ReciprocalRank)
  }

  lemma MeansExactly(rates: Rates, cases: seq<Case>)
    ensures RatesOfCases(rates, cases) <==> AreMeans(rates, cases)
  {
    hide InUnit, Derived, MeanOf, IsMean;
    MeanExactly(rates.recallAt1, cases, RecallAt1);
    MeanExactly(rates.recallAt5, cases, RecallAt5);
    MeanExactly(rates.mrr, cases, ReciprocalRank);
  }

  /** An accepted suite: its cases, its counts, its rates and the targets of its subsets. */
  lemma SuiteSays(suite: Suite, canonical: seq<CanonicalCase>)
    ensures Accepted(suite, canonical) <==>
              && |suite.cases| == |canonical| && suite.queryCount == Some(|canonical|)
              && (forall i :: 0 <= i < |canonical| ==>
                    && suite.cases[i].Case? && suite.cases[i].key == canonical[i].key
                    && GoodCase(suite.cases[i], canonical[i]))
              && AreMeans(suite.overall, suite.cases) && suite.onlyTwoSubsets && suite.otherChecks
              && suite.lexical.exactKeys && suite.lexical.queryCount == Some(32)
              && AreMeans(suite.lexical.rates, InSubset(suite.cases, LexicalOverlap))
              && suite.paraphrase.exactKeys && suite.paraphrase.queryCount == Some(16)
              && AreMeans(suite.paraphrase.rates, InSubset(suite.cases, Paraphrase))
              && suite.lexical.rates.recallAt5.value >= 0.8 && suite.lexical.rates.mrr.value >= 0.6
              && suite.paraphrase.rates.recallAt5.value >= 0.7
  {
    hide GoodCase, RatesOfCases, InSubset;
    MeansExactly(suite.overall, suite.cases);
    MeansExactly(suite.lexical.rates, InSubset(suite.cases, LexicalOverlap));
    MeansExactly(suite.paraphrase.rates, InSubset(suite.cases, Paraphrase));
    hide IsMean;
    MeansAreNumbers(suite.lexical.rates, InSubset(suite.cases, LexicalOverlap));
    MeansAreNumbers(suite.paraphrase.rates, InSubset(suite.cases, Paraphrase));
  }

  lemma MeansAreNumbers(rates: Rates, cases: seq<Case>)
    ensures AreMeans(rates, cases) ==> rates.recallAt1.Number? && rates.recallAt5.Number? && rates.mrr.Number?
  {
  }
}
