/**
 The release check of one retrieval case: what its recorded ranks and metrics must be for the check to find no issue.
 Numbers are exact: a float of the report is the real it stands for.
*/
module RetrievalCases {
  import opened Options
  import opened JsonStrings
  import opened Whitespace

  const EVIDENCE_LIMIT: nat := 5
  const RECALL_LIMIT: nat := 10

  /** A metric of the report: absent values, booleans, texts, infinities and NaN are no numbers. */
  datatype Number = Number(value: real) | NotANumber

  datatype SubsetName = LexicalOverlap | Paraphrase | Another(name: Text)

  datatype Status = Pass | Fail | OtherStatus

  datatype Item = Key(text: Text) | NotText

  datatype Metrics = Metrics(recallAt1: Number, recallAt5: Number, reciprocalRank: Number, latency: Number)

  /** `topKeys` is None when the field is not a list, `candidates` when it is not an integer. */
  datatype Evidence = Evidence(query: Option<Text>, expectedKey: Option<Text>, topKeys: Option<seq<Item>>,
                               vectorStageEnabled: bool, candidates: Option<int>)

  /** `exactKeys` says whether the case, its metrics and its evidence hold exactly the fields they should. */
  datatype Case =
    | NotAnObject
    | Case(key: Text, subset: SubsetName, status: Status, exactKeys: bool, metrics: Option<Metrics>,
           evidence: Option<Evidence>)

  datatype CanonicalCase = CanonicalCase(key: Text, subset: SubsetName, query: Text, expectedKey: Text)

  datatype Issue =
    | WrongFields
    | BadStatus
    | WrongSubset
    | RecallAt5OutOfRange
    | RecallAt5NotBinary
    | RecallAt1OutOfRange
    | RecallAt1NotBinary
    | ReciprocalRankOutOfRange
    | BadLatency
    | WrongQuery
    | WrongExpectedKey
    | BadTopKeys
    | RecallAt5NotOfRank
    | RecallAt1NotOfRank
    | ReciprocalRankNotOfRank
    | ReciprocalRankInsideWindow
    | StatusNotOfRank
    | NoVectorStage
    | BadCandidateCount
    | EmptyQuery

  // ---------- Ranks ----------

  /** The place of the first `key`, counted from 1, or 0 if it is nowhere. */
  function RankOf(key: Text, items: seq<Item>): (rank: nat)
    ensures rank <= |items|
    ensures rank == 0 <==> Key(key) !in items
    ensures rank > 0 ==> items[rank - 1] == Key(key) && Key(key) !in items[..rank - 1]
  {
    if items == [] then 0
    else if items[0] == Key(key) then 1
    else
      var rest := RankOf(key, items[1..]);
      assert items == [items[0]] + items[1..];
      assert rest > 0 ==> items[..rest] == [items[0]] + items[1..][..rest - 1];
      if rest == 0 then 0 else rest + 1
  }

  function Reciprocal(rank: nat): real
    requires rank > 0
  {
    1.0 / rank as real
  }

  /** The reciprocal ranks of a target that is not among the displayed keys: none, or a rank from 6 through 10. */
  predicate OffWindow(value: real)
  {
    value == 0.0 || exists rank :: EVIDENCE_LIMIT < rank <= RECALL_LIMIT && value == Reciprocal(rank)
  }

  // ---------- Well-formed fields ----------

  predicate IsNonemptyString(text: Text)
  {
    text != [] && !IsBlank(text[0]) && !IsBlank(text[|text| - 1])
  }

  predicate InUnit(n: Number) { n.Number? && 0.0 <= n.value <= 1.0 }

  predicate Binary(n: Number) { n.Number? && (n.value == 0.0 || n.value == 1.0) }

  /** A list of one to five distinct nonempty texts. */
  predicate GoodTopKeys(keys: Option<seq<Item>>)
  {
    && keys.Some? && 1 <= |keys.value| <= EVIDENCE_LIMIT
    && (forall i :: 0 <= i < |keys.value| ==> keys.value[i].Key? && IsNonemptyString(keys.value[i].text))
    && (forall i, j :: 0 <= i < j < |keys.value| ==> keys.value[i] != keys.value[j])
  }

  function TargetRank(evidence: Evidence, canonical: CanonicalCase): nat
  {
    if evidence.topKeys.Some? then RankOf(canonical.expectedKey, evidence.topKeys.value) else 0
  }

  // ---------- The check ----------

  /** The metrics a case must have when its target is displayed at `rank`, 0 meaning nowhere. */
  predicate MetricsOfRank(metrics: Metrics, status: Status, rank: nat)
  {
    && metrics.recallAt5 == Number(if rank > 0 then 1.0 else 0.0)
    && metrics.recallAt1 == Number(if rank == 1 then 1.0 else 0.0)
    && metrics.reciprocalRank.Number?
    && (if rank > 0 then metrics.reciprocalRank.value == Reciprocal(rank) else OffWindow(metrics.reciprocalRank.value))
    && status == (if rank > 0 then Pass else Fail)
  }

  predicate GoodEvidence(evidence: Evidence, canonical: CanonicalCase)
  {
    && evidence.query == Some(canonical.query) && IsNonemptyString(canonical.query)
    && evidence.expectedKey == Some(canonical.expectedKey)
    && GoodTopKeys(evidence.topKeys)
    && evidence.vectorStageEnabled
    && evidence.candidates.Some? && evidence.candidates.value >= 1
  }

  predicate GoodCase(case_: Case, canonical: CanonicalCase)
  {
    && case_.Case? && case_.exactKeys && case_.metrics.Some? && case_.evidence.Some?
    && case_.subset == canonical.subset
    && case_.metrics.value.latency.Number? && case_.metrics.value.latency.value >= 0.0
    && GoodEvidence(case_.evidence.value, canonical)
    && MetricsOfRank(case_.metrics.value, case_.status, TargetRank(case_.evidence.value, canonical))
  }

  /** Whether the check reports the issue for a case whose metrics and evidence are there. */
  predicate Applies(issue: Issue, case_: Case, metrics: Metrics, evidence: Evidence, canonical: CanonicalCase)
    requires case_.Case?
  {
    match issue
    case WrongFields => !case_.exactKeys
    case BadStatus => case_.status.OtherStatus?
    case WrongSubset => case_.subset != canonical.subset
    case _ =>
      || OfMetrics(issue, metrics) || OfEvidence(issue, evidence, canonical)
      || OfRank(issue, metrics, case_.status, TargetRank(evidence, canonical))
  }

  predicate OfMetrics(issue: Issue, metrics: Metrics)
  {
    match issue
    case RecallAt5OutOfRange => !InUnit(metrics.recallAt5)
    case RecallAt5NotBinary => !Binary(metrics.recallAt5)
    case RecallAt1OutOfRange => !InUnit(metrics.recallAt1)
    case RecallAt1NotBinary => !Binary(metrics.recallAt1)
    case ReciprocalRankOutOfRange => !InUnit(metrics.reciprocalRank)
    case BadLatency => metrics.latency.NotANumber? || metrics.latency.value < 0.0
    case _ => false
  }

  predicate OfEvidence(issue: Issue, evidence: Evidence, canonical: CanonicalCase)
  {
    match issue
    case WrongQuery => evidence.query != Some(canonical.query)
    case WrongExpectedKey => evidence.expectedKey != Some(canonical.expectedKey)
    case BadTopKeys => !GoodTopKeys(evidence.topKeys)
    case NoVectorStage => !evidence.vectorStageEnabled
    case BadCandidateCount => evidence.candidates.None? || evidence.candidates.value < 1
    case EmptyQuery => evidence.query.None? || !IsNonemptyString(evidence.query.value)
    case _ => false
  }

  predicate OfRank(issue: Issue, metrics: Metrics, status: Status, rank: nat)
  {
    match issue
    case RecallAt5NotOfRank => metrics.recallAt5 != Number(if rank > 0 then 1.0 else 0.0)
    case RecallAt1NotOfRank => metrics.recallAt1 != Number(if rank == 1 then 1.0 else 0.0)
    case ReciprocalRankNotOfRank => rank > 0 && metrics.reciprocalRank != Number(Reciprocal(rank))
    case ReciprocalRankInsideWindow =>
      rank == 0 && metrics.reciprocalRank.Number? && !OffWindow(metrics.reciprocalRank.value)
    case StatusNotOfRank => status != (if rank > 0 then Pass else Fail)
    case _ => false
  }

  /** Each issue is reported exactly when it applies; without metrics or evidence the fields and the status are all. */
  ghost predicate AreIssues(issues: seq<Issue>, case_: Case, canonical: CanonicalCase)
    requires case_.Case?
  {
    forall issue :: issue in issues <==>
      if case_.metrics.None? || case_.evidence.None?
      then issue == WrongFields || (issue == BadStatus && case_.status.OtherStatus?)
      else Applies(issue, case_, case_.metrics.value, case_.evidence.value, canonical)
  }

  method CaseIssues(case_: Case, canonical: CanonicalCase) returns (issues: seq<Issue>)
    requires case_.Case?
    ensures issues == [] <==> GoodCase(case_, canonical)
    ensures AreIssues(issues, case_, canonical)
  {
    hide OfMetrics, OfEvidence, OfRank, GoodCase, TargetRank;
    issues := if case_.exactKeys then [] else [WrongFields];
    if case_.status.OtherStatus? {
      issues := issues + [BadStatus];
    }
    if case_.metrics.None? || case_.evidence.None? {
      issues := issues + [WrongFields];
      NoPartsNoGoodCase(case_, canonical);
      return;
    }
    if case_.subset != canonical.subset {
      issues := issues + [WrongSubset];
    }
    var metrics, evidence := case_.metrics.value, case_.evidence.value;
    var rank := TargetRank(evidence, canonical);
    var ofMetrics := MetricIssues(metrics);
    var ofEvidence := EvidenceIssues(evidence, canonical);
    var ofRank := RankIssues(metrics, case_.status, rank);
    KindsAreApart(metrics, evidence, canonical, case_.status, rank);
    issues := issues + ofMetrics + ofEvidence + ofRank;
    NothingApplies(case_, canonical, issues);
  }

  lemma NoPartsNoGoodCase(case_: Case, canonical: CanonicalCase)
    requires case_.Case? && (case_.metrics.None? || case_.evidence.None?)
    ensures !GoodCase(case_, canonical)
  {
  }

  lemma KindsAreApart(metrics: Metrics, evidence: Evidence, canonical: CanonicalCase, status: Status, rank: nat)
    ensures forall issue: Issue :: issue.WrongFields? || issue.BadStatus? || issue.WrongSubset? ==>
              !OfMetrics(issue, metrics) && !OfEvidence(issue, evidence, canonical)
              && !OfRank(issue, metrics, status, rank)
  {
  }

  predicate GoodMetrics(metrics: Metrics)
  {
    && InUnit(metrics.recallAt5) && Binary(metrics.recallAt5) && InUnit(metrics.recallAt1) && Binary(metrics.recallAt1)
    && InUnit(metrics.reciprocalRank) && metrics.latency.Number? && metrics.latency.value >= 0.0
  }

  lemma NoneOfMetrics(metrics: Metrics)
    ensures (forall issue :: !OfMetrics(issue, metrics)) <==> GoodMetrics(metrics)
  {
    hide InUnit, Binary;
    if forall issue :: !OfMetrics(issue, metrics) {
      assert !OfMetrics(RecallAt5OutOfRange, metrics) && !OfMetrics(RecallAt5NotBinary, metrics);
      assert !OfMetrics(RecallAt1OutOfRange, metrics) && !OfMetrics(RecallAt1NotBinary, metrics);
      assert !OfMetrics(ReciprocalRankOutOfRange, metrics) && !OfMetrics(BadLatency, metrics);
    }
  }

  lemma NoneOfEvidence(evidence: Evidence, canonical: CanonicalCase)
    ensures (forall issue :: !OfEvidence(issue, evidence, canonical)) <==> GoodEvidence(evidence, canonical)
  {
    hide GoodTopKeys, IsNonemptyString;
    if forall issue :: !OfEvidence(issue, evidence, canonical) {
      assert !OfEvidence(WrongQuery, evidence, canonical) && !OfEvidence(WrongExpectedKey, evidence, canonical);
      assert !OfEvidence(BadTopKeys, evidence, canonical) && !OfEvidence(NoVectorStage, evidence, canonical);
      assert !OfEvidence(BadCandidateCount, evidence, canonical) && !OfEvidence(EmptyQuery, evidence, canonical);
    }
  }

  lemma NoneOfRank(metrics: Metrics, status: Status, rank: nat)
    requires metrics.reciprocalRank.Number?
    ensures (forall issue :: !OfRank(issue, metrics, status, rank)) <==> MetricsOfRank(metrics, status, rank)
  {
    hide OffWindow, Reciprocal;
    if forall issue :: !OfRank(issue, metrics, status, rank) {
      assert !OfRank(RecallAt5NotOfRank, metrics, status, rank) && !OfRank(RecallAt1NotOfRank, metrics, status, rank);
      assert !OfRank(ReciprocalRankNotOfRank, metrics, status, rank);
      assert !OfRank(ReciprocalRankInsideWindow, metrics, status, rank);
      assert !OfRank(StatusNotOfRank, metrics, status, rank);
    }
  }

  /** There is no issue exactly when the case is good. */
  lemma NothingApplies(case_: Case, canonical: CanonicalCase, issues: seq<Issue>)
    requires case_.Case? && case_.metrics.Some? && case_.evidence.Some? && AreIssues(issues, case_, canonical)
    ensures issues == [] <==> GoodCase(case_, canonical)
  {
    hide OfMetrics, OfEvidence, OfRank, GoodMetrics, GoodEvidence, MetricsOfRank, TargetRank;
    var metrics, evidence, status := case_.metrics.value, case_.evidence.value, case_.status;
    var rank := TargetRank(evidence, canonical);
    NoneOfMetrics(metrics);
    NoneOfEvidence(evidence, canonical);
    if metrics.reciprocalRank.Number? {
      NoneOfRank(metrics, status, rank);
    }
    KindsAreApart(metrics, evidence, canonical, status, rank);
    GoodParts(case_, canonical);
    if issues == [] {
      assert !Applies(WrongFields, case_, metrics, evidence, canonical);
      assert !Applies(BadStatus, case_, metrics, evidence, canonical);
      assert !Applies(WrongSubset, case_, metrics, evidence, canonical);
      forall issue: Issue
        ensures !OfMetrics(issue, metrics) && !OfEvidence(issue, evidence, canonical)
                && !OfRank(issue, metrics, status, rank)
      {
        assert !Applies(issue, case_, metrics, evidence, canonical);
      }
    } else {
      assert issues[0] in issues;
    }
  }

  lemma GoodParts(case_: Case, canonical: CanonicalCase)
    requires case_.Case? && case_.metrics.Some? && case_.evidence.Some?
    ensures var metrics, evidence := case_.metrics.value, case_.evidence.value;
            && (GoodMetrics(metrics) ==> metrics.reciprocalRank.Number?)
            && (GoodCase(case_, canonical) <==>
                  && case_.exactKeys && case_.subset == canonical.subset && !case_.status.OtherStatus?
                  && GoodMetrics(metrics) && GoodEvidence(evidence, canonical)
                  && MetricsOfRank(metrics, case_.status, TargetRank(evidence, canonical)))
  {
    hide GoodEvidence, TargetRank, OffWindow, Reciprocal;
    var metrics, evidence := case_.metrics.value, case_.evidence.value;
    var rank := TargetRank(evidence, canonical);
    if rank > 0 {
      ReciprocalBounds(rank, 1, rank);
      assert Reciprocal(1) == 1.0 && Reciprocal(rank) >= 0.0 by {
        PositiveReciprocal(rank);
      }
    } else if metrics.reciprocalRank.Number? && OffWindow(metrics.reciprocalRank.value) {
      OffWindowBounds(metrics.reciprocalRank.value);
    }
  }

  lemma PositiveReciprocal(rank: nat)
    requires rank > 0
    ensures Reciprocal(1) == 1.0 && Reciprocal(rank) >= 0.0
  {
  }

  method MetricIssues(metrics: Metrics) returns (issues: seq<Issue>)
    ensures forall issue :: issue in issues <==> OfMetrics(issue, metrics)
  {
    hide InUnit, Binary;
    issues := if InUnit(metrics.recallAt5) then [] else [RecallAt5OutOfRange];
    if !Binary(metrics.recallAt5) {
      issues := issues + [RecallAt5NotBinary];
    }
    if !InUnit(metrics.recallAt1) {
      issues := issues + [RecallAt1OutOfRange];
    }
    if !Binary(metrics.recallAt1) {
      issues := issues + [RecallAt1NotBinary];
    }
    if !InUnit(metrics.reciprocalRank) {
      issues := issues + [ReciprocalRankOutOfRange];
    }
    if metrics.latency.NotANumber? || metrics.latency.value < 0.0 {
      issues := issues + [BadLatency];
    }
  }

  method EvidenceIssues(evidence: Evidence, canonical: CanonicalCase) returns (issues: seq<Issue>)
    ensures forall issue :: issue in issues <==> OfEvidence(issue, evidence, canonical)
  {
    hide GoodTopKeys, IsNonemptyString;
    issues := if evidence.query == Some(canonical.query) then [] else [WrongQuery];
    if evidence.expectedKey != Some(canonical.expectedKey) {
      issues := issues + [WrongExpectedKey];
    }
    if !GoodTopKeys(evidence.topKeys) {
      issues := issues + [BadTopKeys];
    }
    if !evidence.vectorStageEnabled {
      issues := issues + [NoVectorStage];
    }
    if evidence.candidates.None? || evidence.candidates.value < 1 {
      issues := issues + [BadCandidateCount];
    }
    if evidence.query.None? || !IsNonemptyString(evidence.query.value) {
      issues := issues + [EmptyQuery];
    }
  }

  method RankIssues(metrics: Metrics, status: Status, rank: nat) returns (issues: seq<Issue>)
    ensures forall issue :: issue in issues <==> OfRank(issue, metrics, status, rank)
  {
    hide OffWindow, Reciprocal;
    issues := if metrics.recallAt5 == Number(if rank > 0 then 1.0 else 0.0) then [] else [RecallAt5NotOfRank];
    if metrics.recallAt1 != Number(if rank == 1 then 1.0 else 0.0) {
      issues := issues + [RecallAt1NotOfRank];
    }
    if rank > 0 {
      if metrics.reciprocalRank != Number(Reciprocal(rank)) {
        issues := issues + [ReciprocalRankNotOfRank];
      }
    } else if metrics.reciprocalRank.Number? {
      if !OffWindow(metrics.reciprocalRank.value) {
        issues := issues + [ReciprocalRankInsideWindow];
      }
    }
    if status != (if rank > 0 then Pass else Fail) {
      issues := issues + [StatusNotOfRank];
    }
  }

  lemma ReciprocalBounds(rank: nat, low: nat, high: nat)
    requires 0 < low <= rank <= high
    ensures Reciprocal(high) <= Reciprocal(rank) <= Reciprocal(low)
  {
    Inverted(rank as real, high as real);
    Inverted(low as real, rank as real);
  }

  lemma Inverted(a: real, b: real)
    requires 0.0 < a <= b
    ensures 1.0 / b <= 1.0 / a
  {
    assert 1.0 / a - 1.0 / b == (b - a) / (a * b);
  }

  lemma OffWindowBounds(value: real)
    requires OffWindow(value)
    ensures 0.0 <= value <= 1.0 / 6.0
  {
    if value != 0.0 {
      var rank :| EVIDENCE_LIMIT < rank <= RECALL_LIMIT && value == Reciprocal(rank);
      ReciprocalBounds(rank, 6, 10);
    }
  }

  lemma RankWithinEvidence(evidence: Evidence, canonical: CanonicalCase)
    ensures GoodEvidence(evidence, canonical) ==> TargetRank(evidence, canonical) <= EVIDENCE_LIMIT
  {
    hide IsNonemptyString;
  }

  // ---------- What an accepted case tells ----------

  predicate BetweenBounds(r1: real, r5: real, rr: real)
  {
    r1 + (r5 - r1) / 5.0 <= rr <= r1 + (r5 - r1) / 2.0 + (1.0 - r5) / 6.0
  }

  /** The two recalls of an accepted case confine its reciprocal rank, and its status is its recall at 5. */
  lemma AcceptedCaseIsBounded(case_: Case, canonical: CanonicalCase)
    requires GoodCase(case_, canonical)
    ensures var m := case_.metrics.value;
            && Binary(m.recallAt1) && Binary(m.recallAt5) && InUnit(m.reciprocalRank)
            && m.recallAt1.value <= m.recallAt5.value
            && BetweenBounds(m.recallAt1.value, m.recallAt5.value, m.reciprocalRank.value)
            && (case_.status == Pass <==> m.recallAt5.value == 1.0)
  {
    hide OffWindow, GoodTopKeys, IsNonemptyString, Reciprocal;
    var m, rank := case_.metrics.value, TargetRank(case_.evidence.value, canonical);
    RankWithinEvidence(case_.evidence.value, canonical);
    assert MetricsOfRank(m, case_.status, rank);
    if rank == 0 {
      OffWindowBounds(m.reciprocalRank.value);
    } else {
      DisplayedBounds(rank);
    }
  }

  lemma DisplayedBounds(rank: nat)
    requires 1 <= rank <= EVIDENCE_LIMIT
    ensures rank == 1 ==> Reciprocal(rank) == 1.0
    ensures rank > 1 ==> 1.0 / 5.0 <= Reciprocal(rank) <= 1.0 / 2.0
  {
    if rank > 1 {
      ReciprocalBounds(rank, 2, 5);
    }
  }
}
