/** The score of a whole question set at one budget, with its negative control: the next question's result. */
module SetScores {
  import opened Options
  import opened JsonStrings
  import opened JsonValues
  import opened Leaves
  import opened LeafPrefix
  import opened Scorer
  import opened AnchorChecks

  /** `floorHits` is None for a set of one question. Totals of bytes are kept, not their means. */
  datatype SetScore =
    | SetScore(n: nat, hits: nat, factsFound: nat, factsTotal: nat, floorHits: Option<nat>, bytes: nat)
    | Unusable

  // ---------- Sums over results ----------

  predicate AllScored(results: seq<Score>)
  {
    forall i :: 0 <= i < |results| ==> results[i].Score?
  }

  function CountTrue(flags: seq<bool>): nat
  {
    if flags == [] then 0 else CountTrue(flags[..|flags| - 1]) + (if flags[|flags| - 1] then 1 else 0)
  }

  function HitCount(results: seq<Score>): nat
  {
    if results == [] then 0
    else HitCount(results[..|results| - 1]) + (if Hit(results[|results| - 1]) then 1 else 0)
  }

  function FoundCount(results: seq<Score>): nat
    requires AllScored(results)
  {
    if results == [] then 0
    else FoundCount(results[..|results| - 1]) + CountTrue(results[|results| - 1].found)
  }

  function ByteCount(results: seq<Score>): nat
    requires AllScored(results)
  {
    if results == [] then 0 else ByteCount(results[..|results| - 1]) + results[|results| - 1].bytesTotal
  }

  function FactCount(questions: seq<Question>): nat
  {
    if questions == [] then 0
    else FactCount(questions[..|questions| - 1]) + |questions[|questions| - 1].facts|
  }

  // ---------- The results of a set ----------

  predicate HasOutputs(questions: seq<Question>, outputs: map<Text, Text>)
  {
    forall i :: 0 <= i < |questions| ==> questions[i].id in outputs
  }

  function ResultAt(questions: seq<Question>, outputs: map<Text, Text>, budget: nat, reprint: Text -> Text,
                    i: nat): Score
    requires HasOutputs(questions, outputs) && GoodReprint(reprint) && i < |questions|
  {
    ScoreOutput(outputs[questions[i].id], questions[i].facts, budget, reprint)
  }

  /** Question i's facts looked for in the next question's result. */
  function ControlAt(questions: seq<Question>, outputs: map<Text, Text>, budget: nat, reprint: Text -> Text,
                     i: nat): Score
    requires HasOutputs(questions, outputs) && GoodReprint(reprint) && i < |questions|
  {
    ScoreOutput(outputs[questions[(i + 1) % |questions|].id], questions[i].facts, budget, reprint)
  }

  function Results(questions: seq<Question>, outputs: map<Text, Text>, budget: nat,
                   reprint: Text -> Text): (r: seq<Score>)
    requires HasOutputs(questions, outputs) && GoodReprint(reprint)
    ensures |r| == |questions|
    ensures forall i: nat :: i < |r| ==> r[i] == ResultAt(questions, outputs, budget, reprint, i)
  {
    seq(|questions|, i requires 0 <= i < |questions| => ResultAt(questions, outputs, budget, reprint, i))
  }

  function Controls(questions: seq<Question>, outputs: map<Text, Text>, budget: nat,
                    reprint: Text -> Text): (r: seq<Score>)
    requires HasOutputs(questions, outputs) && GoodReprint(reprint)
    ensures |r| == |questions|
    ensures forall i: nat :: i < |r| ==> r[i] == ControlAt(questions, outputs, budget, reprint, i)
  {
    seq(|questions|, i requires 0 <= i < |questions| => ControlAt(questions, outputs, budget, reprint, i))
  }

  /** Every question has a result that can be scored, and there is a question. */
  predicate Usable(questions: seq<Question>, outputs: map<Text, Text>, budget: nat, reprint: Text -> Text)
    requires GoodReprint(reprint)
  {
    questions != [] && HasOutputs(questions, outputs) && AllScored(Results(questions, outputs, budget, reprint))
  }

  function ScoreOf(questions: seq<Question>, outputs: map<Text, Text>, budget: nat, reprint: Text -> Text): SetScore
    requires GoodReprint(reprint)
  {
    if !Usable(questions, outputs, budget, reprint) then Unusable
    else
      var results := Results(questions, outputs, budget, reprint);
      var controls := Controls(questions, outputs, budget, reprint);
      SetScore(|questions|, HitCount(results), FoundCount(results), FactCount(questions),
               if |questions| > 1 then Some(HitCount(controls)) else None, ByteCount(results))
  }

  /** Whether a result can be scored at all does not depend on the facts it is scored for. */
  lemma ScorableForAnyFacts(text: Text, f: seq<Fact>, g: seq<Fact>, budget: nat, reprint: Text -> Text)
    requires GoodReprint(reprint)
    ensures ScoreOutput(text, f, budget, reprint).Score? <==> ScoreOutput(text, g, budget, reprint).Score?
  {
    hide Locate, Readable, AllClassified, FactFound;
  }

  lemma ControlsAreScored(questions: seq<Question>, outputs: map<Text, Text>, budget: nat, reprint: Text -> Text)
    requires GoodReprint(reprint) && Usable(questions, outputs, budget, reprint)
    ensures AllScored(Controls(questions, outputs, budget, reprint))
  {
    hide ScoreOutput;
    forall i: nat | i < |questions| ensures ControlAt(questions, outputs, budget, reprint, i).Score? {
      var next := (i + 1) % |questions|;
      assert Results(questions, outputs, budget, reprint)[next].Score?;
      assert ResultAt(questions, outputs, budget, reprint, next).Score?;
      ScorableForAnyFacts(outputs[questions[next].id], questions[next].facts, questions[i].facts, budget, reprint);
    }
  }

  // ---------- Scoring ----------

  method CountFound(flags: seq<bool>) returns (count: nat)
    ensures count == CountTrue(flags)
  {
    count := 0;
    for i := 0 to |flags|
      invariant count == CountTrue(flags[..i])
    {
      assert flags[..i + 1][..i] == flags[..i];
      count := count + if flags[i] then 1 else 0;
    }
    assert flags[..|flags|] == flags;
  }

  lemma SumsGrow(results: seq<Score>, i: nat)
    requires i < |results| && AllScored(results[..i + 1])
    ensures results[..i + 1][..i] == results[..i]
    ensures AllScored(results[..i])
    ensures HitCount(results[..i + 1]) == HitCount(results[..i]) + if Hit(results[i]) then 1 else 0
    ensures FoundCount(results[..i + 1]) == FoundCount(results[..i]) + CountTrue(results[i].found)
    ensures ByteCount(results[..i + 1]) == ByteCount(results[..i]) + results[i].bytesTotal
  {
    hide Hit, CountTrue;
    assert results[..i + 1][..i] == results[..i];
    assert forall k :: 0 <= k < i ==> results[..i][k] == results[..i + 1][k];
  }

  method ScoreSet(questions: seq<Question>, outputs: map<Text, Text>, budget: nat, reprint: Text -> Text)
    returns (score: SetScore)
    requires GoodReprint(reprint)
    ensures score == ScoreOf(questions, outputs, budget, reprint)
  {
    hide ScoreOutput, Hit, HitCount, FoundCount, ByteCount, CountTrue, GoodReprint;
    if questions == [] || exists i :: 0 <= i < |questions| && questions[i].id !in outputs {
      return Unusable;
    }
    ghost var results := Results(questions, outputs, budget, reprint);
    ghost var controls := Controls(questions, outputs, budget, reprint);
    NoSums();
    var hits, factsFound, factsTotal, floorHits, bytes := 0, 0, 0, 0, 0;
    for i := 0 to |questions|
      invariant AllScored(results[..i])
      invariant hits == HitCount(results[..i]) && factsFound == FoundCount(results[..i])
      invariant bytes == ByteCount(results[..i]) && factsTotal == FactCount(questions[..i])
      invariant |questions| > 1 ==> floorHits == HitCount(controls[..i])
    {
      var result := ScoreOutput(outputs[questions[i].id], questions[i].facts, budget, reprint);
      assert results[i] == result;
      if !result.Score? {
        return Unusable;
      }
      assert AllScored(results[..i + 1]);
      SumsGrow(results, i);
      HitsGrow(controls, i);
      FactsGrow(questions, i);
      hits := hits + if Hit(result) then 1 else 0;
      var found := CountFound(result.found);
      factsFound, factsTotal := factsFound + found, factsTotal + |questions[i].facts|;
      bytes := bytes + result.bytesTotal;
      if |questions| > 1 {
        var neighbour := questions[(i + 1) % |questions|];
        var control := ScoreOutput(outputs[neighbour.id], questions[i].facts, budget, reprint);
        assert controls[i] == control;
        floorHits := floorHits + if Hit(control) then 1 else 0;
      }
    }
    WholeSums(questions, results, controls);
    return SetScore(|questions|, hits, factsFound, factsTotal, if |questions| > 1 then Some(floorHits) else None,
                    bytes);
  }

  lemma NoSums()
    ensures HitCount([]) == 0 && FoundCount([]) == 0 && ByteCount([]) == 0
  {
  }

  lemma HitsGrow(results: seq<Score>, i: nat)
    requires i < |results|
    ensures HitCount(results[..i + 1]) == HitCount(results[..i]) + if Hit(results[i]) then 1 else 0
  {
    hide Hit;
    assert results[..i + 1][..i] == results[..i];
  }

  lemma FactsGrow(questions: seq<Question>, i: nat)
    requires i < |questions|
    ensures FactCount(questions[..i + 1]) == FactCount(questions[..i]) + |questions[i].facts|
  {
    assert questions[..i + 1][..i] == questions[..i];
  }

  lemma WholeSums(questions: seq<Question>, results: seq<Score>, controls: seq<Score>)
    requires |results| == |questions| == |controls|
    ensures questions[..|questions|] == questions
    ensures results[..|questions|] == results
    ensures controls[..|questions|] == controls
  {
  }

  // ---------- What the totals mean ----------

  lemma {:induction false} CountAtMost(flags: seq<bool>)
    ensures CountTrue(flags) <= |flags|
    ensures CountTrue(flags) == |flags| <==> forall i :: 0 <= i < |flags| ==> flags[i]
  {
    if flags != [] {
      CountAtMost(flags[..|flags| - 1]);
      assert flags == flags[..|flags| - 1] + [flags[|flags| - 1]];
    }
  }

  predicate FlagPerFact(results: seq<Score>, questions: seq<Question>)
  {
    |results| == |questions| &&
    forall i :: 0 <= i < |results| ==> results[i].Score? && |results[i].found| == |questions[i].facts|
  }

  lemma {:induction false} HitsAndFacts(results: seq<Score>, questions: seq<Question>)
    requires FlagPerFact(results, questions)
    ensures HitCount(results) <= |questions| && FoundCount(results) <= FactCount(questions)
    ensures HitCount(results) == |questions| <==> FoundCount(results) == FactCount(questions)
  {
    hide CountTrue;
    if results != [] {
      var last := |results| - 1;
      HitsAndFacts(results[..last], questions[..last]);
      CountAtMost(results[last].found);
    }
  }

  lemma ResultsHaveFlags(questions: seq<Question>, outputs: map<Text, Text>, budget: nat, reprint: Text -> Text)
    requires GoodReprint(reprint) && Usable(questions, outputs, budget, reprint)
    ensures FlagPerFact(Results(questions, outputs, budget, reprint), questions)
  {
    hide Locate, Readable, AllClassified, FactFound, GoodReprint;
    forall i: nat | i < |questions|
      ensures var r := ResultAt(questions, outputs, budget, reprint, i); r.Score? && |r.found| == |questions[i].facts|
    {
      assert Results(questions, outputs, budget, reprint)[i].Score?;
    }
  }

  /** Every question is hit exactly when every fact is found. */
  lemma AllHitMeansAllFound(questions: seq<Question>, outputs: map<Text, Text>, budget: nat, reprint: Text -> Text)
    requires GoodReprint(reprint) && ScoreOf(questions, outputs, budget, reprint).SetScore?
    ensures var s := ScoreOf(questions, outputs, budget, reprint);
            s.hits <= s.n && s.factsFound <= s.factsTotal && (s.hits == s.n <==> s.factsFound == s.factsTotal)
  {
    hide ResultAt, GoodReprint, FlagPerFact;
    ResultsHaveFlags(questions, outputs, budget, reprint);
    HitsAndFacts(Results(questions, outputs, budget, reprint), questions);
  }

  // ---------- Larger budgets ----------

  /** Everything `low` finds, `high` finds too. */
  predicate AtLeast(low: Score, high: Score)
  {
    && low.Score? && high.Score? && |low.found| == |high.found|
    && forall i :: 0 <= i < |low.found| && low.found[i] ==> high.found[i]
  }

  predicate AllAtLeast(low: seq<Score>, high: seq<Score>)
  {
    |low| == |high| && forall i :: 0 <= i < |low| ==> AtLeast(low[i], high[i])
  }

  lemma {:induction false} MoreTrue(low: seq<bool>, high: seq<bool>)
    requires |low| == |high| && forall i :: 0 <= i < |low| && low[i] ==> high[i]
    ensures CountTrue(low) <= CountTrue(high)
  {
    if low != [] {
      MoreTrue(low[..|low| - 1], high[..|high| - 1]);
    }
  }

  lemma {:induction false} MoreFound(low: seq<Score>, high: seq<Score>)
    requires AllAtLeast(low, high)
    ensures AllScored(low) && AllScored(high)
    ensures HitCount(low) <= HitCount(high) && FoundCount(low) <= FoundCount(high)
  {
    hide CountTrue;
    if low != [] {
      var last := |low| - 1;
      MoreFound(low[..last], high[..last]);
      assert AtLeast(low[last], high[last]);
      MoreTrue(low[last].found, high[last].found);
      assert Hit(low[last]) ==> Hit(high[last]);
    }
  }

  lemma LargerBudgetFinds(text: Text, facts: seq<Fact>, small: nat, large: nat, reprint: Text -> Text)
    requires GoodReprint(reprint) && small <= large && ScoreOutput(text, facts, small, reprint).Score?
    ensures AtLeast(ScoreOutput(text, facts, small, reprint), ScoreOutput(text, facts, large, reprint))
  {
    hide Locate, Readable, AllClassified, FactFound, GoodReprint;
    var low := ScoreOutput(text, facts, small, reprint);
    forall i: nat | i < |facts| && low.found[i] ensures ScoreOutput(text, facts, large, reprint).found[i] {
      FoundGrowsWithBudget(text, facts, small, large, reprint, i);
    }
  }

  /** With a larger budget no total of a set falls, and the set stays usable. */
  lemma TotalsGrowWithBudget(questions: seq<Question>, outputs: map<Text, Text>, small: nat, large: nat,
                             reprint: Text -> Text)
    requires GoodReprint(reprint) && small <= large && ScoreOf(questions, outputs, small, reprint).SetScore?
    ensures var low, high := ScoreOf(questions, outputs, small, reprint), ScoreOf(questions, outputs, large, reprint);
            && high.SetScore? && low.hits <= high.hits && low.factsFound <= high.factsFound
            && (low.floorHits.Some? ==> high.floorHits.Some? && low.floorHits.value <= high.floorHits.value)
  {
    hide ScoreOutput, GoodReprint, AtLeast, HitCount, FoundCount, ByteCount;
    ControlsAreScored(questions, outputs, small, reprint);
    var low, high := Results(questions, outputs, small, reprint), Results(questions, outputs, large, reprint);
    var lowFloor, highFloor := Controls(questions, outputs, small, reprint),
        Controls(questions, outputs, large, reprint);
    forall i: nat | i < |questions| ensures AtLeast(low[i], high[i]) && AtLeast(lowFloor[i], highFloor[i]) {
      assert low[i].Score? && lowFloor[i].Score?;
      LargerBudgetFinds(outputs[questions[i].id], questions[i].facts, small, large, reprint);
      LargerBudgetFinds(outputs[questions[(i + 1) % |questions|].id], questions[i].facts, small, large, reprint);
    }
    MoreFound(low, high);
    MoreFound(lowFloor, highFloor);
  }

  // ---------- The bytes inside the budget decide ----------

  /** The outputs of every question agree up to the budget, and are at least that long. */
  predicate AgreeUpTo(questions: seq<Question>, one: map<Text, Text>, two: map<Text, Text>, budget: nat)
    requires HasOutputs(questions, one) && HasOutputs(questions, two)
  {
    forall i :: 0 <= i < |questions| ==> SharePrefix(one[questions[i].id], two[questions[i].id], budget)
  }

  predicate SharePrefix(s: Text, t: Text, b: nat)
  {
    b <= |s| && b <= |t| && s[..b] == t[..b]
  }

  lemma SamePrefixFindsAsMuch(s: Text, t: Text, facts: seq<Fact>, budget: nat, reprint: Text -> Text)
    requires GoodReprint(reprint) && SharePrefix(s, t, budget)
    requires ScoreOutput(s, facts, budget, reprint).Score? && ScoreOutput(t, facts, budget, reprint).Score?
    ensures AtLeast(ScoreOutput(s, facts, budget, reprint), ScoreOutput(t, facts, budget, reprint))
  {
    hide ScoreOutput;
    PrefixDecidesScore(s, t, facts, budget, reprint);
  }

  /** What a set finds at a budget is decided by the first bytes of its outputs, up to the budget. */
  lemma PrefixesDecideTotals(questions: seq<Question>, one: map<Text, Text>, two: map<Text, Text>, budget: nat,
                             reprint: Text -> Text)
    requires GoodReprint(reprint)
    requires Usable(questions, one, budget, reprint) && Usable(questions, two, budget, reprint)
    requires AgreeUpTo(questions, one, two, budget)
    ensures var s, t := ScoreOf(questions, one, budget, reprint), ScoreOf(questions, two, budget, reprint);
            s.hits <= t.hits && s.factsFound <= t.factsFound
            && (s.floorHits.Some? ==> t.floorHits.Some? && s.floorHits.value <= t.floorHits.value)
  {
    hide ScoreOutput, GoodReprint, AtLeast, SharePrefix, HitCount, FoundCount, ByteCount;
    ControlsAreScored(questions, one, budget, reprint);
    ControlsAreScored(questions, two, budget, reprint);
    var a, b := Results(questions, one, budget, reprint), Results(questions, two, budget, reprint);
    var c, d := Controls(questions, one, budget, reprint), Controls(questions, two, budget, reprint);
    forall i: nat | i < |questions| ensures AtLeast(a[i], b[i]) && AtLeast(c[i], d[i]) {
      assert a[i].Score? && b[i].Score? && c[i].Score? && d[i].Score?;
      var here, next := questions[i].id, questions[(i + 1) % |questions|].id;
      SamePrefixFindsAsMuch(one[here], two[here], questions[i].facts, budget, reprint);
      SamePrefixFindsAsMuch(one[next], two[next], questions[i].facts, budget, reprint);
    }
    MoreFound(a, b);
    MoreFound(c, d);
  }

  lemma SameTotals(questions: seq<Question>, one: map<Text, Text>, two: map<Text, Text>, budget: nat,
                   reprint: Text -> Text)
    requires GoodReprint(reprint)
    requires Usable(questions, one, budget, reprint) && Usable(questions, two, budget, reprint)
    requires AgreeUpTo(questions, one, two, budget)
    ensures var s, t := ScoreOf(questions, one, budget, reprint), ScoreOf(questions, two, budget, reprint);
            s.hits == t.hits && s.factsFound == t.factsFound && s.floorHits == t.floorHits
  {
    hide ResultAt, ControlAt, GoodReprint, HitCount, FoundCount, ByteCount;
    PrefixesDecideTotals(questions, one, two, budget, reprint);
    PrefixesDecideTotals(questions, two, one, budget, reprint);
  }
}
