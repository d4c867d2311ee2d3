/** What the anchor check reports, anchor by anchor, with every flag and count written out. */
module AnchorReport {
  import opened Options
  import opened JsonStrings
  import opened Whitespace
  import opened Scorer
  import opened AnchorChecks

  // ---------- One anchor ----------

  /** The row of an anchor: where its text occurs once whitespace is normalised, and what is flagged. */
  predicate IsRowOf(row: Row, question: Question, fact: nat, anchor: Anchor, snapshot: map<Text, Text>, gates: Gates)
  {
    var text := Normalize(anchor.text);
    && row.question == question.id && row.fact == fact && row.length == |text| && row.approved == anchor.approved
    && row.files == |set name | name in snapshot && Contains(Normalize(snapshot[name]), text)|
    && (row.inText <==> Contains(Normalize(question.text), text))
    && (row.inKeywords <==>
          if question.keywordQuery.Some? then Contains(Normalize(question.keywordQuery.value), text) else text == [])
    && (row.flags.short <==> row.length < gates.minLength)
    && (row.flags.manyFiles <==> row.files > gates.maxFiles)
    && (row.flags.inQuestion <==> row.inText || row.inKeywords)
  }

  /** What an anchor comes to: its file is missing, or does not hold it, or there is a row for it. */
  ghost predicate IsOutcomeOf(outcome: Outcome, question: Question, fact: nat, anchor: Anchor,
                              snapshot: map<Text, Text>, gates: Gates)
  {
    match outcome
    case NoSuchFile(id, number, file) =>
      id == question.id && number == fact && file == anchor.file && anchor.file !in snapshot
    case NotVerbatim(id, number, file) =>
      && id == question.id && number == fact && file == anchor.file && anchor.file in snapshot
      && !Contains(Normalize(snapshot[anchor.file]), Normalize(anchor.text))
    case Found(row) =>
      && anchor.file in snapshot && Contains(Normalize(snapshot[anchor.file]), Normalize(anchor.text))
      && IsRowOf(row, question, fact, anchor, snapshot, gates)
  }

  lemma InNothing(text: Text)
    ensures Contains([], text) <==> text == []
  {
    assert text == [] ==> OccursAt([], text, 0);
  }

  lemma OutcomeExactly(outcome: Outcome, question: Question, fact: nat, anchor: Anchor, snapshot: map<Text, Text>,
                       gates: Gates)
    ensures outcome == OutcomeOf(question, fact, anchor, snapshot, gates)
            <==> IsOutcomeOf(outcome, question, fact, anchor, snapshot, gates)
  {
    hide Normalize, Contains;
    var text := Normalize(anchor.text);
    InNothing(text);
    assert Holding(text, snapshot) == set name | name in snapshot && Contains(Normalize(snapshot[name]), text);
  }

  // ---------- All anchors ----------

  lemma {:induction false} AnchorOutcomes(question: Question, fact: nat, anchors: seq<Anchor>,
                                          snapshot: map<Text, Text>, gates: Gates, outcome: Outcome)
    ensures |OfAnchors(question, fact, anchors, snapshot, gates)| == |anchors|
    ensures outcome in OfAnchors(question, fact, anchors, snapshot, gates) <==>
              exists a :: 0 <= a < |anchors| && IsOutcomeOf(outcome, question, fact, anchors[a], snapshot, gates)
  {
    hide IsOutcomeOf, OutcomeOf;
    if anchors != [] {
      var last := |anchors| - 1;
      AnchorOutcomes(question, fact, anchors[..last], snapshot, gates, outcome);
      OutcomeExactly(outcome, question, fact, anchors[last], snapshot, gates);
      assert forall a :: 0 <= a < last ==> anchors[..last][a] == anchors[a];
    }
  }

  /** The outcome is that of an anchor of one of the facts, which are numbered from 1. */
  ghost predicate OfSomeAnchor(outcome: Outcome, question: Question, facts: seq<Fact>, snapshot: map<Text, Text>,
                               gates: Gates)
  {
    exists f, a :: 0 <= f < |facts| && 0 <= a < |facts[f].anchors|
                   && IsOutcomeOf(outcome, question, f + 1, facts[f].anchors[a], snapshot, gates)
  }

  ghost function AnchorCount(facts: seq<Fact>): nat
  {
    if facts == [] then 0 else |facts[0].anchors| + AnchorCount(facts[1..])
  }

  lemma {:induction false} OneMoreFact(facts: seq<Fact>, fact: Fact)
    ensures AnchorCount(facts + [fact]) == AnchorCount(facts) + |fact.anchors|
  {
    if facts == [] {
      assert [] + [fact] == [fact] && [fact][1..] == [];
    } else {
      OneMoreFact(facts[1..], fact);
      assert (facts + [fact])[1..] == facts[1..] + [fact];
    }
  }

  lemma SomeAnchorStep(outcome: Outcome, question: Question, facts: seq<Fact>, snapshot: map<Text, Text>, gates: Gates)
    requires facts != []
    ensures var last := |facts| - 1;
            OfSomeAnchor(outcome, question, facts, snapshot, gates) <==>
              || OfSomeAnchor(outcome, question, facts[..last], snapshot, gates)
              || exists a :: 0 <= a < |facts[last].anchors|
                             && IsOutcomeOf(outcome, question, last + 1, facts[last].anchors[a], snapshot, gates)
  {
    hide IsOutcomeOf;
    var last := |facts| - 1;
    assert forall f :: 0 <= f < last ==> facts[..last][f] == facts[f];
  }

  lemma {:induction false} FactOutcomes(question: Question, facts: seq<Fact>, snapshot: map<Text, Text>,
                                        gates: Gates, outcome: Outcome)
    ensures |OfFacts(question, facts, snapshot, gates)| == AnchorCount(facts)
    ensures outcome in OfFacts(question, facts, snapshot, gates)
            <==> OfSomeAnchor(outcome, question, facts, snapshot, gates)
  {
    hide IsOutcomeOf, OfAnchors, OfSomeAnchor;
    if facts == [] {
      NoAnchorOfNone(outcome, question, snapshot, gates);
    } else {
      var last := |facts| - 1;
      SomeAnchorStep(outcome, question, facts, snapshot, gates);
      FactOutcomes(question, facts[..last], snapshot, gates, outcome);
      AnchorOutcomes(question, last + 1, facts[last].anchors, snapshot, gates, outcome);
      OneMoreFact(facts[..last], facts[last]);
      assert facts == facts[..last] + [facts[last]];
    }
  }

  lemma NoAnchorOfNone(outcome: Outcome, question: Question, snapshot: map<Text, Text>, gates: Gates)
    ensures !OfSomeAnchor(outcome, question, [], snapshot, gates)
  {
  }

  /** Every anchor of every question has its outcome in the report, and there is nothing else in it. */
  lemma {:induction false} OutcomesExactly(questions: seq<Question>, snapshot: map<Text, Text>, gates: Gates,
                                           outcome: Outcome)
    ensures outcome in OfQuestions(questions, snapshot, gates) <==>
              exists q :: 0 <= q < |questions|
                          && OfSomeAnchor(outcome, questions[q], questions[q].facts, snapshot, gates)
  {
    hide OfSomeAnchor, OfFacts;
    if questions != [] {
      var last := |questions| - 1;
      OutcomesExactly(questions[..last], snapshot, gates, outcome);
      FactOutcomes(questions[last], questions[last].facts, snapshot, gates, outcome);
      assert forall q :: 0 <= q < last ==> questions[..last][q] == questions[q];
    }
  }

  ghost function AllAnchors(questions: seq<Question>): nat
  {
    if questions == [] then 0
    else AllAnchors(questions[..|questions| - 1]) + AnchorCount(questions[|questions| - 1].facts)
  }

  lemma {:induction false} OneOutcomeEach(questions: seq<Question>, snapshot: map<Text, Text>, gates: Gates)
    ensures |OfQuestions(questions, snapshot, gates)| == AllAnchors(questions)
  {
    hide OfFacts;
    if questions != [] {
      var last := questions[|questions| - 1];
      OneOutcomeEach(questions[..|questions| - 1], snapshot, gates);
      FactOutcomes(last, last.facts, snapshot, gates, NoSuchFile([], 0, []));
    }
  }

  lemma {:induction false} AnchorsInOrder(question: Question, fact: nat, anchors: seq<Anchor>,
                                          snapshot: map<Text, Text>, gates: Gates, a: nat)
    requires a < |anchors|
    ensures |OfAnchors(question, fact, anchors, snapshot, gates)| == |anchors|
    ensures IsOutcomeOf(OfAnchors(question, fact, anchors, snapshot, gates)[a], question, fact, anchors[a], snapshot,
                        gates)
  {
    hide IsOutcomeOf, OutcomeOf;
    var last := |anchors| - 1;
    var outcome := OutcomeOf(question, fact, anchors[last], snapshot, gates);
    AnchorOutcomes(question, fact, anchors[..last], snapshot, gates, outcome);
    if a < last {
      AnchorsInOrder(question, fact, anchors[..last], snapshot, gates, a);
    } else {
      OutcomeExactly(outcome, question, fact, anchors[last], snapshot, gates);
    }
  }

  /** The anchors of a fact are in order, after those of the facts before it, and these after earlier questions. */
  lemma OutcomesInOrder(questions: seq<Question>, snapshot: map<Text, Text>, gates: Gates, f: nat, a: nat)
    requires questions != []
    requires var last := questions[|questions| - 1]; |last.facts| == f + 1 && a < |last.facts[f].anchors|
    ensures var last := questions[|questions| - 1];
            var earlier := OfQuestions(questions[..|questions| - 1], snapshot, gates)
                           + OfFacts(last, last.facts[..f], snapshot, gates);
            var all := OfQuestions(questions, snapshot, gates);
            && earlier <= all && |earlier| + a < |all|
            && IsOutcomeOf(all[|earlier| + a], last, f + 1, last.facts[f].anchors[a], snapshot, gates)
  {
    hide IsOutcomeOf, OfAnchors;
    var last := questions[|questions| - 1];
    AnchorsInOrder(last, f + 1, last.facts[f].anchors, snapshot, gates, a);
    var before, facts := OfQuestions(questions[..|questions| - 1], snapshot, gates),
        OfFacts(last, last.facts[..f], snapshot, gates);
    var anchors := OfAnchors(last, f + 1, last.facts[f].anchors, snapshot, gates);
    assert OfFacts(last, last.facts, snapshot, gates) == facts + anchors;
    assert OfQuestions(questions, snapshot, gates) == (before + facts) + anchors;
  }

  // ---------- The report ----------

  lemma {:induction false} Sorted(outcomes: seq<Outcome>, outcome: Outcome, row: Row)
    ensures outcome in Misses(outcomes) <==> outcome in outcomes && !outcome.Found?
    ensures row in Rows(outcomes) <==> Found(row) in outcomes
    ensures |Misses(outcomes)| + |Rows(outcomes)| == |outcomes|
  {
    if outcomes != [] {
      var last := |outcomes| - 1;
      Sorted(outcomes[..last], outcome, row);
      assert outcomes == outcomes[..last] + [outcomes[last]];
    }
  }

  ghost predicate FlaggedAt(rows: seq<Row>, i: nat)
  {
    i < |rows| && (rows[i].flags.short || rows[i].flags.manyFiles || rows[i].flags.inQuestion)
  }

  /** Flagged, and approved by nobody. */
  ghost predicate OpenAt(rows: seq<Row>, i: nat)
  {
    FlaggedAt(rows, i) && (rows[i].approved.None? || rows[i].approved.value == [])
  }

  ghost function Indices(rows: seq<Row>, holds: (seq<Row>, nat) -> bool): set<nat>
  {
    set i: nat | i < |rows| && holds(rows, i)
  }

  lemma OneMoreRow(rows: seq<Row>, holds: (seq<Row>, nat) -> bool)
    requires rows != []
    requires forall i: nat :: i < |rows| - 1 ==> (holds(rows, i) <==> holds(rows[..|rows| - 1], i))
    ensures |Indices(rows, holds)|
            == |Indices(rows[..|rows| - 1], holds)| + if holds(rows, |rows| - 1) then 1 else 0
  {
    var last := |rows| - 1;
    assert Indices(rows, holds) == Indices(rows[..last], holds) + if holds(rows, last) then {last} else {};
  }

  lemma {:induction false} CountsAreIndices(rows: seq<Row>)
    ensures Flagged(rows) == |Indices(rows, FlaggedAt)|
    ensures Unapproved(rows) == |Indices(rows, OpenAt)|
  {
    if rows != [] {
      CountsAreIndices(rows[..|rows| - 1]);
      OneMoreRow(rows, FlaggedAt);
      OneMoreRow(rows, OpenAt);
    }
  }

  lemma CountsSay(rows: seq<Row>)
    ensures Flagged(rows) == |set i: nat | i < |rows| && FlaggedAt(rows, i)|
    ensures Unapproved(rows) == |set i: nat | i < |rows| && OpenAt(rows, i)|
  {
    hide FlaggedAt, OpenAt;
    CountsAreIndices(rows);
    assert Indices(rows, FlaggedAt) == set i: nat | i < |rows| && FlaggedAt(rows, i);
    assert Indices(rows, OpenAt) == set i: nat | i < |rows| && OpenAt(rows, i);
  }

  /** The report: the misses if there are any, and otherwise a row for every anchor with the two counts. */
  lemma ReportSays(questions: seq<Question>, snapshot: map<Text, Text>, gates: Gates)
    ensures var all := OfQuestions(questions, snapshot, gates);
            var report := ReportOf(all);
            && |all| == AllAnchors(questions)
            && (report.AnchorError? <==> exists outcome :: outcome in all && !outcome.Found?)
            && (report.AnchorError? ==>
                  forall outcome :: outcome in report.missing <==> outcome in all && !outcome.Found?)
            && (report.Verified? ==>
                  && |report.rows| == AllAnchors(questions)
                  && (forall row :: row in report.rows <==> Found(row) in all)
                  && report.flagged == |set i: nat | i < |report.rows| && FlaggedAt(report.rows, i)|
                  && report.unapproved == |set i: nat | i < |report.rows| && OpenAt(report.rows, i)|)
  {
    hide OfQuestions, Misses, Rows, Flagged, Unapproved, FlaggedAt, OpenAt, AllAnchors;
    var all := OfQuestions(questions, snapshot, gates);
    OneOutcomeEach(questions, snapshot, gates);
    forall outcome: Outcome ensures outcome in Misses(all) <==> outcome in all && !outcome.Found? {
      Sorted(all, outcome, AnyRow());
    }
    forall row: Row ensures row in Rows(all) <==> Found(row) in all {
      Sorted(all, NoSuchFile([], 0, []), row);
    }
    Sorted(all, NoSuchFile([], 0, []), AnyRow());
    assert Misses(all) != [] ==> Misses(all)[0] in Misses(all);
    CountsSay(Rows(all));
  }

  function AnyRow(): Row { Row([], 0, 0, 0, false, false, Flags(false, false, false), None) }
}
