/** The check of a question set's anchors against the snapshot they have to be verbatim in. */
module AnchorChecks {
  import opened Options
  import opened JsonStrings
  import opened Whitespace
  import opened Scorer

  datatype Question = Question(id: Text, text: Text, keywordQuery: Option<Text>, facts: seq<Fact>)

  datatype Gates = Gates(minLength: nat, maxFiles: nat)

  datatype Flags = Flags(short: bool, manyFiles: bool, inQuestion: bool)

  datatype Row = Row(question: Text, fact: nat, length: nat, files: nat, inText: bool, inKeywords: bool, flags: Flags,
                     approved: Option<Text>)

  datatype Outcome =
    | NoSuchFile(question: Text, fact: nat, file: Text)
    | NotVerbatim(question: Text, fact: nat, file: Text)
    | Found(row: Row)

  datatype Report = AnchorError(missing: seq<Outcome>) | Verified(rows: seq<Row>, flagged: nat, unapproved: nat)

  // ---------- What one anchor comes to ----------

  /** The files whose normal form holds a normal text. */
  function Holding(text: Text, snapshot: map<Text, Text>): set<Text>
  {
    set name | name in snapshot && Contains(Normalize(snapshot[name]), text)
  }

  function KeywordsOf(question: Question): Text
  {
    if question.keywordQuery.Some? then Normalize(question.keywordQuery.value) else []
  }

  function RowOf(question: Question, fact: nat, anchor: Anchor, snapshot: map<Text, Text>, gates: Gates): Row
  {
    var text := Normalize(anchor.text);
    var files := |Holding(text, snapshot)|;
    var inText, inKeywords := Contains(Normalize(question.text), text), Contains(KeywordsOf(question), text);
    Row(question.id, fact, |text|, files, inText, inKeywords,
        Flags(|text| < gates.minLength, files > gates.maxFiles, inText || inKeywords), anchor.approved)
  }

  function OutcomeOf(question: Question, fact: nat, anchor: Anchor, snapshot: map<Text, Text>, gates: Gates): Outcome
  {
    if anchor.file !in snapshot then NoSuchFile(question.id, fact, anchor.file)
    else if !Contains(Normalize(snapshot[anchor.file]), Normalize(anchor.text))
    then NotVerbatim(question.id, fact, anchor.file)
    else Found(RowOf(question, fact, anchor, snapshot, gates))
  }

  // ---------- All anchors of a question set, in order ----------

  function OfAnchors(question: Question, fact: nat, anchors: seq<Anchor>, snapshot: map<Text, Text>, gates: Gates):
    seq<Outcome>
  {
    if anchors == [] then []
    else OfAnchors(question, fact, anchors[..|anchors| - 1], snapshot, gates)
         + [OutcomeOf(question, fact, anchors[|anchors| - 1], snapshot, gates)]
  }

  function OfFacts(question: Question, facts: seq<Fact>, snapshot: map<Text, Text>, gates: Gates): seq<Outcome>
  {
    if facts == [] then []
    else OfFacts(question, facts[..|facts| - 1], snapshot, gates)
         + OfAnchors(question, |facts|, facts[|facts| - 1].anchors, snapshot, gates)
  }

  function OfQuestions(questions: seq<Question>, snapshot: map<Text, Text>, gates: Gates): seq<Outcome>
  {
    if questions == [] then []
    else OfQuestions(questions[..|questions| - 1], snapshot, gates)
         + OfFacts(questions[|questions| - 1], questions[|questions| - 1].facts, snapshot, gates)
  }

  function Misses(outcomes: seq<Outcome>): seq<Outcome>
  {
    if outcomes == [] then []
    else Misses(outcomes[..|outcomes| - 1])
         + (if outcomes[|outcomes| - 1].Found? then [] else [outcomes[|outcomes| - 1]])
  }

  function Rows(outcomes: seq<Outcome>): seq<Row>
  {
    if outcomes == [] then []
    else Rows(outcomes[..|outcomes| - 1])
         + (if outcomes[|outcomes| - 1].Found? then [outcomes[|outcomes| - 1].row] else [])
  }

  lemma {:induction false} Parts(before: seq<Outcome>, after: seq<Outcome>)
    ensures Misses(before + after) == Misses(before) + Misses(after)
    ensures Rows(before + after) == Rows(before) + Rows(after)
  {
    hide Misses, Rows;
    if after == [] {
      NoOutcomes();
      assert before + after == before;
    } else {
      var last := |after| - 1;
      Parts(before, after[..last]);
      PartsStep(after[..last], after[last]);
      PartsStep(before + after[..last], after[last]);
      assert after == after[..last] + [after[last]];
      assert before + after == before + after[..last] + [after[last]];
    }
  }

  lemma PartsStep(outcomes: seq<Outcome>, outcome: Outcome)
    ensures Misses(outcomes + [outcome]) == Misses(outcomes) + (if outcome.Found? then [] else [outcome])
    ensures Rows(outcomes + [outcome]) == Rows(outcomes) + (if outcome.Found? then [outcome.row] else [])
  {
    assert (outcomes + [outcome])[..|outcomes|] == outcomes;
  }

  predicate IsFlagged(row: Row) { row.flags.short || row.flags.manyFiles || row.flags.inQuestion }

  predicate IsApproved(row: Row) { row.approved.Some? && row.approved.value != [] }

  function Flagged(rows: seq<Row>): nat
  {
    if rows == [] then 0 else Flagged(rows[..|rows| - 1]) + (if IsFlagged(rows[|rows| - 1]) then 1 else 0)
  }

  function Unapproved(rows: seq<Row>): nat
  {
    if rows == [] then 0
    else Unapproved(rows[..|rows| - 1])
         + (if IsFlagged(rows[|rows| - 1]) && !IsApproved(rows[|rows| - 1]) then 1 else 0)
  }

  function ReportOf(outcomes: seq<Outcome>): Report
  {
    if Misses(outcomes) != [] then AnchorError(Misses(outcomes))
    else Verified(Rows(outcomes), Flagged(Rows(outcomes)), Unapproved(Rows(outcomes)))
  }

  // ---------- The check ----------

  method CheckFact(question: Question, fact: nat, anchors: seq<Anchor>, snapshot: map<Text, Text>, gates: Gates)
    returns (missing: seq<Outcome>, rows: seq<Row>)
    ensures missing == Misses(OfAnchors(question, fact, anchors, snapshot, gates))
    ensures rows == Rows(OfAnchors(question, fact, anchors, snapshot, gates))
  {
    hide RowOf, Contains, Normalize;
    missing, rows := [], [];
    for i := 0 to |anchors|
      invariant missing == Misses(OfAnchors(question, fact, anchors[..i], snapshot, gates))
      invariant rows == Rows(OfAnchors(question, fact, anchors[..i], snapshot, gates))
    {
      assert anchors[..i + 1][..i] == anchors[..i];
      var outcome := OutcomeOf(question, fact, anchors[i], snapshot, gates);
      Parts(OfAnchors(question, fact, anchors[..i], snapshot, gates), [outcome]);
      if outcome.Found? {
        rows := rows + [outcome.row];
      } else {
        missing := missing + [outcome];
      }
    }
    assert anchors[..|anchors|] == anchors;
  }

  method CheckQuestion(question: Question, snapshot: map<Text, Text>, gates: Gates)
    returns (missing: seq<Outcome>, rows: seq<Row>)
    ensures missing == Misses(OfFacts(question, question.facts, snapshot, gates))
    ensures rows == Rows(OfFacts(question, question.facts, snapshot, gates))
  {
    hide OfAnchors, Misses, Rows;
    missing, rows := [], [];
    NoOutcomes();
    for i := 0 to |question.facts|
      invariant missing == Misses(OfFacts(question, question.facts[..i], snapshot, gates))
      invariant rows == Rows(OfFacts(question, question.facts[..i], snapshot, gates))
    {
      assert question.facts[..i + 1][..i] == question.facts[..i];
      var missed, found := CheckFact(question, i + 1, question.facts[i].anchors, snapshot, gates);
      Parts(OfFacts(question, question.facts[..i], snapshot, gates),
            OfAnchors(question, i + 1, question.facts[i].anchors, snapshot, gates));
      missing, rows := missing + missed, rows + found;
    }
    assert question.facts[..|question.facts|] == question.facts;
  }

  lemma NoOutcomes()
    ensures Misses([]) == [] && Rows([]) == []
  {
  }

  method VerifyAnchors(questions: seq<Question>, snapshot: map<Text, Text>, gates: Gates) returns (report: Report)
    ensures report == ReportOf(OfQuestions(questions, snapshot, gates))
  {
    hide OfFacts, Misses, Rows;
    var missing: seq<Outcome>, rows: seq<Row> := [], [];
    NoOutcomes();
    for i := 0 to |questions|
      invariant missing == Misses(OfQuestions(questions[..i], snapshot, gates))
      invariant rows == Rows(OfQuestions(questions[..i], snapshot, gates))
    {
      assert questions[..i + 1][..i] == questions[..i];
      var missed, found := CheckQuestion(questions[i], snapshot, gates);
      Parts(OfQuestions(questions[..i], snapshot, gates), OfFacts(questions[i], questions[i].facts, snapshot, gates));
      missing, rows := missing + missed, rows + found;
    }
    assert questions[..|questions|] == questions;
    if missing != [] {
      return AnchorError(missing);
    }
    return Verified(rows, Flagged(rows), Unapproved(rows));
  }

  // ---------- What the check promises ----------

  /** The anchor is in the file it names, once both are normalised. */
  predicate Stands(anchor: Anchor, snapshot: map<Text, Text>)
  {
    anchor.file in snapshot && Contains(Normalize(snapshot[anchor.file]), Normalize(anchor.text))
  }

  predicate AnchorsStand(anchors: seq<Anchor>, snapshot: map<Text, Text>)
  {
    forall a :: 0 <= a < |anchors| ==> Stands(anchors[a], snapshot)
  }

  predicate FactsStand(facts: seq<Fact>, snapshot: map<Text, Text>)
  {
    forall f :: 0 <= f < |facts| ==> AnchorsStand(facts[f].anchors, snapshot)
  }

  predicate AllStand(questions: seq<Question>, snapshot: map<Text, Text>)
  {
    forall q :: 0 <= q < |questions| ==> FactsStand(questions[q].facts, snapshot)
  }

  lemma FoundMeansStands(question: Question, fact: nat, anchor: Anchor, snapshot: map<Text, Text>, gates: Gates)
    ensures OutcomeOf(question, fact, anchor, snapshot, gates).Found? <==> Stands(anchor, snapshot)
  {
  }

  lemma MissOfOne(outcome: Outcome)
    ensures Misses([outcome]) == if outcome.Found? then [] else [outcome]
  {
    NoOutcomes();
    assert [outcome][..0] == [];
  }

  lemma {:induction false} NoMissOfAnchors(question: Question, fact: nat, anchors: seq<Anchor>,
                                           snapshot: map<Text, Text>, gates: Gates)
    ensures Misses(OfAnchors(question, fact, anchors, snapshot, gates)) == [] <==> AnchorsStand(anchors, snapshot)
  {
    hide Stands, OutcomeOf, Misses, OfAnchors, AnchorsStand;
    if anchors == [] {
      NoAnchors(question, fact, snapshot, gates);
    } else {
      var last := |anchors| - 1;
      LastAnchor(question, fact, anchors, snapshot, gates);
      FoundMeansStands(question, fact, anchors[last], snapshot, gates);
      MissOfOne(OutcomeOf(question, fact, anchors[last], snapshot, gates));
      NoMissOfAnchors(question, fact, anchors[..last], snapshot, gates);
      Parts(OfAnchors(question, fact, anchors[..last], snapshot, gates),
            [OutcomeOf(question, fact, anchors[last], snapshot, gates)]);
    }
  }

  lemma NoAnchors(question: Question, fact: nat, snapshot: map<Text, Text>, gates: Gates)
    ensures Misses(OfAnchors(question, fact, [], snapshot, gates)) == [] && AnchorsStand([], snapshot)
  {
  }

  lemma LastAnchor(question: Question, fact: nat, anchors: seq<Anchor>, snapshot: map<Text, Text>, gates: Gates)
    requires anchors != []
    ensures var last := |anchors| - 1;
            && OfAnchors(question, fact, anchors, snapshot, gates)
               == OfAnchors(question, fact, anchors[..last], snapshot, gates)
                  + [OutcomeOf(question, fact, anchors[last], snapshot, gates)]
            && (AnchorsStand(anchors, snapshot) <==>
                  AnchorsStand(anchors[..last], snapshot) && Stands(anchors[last], snapshot))
  {
    hide Stands, OutcomeOf;
    assert anchors == anchors[..|anchors| - 1] + [anchors[|anchors| - 1]];
  }

  lemma {:induction false} NoMissOfFacts(question: Question, facts: seq<Fact>, snapshot: map<Text, Text>, gates: Gates)
    ensures Misses(OfFacts(question, facts, snapshot, gates)) == [] <==> FactsStand(facts, snapshot)
  {
    hide AnchorsStand, OfAnchors, Misses;
    NoOutcomes();
    if facts != [] {
      var last := |facts| - 1;
      NoMissOfFacts(question, facts[..last], snapshot, gates);
      NoMissOfAnchors(question, |facts|, facts[last].anchors, snapshot, gates);
      Parts(OfFacts(question, facts[..last], snapshot, gates),
            OfAnchors(question, |facts|, facts[last].anchors, snapshot, gates));
      assert facts == facts[..last] + [facts[last]];
    }
  }

  /** The check passes exactly when every anchor stands in its file. */
  lemma {:induction false} PassesExactly(questions: seq<Question>, snapshot: map<Text, Text>, gates: Gates)
    ensures ReportOf(OfQuestions(questions, snapshot, gates)).Verified? <==> AllStand(questions, snapshot)
  {
    hide FactsStand, OfFacts, Misses, Rows;
    NoOutcomes();
    if questions != [] {
      var last := |questions| - 1;
      PassesExactly(questions[..last], snapshot, gates);
      NoMissOfFacts(questions[last], questions[last].facts, snapshot, gates);
      Parts(OfQuestions(questions[..last], snapshot, gates),
            OfFacts(questions[last], questions[last].facts, snapshot, gates));
      assert questions == questions[..last] + [questions[last]];
    }
  }

  /**
   An anchor that is verbatim in its named file stands, whatever the whitespace, and is held by at least that file.
  */
  lemma VerbatimAnchorStands(question: Question, fact: nat, anchor: Anchor, snapshot: map<Text, Text>, gates: Gates)
    requires anchor.file in snapshot && Contains(snapshot[anchor.file], anchor.text)
    ensures Stands(anchor, snapshot)
    ensures OutcomeOf(question, fact, anchor, snapshot, gates).Found?
    ensures OutcomeOf(question, fact, anchor, snapshot, gates).row.files >= 1
  {
    hide Normalize, Contains;
    NormalizeKeepsContainment(snapshot[anchor.file], anchor.text);
    assert anchor.file in Holding(Normalize(anchor.text), snapshot);
  }

  /** An anchor that is verbatim in the question's own text, or in its keywords, is flagged. */
  lemma LeakedAnchorIsFlagged(question: Question, fact: nat, anchor: Anchor, snapshot: map<Text, Text>, gates: Gates)
    requires Contains(question.text, anchor.text)
             || (question.keywordQuery.Some? && Contains(question.keywordQuery.value, anchor.text))
    ensures IsFlagged(RowOf(question, fact, anchor, snapshot, gates))
  {
    hide Normalize, Contains, Holding;
    if Contains(question.text, anchor.text) {
      NormalizeKeepsContainment(question.text, anchor.text);
    } else {
      NormalizeKeepsContainment(question.keywordQuery.value, anchor.text);
    }
  }
}
