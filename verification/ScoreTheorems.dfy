/** What a score says about the printed result: of one question, and of a whole set. */
module ScoreTheorems {
  import opened Options
  import opened JsonStrings
  import opened JsonValues
  import opened Utf8
  import opened Whitespace
  import opened Leaves
  import opened LeafTheorems
  import opened LeafPrefix
  import opened Scorer
  import opened AnchorChecks
  import opened SetScores

  // ---------- One question ----------

  /** Some anchor of the fact that is not blank is held by a scored string that ends inside the budget. */
  ghost predicate FactShown(fact: Fact, leaves: seq<Leaf>, budget: nat, reprint: Text -> Text)
  {
    exists i, k :: 0 <= i < |fact.anchors| && 0 <= k < |leaves| && Normalize(fact.anchors[i].text) != []
                   && Shows(leaves, k, budget, fact.anchors[i], reprint)
  }

  ghost predicate AllShown(facts: seq<Fact>, leaves: seq<Leaf>, budget: nat, reprint: Text -> Text)
  {
    forall i :: 0 <= i < |facts| ==> FactShown(facts[i], leaves, budget, reprint)
  }

  /** A leaf whose path is in neither list. */
  ghost predicate Unlisted(leaf: Leaf)
  {
    !IsScored(leaf.path) && !Listed(leaf.path, UNSCORED_LEAVES)
  }

  /** The text is the compact print of its own parse, and none of its strings is at an unlisted path. */
  ghost predicate Scorable(text: Text, reprint: Text -> Text)
  {
    && Locate(text, reprint).Located?
    && !exists k :: 0 <= k < |Locate(text, reprint).leaves| && Unlisted(Locate(text, reprint).leaves[k])
  }

  /** Each flag of a score is that of its own fact, and a hit shows every fact. */
  lemma ScoreSays(text: Text, facts: seq<Fact>, budget: nat, reprint: Text -> Text)
    requires GoodReprint(reprint)
    ensures var score, located := ScoreOutput(text, facts, budget, reprint), Locate(text, reprint);
            && (score.Misplaced? <==> !located.Located?)
            && (score.Score? <==> Scorable(text, reprint))
            && (score.Score? ==>
                  && score.bytesTotal == |text| && Encodable(text) && |Encode(text)| == |text|
                  && |score.found| == |facts|
                  && forall i :: 0 <= i < |facts| ==>
                       (score.found[i] <==> FactShown(facts[i], located.leaves, budget, reprint)))
            && (Hit(score) <==> Scorable(text, reprint) && AllShown(facts, located.leaves, budget, reprint))
  {
    hide Readable, FactFound, FactShown, IsScored, Listed, Locate, GoodReprint;
    var located := Locate(text, reprint);
    if located.Located? {
      LocatedIsAscii(text, reprint);
      ClassifiedExactly(located.leaves);
      forall fact: Fact
        ensures FactFound(fact, Readable(located.leaves, budget, reprint))
                <==> FactShown(fact, located.leaves, budget, reprint)
      {
        ShownIsFound(fact, located.leaves, budget, reprint);
      }
    }
  }

  lemma ClassifiedExactly(leaves: seq<Leaf>)
    ensures AllClassified(leaves) <==> !exists k :: 0 <= k < |leaves| && Unlisted(leaves[k])
  {
    hide IsScored, Listed;
  }

  lemma ShownIsFound(fact: Fact, leaves: seq<Leaf>, budget: nat, reprint: Text -> Text)
    ensures FactFound(fact, Readable(leaves, budget, reprint)) <==> FactShown(fact, leaves, budget, reprint)
  {
    hide Readable, FactFound, Shows, Normalize;
    FoundExactly(leaves, fact, budget, reprint);
  }

  // ---------- The parts of that statement ----------

  lemma ScoredPaths(path: Text)
    ensures IsScored(path) <==> path == FromString("sources[].excerpt") || path == FromString("results[].text")
  {
    hide FromString;
    assert SCORED_LEAVES[0] == "sources[].excerpt" && SCORED_LEAVES[1] == "results[].text";
  }

  /** A value that is not in quotes, or that does not read as one JSON string, is compared as it stands. */
  lemma UnquoteExactly(value: Text, reprint: Text -> Text)
    ensures var read := Loads(value, reprint);
            UnquoteLeaf(value, reprint)
            == if |value| >= 2 && value[0] == 34 && value[|value| - 1] == 34 && read.Some? && read.value.Str?
               then read.value.text else value
    ensures |value| < 2 || value[0] != 34 || value[|value| - 1] != 34 ==> UnquoteLeaf(value, reprint) == value
  {
    hide Loads;
  }

  lemma ContainsExactly(outer: Text, inner: Text)
    ensures Contains(outer, inner) <==> exists before: Text, after: Text :: outer == before + inner + after
  {
    if Contains(outer, inner) {
      var k :| 0 <= k <= |outer| && OccursAt(outer, inner, k);
      assert outer == outer[..k] + inner + outer[k + |inner|..];
    }
    if before: Text, after: Text :| outer == before + inner + after {
      Surrounded(before, inner, after, outer);
    }
  }

  // ---------- A set of questions ----------

  ghost function OutputLeaves(questions: seq<Question>, outputs: map<Text, Text>, reprint: Text -> Text,
                              i: nat): seq<Leaf>
    requires i < |questions|
  {
    if questions[i].id in outputs && Locate(outputs[questions[i].id], reprint).Located?
    then Locate(outputs[questions[i].id], reprint).leaves else []
  }

  /** Every fact of question i is shown in the result of question j. */
  ghost predicate HitIn(questions: seq<Question>, outputs: map<Text, Text>, budget: nat, reprint: Text -> Text,
                        i: nat, j: nat)
  {
    && i < |questions| && j < |questions|
    && AllShown(questions[i].facts, OutputLeaves(questions, outputs, reprint, j), budget, reprint)
  }

  /** Fact f of question i is shown in that question's own result. */
  ghost predicate FoundAt(questions: seq<Question>, outputs: map<Text, Text>, budget: nat, reprint: Text -> Text,
                          i: nat, f: nat)
  {
    && i < |questions| && f < |questions[i].facts|
    && FactShown(questions[i].facts[f], OutputLeaves(questions, outputs, reprint, i), budget, reprint)
  }

  /** The question whose result is the negative control of question i: the next one, or the first after the last. */
  function Neighbour(n: nat, i: nat): nat { if i + 1 < n then i + 1 else 0 }

  ghost function TextsOf(questions: seq<Question>, outputs: map<Text, Text>): (texts: seq<Text>)
    requires HasOutputs(questions, outputs)
  {
    seq(|questions|, i requires 0 <= i < |questions| => outputs[questions[i].id])
  }

  // ---------- Counting ----------

  ghost function Numbers(n: nat, holds: nat -> bool): set<nat>
  {
    set i: nat | i < n && holds(i)
  }

  lemma OneMoreNumber(n: nat, holds: nat -> bool)
    ensures |Numbers(n + 1, holds)| == |Numbers(n, holds)| + if holds(n) then 1 else 0
  {
    assert Numbers(n + 1, holds) == Numbers(n, holds) + if holds(n) then {n} else {};
  }

  lemma {:induction false} TrueFlags(flags: seq<bool>, holds: nat -> bool)
    requires forall i: nat :: i < |flags| ==> (flags[i] <==> holds(i))
    ensures CountTrue(flags) == |Numbers(|flags|, holds)|
  {
    if flags != [] {
      var last := |flags| - 1;
      TrueFlags(flags[..last], holds);
      OneMoreNumber(last, holds);
    }
  }

  lemma {:induction false} HitNumbers(results: seq<Score>, holds: nat -> bool)
    requires forall i: nat :: i < |results| ==> (Hit(results[i]) <==> holds(i))
    ensures HitCount(results) == |Numbers(|results|, holds)|
  {
    hide Hit;
    if results != [] {
      var last := |results| - 1;
      HitNumbers(results[..last], holds);
      OneMoreNumber(last, holds);
    }
  }

  ghost function Pairs(questions: seq<Question>, n: nat, holds: (nat, nat) -> bool): set<(nat, nat)>
    requires n <= |questions|
  {
    set i: nat, f: nat | i < n && f < |questions[i].facts| && holds(i, f) :: (i, f)
  }

  lemma OneMoreQuestion(questions: seq<Question>, n: nat, holds: (nat, nat) -> bool)
    requires n < |questions|
    ensures |Pairs(questions, n + 1, holds)|
            == |Pairs(questions, n, holds)| + |Numbers(|questions[n].facts|, (f: nat) => holds(n, f))|
  {
    var facts := Numbers(|questions[n].facts|, (f: nat) => holds(n, f));
    var row := RowPairs(n, facts);
    assert Pairs(questions, n + 1, holds) == Pairs(questions, n, holds) + row;
    RowSize(n, facts);
  }

  ghost function RowPairs(n: nat, facts: set<nat>): set<(nat, nat)>
  {
    set f | f in facts :: (n, f)
  }

  lemma {:induction false} RowSize(n: nat, facts: set<nat>)
    ensures |RowPairs(n, facts)| == |facts|
    decreases |facts|
  {
    if facts == {} {
      assert RowPairs(n, facts) == {};
    } else {
      var f :| f in facts;
      RowSize(n, facts - {f});
      assert RowPairs(n, facts) == RowPairs(n, facts - {f}) + {(n, f)};
    }
  }

  lemma {:induction false} FoundPairs(questions: seq<Question>, results: seq<Score>, n: nat,
                                      holds: (nat, nat) -> bool)
    requires FlagPerFact(results, questions) && n <= |questions|
    requires forall i: nat, f: nat :: i < |results| && f < |results[i].found| ==> (results[i].found[f] <==> holds(i, f))
    ensures AllScored(results[..n]) && FoundCount(results[..n]) == |Pairs(questions, n, holds)|
  {
    hide CountTrue, Pairs, Numbers;
    if n == 0 {
      NoPairs(questions, holds);
    } else {
      FoundPairs(questions, results, n - 1, holds);
      OneMoreQuestion(questions, n - 1, holds);
      TrueFlags(results[n - 1].found, (f: nat) => holds(n - 1, f));
      assert results[..n][..n - 1] == results[..n - 1];
    }
  }

  lemma NoPairs(questions: seq<Question>, holds: (nat, nat) -> bool)
    ensures Pairs(questions, 0, holds) == {}
  {
  }

  lemma {:induction false} FactPairs(questions: seq<Question>, n: nat, holds: (nat, nat) -> bool)
    requires n <= |questions|
    requires forall i: nat, f: nat :: i < |questions| && f < |questions[i].facts| ==> holds(i, f)
    ensures FactCount(questions[..n]) == |Pairs(questions, n, holds)|
  {
    hide Pairs;
    if n == 0 {
      NoPairs(questions, holds);
    } else {
      FactPairs(questions, n - 1, holds);
      OneMoreQuestion(questions, n - 1, holds);
      AllNumbers(|questions[n - 1].facts|, (f: nat) => holds(n - 1, f));
      assert questions[..n][..n - 1] == questions[..n - 1];
    }
  }

  lemma {:induction false} AllNumbers(n: nat, holds: nat -> bool)
    requires forall i: nat :: i < n ==> holds(i)
    ensures |Numbers(n, holds)| == n
  {
    if n > 0 {
      AllNumbers(n - 1, holds);
      OneMoreNumber(n - 1, holds);
    }
  }

  lemma {:induction false} BytesAreLengths(results: seq<Score>, texts: seq<Text>)
    requires |results| == |texts| && AllScored(results)
    requires forall i :: 0 <= i < |results| ==> results[i].bytesTotal == |texts[i]|
    ensures ByteCount(results) == |Concat(texts)|
  {
    if results != [] {
      BytesAreLengths(results[..|results| - 1], texts[..|texts| - 1]);
    }
  }

  // ---------- What the totals say ----------

  /** A set can be scored exactly when it has a question and each question has a result that can be scored. */
  lemma UsableExactly(questions: seq<Question>, outputs: map<Text, Text>, budget: nat, reprint: Text -> Text)
    requires GoodReprint(reprint)
    ensures ScoreOf(questions, outputs, budget, reprint).SetScore? <==>
              questions != [] && forall i :: 0 <= i < |questions| ==>
                questions[i].id in outputs && Scorable(outputs[questions[i].id], reprint)
  {
    hide ScoreOutput, Scorable, GoodReprint;
    if HasOutputs(questions, outputs) {
      forall i: nat | i < |questions|
        ensures ResultAt(questions, outputs, budget, reprint, i).Score?
                <==> Scorable(outputs[questions[i].id], reprint)
      {
        ScoreSays(outputs[questions[i].id], questions[i].facts, budget, reprint);
      }
      assert forall i: nat :: i < |questions| ==>
        Results(questions, outputs, budget, reprint)[i] == ResultAt(questions, outputs, budget, reprint, i);
    }
  }

  ghost predicate ResultSays(questions: seq<Question>, outputs: map<Text, Text>, budget: nat, reprint: Text -> Text,
                             result: Score, i: nat)
    requires i < |questions|
  {
    && result.Score? && questions[i].id in outputs && result.bytesTotal == |outputs[questions[i].id]|
    && |result.found| == |questions[i].facts|
    && (Hit(result) <==> HitIn(questions, outputs, budget, reprint, i, i))
    && forall f: nat :: f < |result.found| ==> (result.found[f] <==> FoundAt(questions, outputs, budget, reprint, i, f))
  }

  lemma EachResultSays(questions: seq<Question>, outputs: map<Text, Text>, budget: nat, reprint: Text -> Text, i: nat)
    requires GoodReprint(reprint) && Usable(questions, outputs, budget, reprint) && i < |questions|
    ensures ResultSays(questions, outputs, budget, reprint, ResultAt(questions, outputs, budget, reprint, i), i)
    ensures Hit(ControlAt(questions, outputs, budget, reprint, i))
            <==> HitIn(questions, outputs, budget, reprint, i, Neighbour(|questions|, i))
  {
    hide ScoreOutput, AllShown, FactShown, Unlisted, GoodReprint, Hit;
    var next := Neighbour(|questions|, i);
    assert (i + 1) % |questions| == next;
    assert Results(questions, outputs, budget, reprint)[i] == ResultAt(questions, outputs, budget, reprint, i);
    assert Results(questions, outputs, budget, reprint)[next] == ResultAt(questions, outputs, budget, reprint, next);
    ScoreSays(outputs[questions[i].id], questions[i].facts, budget, reprint);
    ScoreSays(outputs[questions[next].id], questions[next].facts, budget, reprint);
    ScoreSays(outputs[questions[next].id], questions[i].facts, budget, reprint);
  }

  lemma HitsSay(questions: seq<Question>, outputs: map<Text, Text>, budget: nat, reprint: Text -> Text)
    requires GoodReprint(reprint) && Usable(questions, outputs, budget, reprint)
    ensures var n := |questions|;
            && HitCount(Results(questions, outputs, budget, reprint))
               == |set i: nat | i < n && HitIn(questions, outputs, budget, reprint, i, i)|
            && HitCount(Controls(questions, outputs, budget, reprint))
               == |set i: nat | i < n && HitIn(questions, outputs, budget, reprint, i, Neighbour(n, i))|
  {
    hide ResultAt, ControlAt, GoodReprint, HitIn, FoundAt, HitCount, Neighbour;
    var n := |questions|;
    var own := (i: nat) => HitIn(questions, outputs, budget, reprint, i, i);
    var next := (i: nat) => HitIn(questions, outputs, budget, reprint, i, Neighbour(n, i));
    forall i: nat | i < n
      ensures Hit(Results(questions, outputs, budget, reprint)[i]) <==> own(i)
      ensures Hit(Controls(questions, outputs, budget, reprint)[i]) <==> next(i)
    {
      EachResultSays(questions, outputs, budget, reprint, i);
    }
    HitNumbers(Results(questions, outputs, budget, reprint), own);
    HitNumbers(Controls(questions, outputs, budget, reprint), next);
    assert Numbers(n, own) == set i: nat | i < n && HitIn(questions, outputs, budget, reprint, i, i);
    assert Numbers(n, next)
           == set i: nat | i < n && HitIn(questions, outputs, budget, reprint, i, Neighbour(n, i));
  }

  lemma FactsSay(questions: seq<Question>, outputs: map<Text, Text>, budget: nat, reprint: Text -> Text)
    requires GoodReprint(reprint) && Usable(questions, outputs, budget, reprint)
    ensures AllScored(Results(questions, outputs, budget, reprint))
    ensures FoundCount(Results(questions, outputs, budget, reprint))
            == |set i: nat, f: nat | i < |questions| && f < |questions[i].facts|
                  && FoundAt(questions, outputs, budget, reprint, i, f) :: (i, f)|
    ensures FactCount(questions) == |set i: nat, f: nat | i < |questions| && f < |questions[i].facts| :: (i, f)|
  {
    hide ResultAt, GoodReprint, HitIn, FoundAt, HitCount, FoundCount, FactCount;
    var n, results := |questions|, Results(questions, outputs, budget, reprint);
    var found := (i: nat, f: nat) => FoundAt(questions, outputs, budget, reprint, i, f);
    var all := (i: nat, f: nat) => true;
    forall i: nat | i < n ensures ResultSays(questions, outputs, budget, reprint, results[i], i) {
      EachResultSays(questions, outputs, budget, reprint, i);
    }
    FoundPairs(questions, results, n, found);
    FactPairs(questions, n, all);
    assert results[..n] == results && questions[..n] == questions;
    assert Pairs(questions, n, found)
           == set i: nat, f: nat | i < n && f < |questions[i].facts|
                                   && FoundAt(questions, outputs, budget, reprint, i, f) :: (i, f);
    assert Pairs(questions, n, all) == set i: nat, f: nat | i < n && f < |questions[i].facts| :: (i, f);
  }

  lemma BytesSay(questions: seq<Question>, outputs: map<Text, Text>, budget: nat, reprint: Text -> Text)
    requires GoodReprint(reprint) && Usable(questions, outputs, budget, reprint)
    ensures AllScored(Results(questions, outputs, budget, reprint))
    ensures ByteCount(Results(questions, outputs, budget, reprint)) == |Concat(TextsOf(questions, outputs))|
  {
    hide ResultAt, GoodReprint, HitIn, FoundAt, ByteCount, Hit;
    var results := Results(questions, outputs, budget, reprint);
    forall i: nat | i < |questions| ensures ResultSays(questions, outputs, budget, reprint, results[i], i) {
      EachResultSays(questions, outputs, budget, reprint, i);
    }
    BytesAreLengths(results, TextsOf(questions, outputs));
  }

  /** The totals of a set, counted from what each result shows. */
  lemma TotalsSay(questions: seq<Question>, outputs: map<Text, Text>, budget: nat, reprint: Text -> Text)
    requires GoodReprint(reprint) && ScoreOf(questions, outputs, budget, reprint).SetScore?
    ensures var s, n := ScoreOf(questions, outputs, budget, reprint), |questions|;
            && s.n == n && HasOutputs(questions, outputs) && s.bytes == |Concat(TextsOf(questions, outputs))|
            && s.hits == |set i: nat | i < n && HitIn(questions, outputs, budget, reprint, i, i)|
            && s.factsTotal == |set i: nat, f: nat | i < n && f < |questions[i].facts| :: (i, f)|
            && s.factsFound == |set i: nat, f: nat | i < n && f < |questions[i].facts|
                                  && FoundAt(questions, outputs, budget, reprint, i, f) :: (i, f)|
            && (s.floorHits.None? <==> n == 1)
            && (s.floorHits.Some? ==>
                  s.floorHits.value
                  == |set i: nat | i < n && HitIn(questions, outputs, budget, reprint, i, Neighbour(n, i))|)
  {
    hide ResultAt, ControlAt, GoodReprint, HitIn, FoundAt, HitCount, FoundCount, ByteCount, FactCount, TextsOf,
         Neighbour;
    HitsSay(questions, outputs, budget, reprint);
    FactsSay(questions, outputs, budget, reprint);
    BytesSay(questions, outputs, budget, reprint);
  }
}
