/** Which facts a recall result shows inside a byte budget. */
module Scorer {
  import opened Options
  import opened JsonStrings
  import opened JsonNumbers
  import opened JsonValues
  import opened JsonCanon
  import opened Utf8
  import opened Whitespace
  import opened Leaves
  import opened LeafTheorems
  import opened LeafPrefix

  datatype Anchor = Anchor(text: Text, file: Text, approved: Option<Text>)

  datatype Fact = Fact(name: Text, anchors: seq<Anchor>)

  const SCORED_LEAVES: seq<string> := ["sources[].excerpt", "results[].text"]

  const UNSCORED_LEAVES: seq<string> := [
    "framing", "query", "results[].id", "results[].type", "results[].domain", "results[].status", "results[].writer.id",
    "results[].writer.established", "results[].validity.valid_from", "results[].validity.valid_to",
    "results[].validity.superseded_by_memory_id", "results[].validity.supersedes_memory_id",
    "results[].validity.corrected_at", "sources[].id", "sources[].source_type", "sources[].title",
    "sources[].captured_at", "sources[].domain", "sources[].sensitivity", "sources[].excerpt_kind",
    "sources[].current_memory_id", "sources[].writer.id", "sources[].writer.established", "entities[].id",
    "entities[].name", "entities[].entity_type"]

  predicate Listed(path: Text, names: seq<string>)
  {
    exists i :: 0 <= i < |names| && FromString(names[i]) == path
  }

  predicate IsScored(path: Text) { Listed(path, SCORED_LEAVES) }

  /** Every string leaf is scored or known not to be. */
  predicate AllClassified(leaves: seq<Leaf>)
  {
    forall i :: 0 <= i < |leaves| ==> IsScored(leaves[i].path) || Listed(leaves[i].path, UNSCORED_LEAVES)
  }

  /** Undo the quoting layer of a recall excerpt, when there is one. */
  function UnquoteLeaf(value: Text, reprint: Text -> Text): Text
  {
    if |value| >= 2 && value[0] == QUOTE && value[|value| - 1] == QUOTE then
      match Loads(value, reprint)
      case Some(Str(inner)) => inner
      case _ => value
    else value
  }

  /** The scored strings that end inside the budget, as the scorer compares them. */
  function Readable(leaves: seq<Leaf>, budget: nat, reprint: Text -> Text): seq<Text>
  {
    if leaves == [] then []
    else
      (if IsScored(leaves[0].path) && leaves[0].endByte <= budget
       then [Normalize(UnquoteLeaf(leaves[0].value, reprint))] else [])
      + Readable(leaves[1..], budget, reprint)
  }

  predicate InSome(needle: Text, readable: seq<Text>)
  {
    exists j :: 0 <= j < |readable| && Contains(readable[j], needle)
  }

  /** Some anchor that is not blank is in a readable string. */
  predicate FactFound(fact: Fact, readable: seq<Text>)
  {
    exists i :: 0 <= i < |fact.anchors| && Normalize(fact.anchors[i].text) != []
                && InSome(Normalize(fact.anchors[i].text), readable)
  }

  datatype Score = Score(found: seq<bool>, bytesTotal: nat) | Misplaced | Unclassified

  function ScoreOutput(text: Text, facts: seq<Fact>, budget: nat, reprint: Text -> Text): Score
    requires GoodReprint(reprint)
  {
    match Locate(text, reprint)
    case Located(leaves) =>
      if !AllClassified(leaves) then Unclassified
      else
        LocatedIsAscii(text, reprint);
        var readable := Readable(leaves, budget, reprint);
        Score(seq(|facts|, i requires 0 <= i < |facts| => FactFound(facts[i], readable)), |Encode(text)|)
    case _ => Misplaced
  }

  lemma LocatedIsAscii(text: Text, reprint: Text -> Text)
    requires GoodReprint(reprint) && Locate(text, reprint).Located?
    ensures IsAscii(text) && Encodable(text) && Encode(text) == text
  {
    hide Print, LeavesOf, ParseValue;
    var v := Loads(text, reprint).value;
    CompactTextIsCanonical(text, v, reprint);
    PrintIsAscii(v, reprint);
    EncodeAscii(text);
  }

  predicate Hit(score: Score)
  {
    score.Score? && forall i :: 0 <= i < |score.found| ==> score.found[i]
  }

  // ---------- The quoting layer ----------

  /** A quoted string comes back exactly when it holds no high surrogate followed by a low one. */
  lemma UnquoteUndoesQuote(t: Text, reprint: Text -> Text)
    ensures UnquoteLeaf(Quote(t), reprint) == JoinPairs(t)
    ensures UnquoteLeaf(Quote(t), reprint) == t <==> Joined(t)
  {
    hide JoinPairs, Escaped;
    ReadQuoted(t, []);
    assert Quote(t) + [] == Quote(t);
    SkipNothing(Quote(t));
    if Joined(t) {
      JoinPairsKeepsJoined(t);
    } else {
      JoinPairsShortens(t);
    }
  }

  // ---------- The score depends on the bytes inside the budget ----------

  function ReadableAll(leaves: seq<Leaf>, reprint: Text -> Text): seq<Text>
  {
    if leaves == [] then []
    else
      (if IsScored(leaves[0].path) then [Normalize(UnquoteLeaf(leaves[0].value, reprint))] else [])
      + ReadableAll(leaves[1..], reprint)
  }

  lemma {:induction false} ReadableIsUpTo(leaves: seq<Leaf>, budget: nat, reprint: Text -> Text)
    ensures Readable(leaves, budget, reprint) == ReadableAll(UpTo(leaves, budget), reprint)
  {
    hide IsScored, UnquoteLeaf, Normalize;
    if leaves != [] {
      ReadableIsUpTo(leaves[1..], budget, reprint);
      if leaves[0].endByte <= budget {
        assert UpTo(leaves, budget)[1..] == UpTo(leaves[1..], budget);
      }
    }
  }

  /** Two accepted results that agree on the first b bytes, and are at least that long, find the same facts at b. */
  lemma PrefixDecidesScore(s: Text, t: Text, facts: seq<Fact>, b: nat, reprint: Text -> Text)
    requires GoodReprint(reprint)
    requires ScoreOutput(s, facts, b, reprint).Score? && ScoreOutput(t, facts, b, reprint).Score?
    requires b <= |s| && b <= |t| && s[..b] == t[..b]
    ensures ScoreOutput(s, facts, b, reprint).found == ScoreOutput(t, facts, b, reprint).found
  {
    hide FactFound, Readable, AllClassified;
    PrefixDecidesLeaves(s, t, b, reprint);
    ReadableIsUpTo(Locate(s, reprint).leaves, b, reprint);
    ReadableIsUpTo(Locate(t, reprint).leaves, b, reprint);
  }

  lemma {:induction false} ReadableGrows(leaves: seq<Leaf>, small: nat, large: nat, reprint: Text -> Text, body: Text)
    requires small <= large && body in Readable(leaves, small, reprint)
    ensures body in Readable(leaves, large, reprint)
  {
    hide IsScored, UnquoteLeaf, Normalize;
    if leaves != [] && body in Readable(leaves[1..], small, reprint) {
      ReadableGrows(leaves[1..], small, large, reprint, body);
    }
  }

  lemma FactFoundGrows(fact: Fact, small: seq<Text>, large: seq<Text>)
    requires FactFound(fact, small) && forall body :: body in small ==> body in large
    ensures FactFound(fact, large)
  {
    var i :| 0 <= i < |fact.anchors| && Normalize(fact.anchors[i].text) != []
             && InSome(Normalize(fact.anchors[i].text), small);
    var j :| 0 <= j < |small| && Contains(small[j], Normalize(fact.anchors[i].text));
    assert small[j] in large;
  }

  /** A larger budget finds at least as much. */
  lemma FoundGrowsWithBudget(text: Text, facts: seq<Fact>, small: nat, large: nat, reprint: Text -> Text, i: nat)
    requires GoodReprint(reprint) && small <= large && i < |facts|
    requires ScoreOutput(text, facts, small, reprint).Score? && ScoreOutput(text, facts, small, reprint).found[i]
    ensures ScoreOutput(text, facts, large, reprint).Score? && ScoreOutput(text, facts, large, reprint).found[i]
  {
    hide FactFound, Readable, AllClassified;
    var leaves := Locate(text, reprint).leaves;
    forall body | body in Readable(leaves, small, reprint) ensures body in Readable(leaves, large, reprint) {
      ReadableGrows(leaves, small, large, reprint, body);
    }
    FactFoundGrows(facts[i], Readable(leaves, small, reprint), Readable(leaves, large, reprint));
  }

  // ---------- Exactly which facts count ----------

  /** Leaf k is scored, ends inside the budget, and holds the anchor once both are normalised. */
  predicate Shows(leaves: seq<Leaf>, k: nat, budget: nat, anchor: Anchor, reprint: Text -> Text)
    requires k < |leaves|
  {
    && IsScored(leaves[k].path) && leaves[k].endByte <= budget
    && Contains(Normalize(UnquoteLeaf(leaves[k].value, reprint)), Normalize(anchor.text))
  }

  lemma {:induction false} ReadableFrom(leaves: seq<Leaf>, budget: nat, reprint: Text -> Text, body: Text)
    ensures body in Readable(leaves, budget, reprint) <==>
              exists k :: 0 <= k < |leaves| && IsScored(leaves[k].path) && leaves[k].endByte <= budget
                          && Normalize(UnquoteLeaf(leaves[k].value, reprint)) == body
  {
    hide IsScored, UnquoteLeaf, Normalize;
    if leaves != [] {
      ReadableFrom(leaves[1..], budget, reprint, body);
      assert leaves == [leaves[0]] + leaves[1..];
    }
  }

  /**
   A fact counts exactly when a scored string that ends inside the budget holds one of its anchors that is not blank.
  */
  lemma FoundExactly(leaves: seq<Leaf>, fact: Fact, budget: nat, reprint: Text -> Text)
    ensures FactFound(fact, Readable(leaves, budget, reprint)) <==>
              exists i, k :: 0 <= i < |fact.anchors| && 0 <= k < |leaves| && Normalize(fact.anchors[i].text) != []
                             && Shows(leaves, k, budget, fact.anchors[i], reprint)
  {
    hide Readable, IsScored, UnquoteLeaf, Normalize, Contains;
    var readable := Readable(leaves, budget, reprint);
    if FactFound(fact, readable) {
      var i :| 0 <= i < |fact.anchors| && Normalize(fact.anchors[i].text) != []
               && InSome(Normalize(fact.anchors[i].text), readable);
      var j :| 0 <= j < |readable| && Contains(readable[j], Normalize(fact.anchors[i].text));
      ReadableFrom(leaves, budget, reprint, readable[j]);
      var k :| 0 <= k < |leaves| && IsScored(leaves[k].path) && leaves[k].endByte <= budget
               && Normalize(UnquoteLeaf(leaves[k].value, reprint)) == readable[j];
      assert Shows(leaves, k, budget, fact.anchors[i], reprint);
    }
    if i, k :| 0 <= i < |fact.anchors| && 0 <= k < |leaves| && Normalize(fact.anchors[i].text) != []
               && Shows(leaves, k, budget, fact.anchors[i], reprint) {
      ReadableFrom(leaves, budget, reprint, Normalize(UnquoteLeaf(leaves[k].value, reprint)));
      assert InSome(Normalize(fact.anchors[i].text), readable);
    }
  }

  // ---------- Anchors that are verbatim in what recall stored ----------

  /**
   Leaf k is the stored text as recall prints it: flattened, then wrapped in quotes. It is scored and in the budget.
  */
  predicate HoldsStored(leaves: seq<Leaf>, k: nat, stored: Text, budget: nat)
  {
    && k < |leaves| && IsScored(leaves[k].path) && leaves[k].endByte <= budget
    && leaves[k].value == Quote(Normalize(stored))
  }

  predicate VerbatimIn(stored: Text, anchor: Anchor)
  {
    Normalize(anchor.text) != [] && Contains(stored, anchor.text)
  }

  ghost predicate ShowsAllVerbatim(leaves: seq<Leaf>, k: nat, stored: Text, budget: nat, reprint: Text -> Text)
    requires k < |leaves|
  {
    forall anchor: Anchor :: VerbatimIn(stored, anchor) ==> Shows(leaves, k, budget, anchor, reprint)
  }

  lemma JoinedShowsVerbatim(leaves: seq<Leaf>, k: nat, stored: Text, budget: nat, anchor: Anchor,
                            reprint: Text -> Text)
    requires HoldsStored(leaves, k, stored, budget) && Joined(stored) && VerbatimIn(stored, anchor)
    ensures Shows(leaves, k, budget, anchor, reprint)
  {
    hide IsScored, UnquoteLeaf, Normalize, Contains, Quote, Joined;
    NormalizeKeepsJoined(stored);
    UnquoteUndoesQuote(Normalize(stored), reprint);
    NormalizeTwice(stored);
    NormalizeKeepsContainment(stored, anchor.text);
  }

  lemma PairIsNormal(high: Code, low: Code)
    requires IsHigh(high) && IsLow(low)
    ensures Normalize([high, low]) == [high, low]
  {
    NormalizeIsCollapse([high, low]);
    var rest: Text := [low];
    assert [high, low][1..] == rest && rest[1..] == [];
    assert Collapse(rest, Inside) == [] + [low] + Collapse([], Inside) == rest;
    assert Collapse([high, low], Start) == [] + [high] + rest;
  }

  lemma HeldPairIsSplit(text: Text, high: Code, low: Code)
    requires Contains(text, [high, low]) && IsHigh(high) && IsLow(low)
    ensures !Joined(text)
  {
    var at :| 0 <= at <= |text| && OccursAt(text, [high, low], at);
    assert text[at] == text[at..at + 2][0] && text[at + 1] == text[at..at + 2][1];
  }

  lemma SplitPairIsVerbatim(stored: Text, i: nat)
    requires i + 1 < |stored| && IsHigh(stored[i]) && IsLow(stored[i + 1])
    ensures VerbatimIn(stored, Anchor([stored[i], stored[i + 1]], [], None))
  {
    hide Normalize;
    var pair := [stored[i], stored[i + 1]];
    PairIsNormal(stored[i], stored[i + 1]);
    assert stored[i..i + 2] == pair;
    assert OccursAt(stored, pair, i);
  }

  /** An anchor that is a split pair is never shown: the parser joins the pair. */
  lemma SplitPairIsNotShown(leaves: seq<Leaf>, k: nat, stored: Text, budget: nat, anchor: Anchor, reprint: Text -> Text)
    requires HoldsStored(leaves, k, stored, budget)
    requires |anchor.text| == 2 && IsHigh(anchor.text[0]) && IsLow(anchor.text[1])
    ensures !Shows(leaves, k, budget, anchor, reprint)
  {
    hide IsScored, UnquoteLeaf, Normalize, Contains, Quote, JoinPairs, Joined;
    var read := JoinPairs(Normalize(stored));
    UnquoteUndoesQuote(Normalize(stored), reprint);
    JoinPairsIsJoined(Normalize(stored));
    NormalizeKeepsJoined(read);
    assert anchor.text == [anchor.text[0], anchor.text[1]];
    PairIsNormal(anchor.text[0], anchor.text[1]);
    if Contains(Normalize(read), anchor.text) {
      HeldPairIsSplit(Normalize(read), anchor.text[0], anchor.text[1]);
    }
  }

  /** Every anchor verbatim in the stored text is shown exactly when that text holds no split surrogate pair. */
  lemma VerbatimShownExactly(leaves: seq<Leaf>, k: nat, stored: Text, budget: nat, reprint: Text -> Text)
    requires HoldsStored(leaves, k, stored, budget)
    ensures ShowsAllVerbatim(leaves, k, stored, budget, reprint) <==> Joined(stored)
  {
    hide Shows, HoldsStored, VerbatimIn;
    ScoredLeafIsThere(leaves, k, stored, budget);
    if Joined(stored) {
      forall anchor: Anchor | VerbatimIn(stored, anchor) ensures Shows(leaves, k, budget, anchor, reprint) {
        JoinedShowsVerbatim(leaves, k, stored, budget, anchor, reprint);
      }
    } else {
      var i :| 0 <= i < |stored| - 1 && IsHigh(stored[i]) && IsLow(stored[i + 1]);
      var anchor := Anchor([stored[i], stored[i + 1]], [], None);
      SplitPairIsVerbatim(stored, i);
      SplitPairIsNotShown(leaves, k, stored, budget, anchor, reprint);
    }
  }

  lemma ScoredLeafIsThere(leaves: seq<Leaf>, k: nat, stored: Text, budget: nat)
    requires HoldsStored(leaves, k, stored, budget)
    ensures k < |leaves|
  {
  }

  /** A fact counts when one of its anchors is verbatim in a stored text that is shown and holds no split pair. */
  lemma StoredAnchorAlwaysCounts(leaves: seq<Leaf>, k: nat, stored: Text, fact: Fact, i: nat, budget: nat,
                                 reprint: Text -> Text)
    requires HoldsStored(leaves, k, stored, budget) && Joined(stored)
    requires i < |fact.anchors| && VerbatimIn(stored, fact.anchors[i])
    ensures FactFound(fact, Readable(leaves, budget, reprint))
  {
    hide Readable, Shows, HoldsStored, FactFound, Joined, Normalize, Contains;
    ScoredLeafIsThere(leaves, k, stored, budget);
    JoinedShowsVerbatim(leaves, k, stored, budget, fact.anchors[i], reprint);
    FoundExactly(leaves, fact, budget, reprint);
  }
}
