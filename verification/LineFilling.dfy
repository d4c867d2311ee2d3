/**
 Filling lines with words, as the demo recorder does before it draws a terminal. How wide a line is drawn depends on
 a font, so whether a line fits is a parameter.
*/
module LineFilling {
  import opened JsonStrings

  const SPACE: Code := 32

  // ---------- Splitting at every space, and joining with one space ----------

  function Split(text: Text): (words: seq<Text>)
    ensures |words| >= 1
  {
    if text == [] then [[]]
    else
      var rest := Split(text[1..]);
      if text[0] == SPACE then [[]] + rest else [[text[0]] + rest[0]] + rest[1..]
  }

  function JoinLines(lines: seq<Text>): Text
  {
    if lines == [] then []
    else if |lines| == 1 then lines[0]
    else lines[0] + [SPACE] + JoinLines(lines[1..])
  }

  predicate OneWord(line: Text) { SPACE !in line }

  predicate WordsOnly(words: seq<Text>) { forall i :: 0 <= i < |words| ==> OneWord(words[i]) }

  predicate NoEmptyWord(words: seq<Text>) { forall i :: 0 <= i < |words| ==> words[i] != [] }

  lemma {:induction false} SplitMakesWords(text: Text)
    ensures WordsOnly(Split(text))
    ensures JoinLines(Split(text)) == text
  {
    if text != [] {
      SplitMakesWords(text[1..]);
      var rest := Split(text[1..]);
      assert text == [text[0]] + text[1..];
      hide Split;
      if text[0] == SPACE {
        SpaceBefore(rest);
      } else {
        CodeBefore(text[0], rest);
      }
    }
  }

  lemma SpaceBefore(words: seq<Text>)
    requires words != [] && WordsOnly(words)
    ensures WordsOnly([[]] + words) && JoinLines([[]] + words) == [SPACE] + JoinLines(words)
  {
    assert ([[]] + words)[1..] == words;
  }

  lemma CodeBefore(c: Code, words: seq<Text>)
    requires words != [] && WordsOnly(words) && c != SPACE
    ensures WordsOnly([[c] + words[0]] + words[1..])
    ensures JoinLines([[c] + words[0]] + words[1..]) == [c] + JoinLines(words)
  {
    var longer := [[c] + words[0]] + words[1..];
    assert longer[1..] == words[1..];
  }

  // ---------- Filling ----------

  function Extended(current: Text, word: Text): Text
  {
    if current == [] then word else current + [SPACE] + word
  }

  function Closed(current: Text): seq<Text>
  {
    if current == [] then [] else [current]
  }

  /** The lines still to come when `current` is the line being filled. */
  function Fill(words: seq<Text>, current: Text, fits: Text -> bool): seq<Text>
  {
    if words == [] then Closed(current)
    else if fits(Extended(current, words[0])) then Fill(words[1..], Extended(current, words[0]), fits)
    else Closed(current) + Fill(words[1..], words[0], fits)
  }

  function Wrap(text: Text, fits: Text -> bool): seq<Text>
  {
    if text == [] then [[]]
    else
      var lines := Fill(Split(text), [], fits);
      if lines == [] then [[]] else lines
  }

  /** One turn of the loop: `lines` are closed, `current` is being filled, and word `i` comes next. */
  lemma FillStep(lines: seq<Text>, words: seq<Text>, i: nat, current: Text, fits: Text -> bool)
    requires i < |words|
    ensures lines + Fill(words[i..], current, fits) ==
            if fits(Extended(current, words[i])) then lines + Fill(words[i + 1..], Extended(current, words[i]), fits)
            else lines + Closed(current) + Fill(words[i + 1..], words[i], fits)
  {
    assert words[i..][1..] == words[i + 1..];
  }

  lemma FillEnd(words: seq<Text>, current: Text, fits: Text -> bool)
    ensures Fill(words[|words|..], current, fits) == Closed(current)
    ensures words[0..] == words
  {
  }

  method WrapLine(text: Text, fits: Text -> bool) returns (lines: seq<Text>)
    ensures lines == Wrap(text, fits)
    ensures lines != [] && (text == [] ==> lines == [[]])
  {
    if text == [] {
      return [[]];
    }
    lines := FillLines(Split(text), fits);
    if lines == [] {
      lines := [[]];
    }
  }

  method FillLines(words: seq<Text>, fits: Text -> bool) returns (lines: seq<Text>)
    ensures lines == Fill(words, [], fits)
  {
    hide Fill;
    hide Extended;
    lines := [];
    var current: Text := [];
    FillEnd(words, current, fits);
    for i := 0 to |words|
      invariant lines + Fill(words[i..], current, fits) == Fill(words, [], fits)
    {
      FillStep(lines, words, i, current, fits);
      var candidate := Extended(current, words[i]);
      if fits(candidate) {
        current := candidate;
      } else {
        if current != [] {
          lines := lines + [current];
        }
        current := words[i];
      }
    }
    FillEnd(words, current, fits);
    if current != [] {
      lines := lines + [current];
    }
  }

  // ---------- The lines join back to the text ----------

  lemma JoinedExtends(current: Text, word: Text, rest: seq<Text>)
    requires current != []
    ensures JoinLines([current, word] + rest) == JoinLines([Extended(current, word)] + rest)
    ensures JoinLines([current, word] + rest) == current + [SPACE] + JoinLines([word] + rest)
  {
    assert ([current, word] + rest)[1..] == [word] + rest;
    assert ([word] + rest)[1..] == rest;
    assert ([Extended(current, word)] + rest)[1..] == rest;
  }

  lemma {:induction false} FillJoins(words: seq<Text>, current: Text, fits: Text -> bool)
    requires NoEmptyWord(words) && current != []
    ensures Fill(words, current, fits) != []
    ensures JoinLines(Fill(words, current, fits)) == JoinLines([current] + words)
    decreases |words|
  {
    if words != [] {
      var word, rest := words[0], words[1..];
      assert words == [word] + rest;
      assert [current] + words == [current, word] + rest;
      JoinedExtends(current, word, rest);
      if fits(Extended(current, word)) {
        FillJoins(rest, Extended(current, word), fits);
      } else {
        FillJoins(rest, word, fits);
        var lines := Fill(rest, word, fits);
        assert ([current] + lines)[1..] == lines;
      }
    } else {
      assert [current] + words == [current];
    }
  }

  /** A first word goes into an empty line whether it fits or not. */
  lemma FirstWord(words: seq<Text>, fits: Text -> bool)
    requires words != []
    ensures Fill(words, [], fits) == Fill(words[1..], words[0], fits)
  {
  }

  lemma LinesJoinBack(text: Text, fits: Text -> bool)
    requires NoEmptyWord(Split(text))
    ensures JoinLines(Wrap(text, fits)) == text
  {
    var words := Split(text);
    FirstWord(words, fits);
    FillJoins(words[1..], words[0], fits);
    assert [words[0]] + words[1..] == words;
    SplitMakesWords(text);
  }

  // ---------- Every line fits or is one word ----------

  predicate Legal(line: Text, fits: Text -> bool) { fits(line) || OneWord(line) }

  predicate AllLegal(lines: seq<Text>, fits: Text -> bool)
  {
    forall i :: 0 <= i < |lines| ==> Legal(lines[i], fits)
  }

  lemma {:induction false} FillIsLegal(words: seq<Text>, current: Text, fits: Text -> bool)
    requires WordsOnly(words) && Legal(current, fits)
    ensures AllLegal(Fill(words, current, fits), fits)
    decreases |words|
  {
    if words != [] {
      if fits(Extended(current, words[0])) {
        FillIsLegal(words[1..], Extended(current, words[0]), fits);
      } else {
        FillIsLegal(words[1..], words[0], fits);
      }
    }
  }

  lemma LinesAreLegal(text: Text, fits: Text -> bool)
    ensures AllLegal(Wrap(text, fits), fits)
  {
    SplitMakesWords(text);
    FillIsLegal(Split(text), [], fits);
  }

  // ---------- No other legal lines are fewer ----------

  predicate WordStart(run: Text, i: nat)
    requires i <= |run|
  {
    i == 0 || run[i - 1] == SPACE
  }

  predicate WordEnd(run: Text, j: nat)
    requires j <= |run|
  {
    j == |run| || run[j] == SPACE
  }

  /** Whole words taken out of a line that fits also fit. */
  ghost predicate PartsFit(fits: Text -> bool)
  {
    forall run: Text, i: nat, j: nat ::
      i <= j <= |run| && fits(run) && WordStart(run, i) && WordEnd(run, j) ==> fits(run[i..j])
  }

  /** A line that starts `whole` and reaches past `before + current` reaches the end of the next word. */
  lemma LongLineHoldsTheWord(before: Text, current: Text, word: Text, after: Text, first: Text, fits: Text -> bool)
    requires PartsFit(fits)
    requires OneWord(word)
    requires before == [] || before[|before| - 1] == SPACE
    requires after == [] || after[0] == SPACE
    requires Legal(first, fits)
    requires first <= before + current + [SPACE] + word + after
    requires first == before + current + [SPACE] + word + after
          || (before + current + [SPACE] + word + after)[|first|] == SPACE
    requires |first| > |before + current|
    ensures fits(current + [SPACE] + word)
  {
    var whole := before + current + [SPACE] + word + after;
    var split := |before + current|;
    var end := split + 1 + |word|;
    assert first[split] == whole[split] == SPACE;
    assert |first| >= end by {
      assert forall k :: split < k < end ==> whole[k] == word[k - split - 1] && whole[k] in word;
    }
    assert WordEnd(first, end) by {
      if end < |first| {
        assert first[end] == whole[end] == after[0];
      }
    }
    assert WordStart(first, |before|) by {
      if before != [] {
        assert first[|before| - 1] == whole[|before| - 1] == before[|before| - 1];
      }
    }
    assert first[|before|..end] == whole[|before|..end] == current + [SPACE] + word;
  }

  /**
   The first line of other legal lines cannot reach past the greedy line: the word the greedy line refused would fit.
  */
  lemma FirstLineIsNoLonger(before: Text, current: Text, word: Text, after: Text, first: Text, fits: Text -> bool)
    requires PartsFit(fits)
    requires OneWord(word)
    requires !fits(current + [SPACE] + word)
    requires before == [] || before[|before| - 1] == SPACE
    requires after == [] || after[0] == SPACE
    requires Legal(first, fits)
    requires first <= before + current + [SPACE] + word + after
    requires first == before + current + [SPACE] + word + after
          || (before + current + [SPACE] + word + after)[|first|] == SPACE
    ensures |first| <= |before + current|
  {
    if |first| > |before + current| {
      LongLineHoldsTheWord(before, current, word, after, first, fits);
    }
  }

  lemma JoinedStarts(word: Text, rest: seq<Text>) returns (after: Text)
    ensures JoinLines([word] + rest) == word + after
    ensures after == [] || after[0] == SPACE
  {
    assert ([word] + rest)[1..] == rest;
    after := if rest == [] then [] else [SPACE] + JoinLines(rest);
  }

  lemma OtherStarts(other: seq<Text>, whole: Text)
    requires other != [] && JoinLines(other) == whole
    ensures other[0] <= whole
    ensures |other| == 1 ==> other[0] == whole
    ensures |other| > 1 ==> |other[0]| < |whole| && whole[|other[0]|] == SPACE
    ensures |other| > 1 ==> JoinLines(other[1..]) == whole[|other[0]| + 1..]
  {
  }

  /**
   What the other lines still have to cover after their first line, when that line ends no later than the greedy one.
  */
  lemma WhatRemains(before: Text, current: Text, tail: Text, first: nat)
    requires first <= |before + current|
    requires (before + current + [SPACE] + tail)[first] == SPACE
    ensures (before + current + [SPACE] + tail)[first + 1..] == (before + current + [SPACE])[first + 1..] + tail
  {
  }

  /** `other` has to cover `before` as well as what the greedy fill still has, and still needs no fewer lines. */
  lemma {:induction false} GreedyStaysAhead(words: seq<Text>, current: Text, before: Text, other: seq<Text>,
                                            fits: Text -> bool)
    requires PartsFit(fits)
    requires WordsOnly(words) && NoEmptyWord(words) && current != []
    requires before == [] || before[|before| - 1] == SPACE
    requires other != [] && AllLegal(other, fits)
    requires JoinLines(other) == before + JoinLines([current] + words)
    ensures |Fill(words, current, fits)| <= |other|
    decreases |words|
  {
    hide PartsFit, JoinLines;
    if words != [] {
      var word, rest := words[0], words[1..];
      assert [current] + words == [current, word] + rest;
      JoinedExtends(current, word, rest);
      if fits(Extended(current, word)) {
        GreedyStaysAhead(rest, Extended(current, word), before, other, fits);
      } else {
        var after := JoinedStarts(word, rest);
        var whole := before + current + [SPACE] + word + after;
        assert JoinLines(other) == whole;
        OtherStarts(other, whole);
        FirstLineIsNoLonger(before, current, word, after, other[0], fits);
        assert |other| > 1;
        NextLine(words, current, before, other, after, fits);
      }
    }
  }

  lemma {:induction false} NextLine(words: seq<Text>, current: Text, before: Text, other: seq<Text>, after: Text,
                                    fits: Text -> bool)
    requires PartsFit(fits)
    requires words != [] && WordsOnly(words) && NoEmptyWord(words) && current != []
    requires |other| > 1 && AllLegal(other, fits)
    requires JoinLines([words[0]] + words[1..]) == words[0] + after
    requires JoinLines(other) == before + current + [SPACE] + words[0] + after
    requires |other[0]| <= |before + current|
    requires !fits(Extended(current, words[0]))
    ensures |Fill(words, current, fits)| <= |other|
    decreases |words|, 0
  {
    var first := |other[0]|;
    var tail := words[0] + after;
    var whole := before + current + [SPACE] + words[0] + after;
    assert whole == before + current + [SPACE] + tail;
    OtherStarts(other, whole);
    WhatRemains(before, current, tail, first);
    var remains := (before + current + [SPACE])[first + 1..];
    GreedyStaysAhead(words[1..], words[0], remains, other[1..], fits);
  }

  lemma NoFewerLines(text: Text, fits: Text -> bool, other: seq<Text>)
    requires PartsFit(fits)
    requires NoEmptyWord(Split(text))
    requires AllLegal(other, fits) && JoinLines(other) == text
    ensures |Wrap(text, fits)| <= |other|
  {
    var words := Split(text);
    SplitMakesWords(text);
    FirstWord(words, fits);
    assert [words[0]] + words[1..] == words;
    var before: Text := [];
    assert before + JoinLines(words) == text;
    GreedyStaysAhead(words[1..], words[0], before, other, fits);
  }

  // ---------- Each line takes all the words it can ----------

  /** The first word of the next line does not fit on this one any more. */
  ghost predicate IsFull(line: Text, next: Text, fits: Text -> bool)
  {
    exists word: Text, rest: Text :: next == word + rest && word != [] && SPACE !in word
                                     && (rest == [] || rest[0] == SPACE) && !fits(line + [SPACE] + word)
  }

  ghost predicate Greedy(lines: seq<Text>, fits: Text -> bool)
  {
    forall i :: 0 < i < |lines| ==> IsFull(lines[i - 1], lines[i], fits)
  }

  /** The line begins with these words, whole. */
  predicate BeginsWith(line: Text, words: Text)
  {
    words <= line && (|words| < |line| ==> line[|words|] == SPACE)
  }

  lemma {:induction false} FillIsGreedy(words: seq<Text>, current: Text, fits: Text -> bool)
    requires WordsOnly(words) && NoEmptyWord(words) && current != []
    ensures var lines := Fill(words, current, fits);
            lines != [] && BeginsWith(lines[0], current) && Greedy(lines, fits)
    decreases |words|
  {
    if words != [] {
      var word, rest := words[0], words[1..];
      if fits(Extended(current, word)) {
        FillIsGreedy(rest, Extended(current, word), fits);
        var line := Fill(rest, Extended(current, word), fits)[0];
        assert current <= Extended(current, word) <= line && line[|current|] == Extended(current, word)[|current|];
      } else {
        FillIsGreedy(rest, word, fits);
        OneMoreLine(current, word, Fill(rest, word, fits), fits);
      }
    }
  }

  lemma OneMoreLine(current: Text, word: Text, lines: seq<Text>, fits: Text -> bool)
    requires word != [] && OneWord(word) && lines != [] && BeginsWith(lines[0], word) && Greedy(lines, fits)
    requires !fits(current + [SPACE] + word)
    ensures Greedy([current] + lines, fits)
  {
    var all := [current] + lines;
    forall i | 0 < i < |all| ensures IsFull(all[i - 1], all[i], fits) {
      if i == 1 {
        assert all[1] == word + lines[0][|word|..];
      } else {
        assert all[i] == lines[i - 1] && all[i - 1] == lines[i - 2];
      }
    }
  }

  lemma LinesAreGreedy(text: Text, fits: Text -> bool)
    requires NoEmptyWord(Split(text))
    ensures Greedy(Wrap(text, fits), fits)
  {
    var words := Split(text);
    SplitMakesWords(text);
    FirstWord(words, fits);
    assert WordsOnly(words[1..]) && NoEmptyWord(words[1..]);
    FillIsGreedy(words[1..], words[0], fits);
  }

  // ---------- When the lines join back ----------

  /** A width in which only the empty line fits. */
  function NoWordFits(): Text -> bool { line => line == [] }

  function NonEmpty(words: seq<Text>): seq<Text>
  {
    if words == [] then []
    else (if words[0] == [] then [] else [words[0]]) + NonEmpty(words[1..])
  }

  lemma {:induction false} NarrowFill(words: seq<Text>, current: Text)
    ensures Fill(words, current, NoWordFits()) == Closed(current) + NonEmpty(words)
    decreases |words|
  {
    if words != [] {
      NarrowFill(words[1..], words[0]);
    }
  }

  function JoinedLen(lines: seq<Text>): nat
  {
    if lines == [] then 0 else |lines[0]| + 1 + JoinedLen(lines[1..])
  }

  lemma {:induction false} JoinedHasLen(lines: seq<Text>)
    ensures lines != [] ==> |JoinLines(lines)| + 1 == JoinedLen(lines)
  {
    if |lines| > 1 {
      JoinedHasLen(lines[1..]);
    }
  }

  lemma {:induction false} DroppingShortens(words: seq<Text>)
    ensures JoinedLen(NonEmpty(words)) <= JoinedLen(words)
    ensures JoinedLen(NonEmpty(words)) == JoinedLen(words) ==> NoEmptyWord(words)
  {
    if words != [] {
      DroppingShortens(words[1..]);
      var kept := NonEmpty(words[1..]);
      if words[0] == [] {
        assert NonEmpty(words) == kept;
      } else {
        assert NonEmpty(words)[1..] == kept;
        assert words == [words[0]] + words[1..];
      }
    }
  }

  /** With a width no word fits in, every empty word is lost, so the lines join back only if there is none. */
  lemma NarrowLinesLoseEmptyWords(text: Text)
    requires text != [] && JoinLines(Wrap(text, NoWordFits())) == text
    ensures NoEmptyWord(Split(text))
  {
    var words := Split(text);
    NarrowFill(words, []);
    assert Fill(words, [], NoWordFits()) == NonEmpty(words);
    SplitMakesWords(text);
    JoinedHasLen(words);
    JoinedHasLen(NonEmpty(words));
    DroppingShortens(words);
  }

  ghost predicate JoinsBackAtEveryWidth(text: Text)
  {
    forall fits: Text -> bool :: JoinLines(Wrap(text, fits)) == text
  }

  /** The lines give the text back at every width exactly when the text is empty or has no empty word. */
  lemma JoinsBackExactly(text: Text)
    ensures JoinsBackAtEveryWidth(text) <==> text == [] || NoEmptyWord(Split(text))
  {
    if text != [] {
      if JoinsBackAtEveryWidth(text) {
        NarrowLinesLoseEmptyWords(text);
      }
      if NoEmptyWord(Split(text)) {
        forall fits: Text -> bool ensures JoinLines(Wrap(text, fits)) == text {
          LinesJoinBack(text, fits);
        }
      }
    }
  }

  /** A text that starts with a space loses it at any width in which the empty line fits. */
  lemma LeadingSpaceIsLost(fits: Text -> bool)
    requires fits([])
    ensures Wrap([32, 97], fits) == [[97]]
  {
    var letter: Text := [97];
    var nothing: Text := [];
    assert [SPACE, 97][1..] == letter && letter[1..] == nothing;
    assert Split(nothing) == [nothing];
    assert [letter[0]] + nothing == letter && [nothing][1..] == [];
    assert Split(letter) == [letter];
    assert Split([SPACE, 97]) == [nothing, letter];
    assert [nothing, letter][1..] == [letter] && [letter][1..] == [];
    assert Extended(nothing, nothing) == nothing;
    FillEnd([letter], letter, fits);
    assert Fill([letter], nothing, fits) == [letter];
    assert Fill([nothing, letter], nothing, fits) == Fill([letter], nothing, fits);
  }
}
