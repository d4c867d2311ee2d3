/** Whitespace normalisation of text (`" ".join(text.split())`) against a reader that takes one character at a time. */
module Whitespace {
  import opened JsonStrings

  /** The characters that Python's `str.split()` separates words at. */
  predicate IsBlank(c: Code)
  {
    || 9 <= c <= 13 || 28 <= c <= 32 || c == 0x85 || c == 0xA0 || c == 0x1680 || 0x2000 <= c <= 0x200A
    || c == 0x2028 || c == 0x2029 || c == 0x202F || c == 0x205F || c == 0x3000
  }

  const SPACE: Code := 32

  function WordLen(t: Text): (n: nat)
    ensures n <= |t|
  {
    if t == [] || IsBlank(t[0]) then 0 else 1 + WordLen(t[1..])
  }

  /** `text.split()`: the maximal runs of characters that are not blank. */
  function Split(t: Text): seq<Text>
    decreases |t|
  {
    if t == [] then []
    else if IsBlank(t[0]) then Split(t[1..])
    else [t[..WordLen(t)]] + Split(t[WordLen(t)..])
  }

  function JoinWords(words: seq<Text>): Text
  {
    if words == [] then []
    else if |words| == 1 then words[0]
    else words[0] + [SPACE] + JoinWords(words[1..])
  }

  function Normalize(t: Text): Text
  {
    JoinWords(Split(t))
  }

  // ---------- The same, one character at a time ----------

  /** Before the first word, inside a word, or after one. */
  datatype Place = Start | Inside | Gap

  function Collapse(t: Text, place: Place): Text
  {
    if t == [] then []
    else if IsBlank(t[0]) then Collapse(t[1..], if place.Start? then Start else Gap)
    else (if place.Gap? then [SPACE] else []) + [t[0]] + Collapse(t[1..], Inside)
  }

  function PlaceAfter(t: Text, place: Place): Place
  {
    if t == [] then place
    else if IsBlank(t[0]) then PlaceAfter(t[1..], if place.Start? then Start else Gap)
    else PlaceAfter(t[1..], Inside)
  }

  /** What the words of `t` add after a word. */
  function Appended(words: seq<Text>): Text
  {
    if words == [] then [] else [SPACE] + JoinWords(words)
  }

  lemma {:induction false} CollapseWord(t: Text)
    ensures Collapse(t, Inside) == t[..WordLen(t)] + Collapse(t[WordLen(t)..], Inside)
  {
    if t == [] || IsBlank(t[0]) {
      assert t[..0] == [] && t[0..] == t;
    } else {
      var n, tail := WordLen(t[1..]), t[1..];
      CollapseWord(tail);
      assert WordLen(t) == n + 1 && Collapse(t, Inside) == [t[0]] + Collapse(tail, Inside);
      hide IsBlank, WordLen, Collapse;
      assert tail[n..] == t[n + 1..];
      assert t[..n + 1] == [t[0]] + tail[..n];
    }
  }

  lemma {:induction false} WordLenStops(t: Text)
    ensures WordLen(t) < |t| ==> IsBlank(t[WordLen(t)])
  {
    if t != [] && !IsBlank(t[0]) {
      WordLenStops(t[1..]);
    }
  }

  lemma {:induction false} SplitCollapses(t: Text)
    ensures JoinWords(Split(t)) == Collapse(t, Start)
    ensures Appended(Split(t)) == Collapse(t, Gap)
    decreases |t|
  {
    if t == [] {
    } else if IsBlank(t[0]) {
      SplitCollapses(t[1..]);
    } else {
      var rest := t[WordLen(t)..];
      SplitCollapses(rest);
      WordLenStops(t);
      CollapseWord(t);
      InsideIsGap(rest);
      SplitFirstWord(t);
      CollapseFromWord(t);
    }
  }

  lemma InsideIsGap(t: Text)
    requires t == [] || IsBlank(t[0])
    ensures Collapse(t, Inside) == Collapse(t, Gap)
  {
  }

  lemma SplitFirstWord(t: Text)
    requires t != [] && !IsBlank(t[0])
    ensures JoinWords(Split(t)) == t[..WordLen(t)] + Appended(Split(t[WordLen(t)..]))
    ensures Appended(Split(t)) == [SPACE] + JoinWords(Split(t))
  {
    var word, words := t[..WordLen(t)], Split(t[WordLen(t)..]);
    assert Split(t) == [word] + words;
    assert ([word] + words)[1..] == words;
    assert word + [SPACE] + JoinWords(words) == word + ([SPACE] + JoinWords(words));
  }

  lemma CollapseFromWord(t: Text)
    requires t != [] && !IsBlank(t[0])
    ensures Collapse(t, Start) == Collapse(t, Inside)
    ensures Collapse(t, Gap) == [SPACE] + Collapse(t, Inside)
  {
  }

  /** The split and join of the code is the one-character-at-a-time collapse. */
  lemma NormalizeIsCollapse(t: Text)
    ensures Normalize(t) == Collapse(t, Start)
  {
    SplitCollapses(t);
  }

  // ---------- Containment ----------

  predicate OccursAt(outer: Text, inner: Text, k: nat)
  {
    k + |inner| <= |outer| && outer[k..k + |inner|] == inner
  }

  /** `inner in outer` */
  predicate Contains(outer: Text, inner: Text)
  {
    exists k :: 0 <= k <= |outer| && OccursAt(outer, inner, k)
  }

  lemma {:induction false} CollapseConcat(t: Text, u: Text, place: Place)
    ensures Collapse(t + u, place) == Collapse(t, place) + Collapse(u, PlaceAfter(t, place))
  {
    if t == [] {
      assert t + u == u;
    } else {
      assert (t + u)[1..] == t[1..] + u;
      if IsBlank(t[0]) {
        CollapseConcat(t[1..], u, if place.Start? then Start else Gap);
      } else {
        CollapseConcat(t[1..], u, Inside);
      }
    }
  }

  /** From any place, what `t` adds ends in what it would be on its own. */
  lemma {:induction false} CollapseEndsInStart(t: Text, place: Place)
    ensures exists before: Text :: Collapse(t, place) == before + Collapse(t, Start)
  {
    if t == [] {
      assert Collapse(t, place) == [] + Collapse(t, Start);
    } else if IsBlank(t[0]) {
      var next := if place.Start? then Start else Gap;
      CollapseEndsInStart(t[1..], next);
      var before: Text :| Collapse(t[1..], next) == before + Collapse(t[1..], Start);
      assert Collapse(t, place) == before + Collapse(t, Start);
    } else {
      var before := if place.Gap? then [SPACE] else [];
      assert Collapse(t, place) == before + Collapse(t, Start);
    }
  }

  /** If one text occurs inside another, its normal form occurs inside the other's normal form. */
  lemma NormalizeKeepsContainment(outer: Text, inner: Text)
    requires Contains(outer, inner)
    ensures Contains(Normalize(outer), Normalize(inner))
  {
    var k :| 0 <= k <= |outer| && OccursAt(outer, inner, k);
    var before, after := outer[..k], outer[k + |inner|..];
    assert outer == before + (inner + after);
    PaddedNormalForm(before, inner, after);
  }

  lemma PaddedNormalForm(before: Text, inner: Text, after: Text)
    ensures Contains(Normalize(before + (inner + after)), Normalize(inner))
  {
    hide Collapse, PlaceAfter, Normalize, Contains;
    var place := PlaceAfter(before, Start);
    NormalizeIsCollapse(before + (inner + after));
    NormalizeIsCollapse(inner);
    CollapseConcat(before, inner + after, Start);
    CollapseConcat(inner, after, place);
    CollapseEndsInStart(inner, place);
    var lead: Text :| Collapse(inner, place) == lead + Collapse(inner, Start);
    Surrounded(Collapse(before, Start) + lead, Normalize(inner), Collapse(after, PlaceAfter(inner, place)),
               Normalize(before + (inner + after)));
  }

  lemma Surrounded(before: Text, inner: Text, after: Text, outer: Text)
    requires outer == before + inner + after
    ensures Contains(outer, inner)
  {
    assert OccursAt(outer, inner, |before|);
  }

  // ---------- Idempotence ----------

  lemma CollapseWordStart(c: Code, rest: Text, place: Place)
    requires !IsBlank(c) && Collapse(rest, Inside) == rest
    ensures var once := (if place.Gap? then [SPACE] else []) + [c] + rest;
            Collapse(once, if place.Start? then Start else Inside) == once
  {
    var word := [c] + rest;
    CollapseCode(c, rest);
    if place.Gap? {
      CollapseSpace(word);
      assert [SPACE] + [c] + rest == [SPACE] + word;
    } else {
      assert [] + [c] + rest == word;
    }
  }

  lemma CollapseCode(c: Code, rest: Text)
    requires !IsBlank(c)
    ensures Collapse([c] + rest, Start) == [c] + Collapse(rest, Inside)
    ensures Collapse([c] + rest, Inside) == [c] + Collapse(rest, Inside)
    ensures Collapse([c] + rest, Gap) == [SPACE] + ([c] + Collapse(rest, Inside))
  {
    assert ([c] + rest)[1..] == rest;
  }

  lemma CollapseSpace(rest: Text)
    ensures Collapse([SPACE] + rest, Inside) == Collapse(rest, Gap)
  {
    assert ([SPACE] + rest)[1..] == rest;
  }

  lemma {:induction false} CollapseTwice(t: Text, place: Place)
    ensures Collapse(Collapse(t, place), if place.Start? then Start else Inside) == Collapse(t, place)
  {
    if t != [] {
      if IsBlank(t[0]) {
        CollapseTwice(t[1..], if place.Start? then Start else Gap);
      } else {
        CollapseTwice(t[1..], Inside);
        CollapseWordStart(t[0], Collapse(t[1..], Inside), place);
      }
    }
  }

  /** Normalising twice changes nothing. */
  lemma NormalizeTwice(t: Text)
    ensures Normalize(Normalize(t)) == Normalize(t)
  {
    NormalizeIsCollapse(t);
    NormalizeIsCollapse(Normalize(t));
    CollapseTwice(t, Start);
  }

  // ---------- Surrogate pairs ----------

  /** Two codes that come out next to each other as a split pair went in next to each other. */
  lemma {:induction false} PairComesFrom(t: Text, place: Place, i: nat) returns (j: nat)
    requires var c := Collapse(t, place); i + 1 < |c| && IsHigh(c[i]) && IsLow(c[i + 1])
    ensures var c := Collapse(t, place); j + 1 < |t| && t[j] == c[i] && t[j + 1] == c[i + 1]
  {
    if IsBlank(t[0]) {
      j := PairComesFrom(t[1..], if place.Start? then Start else Gap, i);
      j := j + 1;
    } else {
      var skip := if place.Gap? then 2 else 1;
      assert Collapse(t, place)[skip..] == Collapse(t[1..], Inside);
      if i >= skip {
        j := PairComesFrom(t[1..], Inside, i - skip);
        j := j + 1;
      } else {
        assert i == skip - 1;
        j := 0;
        FirstAfterWord(t[1..]);
      }
    }
  }

  /** What follows a code of a word is the next code itself, or a space. */
  lemma {:induction false} FirstAfterWord(t: Text)
    ensures var c := Collapse(t, Inside); c != [] ==> c[0] == SPACE || (t != [] && c[0] == t[0])
  {
    if t != [] && IsBlank(t[0]) {
      FirstAfterGap(t[1..]);
    }
  }

  lemma {:induction false} FirstAfterGap(t: Text)
    ensures var c := Collapse(t, Gap); c != [] ==> c[0] == SPACE
  {
    if t != [] && IsBlank(t[0]) {
      FirstAfterGap(t[1..]);
    }
  }

  /** Normalising neither makes nor hides a split pair when there is none to begin with. */
  lemma NormalizeKeepsJoined(t: Text)
    requires Joined(t)
    ensures Joined(Normalize(t))
  {
    NormalizeIsCollapse(t);
    var c := Collapse(t, Start);
    forall i | 0 <= i < |c| - 1 ensures !(IsHigh(c[i]) && IsLow(c[i + 1])) {
      if IsHigh(c[i]) && IsLow(c[i + 1]) {
        var j := PairComesFrom(t, Start, i);
      }
    }
  }
}
