/** The dictionaries of the calibration script: one corpus, several corpora pooled, and the filtered corpora. */
module Convolution {
  import opened FiniteSums
  import opened SignTest
  import opened Outcomes

  function At(d: Distribution, x: Outcome): real
  {
    if x in d then d[x] else 0.0
  }

  predicate Within(x: Outcome, z: Outcome)
  {
    x.improved <= z.improved && x.regressed <= z.regressed
  }

  function Minus(z: Outcome, x: Outcome): Outcome
    requires Within(x, z)
  {
    Outcome(z.improved - x.improved, z.regressed - x.regressed)
  }

  /** `d` holds every outcome that n questions can have, each with its chance, and nothing else. */
  ghost predicate DistributionOf(d: Distribution, n: nat, improve: real, regress: real)
  {
    d.Keys == Triangle(n) && forall x :: x in d ==> d[x] == Chance(n, improve, regress, x)
  }

  /** P(improved = i, regressed = r), by the closed formula. */
  function Mass(n: nat, improve: real, regress: real, x: Outcome): (mass: real)
    requires x.improved + x.regressed <= n
    ensures mass == Chance(n, improve, regress, x)
  {
    ChanceIsMultinomial(n, improve, regress, x);
    var i, r := x.improved, x.regressed;
    Trinomial(n, i, r) as real * SequenceChance(improve, regress, i, r, n - i - r)
  }

  method OutcomeDistribution(n: nat, improve: real, regress: real) returns (result: Result<Distribution>)
    ensures result.Success? <==> improve >= 0.0 && regress >= 0.0 && improve + regress <= 1.0
    ensures result.Success? ==> DistributionOf(result.value, n, improve, regress)
  {
    if improve < 0.0 || regress < 0.0 || improve + regress > 1.0 {
      return Failure("improve and regress must be shares that add up to at most 1");
    }
    var distribution: Distribution := map[];
    for i := 0 to n + 1
      invariant forall x :: x in distribution <==> Fits(n, x) && x.improved < i
      invariant forall x :: x in distribution ==> distribution[x] == Chance(n, improve, regress, x)
    {
      for r := 0 to n + 1 - i
        invariant forall x :: x in distribution <==>
                    Fits(n, x) && (x.improved < i || (x.improved == i && x.regressed < r))
        invariant forall x :: x in distribution ==> distribution[x] == Chance(n, improve, regress, x)
      {
        hide Mass, Chance;
        distribution := distribution[Outcome(i, r) := Mass(n, improve, regress, Outcome(i, r))];
      }
    }
    return Success(distribution);
  }

  // ---------- Convolution ----------

  /** What an outcome of the first dictionary contributes to `z`: its mass times that of the missing part. */
  ghost function Contribution(first: Distribution, second: Distribution, z: Outcome): Outcome -> real
  {
    (x: Outcome) => Times(At(first, x), Rest(second, z, x))
  }

  ghost function Rest(second: Distribution, z: Outcome, x: Outcome): real
  {
    if Within(x, z) then At(second, Minus(z, x)) else 0.0
  }

  ghost predicate Reached(xs: set<Outcome>, ys: set<Outcome>, z: Outcome)
  {
    exists x, y :: x in xs && y in ys && Plus(x, y) == z
  }

  ghost predicate IsConvolution(total: Distribution, first: Distribution, second: Distribution)
  {
    && (forall z :: z in total <==> Reached(first.Keys, second.Keys, z))
    && (forall z :: At(total, z) == Sum(first.Keys, Contribution(first, second, z)))
  }

  /** What the inner loop has added to `z` once it has handled the outcomes in `seen`. */
  ghost function Added(weight: real, second: Distribution, seen: set<Outcome>, z: Outcome, x: Outcome): real
  {
    if Within(x, z) && Minus(z, x) in seen then Times(weight, Rest(second, z, x)) else 0.0
  }

  method Convolve(first: Distribution, second: Distribution) returns (total: Distribution)
    ensures IsConvolution(total, first, second)
  {
    total := map[];
    var left := first.Keys;
    while left != {}
      invariant left <= first.Keys
      invariant forall z :: z in total <==> Reached(first.Keys - left, second.Keys, z)
      invariant forall z :: At(total, z) == Sum(first.Keys - left, Contribution(first, second, z))
    {
      var x :| x in left;
      ghost var before := first.Keys - left;
      total := AddRow(total, before, first, second, x);
      left := left - {x};
      assert first.Keys - left == before + {x};
      forall z ensures At(total, z) == Sum(before + {x}, Contribution(first, second, z)) {
        SumInsert(before, x, Contribution(first, second, z));
      }
    }
    assert first.Keys - left == first.Keys;
  }

  lemma AddOne(second: Distribution, weight: real, x: Outcome, y: Outcome, mass: real, seen: set<Outcome>,
               before: Distribution, after: Distribution, start: Distribution)
    requires y in second && y !in seen && mass == Times(weight, second[y])
    requires after == before[Plus(x, y) := At(before, Plus(x, y)) + mass]
    requires forall z :: At(before, z) == At(start, z) + Added(weight, second, seen, z, x)
    ensures forall z :: At(after, z) == At(start, z) + Added(weight, second, seen + {y}, z, x)
  {
    forall z ensures At(after, z) == At(start, z) + Added(weight, second, seen + {y}, z, x) {
      if z == Plus(x, y) {
        assert Minus(z, x) == y;
      } else if Within(x, z) {
        assert Plus(x, Minus(z, x)) == z;
      }
    }
  }

  /** The inner loop: every pair that starts with `x`. */
  method AddRow(start: Distribution, ghost before: set<Outcome>, first: Distribution, second: Distribution, x: Outcome)
    returns (total: Distribution)
    requires x in first && x !in before
    requires forall z :: z in start <==> Reached(before, second.Keys, z)
    ensures forall z :: z in total <==> Reached(before + {x}, second.Keys, z)
    ensures forall z :: At(total, z) == At(start, z) + Contribution(first, second, z)(x)
  {
    total := start;
    var left := second.Keys;
    while left != {}
      invariant left <= second.Keys
      invariant forall z :: z in total <==> Reached(before, second.Keys, z) || Reached({x}, second.Keys - left, z)
      invariant forall z :: At(total, z) == At(start, z) + Added(first[x], second, second.Keys - left, z, x)
    {
      var y :| y in left;
      ghost var was, seen := total, second.Keys - left;
      var key, mass := Plus(x, y), first[x] * second[y];
      total := total[key := At(total, key) + mass];
      left := left - {y};
      assert second.Keys - left == seen + {y};
      AddOne(second, first[x], x, y, mass, seen, was, total, start);
      ReachedStep(x, y, seen);
    }
    RowDone(start, total, before, first, second, x);
  }

  lemma ReachedStep(x: Outcome, y: Outcome, seen: set<Outcome>)
    ensures forall z :: Reached({x}, seen + {y}, z) <==> Reached({x}, seen, z) || z == Plus(x, y)
  {
  }

  lemma RowDone(start: Distribution, total: Distribution, before: set<Outcome>, first: Distribution,
                second: Distribution,
                x: Outcome)
    requires x in first
    requires forall z :: z in total <==> Reached(before, second.Keys, z) || Reached({x}, second.Keys, z)
    requires forall z :: At(total, z) == At(start, z) + Added(first[x], second, second.Keys, z, x)
    ensures forall z :: z in total <==> Reached(before + {x}, second.Keys, z)
    ensures forall z :: At(total, z) == At(start, z) + Contribution(first, second, z)(x)
  {
    AllAdded(first, second, x);
    ReachedUnion(before, {x}, second.Keys);
  }

  lemma AllAdded(first: Distribution, second: Distribution, x: Outcome)
    requires x in first
    ensures forall z :: Added(first[x], second, second.Keys, z, x) == Contribution(first, second, z)(x)
  {
    forall z ensures Added(first[x], second, second.Keys, z, x) == Contribution(first, second, z)(x) {
      if Rest(second, z, x) == 0.0 {
        TimesZero(At(first, x));
      }
    }
  }

  lemma ReachedUnion(xs: set<Outcome>, more: set<Outcome>, ys: set<Outcome>)
    ensures forall z :: Reached(xs + more, ys, z) <==> Reached(xs, ys, z) || Reached(more, ys, z)
  {
  }

  // ---------- Convolving two samples is one larger sample ----------

  /** The chance of reaching `goal` from the current outcome in n more questions. */
  ghost function ToReach(n: nat, improve: real, regress: real, goal: Outcome): Outcome -> real
  {
    (x: Outcome) => if Within(x, goal) then Chance(n, improve, regress, Minus(goal, x)) else 0.0
  }

  lemma ToReachStep(n: nat, improve: real, regress: real, goal: Outcome, start: Outcome)
    ensures ToReach(n + 1, improve, regress, goal)(start)
            == Mix(improve, regress, ToReach(n, improve, regress, goal)(Improve(start)),
                   ToReach(n, improve, regress, goal)(Regress(start)), ToReach(n, improve, regress, goal)(start))
  {
    hide Chance, Mix;
    if Within(start, goal) {
      var missing := Minus(goal, start);
      OneMoreQuestion(n, improve, regress, missing);
      if missing.improved > 0 {
        assert Minus(goal, Improve(start)) == Outcome(missing.improved - 1, missing.regressed);
      }
      if missing.regressed > 0 {
        assert Minus(goal, Regress(start)) == Outcome(missing.improved, missing.regressed - 1);
      }
      assert ToReach(n, improve, regress, goal)(Improve(start)) == ChanceBeforeImprove(n, improve, regress, missing);
      assert ToReach(n, improve, regress, goal)(Regress(start)) == ChanceBeforeRegress(n, improve, regress, missing);
    } else {
      MixOfNothing(improve, regress);
    }
  }

  lemma OneMoreQuestion(n: nat, improve: real, regress: real, x: Outcome)
    ensures Chance(n + 1, improve, regress, x)
            == Mix(improve, regress, ChanceBeforeImprove(n, improve, regress, x),
                   ChanceBeforeRegress(n, improve, regress, x), Chance(n, improve, regress, x))
  {
    hide Mix;
  }

  lemma MixOfNothing(improve: real, regress: real)
    ensures Mix(improve, regress, 0.0, 0.0, 0.0) == 0.0
  {
  }

  lemma {:induction false} ExpectToReach(m: nat, n: nat, improve: real, regress: real, goal: Outcome, start: Outcome)
    ensures Expect(m, improve, regress, ToReach(n, improve, regress, goal), start)
            == ToReach(m + n, improve, regress, goal)(start)
  {
    hide ToReach, Mix;
    if m > 0 {
      ExpectToReach(m - 1, n, improve, regress, goal, Improve(start));
      ExpectToReach(m - 1, n, improve, regress, goal, Regress(start));
      ExpectToReach(m - 1, n, improve, regress, goal, start);
      ToReachStep(m - 1 + n, improve, regress, goal, start);
    }
  }

  lemma TriangleSplits(m: nat, n: nat, z: Outcome)
    ensures Fits(m + n, z) <==> Reached(Triangle(m), Triangle(n), z)
  {
    if Fits(m + n, z) {
      var i := if z.improved < m then z.improved else m;
      var r := if z.regressed < m - i then z.regressed else m - i;
      var x := Outcome(i, r);
      assert Fits(m, x) && Fits(n, Minus(z, x)) && Plus(x, Minus(z, x)) == z;
    }
  }

  /** Convolving the dictionaries of m and of n questions gives the dictionary of m + n questions, at every outcome. */
  lemma ConvolutionOfSamples(first: Distribution, second: Distribution, total: Distribution,
                             m: nat, n: nat, improve: real, regress: real)
    requires DistributionOf(first, m, improve, regress) && DistributionOf(second, n, improve, regress)
    requires IsConvolution(total, first, second)
    ensures DistributionOf(total, m + n, improve, regress)
  {
    hide Chance, Sum, Contribution;
    forall z ensures (z in total <==> z in Triangle(m + n)) && At(total, z) == Chance(m + n, improve, regress, z) {
      TriangleSplits(m, n, z);
      ConvolvedChance(first, second, m, n, improve, regress, z);
    }
  }

  lemma ContributionAt(first: Distribution, second: Distribution, m: nat, n: nat, improve: real, regress: real,
                       z: Outcome, x: Outcome)
    requires DistributionOf(first, m, improve, regress) && DistributionOf(second, n, improve, regress) && x in first
    ensures Contribution(first, second, z)(x)
            == Weighted(m, improve, regress, ToReach(n, improve, regress, z), NONE_FLIPPED)(x)
  {
    hide Times, Chance;
    assert Plus(NONE_FLIPPED, x) == x;
    if Within(x, z) && Minus(z, x) !in second {
      ChanceOutside(n, improve, regress, Minus(z, x));
    }
    assert Rest(second, z, x) == ToReach(n, improve, regress, z)(x);
  }

  lemma ConvolvedChance(first: Distribution, second: Distribution, m: nat, n: nat, improve: real, regress: real,
                        z: Outcome)
    requires DistributionOf(first, m, improve, regress) && DistributionOf(second, n, improve, regress)
    ensures Sum(first.Keys, Contribution(first, second, z)) == Chance(m + n, improve, regress, z)
  {
    hide Times, Chance, Expect, Mix, Sum, Contribution, Weighted;
    var score := ToReach(n, improve, regress, z);
    forall x | x in first.Keys
      ensures Contribution(first, second, z)(x) == Weighted(m, improve, regress, score, NONE_FLIPPED)(x)
    {
      ContributionAt(first, second, m, n, improve, regress, z, x);
    }
    SumCongruent(first.Keys, Contribution(first, second, z), Weighted(m, improve, regress, score, NONE_FLIPPED));
    SumOfChancesIsExpect(m, improve, regress, score, NONE_FLIPPED);
    ExpectToReach(m, n, improve, regress, z, NONE_FLIPPED);
    assert Minus(z, NONE_FLIPPED) == z;
  }

  // ---------- Scores of a dictionary ----------

  ghost function Scored(d: Distribution, score: Outcome -> real): Outcome -> real
  {
    (x: Outcome) => Times(At(d, x), score(x))
  }

  /** The expected score under a dictionary. */
  ghost function Weigh(d: Distribution, score: Outcome -> real): real
  {
    Sum(d.Keys, Scored(d, score))
  }

  ghost function After(score: Outcome -> real, x: Outcome): Outcome -> real
  {
    (y: Outcome) => score(Plus(x, y))
  }

  lemma WeighOfSample(d: Distribution, n: nat, improve: real, regress: real, score: Outcome -> real)
    requires DistributionOf(d, n, improve, regress)
    ensures Weigh(d, score) == Expect(n, improve, regress, score, NONE_FLIPPED)
  {
    hide Times, Chance, Expect, Mix, Sum;
    forall x | x in d ensures Scored(d, score)(x) == Weighted(n, improve, regress, score, NONE_FLIPPED)(x) {
      assert Plus(NONE_FLIPPED, x) == x;
    }
    SumCongruent(d.Keys, Scored(d, score), Weighted(n, improve, regress, score, NONE_FLIPPED));
    SumOfChancesIsExpect(n, improve, regress, score, NONE_FLIPPED);
  }

  ghost function ScoreAfter(second: Distribution, score: Outcome -> real): Outcome -> real
  {
    (x: Outcome) => Weigh(second, After(score, x))
  }

  /** The term of `z` that comes from `x`, weighted by the score of `z`. */
  ghost function Cell(first: Distribution, second: Distribution, score: Outcome -> real): (Outcome, Outcome) -> real
  {
    (x: Outcome, z: Outcome) => Times(Contribution(first, second, z)(x), score(z))
  }

  lemma CellAt(first: Distribution, second: Distribution, score: Outcome -> real, x: Outcome, y: Outcome)
    requires x in first && y in second
    ensures Cell(first, second, score)(x, Plus(x, y)) == Times(first[x], Scored(second, After(score, x))(y))
  {
    hide Times;
    var z := Plus(x, y);
    assert Minus(z, x) == y;
    assert Contribution(first, second, z)(x) == Times(first[x], second[y]);
    assert Cell(first, second, score)(x, z) == Times(Contribution(first, second, z)(x), score(z));
    assert Scored(second, After(score, x))(y) == Times(second[y], After(score, x)(y));
    assert After(score, x)(y) == score(z);
    TimesRegroup(first[x], second[y], score(z));
  }

  lemma CellOff(first: Distribution, second: Distribution, score: Outcome -> real, x: Outcome, z: Outcome)
    requires !(Within(x, z) && Minus(z, x) in second)
    ensures Cell(first, second, score)(x, z) == 0.0
  {
    hide Times;
    assert Rest(second, z, x) == 0.0;
    TimesZero(At(first, x));
    assert Contribution(first, second, z)(x) == 0.0;
    TimesZero(score(z));
  }

  lemma ConvolutionHolds(first: Distribution, second: Distribution, total: Distribution, x: Outcome, y: Outcome)
    requires IsConvolution(total, first, second) && x in first && y in second
    ensures Plus(x, y) in total
  {
    assert Reached(first.Keys, second.Keys, Plus(x, y));
  }

  lemma ConvolutionAt(first: Distribution, second: Distribution, total: Distribution, z: Outcome)
    requires IsConvolution(total, first, second)
    ensures At(total, z) == Sum(first.Keys, Contribution(first, second, z))
  {
  }

  ghost function RowTerm(first: Distribution, second: Distribution, score: Outcome -> real, x: Outcome): Outcome -> real
  {
    (y: Outcome) => Times(At(first, x), Scored(second, After(score, x))(y))
  }

  lemma RowOnto(first: Distribution, second: Distribution, total: Distribution, score: Outcome -> real, x: Outcome,
                z: Outcome)
    requires IsConvolution(total, first, second) && x in first && z in total
    ensures Cell(first, second, score)(x, z) == 0.0 || exists y :: y in second.Keys && Plus(x, y) == z
  {
    hide IsConvolution, Cell;
    if Within(x, z) && Minus(z, x) in second {
      assert Plus(x, Minus(z, x)) == z;
    } else {
      CellOff(first, second, score, x, z);
    }
  }

  lemma CellRow(first: Distribution, second: Distribution, total: Distribution, score: Outcome -> real, x: Outcome)
    requires IsConvolution(total, first, second) && x in first
    ensures Scored(first, ScoreAfter(second, score))(x) == Sum(total.Keys, Row(Cell(first, second, score), x))
  {
    var f, g := RowTerm(first, second, score, x), Row(Cell(first, second, score), x);
    hide Times, Cell, IsConvolution, Sum;
    SumScale(second.Keys, first[x], Scored(second, After(score, x)), f);
    forall y | y in second.Keys ensures Plus(x, y) in total.Keys && g(Plus(x, y)) == f(y) {
      ConvolutionHolds(first, second, total, x, y);
      CellAt(first, second, score, x, y);
    }
    forall z | z in total.Keys ensures g(z) == 0.0 || exists y :: y in second.Keys && Plus(x, y) == z {
      RowOnto(first, second, total, score, x, z);
    }
    SumReindex(second.Keys, total.Keys, y => Plus(x, y), f, g);
  }

  lemma CellColumn(first: Distribution, second: Distribution, total: Distribution, score: Outcome -> real, z: Outcome)
    requires IsConvolution(total, first, second) && z in total
    ensures Scored(total, score)(z) == Sum(first.Keys, Column(Cell(first, second, score), z))
  {
    var f := Contribution(first, second, z);
    var g := Column(Cell(first, second, score), z);
    hide Times, Contribution, IsConvolution, Sum;
    ConvolutionAt(first, second, total, z);
    forall x | x in first.Keys ensures g(x) == Times(score(z), f(x)) {
      TimesCommute(f(x), score(z));
    }
    SumScale(first.Keys, score(z), f, g);
    TimesCommute(Sum(first.Keys, f), score(z));
  }

  /** The expected score of a convolution is taken over the first part and then, from there, over the second. */
  lemma WeighConvolution(first: Distribution, second: Distribution, total: Distribution, score: Outcome -> real)
    requires IsConvolution(total, first, second)
    ensures Weigh(total, score) == Weigh(first, ScoreAfter(second, score))
  {
    hide Sum, Contribution, Rest, IsConvolution, Scored, Cell, ScoreAfter;
    forall z | z in total.Keys {
      CellColumn(first, second, total, score, z);
    }
    forall x | x in first.Keys {
      CellRow(first, second, total, score, x);
    }
    SumSwap(first.Keys, total.Keys, Cell(first, second, score),
            Scored(first, ScoreAfter(second, score)), Scored(total, score));
  }
}
