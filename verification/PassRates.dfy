/** The exact pass rate of each gate part for one assumed truth, and how the rates move with that truth. */
module PassRates {
  import opened FiniteSums
  import opened SignTest
  import opened Outcomes
  import opened Convolution
  import opened GateTuples

  datatype Gain = Gain(netMin: int, pMax: real)

  /** The numbers of the gates file that the calibration reads. */
  datatype Thresholds = Thresholds(g1: Gain, neitherCorpusNetNegative: bool, g2: Gain, tripPMax: real,
                                   perCorpus: seq<nat>)

  datatype Rates = Rates(g1Verbatim: real, tripwire: real, g2KeywordGain: real)

  function GainGate(gain: Gain): Outcome -> bool
  {
    (x: Outcome) => GainPasses(x.improved, x.regressed, gain.netMin, gain.pMax)
  }

  function TripwireHolds(pMax: real): Outcome -> bool
  {
    (x: Outcome) => !TripwireFails(x.improved, x.regressed, pMax)
  }

  ghost function Indicator(passes: Outcome -> bool): Outcome -> real
  {
    (x: Outcome) => if passes(x) then 1.0 else 0.0
  }

  predicate NotNegative(x: Outcome) { x.improved >= x.regressed }

  function Total(sizes: seq<nat>): nat
  {
    if sizes == [] then 0 else sizes[0] + Total(sizes[1..])
  }

  // ---------- Reference definitions: corpus after corpus, question after question ----------

  ghost function Guard(guarded: bool, score: Outcome -> real): Outcome -> real
  {
    (x: Outcome) => if !guarded || NotNegative(x) then score(x) else 0.0
  }

  /**
   The expected score over several corpora that flip independently, each taken in turn from the pooled outcome so
   far. When `guarded`, a run in which some corpus is net negative counts for nothing.
  */
  ghost function Joint(guarded: bool, sizes: seq<nat>, improve: real, regress: real, score: Outcome -> real,
                       start: Outcome): real
    decreases |sizes|, 0
  {
    if sizes == [] then score(start)
    else Expect(sizes[0], improve, regress,
                Guard(guarded, After(JointFrom(guarded, sizes[1..], improve, regress, score), start)), NONE_FLIPPED)
  }

  ghost function JointFrom(guarded: bool, sizes: seq<nat>, improve: real, regress: real,
                           score: Outcome -> real): Outcome -> real
    decreases |sizes|, 1
  {
    (x: Outcome) => Joint(guarded, sizes, improve, regress, score, x)
  }

  /** The chance that the pooled outcome passes and, when `guarded`, no corpus is net negative. */
  ghost function PassChance(guarded: bool, sizes: seq<nat>, improve: real, regress: real, passes: Outcome -> bool): real
  {
    Joint(guarded, sizes, improve, regress, Indicator(passes), NONE_FLIPPED)
  }

  ghost function RatesOf(improve: real, regress: real, t: Thresholds): Rates
  {
    Rates(PassChance(t.neitherCorpusNetNegative, t.perCorpus, improve, regress, GainGate(t.g1)),
          PassChance(false, t.perCorpus, improve, regress, TripwireHolds(t.tripPMax)),
          PassChance(false, t.perCorpus, improve, regress, GainGate(t.g2)))
  }

  // ---------- The same chances over tuples of corpus outcomes ----------

  /** The joint chance is that of the tuples whose sum passes and, when guarded, that hold no net negative corpus. */
  lemma {:induction false} JointIsTupleChance(guarded: bool, sizes: seq<nat>, improve: real, regress: real,
                                              passes: Outcome -> bool, start: Outcome)
    ensures Joint(guarded, sizes, improve, regress, Indicator(passes), start)
            == TupleChance(sizes, improve, regress, Counted(guarded, passes, start))
    decreases |sizes|
  {
    if sizes == [] {
      assert Outcome(start.improved + Improvements([]), start.regressed + Regressions([])) == start;
      assert NoneNetNegative([]);
    } else {
      var n, holds := sizes[0], Counted(guarded, passes, start);
      var score := CorpusScore(guarded, sizes, improve, regress, passes, start);
      forall x: Outcome
        ensures FirstCorpusTerm(sizes, improve, regress, holds)(x)
                == Weighted(n, improve, regress, score, NONE_FLIPPED)(x)
      {
        hide Joint, TupleChance, Chance;
        JointIsTupleChance(guarded, sizes[1..], improve, regress, passes, Plus(start, x));
        TupleTermIsWeighted(guarded, sizes, improve, regress, passes, start, x);
      }
      hide Chance, FirstCorpusTerm, Weighted, Expect, CorpusScore;
      SumCongruent(Triangle(n), FirstCorpusTerm(sizes, improve, regress, holds),
                   Weighted(n, improve, regress, score, NONE_FLIPPED));
      SumOfChancesIsExpect(n, improve, regress, score, NONE_FLIPPED);
      JointIsExpect(guarded, sizes, improve, regress, passes, start);
    }
  }

  /** What the outcome of the first corpus is worth: the joint chance of the others going on from it. */
  ghost function CorpusScore(guarded: bool, sizes: seq<nat>, improve: real, regress: real, passes: Outcome -> bool,
                             start: Outcome): Outcome -> real
    requires sizes != []
  {
    Guard(guarded, After(JointFrom(guarded, sizes[1..], improve, regress, Indicator(passes)), start))
  }

  lemma JointIsExpect(guarded: bool, sizes: seq<nat>, improve: real, regress: real, passes: Outcome -> bool,
                      start: Outcome)
    requires sizes != []
    ensures Joint(guarded, sizes, improve, regress, Indicator(passes), start)
            == Expect(sizes[0], improve, regress, CorpusScore(guarded, sizes, improve, regress, passes, start),
                      NONE_FLIPPED)
  {
    hide Expect;
  }

  lemma TupleTermIsWeighted(guarded: bool, sizes: seq<nat>, improve: real, regress: real, passes: Outcome -> bool,
                            start: Outcome, x: Outcome)
    requires sizes != []
    requires Joint(guarded, sizes[1..], improve, regress, Indicator(passes), Plus(start, x))
             == TupleChance(sizes[1..], improve, regress, Counted(guarded, passes, Plus(start, x)))
    ensures FirstCorpusTerm(sizes, improve, regress, Counted(guarded, passes, start))(x)
            == Weighted(sizes[0], improve, regress, CorpusScore(guarded, sizes, improve, regress, passes, start),
                        NONE_FLIPPED)(x)
  {
    hide TupleChance, Counted, Given, Chance, Joint;
    assert Plus(NONE_FLIPPED, x) == x;
    RestOfTuples(guarded, sizes[1..], improve, regress, passes, start, x);
  }

  lemma RestOfTuples(guarded: bool, rest: seq<nat>, improve: real, regress: real, passes: Outcome -> bool,
                     start: Outcome, x: Outcome)
    ensures TupleChance(rest, improve, regress, Given(x, Counted(guarded, passes, start)))
            == if guarded && x.regressed > x.improved then 0.0
               else TupleChance(rest, improve, regress, Counted(guarded, passes, Plus(start, x)))
  {
    hide TupleChance, Counted, Given;
    var after := Given(x, Counted(guarded, passes, start));
    forall later: seq<Outcome> {
      CountedAfter(guarded, passes, start, x, later);
    }
    if guarded && x.regressed > x.improved {
      NoTuples(rest, improve, regress, after);
    } else {
      SameTuples(rest, improve, regress, after, Counted(guarded, passes, Plus(start, x)));
    }
  }

  /** The rates say what they should: G1 with its filter, the tripwire, and the gain of G2. */
  lemma RatesAreTupleChances(improve: real, regress: real, t: Thresholds)
    ensures var rates, kept := RatesOf(improve, regress, t), t.neitherCorpusNetNegative;
            && rates.g1Verbatim
               == TupleChance(t.perCorpus, improve, regress, GainShows(t.g1.netMin, t.g1.pMax, kept))
            && rates.tripwire == TupleChance(t.perCorpus, improve, regress, TripwireIsQuiet(t.tripPMax))
            && rates.g2KeywordGain
               == TupleChance(t.perCorpus, improve, regress, GainShows(t.g2.netMin, t.g2.pMax, false))
  {
    hide PassChance, TupleChance;
    GainRateIsTupleChance(t.neitherCorpusNetNegative, t.perCorpus, improve, regress, t.g1);
    GainRateIsTupleChance(false, t.perCorpus, improve, regress, t.g2);
    TripwireRateIsTupleChance(t.perCorpus, improve, regress, t.tripPMax);
  }

  lemma TripwireRateIsTupleChance(sizes: seq<nat>, improve: real, regress: real, pMax: real)
    ensures PassChance(false, sizes, improve, regress, TripwireHolds(pMax))
            == TupleChance(sizes, improve, regress, TripwireIsQuiet(pMax))
  {
    hide Joint, TupleChance, Counted, TripwireIsQuiet;
    JointIsTupleChance(false, sizes, improve, regress, TripwireHolds(pMax), NONE_FLIPPED);
    forall tuple: seq<Outcome> {
      CountedQuiet(pMax, tuple);
    }
    SameTuples(sizes, improve, regress, Counted(false, TripwireHolds(pMax), NONE_FLIPPED), TripwireIsQuiet(pMax));
  }

  lemma CountedQuiet(pMax: real, tuple: seq<Outcome>)
    ensures Counted(false, TripwireHolds(pMax), NONE_FLIPPED)(tuple) <==> TripwireIsQuiet(pMax)(tuple)
  {
    hide SignTestP, Improvements, Regressions;
    var x := Outcome(Improvements(tuple), Regressions(tuple));
    assert Counted(false, TripwireHolds(pMax), NONE_FLIPPED)(tuple) <==> TripwireHolds(pMax)(x);
  }

  lemma CountedGain(guarded: bool, gain: Gain, tuple: seq<Outcome>)
    ensures Counted(guarded, GainGate(gain), NONE_FLIPPED)(tuple)
            <==> GainShows(gain.netMin, gain.pMax, guarded)(tuple)
  {
    hide SignTestP, NoneNetNegative, Improvements, Regressions;
    var x := Outcome(Improvements(tuple), Regressions(tuple));
    assert Counted(guarded, GainGate(gain), NONE_FLIPPED)(tuple)
           <==> (guarded ==> NoneNetNegative(tuple)) && GainGate(gain)(x);
  }

  lemma CountedOne(guarded: bool, passes: Outcome -> bool, x: Outcome)
    ensures Counted(guarded, passes, NONE_FLIPPED)([x]) <==> (guarded ==> x.regressed <= x.improved) && passes(x)
  {
    assert [x][1..] == [] && Improvements([]) == 0 && Regressions([]) == 0;
    assert Improvements([x]) == x.improved && Regressions([x]) == x.regressed;
  }

  lemma GainRateIsTupleChance(guarded: bool, sizes: seq<nat>, improve: real, regress: real, gain: Gain)
    ensures PassChance(guarded, sizes, improve, regress, GainGate(gain))
            == TupleChance(sizes, improve, regress, GainShows(gain.netMin, gain.pMax, guarded))
  {
    hide Joint, TupleChance, Counted, GainShows;
    JointIsTupleChance(guarded, sizes, improve, regress, GainGate(gain), NONE_FLIPPED);
    forall tuple: seq<Outcome> {
      CountedGain(guarded, gain, tuple);
    }
    SameTuples(sizes, improve, regress, Counted(guarded, GainGate(gain), NONE_FLIPPED),
               GainShows(gain.netMin, gain.pMax, guarded));
  }

  /** Where nothing can regress, the filter takes nothing away. */
  lemma NoFilterWithoutRegressions(sizes: seq<nat>, improve: real, passes: Outcome -> bool)
    ensures PassChance(true, sizes, improve, 0.0, passes) == PassChance(false, sizes, improve, 0.0, passes)
  {
    hide Joint, TupleChance;
    JointIsTupleChance(true, sizes, improve, 0.0, passes, NONE_FLIPPED);
    JointIsTupleChance(false, sizes, improve, 0.0, passes, NONE_FLIPPED);
    SameWithoutRegressions(sizes, improve, Counted(true, passes, NONE_FLIPPED), Counted(false, passes, NONE_FLIPPED));
  }

  /** With one corpus, the filter asks of the outcome itself that improvements be no fewer than regressions. */
  lemma FilterOfOneCorpus(n: nat, improve: real, regress: real, passes: Outcome -> bool)
    ensures PassChance(true, [n], improve, regress, passes)
            == PassChance(false, [n], improve, regress, (x: Outcome) => x.improved >= x.regressed && passes(x))
  {
    hide Joint, TupleChance, Counted;
    var both := (x: Outcome) => x.improved >= x.regressed && passes(x);
    JointIsTupleChance(true, [n], improve, regress, passes, NONE_FLIPPED);
    JointIsTupleChance(false, [n], improve, regress, both, NONE_FLIPPED);
    forall x: Outcome
      ensures Counted(true, passes, NONE_FLIPPED)([x]) <==> Counted(false, both, NONE_FLIPPED)([x])
    {
      CountedOne(true, passes, x);
      CountedOne(false, both, x);
    }
    SameSingles(n, improve, regress, Counted(true, passes, NONE_FLIPPED), Counted(false, both, NONE_FLIPPED));
  }

  // ---------- The computation ----------

  method RateOf(d: Distribution, passes: Outcome -> bool) returns (rate: real)
    ensures rate == Weigh(d, Indicator(passes))
  {
    rate := 0.0;
    var left := d.Keys;
    ghost var terms := Scored(d, Indicator(passes));
    while left != {}
      invariant left <= d.Keys
      invariant rate == Sum(d.Keys - left, terms)
    {
      var x :| x in left;
      SumInsert(d.Keys - left, x, terms);
      assert d.Keys - left + {x} == d.Keys - (left - {x});
      if passes(x) {
        rate := rate + d[x];
      }
      left := left - {x};
    }
    assert d.Keys - left == d.Keys;
  }

  function Restrict(d: Distribution): Distribution
  {
    map x | x in d && NotNegative(x) :: d[x]
  }

  lemma WeighGuarded(d: Distribution, n: nat, improve: real, regress: real, guarded: bool, score: Outcome -> real)
    requires DistributionOf(d, n, improve, regress)
    ensures Weigh(if guarded then Restrict(d) else d, score)
            == Expect(n, improve, regress, Guard(guarded, score), NONE_FLIPPED)
  {
    var kept := if guarded then Restrict(d) else d;
    WeighOfSample(d, n, improve, regress, Guard(guarded, score));
    hide Expect, Chance, Sum;
    forall x | x in d.Keys ensures x in kept || Scored(d, Guard(guarded, score))(x) == 0.0 {
      TimesZero(d[x]);
    }
    forall z | z in d.Keys
      ensures Scored(d, Guard(guarded, score))(z) == 0.0 || exists x :: x in kept.Keys && Same(x) == z
    {
      assert Same(z) == z;
    }
    SumReindex(kept.Keys, d.Keys, Same, Scored(kept, score), Scored(d, Guard(guarded, score)));
  }

  lemma ScoreAfterNext(next: Distribution, n: nat, improve: real, regress: real, guarded: bool, rest: seq<nat>,
                       score: Outcome -> real, x: Outcome)
    requires DistributionOf(next, n, improve, regress)
    ensures ScoreAfter(if guarded then Restrict(next) else next, JointFrom(guarded, rest, improve, regress, score))(x)
            == JointFrom(guarded, [n] + rest, improve, regress, score)(x)
  {
    WeighGuarded(next, n, improve, regress, guarded, After(JointFrom(guarded, rest, improve, regress, score), x));
    hide DistributionOf, Expect, Sum, Weigh;
    assert ([n] + rest)[1..] == rest;
  }

  /** Taking in one more corpus: convolving with its (filtered) dictionary extends the joint chance by that corpus. */
  lemma PoolOneMore(pooled: Distribution, next: Distribution, n: nat, total: Distribution, improve: real, regress: real,
                    guarded: bool, rest: seq<nat>, score: Outcome -> real)
    requires DistributionOf(next, n, improve, regress)
    requires IsConvolution(total, pooled, if guarded then Restrict(next) else next)
    ensures Weigh(total, JointFrom(guarded, rest, improve, regress, score))
            == Weigh(pooled, JointFrom(guarded, [n] + rest, improve, regress, score))
  {
    var kept := if guarded then Restrict(next) else next;
    WeighConvolution(pooled, kept, total, JointFrom(guarded, rest, improve, regress, score));
    WeighCongruent(pooled, ScoreAfter(kept, JointFrom(guarded, rest, improve, regress, score)),
                   JointFrom(guarded, [n] + rest, improve, regress, score)) by {
      forall x {
        ScoreAfterNext(next, n, improve, regress, guarded, rest, score, x);
      }
    }
  }

  lemma WeighCongruent(d: Distribution, f: Outcome -> real, g: Outcome -> real)
    requires forall x :: f(x) == g(x)
    ensures Weigh(d, f) == Weigh(d, g)
  {
    SumCongruent(d.Keys, Scored(d, f), Scored(d, g));
  }

  /** `pooled` holds the corpora before `count`: going on from it over the others gives the joint score of all. */
  ghost predicate Pools(pooled: Distribution, guarded: bool, sizes: seq<nat>, count: nat, improve: real, regress: real)
    requires count <= |sizes|
  {
    forall score: Outcome -> real ::
      Weigh(pooled, JointFrom(guarded, sizes[count..], improve, regress, score))
      == Joint(guarded, sizes, improve, regress, score, NONE_FLIPPED)
  }

  lemma FirstCorpus(d: Distribution, guarded: bool, sizes: seq<nat>, improve: real, regress: real)
    requires sizes != [] && DistributionOf(d, sizes[0], improve, regress)
    ensures Pools(if guarded then Restrict(d) else d, guarded, sizes, 1, improve, regress)
  {
    var kept := if guarded then Restrict(d) else d;
    forall score: Outcome -> real
      ensures Weigh(kept, JointFrom(guarded, sizes[1..], improve, regress, score))
              == Joint(guarded, sizes, improve, regress, score, NONE_FLIPPED)
    {
      ScoreAfterNext(d, sizes[0], improve, regress, guarded, sizes[1..], score, NONE_FLIPPED);
      assert [sizes[0]] + sizes[1..] == sizes;
      var tail := JointFrom(guarded, sizes[1..], improve, regress, score);
      forall x ensures tail(x) == After(tail, NONE_FLIPPED)(x) {
        assert Plus(NONE_FLIPPED, x) == x;
      }
      WeighCongruent(kept, tail, After(tail, NONE_FLIPPED));
    }
  }

  lemma NextCorpus(pooled: Distribution, d: Distribution, total: Distribution, guarded: bool, sizes: seq<nat>,
                   count: nat,
                   improve: real, regress: real)
    requires count < |sizes| && DistributionOf(d, sizes[count], improve, regress)
    requires Pools(pooled, guarded, sizes, count, improve, regress)
    requires IsConvolution(total, pooled, if guarded then Restrict(d) else d)
    ensures Pools(total, guarded, sizes, count + 1, improve, regress)
  {
    assert [sizes[count]] + sizes[count + 1..] == sizes[count..];
    forall score: Outcome -> real
      ensures Weigh(total, JointFrom(guarded, sizes[count + 1..], improve, regress, score))
              == Joint(guarded, sizes, improve, regress, score, NONE_FLIPPED)
    {
      PoolOneMore(pooled, d, sizes[count], total, improve, regress, guarded, sizes[count + 1..], score);
    }
  }

  lemma AllCorpora(pooled: Distribution, guarded: bool, sizes: seq<nat>, improve: real, regress: real,
                   score: Outcome -> real)
    requires Pools(pooled, guarded, sizes, |sizes|, improve, regress)
    ensures Weigh(pooled, score) == Joint(guarded, sizes, improve, regress, score, NONE_FLIPPED)
  {
    assert sizes[|sizes|..] == [];
    WeighCongruent(pooled, score, JointFrom(guarded, [], improve, regress, score));
  }

  ghost predicate AllDistributions(corpora: seq<Distribution>, sizes: seq<nat>, improve: real, regress: real)
  {
    |corpora| == |sizes| && forall k :: 0 <= k < |sizes| ==> DistributionOf(corpora[k], sizes[k], improve, regress)
  }

  method Pool(corpora: seq<Distribution>, guarded: bool, ghost sizes: seq<nat>, ghost improve: real,
              ghost regress: real)
    returns (pooled: Distribution)
    requires corpora != [] && AllDistributions(corpora, sizes, improve, regress)
    ensures Pools(pooled, guarded, sizes, |sizes|, improve, regress)
  {
    pooled := if guarded then Restrict(corpora[0]) else corpora[0];
    FirstCorpus(corpora[0], guarded, sizes, improve, regress);
    for k := 1 to |corpora|
      invariant Pools(pooled, guarded, sizes, k, improve, regress)
    {
      hide Pools;
      ghost var before := pooled;
      pooled := Convolve(pooled, if guarded then Restrict(corpora[k]) else corpora[k]);
      NextCorpus(before, corpora[k], pooled, guarded, sizes, k, improve, regress);
    }
  }

  /** The exact pass rates: each equals the chance that questions flipping one at a time pass that gate part. */
  method PassRates(improve: real, regress: real, t: Thresholds) returns (result: Result<Rates>)
    ensures result.Success? <==> t.perCorpus != [] && improve >= 0.0 && regress >= 0.0 && improve + regress <= 1.0
    ensures result.Success? ==> result.value == RatesOf(improve, regress, t)
    ensures result.Success? ==>
              result.value == Rates(
                TupleChance(t.perCorpus, improve, regress,
                            GainShows(t.g1.netMin, t.g1.pMax, t.neitherCorpusNetNegative)),
                TupleChance(t.perCorpus, improve, regress, TripwireIsQuiet(t.tripPMax)),
                TupleChance(t.perCorpus, improve, regress, GainShows(t.g2.netMin, t.g2.pMax, false)))
  {
    var corpora: seq<Distribution> := [];
    for k := 0 to |t.perCorpus|
      invariant AllDistributions(corpora, t.perCorpus[..k], improve, regress)
      invariant k > 0 ==> ValidShares(improve, regress)
    {
      var one := OutcomeDistribution(t.perCorpus[k], improve, regress);
      if one.Failure? {
        return Failure(one.error);
      }
      corpora := corpora + [one.value];
    }
    assert t.perCorpus[..|t.perCorpus|] == t.perCorpus;
    if corpora == [] {
      return Failure("list index out of range");
    }
    var pooled := Pool(corpora, false, t.perCorpus, improve, regress);
    var restrictedPooled := pooled;
    if t.neitherCorpusNetNegative {
      restrictedPooled := Pool(corpora, true, t.perCorpus, improve, regress);
    }
    AllCorpora(restrictedPooled, t.neitherCorpusNetNegative, t.perCorpus, improve, regress, Indicator(GainGate(t.g1)));
    AllCorpora(pooled, false, t.perCorpus, improve, regress, Indicator(GainGate(t.g2)));
    AllCorpora(pooled, false, t.perCorpus, improve, regress, Indicator(TripwireHolds(t.tripPMax)));
    var g1Rate := RateOf(restrictedPooled, GainGate(t.g1));
    var g2Rate := RateOf(pooled, GainGate(t.g2));
    var tripRate := RateOf(pooled, TripwireHolds(t.tripPMax));
    RatesAreTupleChances(improve, regress, t);
    return Success(Rates(g1Rate, tripRate, g2Rate));
  }
}
