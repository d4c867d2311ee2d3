/** Several corpora at once: what each corpus comes to, side by side, and the chance of a set of such tuples. */
module GateTuples {
  import opened FiniteSums
  import opened SignTest
  import opened Outcomes

  /** What holds of `[x] + later` once the first corpus came to `x`. */
  ghost function Given(x: Outcome, holds: seq<Outcome> -> bool): seq<Outcome> -> bool
  {
    (later: seq<Outcome>) => holds([x] + later)
  }

  /** The chance that the outcomes of the corpora, which flip independently, hold what is asked. */
  ghost function TupleChance(sizes: seq<nat>, improve: real, regress: real, holds: seq<Outcome> -> bool): real
    decreases |sizes|, 1
  {
    if sizes == [] then (if holds([]) then 1.0 else 0.0)
    else Sum(Triangle(sizes[0]), FirstCorpusTerm(sizes, improve, regress, holds))
  }

  ghost function FirstCorpusTerm(sizes: seq<nat>, improve: real, regress: real, holds: seq<Outcome> -> bool):
    Outcome -> real
    requires sizes != []
    decreases |sizes|, 0
  {
    (x: Outcome) => Chance(sizes[0], improve, regress, x) * TupleChance(sizes[1..], improve, regress, Given(x, holds))
  }

  // ---------- The gate parts, as what they ask of such a tuple ----------

  function Improvements(tuple: seq<Outcome>): nat
  {
    if tuple == [] then 0 else tuple[0].improved + Improvements(tuple[1..])
  }

  function Regressions(tuple: seq<Outcome>): nat
  {
    if tuple == [] then 0 else tuple[0].regressed + Regressions(tuple[1..])
  }

  ghost predicate NoneNetNegative(tuple: seq<Outcome>)
  {
    forall k :: 0 <= k < |tuple| ==> tuple[k].regressed <= tuple[k].improved
  }

  /** The gain shows in the pooled counts and, when asked, no corpus has more regressions than improvements. */
  ghost function GainShows(netMin: int, pMax: real, eachCorpus: bool): seq<Outcome> -> bool
  {
    (tuple: seq<Outcome>) =>
      && (eachCorpus ==> NoneNetNegative(tuple))
      && Improvements(tuple) - Regressions(tuple) >= netMin
      && SignTestP(Improvements(tuple), Improvements(tuple) + Regressions(tuple)) < pMax
  }

  /** Regressions do not exceed improvements, or the sign test does not say so. */
  ghost function TripwireIsQuiet(pMax: real): seq<Outcome> -> bool
  {
    (tuple: seq<Outcome>) =>
      || Regressions(tuple) <= Improvements(tuple)
      || SignTestP(Regressions(tuple), Improvements(tuple) + Regressions(tuple)) >= pMax
  }

  /** The pooled outcome passes and, when `guarded`, no corpus is net negative. */
  ghost function Counted(guarded: bool, passes: Outcome -> bool, start: Outcome): seq<Outcome> -> bool
  {
    (tuple: seq<Outcome>) =>
      && (guarded ==> NoneNetNegative(tuple))
      && passes(Outcome(start.improved + Improvements(tuple), start.regressed + Regressions(tuple)))
  }

  // ---------- Which tuples hold is all that matters ----------

  lemma {:induction false} SameTuples(sizes: seq<nat>, improve: real, regress: real,
                                      f: seq<Outcome> -> bool, g: seq<Outcome> -> bool)
    requires forall tuple: seq<Outcome> :: f(tuple) <==> g(tuple)
    ensures TupleChance(sizes, improve, regress, f) == TupleChance(sizes, improve, regress, g)
    decreases |sizes|
  {
    if sizes != [] {
      forall x: Outcome
        ensures FirstCorpusTerm(sizes, improve, regress, f)(x) == FirstCorpusTerm(sizes, improve, regress, g)(x)
      {
        SameTuples(sizes[1..], improve, regress, Given(x, f), Given(x, g));
      }
      SumCongruent(Triangle(sizes[0]), FirstCorpusTerm(sizes, improve, regress, f),
                   FirstCorpusTerm(sizes, improve, regress, g));
    }
  }

  lemma {:induction false} NoTuples(sizes: seq<nat>, improve: real, regress: real, holds: seq<Outcome> -> bool)
    requires forall tuple: seq<Outcome> :: !holds(tuple)
    ensures TupleChance(sizes, improve, regress, holds) == 0.0
    decreases |sizes|
  {
    if sizes != [] {
      forall x: Outcome ensures FirstCorpusTerm(sizes, improve, regress, holds)(x) == 0.0 {
        NoTuples(sizes[1..], improve, regress, Given(x, holds));
      }
      SumZero(Triangle(sizes[0]), FirstCorpusTerm(sizes, improve, regress, holds));
    }
  }

  /** After a first corpus that is not net negative, or unguarded, the others go on from its outcome. */
  lemma CountedAfter(guarded: bool, passes: Outcome -> bool, start: Outcome, x: Outcome, later: seq<Outcome>)
    ensures Given(x, Counted(guarded, passes, start))(later)
            <==> (!guarded || x.regressed <= x.improved) && Counted(guarded, passes, Plus(start, x))(later)
  {
    var tuple := [x] + later;
    assert tuple[1..] == later;
    assert forall k :: 0 <= k < |later| ==> tuple[k + 1] == later[k];
    assert forall k :: 0 < k < |tuple| ==> tuple[k] == later[k - 1];
  }

  // ---------- Without regressions ----------

  lemma {:induction false} NoRegressionChance(n: nat, improve: real, x: Outcome)
    requires x.regressed > 0
    ensures Chance(n, improve, 0.0, x) == 0.0
  {
    if n > 0 {
      if x.improved > 0 {
        NoRegressionChance(n - 1, improve, Outcome(x.improved - 1, x.regressed));
      }
      NoRegressionChance(n - 1, improve, x);
    }
  }

  ghost predicate NoneRegressed(tuple: seq<Outcome>)
  {
    forall k :: 0 <= k < |tuple| ==> tuple[k].regressed == 0
  }

  lemma OneMoreNotRegressed(x: Outcome, later: seq<Outcome>)
    requires x.regressed == 0 && NoneRegressed(later)
    ensures NoneRegressed([x] + later)
  {
  }

  /** When nothing can regress, tuples in which something did make no difference. */
  lemma {:induction false} SameWithoutRegressions(sizes: seq<nat>, improve: real,
                                                  f: seq<Outcome> -> bool, g: seq<Outcome> -> bool)
    requires forall tuple: seq<Outcome> :: NoneRegressed(tuple) ==> (f(tuple) <==> g(tuple))
    ensures TupleChance(sizes, improve, 0.0, f) == TupleChance(sizes, improve, 0.0, g)
    decreases |sizes|
  {
    if sizes == [] {
      assert NoneRegressed([]);
    } else {
      hide NoneRegressed;
      forall x: Outcome
        ensures FirstCorpusTerm(sizes, improve, 0.0, f)(x) == FirstCorpusTerm(sizes, improve, 0.0, g)(x)
      {
        if x.regressed > 0 {
          NoRegressionChance(sizes[0], improve, x);
        } else {
          forall later: seq<Outcome> | NoneRegressed(later)
            ensures Given(x, f)(later) <==> Given(x, g)(later)
          {
            OneMoreNotRegressed(x, later);
          }
          SameWithoutRegressions(sizes[1..], improve, Given(x, f), Given(x, g));
        }
      }
      SumCongruent(Triangle(sizes[0]), FirstCorpusTerm(sizes, improve, 0.0, f),
                   FirstCorpusTerm(sizes, improve, 0.0, g));
    }
  }

  // ---------- One corpus ----------

  lemma SameSingles(n: nat, improve: real, regress: real, f: seq<Outcome> -> bool, g: seq<Outcome> -> bool)
    requires forall x: Outcome :: f([x]) <==> g([x])
    ensures TupleChance([n], improve, regress, f) == TupleChance([n], improve, regress, g)
  {
    forall x: Outcome
      ensures FirstCorpusTerm([n], improve, regress, f)(x) == FirstCorpusTerm([n], improve, regress, g)(x)
    {
      assert [x] + [] == [x] && [n][1..] == [];
    }
    SumCongruent(Triangle(n), FirstCorpusTerm([n], improve, regress, f), FirstCorpusTerm([n], improve, regress, g));
  }
}
