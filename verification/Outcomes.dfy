/**
 How many of n questions a change improves and how many it regresses, when questions flip independently.
 `Chance` and `Expect` take the questions one at a time; `OutcomeDistribution` and `Convolve` fill
 dictionaries from the closed formula and from all pairs, as the calibration script does.
*/
module Outcomes {
  import opened FiniteSums
  import opened SignTest

  datatype Outcome = Outcome(improved: nat, regressed: nat)

  type Distribution = map<Outcome, real>

  datatype Result<T> = Success(value: T) | Failure(error: string)

  const NONE_FLIPPED := Outcome(0, 0)

  function Plus(x: Outcome, y: Outcome): Outcome
  {
    Outcome(x.improved + y.improved, x.regressed + y.regressed)
  }

  function Improve(x: Outcome): Outcome { Outcome(x.improved + 1, x.regressed) }

  function Regress(x: Outcome): Outcome { Outcome(x.improved, x.regressed + 1) }

  function Same(x: Outcome): Outcome { x }

  ghost predicate Fits(n: nat, x: Outcome) { x.improved + x.regressed <= n }

  ghost function Triangle(n: nat): set<Outcome>
    ensures forall x :: x in Triangle(n) <==> Fits(n, x)
  {
    var grid := set i, r | 0 <= i <= n && 0 <= r <= n :: Outcome(i, r);
    assert forall x: Outcome :: Fits(n, x) ==> x == Outcome(x.improved, x.regressed);
    set x | x in grid && Fits(n, x)
  }

  predicate ValidShares(improve: real, regress: real)
  {
    improve >= 0.0 && regress >= 0.0 && improve + regress <= 1.0
  }

  // ---------- One question at a time ----------

  /** The average over what one question does: it improves, it regresses, or it stays the same. */
  function Mix(improve: real, regress: real, ifImproved: real, ifRegressed: real, ifSame: real): real
  {
    Times(improve, ifImproved) + Times(regress, ifRegressed) + Times(1.0 - improve - regress, ifSame)
  }

  /** The chance that exactly `x` has flipped after n independent questions. */
  ghost function Chance(n: nat, improve: real, regress: real, x: Outcome): real
    decreases n, 0
  {
    if n == 0 then (if x == NONE_FLIPPED then 1.0 else 0.0)
    else
      Mix(improve, regress,
          ChanceBeforeImprove(n - 1, improve, regress, x),
          ChanceBeforeRegress(n - 1, improve, regress, x),
          Chance(n - 1, improve, regress, x))
  }

  ghost function ChanceBeforeImprove(n: nat, improve: real, regress: real, x: Outcome): real
    decreases n, 1
  {
    if x.improved == 0 then 0.0 else Chance(n, improve, regress, Outcome(x.improved - 1, x.regressed))
  }

  ghost function ChanceBeforeRegress(n: nat, improve: real, regress: real, x: Outcome): real
    decreases n, 1
  {
    if x.regressed == 0 then 0.0 else Chance(n, improve, regress, Outcome(x.improved, x.regressed - 1))
  }

  /** The expected score after n more questions, starting from `start`. */
  ghost function Expect(n: nat, improve: real, regress: real, score: Outcome -> real, start: Outcome): real
  {
    if n == 0 then score(start)
    else
      Mix(improve, regress,
          Expect(n - 1, improve, regress, score, Improve(start)),
          Expect(n - 1, improve, regress, score, Regress(start)),
          Expect(n - 1, improve, regress, score, start))
  }

  // ---------- The closed formula ----------

  function Pow(x: real, n: nat): real
  {
    if n == 0 then 1.0 else x * Pow(x, n - 1)
  }

  function Trinomial(n: nat, i: nat, r: nat): nat
    requires i + r <= n
  {
    Comb(n, i) * Comb(n - i, r)
  }

  lemma {:induction false} CombOfAll(n: nat)
    ensures Comb(n, n) == 1
  {
    if n > 0 {
      CombOfAll(n - 1);
      CombIsZeroAbove(n - 1, n);
    }
  }

  lemma PascalStep(n: nat, k: nat)
    requires n > 0 && k <= n
    ensures Comb(n, k) == (if k == 0 then 0 else Comb(n - 1, k - 1)) + (if k == n then 0 else Comb(n - 1, k))
  {
    CombIsZeroAbove(n - 1, n);
  }

  lemma TwoByTwo(a: nat, b: nat, p: nat, q: nat)
    ensures (a + b) * (p + q) == a * (p + q) + b * p + b * q
  {
    assert (a + b) * (p + q) == a * (p + q) + b * (p + q);
  }

  /** The three ways the last question can have gone. */
  lemma TrinomialStep(n: nat, i: nat, r: nat)
    requires n > 0 && i + r <= n
    ensures Trinomial(n, i, r) ==
            (if i == 0 then 0 else Trinomial(n - 1, i - 1, r))
            + (if r == 0 then 0 else Trinomial(n - 1, i, r - 1))
            + (if i + r == n then 0 else Trinomial(n - 1, i, r))
  {
    PascalStep(n, i);
    if i < n {
      PascalStep(n - i, r);
      hide Comb;
      TwoByTwo(if i == 0 then 0 else Comb(n - 1, i - 1), Comb(n - 1, i),
               if r == 0 then 0 else Comb(n - 1 - i, r - 1), if i + r == n then 0 else Comb(n - 1 - i, r));
    }
  }

  /** The chance of one particular sequence of flips with i improved, r regressed and `same` unchanged questions. */
  function SequenceChance(improve: real, regress: real, i: nat, r: nat, same: nat): real
  {
    Pow(improve, i) * Pow(regress, r) * Pow(1.0 - improve - regress, same)
  }

  lemma SequenceImprove(improve: real, regress: real, i: nat, r: nat, same: nat)
    ensures SequenceChance(improve, regress, i + 1, r, same) == improve * SequenceChance(improve, regress, i, r, same)
  {
    MoveFactor(improve, Pow(improve, i), Pow(regress, r), Pow(1.0 - improve - regress, same));
  }

  lemma SequenceRegress(improve: real, regress: real, i: nat, r: nat, same: nat)
    ensures SequenceChance(improve, regress, i, r + 1, same) == regress * SequenceChance(improve, regress, i, r, same)
  {
    MoveFactor(regress, Pow(regress, r), Pow(improve, i), Pow(1.0 - improve - regress, same));
  }

  lemma SequenceSame(improve: real, regress: real, i: nat, r: nat, same: nat)
    ensures SequenceChance(improve, regress, i, r, same + 1)
            == (1.0 - improve - regress) * SequenceChance(improve, regress, i, r, same)
  {
    var share := 1.0 - improve - regress;
    assert Pow(share, same + 1) == share * Pow(share, same);
    MoveFactor(share, Pow(share, same), Pow(improve, i), Pow(regress, r));
  }

  lemma MoveFactor(x: real, y: real, u: real, v: real)
    ensures x * (y * u * v) == (x * y) * u * v
    ensures x * (u * y * v) == u * (x * y) * v
    ensures x * (u * v * y) == u * v * (x * y)
  {
    assert x * (y * (u * v)) == (x * y) * (u * v);
    assert u * y == y * u;
    assert u * (x * y) == (x * y) * u;
    assert u * v * y == y * (u * v);
    assert u * v * (x * y) == (x * y) * (u * v);
    assert y * u * v == y * (u * v);
    assert (x * y) * u * v == (x * y) * (u * v);
  }

  lemma Distribute(t1: real, t2: real, t3: real, weight: real)
    ensures t1 * weight + t2 * weight + t3 * weight == (t1 + t2 + t3) * weight
  {
  }

  lemma MoveCount(share: real, count: real, weight: real)
    ensures share * (count * weight) == count * (share * weight)
  {
  }

  /** The closed multinomial formula, 0 outside the triangle. */
  function Closed(n: nat, improve: real, regress: real, i: int, r: int): real
  {
    if i < 0 || r < 0 || i + r > n then 0.0
    else Trinomial(n, i, r) as real * SequenceChance(improve, regress, i, r, n - i - r)
  }

  function Ways(n: nat, i: int, r: int): nat
  {
    if i < 0 || r < 0 || i + r > n then 0 else Trinomial(n, i, r)
  }

  lemma ClosedImprove(n: nat, improve: real, regress: real, i: nat, r: nat)
    requires n > 0 && i + r <= n
    ensures improve * Closed(n - 1, improve, regress, i - 1, r)
            == Ways(n - 1, i - 1, r) as real * SequenceChance(improve, regress, i, r, n - i - r)
  {
    if i > 0 {
      SequenceImprove(improve, regress, i - 1, r, n - i - r);
      MoveCount(improve, Trinomial(n - 1, i - 1, r) as real, SequenceChance(improve, regress, i - 1, r, n - i - r));
    }
  }

  lemma ClosedRegress(n: nat, improve: real, regress: real, i: nat, r: nat)
    requires n > 0 && i + r <= n
    ensures regress * Closed(n - 1, improve, regress, i, r - 1)
            == Ways(n - 1, i, r - 1) as real * SequenceChance(improve, regress, i, r, n - i - r)
  {
    if r > 0 {
      SequenceRegress(improve, regress, i, r - 1, n - i - r);
      MoveCount(regress, Trinomial(n - 1, i, r - 1) as real, SequenceChance(improve, regress, i, r - 1, n - i - r));
    }
  }

  lemma ClosedSame(n: nat, improve: real, regress: real, i: nat, r: nat)
    requires n > 0 && i + r <= n
    ensures (1.0 - improve - regress) * Closed(n - 1, improve, regress, i, r)
            == Ways(n - 1, i, r) as real * SequenceChance(improve, regress, i, r, n - i - r)
  {
    if i + r < n {
      var same := n - 1 - i - r;
      SequenceSame(improve, regress, i, r, same);
      MoveCount(1.0 - improve - regress, Trinomial(n - 1, i, r) as real, SequenceChance(improve, regress, i, r, same));
    }
  }

  lemma ClosedStep(n: nat, improve: real, regress: real, i: nat, r: nat)
    requires n > 0 && i + r <= n
    ensures Closed(n, improve, regress, i, r)
            == Mix(improve, regress, Closed(n - 1, improve, regress, i - 1, r),
                   Closed(n - 1, improve, regress, i, r - 1), Closed(n - 1, improve, regress, i, r))
  {
    hide Comb, Pow, SequenceChance, Trinomial;
    ClosedImprove(n, improve, regress, i, r);
    ClosedRegress(n, improve, regress, i, r);
    ClosedSame(n, improve, regress, i, r);
    TrinomialStep(n, i, r);
    Distribute(Ways(n - 1, i - 1, r) as real, Ways(n - 1, i, r - 1) as real, Ways(n - 1, i, r) as real,
               SequenceChance(improve, regress, i, r, n - i - r));
  }

  lemma {:induction false} ChanceOutside(n: nat, improve: real, regress: real, x: Outcome)
    requires !Fits(n, x)
    ensures Chance(n, improve, regress, x) == 0.0
  {
    if n > 0 {
      if x.improved > 0 {
        ChanceOutside(n - 1, improve, regress, Outcome(x.improved - 1, x.regressed));
      }
      if x.regressed > 0 {
        ChanceOutside(n - 1, improve, regress, Outcome(x.improved, x.regressed - 1));
      }
      ChanceOutside(n - 1, improve, regress, x);
    }
  }

  /** The closed multinomial formula is the chance built up one question at a time. */
  lemma {:induction false} ChanceIsMultinomial(n: nat, improve: real, regress: real, x: Outcome)
    requires Fits(n, x)
    ensures Chance(n, improve, regress, x)
            == Trinomial(n, x.improved, x.regressed) as real
               * SequenceChance(improve, regress, x.improved, x.regressed, n - x.improved - x.regressed)
  {
    ChanceIsClosed(n, improve, regress, x);
  }

  lemma {:induction false} ChanceIsClosed(n: nat, improve: real, regress: real, x: Outcome)
    ensures Chance(n, improve, regress, x) == Closed(n, improve, regress, x.improved, x.regressed)
  {
    var i: int, r: int := x.improved, x.regressed;
    if !Fits(n, x) {
      ChanceOutside(n, improve, regress, x);
    } else if n == 0 {
      assert Trinomial(0, 0, 0) == 1;
    } else {
      if i > 0 {
        ChanceIsClosed(n - 1, improve, regress, Outcome(i - 1, r));
      }
      if r > 0 {
        ChanceIsClosed(n - 1, improve, regress, Outcome(i, r - 1));
      }
      ChanceIsClosed(n - 1, improve, regress, x);
      ClosedStep(n, improve, regress, i, r);
    }
  }

  // ---------- Summing over all outcomes is the same as taking the questions one at a time ----------

  ghost function Weighted(n: nat, improve: real, regress: real, score: Outcome -> real, start: Outcome): Outcome -> real
  {
    (x: Outcome) => Times(Chance(n, improve, regress, x), score(Plus(start, x)))
  }

  lemma MixAdd(a: real, b: real, x1: real, x2: real, x3: real, y1: real, y2: real, y3: real)
    ensures Mix(a, b, x1 + y1, x2 + y2, x3 + y3) == Mix(a, b, x1, x2, x3) + Mix(a, b, y1, y2, y3)
  {
    hide Times;
    TimesAdd(a, x1, y1);
    TimesAdd(b, x2, y2);
    TimesAdd(1.0 - a - b, x3, y3);
  }

  lemma SumScaled(p: real, q: real, r: real, y: real)
    ensures Times(p + q + r, y) == Times(p, y) + Times(q, y) + Times(r, y)
  {
  }

  lemma MixScale(a: real, b: real, x1: real, x2: real, x3: real, y: real)
    ensures Times(Mix(a, b, x1, x2, x3), y) == Mix(a, b, Times(x1, y), Times(x2, y), Times(x3, y))
  {
    TimesRegroup(a, x1, y);
    TimesRegroup(b, x2, y);
    TimesRegroup(1.0 - a - b, x3, y);
    SumScaled(Times(a, x1), Times(b, x2), Times(1.0 - a - b, x3), y);
  }

  lemma {:induction false} SumMix(s: set<Outcome>, a: real, b: real,
                                  f1: Outcome -> real, f2: Outcome -> real, f3: Outcome -> real, h: Outcome -> real)
    requires forall x :: x in s ==> h(x) == Mix(a, b, f1(x), f2(x), f3(x))
    ensures Sum(s, h) == Mix(a, b, Sum(s, f1), Sum(s, f2), Sum(s, f3))
  {
    if s != {} {
      var x :| x in s;
      SumTakeOut(s, x, f1);
      SumTakeOut(s, x, f2);
      SumTakeOut(s, x, f3);
      SumTakeOut(s, x, h);
      SumMix(s - {x}, a, b, f1, f2, f3, h);
      MixAdd(a, b, f1(x), f2(x), f3(x), Sum(s - {x}, f1), Sum(s - {x}, f2), Sum(s - {x}, f3));
    }
  }

  ghost function AfterImprove(n: nat, improve: real, regress: real, score: Outcome -> real,
                              start: Outcome): Outcome -> real
    requires n > 0
  {
    (x: Outcome) => Times(ChanceBeforeImprove(n - 1, improve, regress, x), score(Plus(start, x)))
  }

  ghost function AfterRegress(n: nat, improve: real, regress: real, score: Outcome -> real,
                              start: Outcome): Outcome -> real
    requires n > 0
  {
    (x: Outcome) => Times(ChanceBeforeRegress(n - 1, improve, regress, x), score(Plus(start, x)))
  }

  ghost function AfterSame(n: nat, improve: real, regress: real, score: Outcome -> real,
                           start: Outcome): Outcome -> real
    requires n > 0
  {
    (x: Outcome) => Times(Chance(n - 1, improve, regress, x), score(Plus(start, x)))
  }

  lemma WeightedStep(n: nat, improve: real, regress: real, score: Outcome -> real, start: Outcome, x: Outcome)
    requires n > 0
    ensures Weighted(n, improve, regress, score, start)(x)
            == Mix(improve, regress, AfterImprove(n, improve, regress, score, start)(x),
                   AfterRegress(n, improve, regress, score, start)(x), AfterSame(n, improve, regress, score, start)(x))
  {
    hide Mix, Times;
    MixScale(improve, regress, ChanceBeforeImprove(n - 1, improve, regress, x),
             ChanceBeforeRegress(n - 1, improve, regress, x), Chance(n - 1, improve, regress, x),
             score(Plus(start, x)));
  }

  lemma LastImproved(n: nat, improve: real, regress: real, score: Outcome -> real, start: Outcome)
    requires n > 0
    ensures Sum(Triangle(n), AfterImprove(n, improve, regress, score, start))
            == Sum(Triangle(n - 1), Weighted(n - 1, improve, regress, score, Improve(start)))
  {
    var f, g := Weighted(n - 1, improve, regress, score, Improve(start)),
        AfterImprove(n, improve, regress, score, start);
    forall x | x in Triangle(n - 1) ensures Improve(x) in Triangle(n) && g(Improve(x)) == f(x) {
      assert Plus(start, Improve(x)) == Plus(Improve(start), x);
    }
    forall z | z in Triangle(n) ensures g(z) == 0.0 || exists x :: x in Triangle(n - 1) && Improve(x) == z {
      if z.improved > 0 {
        assert Improve(Outcome(z.improved - 1, z.regressed)) == z;
      } else {
        TimesZero(score(Plus(start, z)));
      }
    }
    SumReindex(Triangle(n - 1), Triangle(n), Improve, f, g);
  }

  lemma LastRegressed(n: nat, improve: real, regress: real, score: Outcome -> real, start: Outcome)
    requires n > 0
    ensures Sum(Triangle(n), AfterRegress(n, improve, regress, score, start))
            == Sum(Triangle(n - 1), Weighted(n - 1, improve, regress, score, Regress(start)))
  {
    var f, g := Weighted(n - 1, improve, regress, score, Regress(start)),
        AfterRegress(n, improve, regress, score, start);
    forall x | x in Triangle(n - 1) ensures Regress(x) in Triangle(n) && g(Regress(x)) == f(x) {
      assert Plus(start, Regress(x)) == Plus(Regress(start), x);
    }
    forall z | z in Triangle(n) ensures g(z) == 0.0 || exists x :: x in Triangle(n - 1) && Regress(x) == z {
      if z.regressed > 0 {
        assert Regress(Outcome(z.improved, z.regressed - 1)) == z;
      } else {
        TimesZero(score(Plus(start, z)));
      }
    }
    SumReindex(Triangle(n - 1), Triangle(n), Regress, f, g);
  }

  lemma LastSame(n: nat, improve: real, regress: real, score: Outcome -> real, start: Outcome)
    requires n > 0
    ensures Sum(Triangle(n), AfterSame(n, improve, regress, score, start))
            == Sum(Triangle(n - 1), Weighted(n - 1, improve, regress, score, start))
  {
    var f, g := Weighted(n - 1, improve, regress, score, start), AfterSame(n, improve, regress, score, start);
    forall z | z in Triangle(n) ensures g(z) == 0.0 || exists x :: x in Triangle(n - 1) && Same(x) == z {
      if z !in Triangle(n - 1) {
        ChanceOutside(n - 1, improve, regress, z);
        TimesZero(score(Plus(start, z)));
      } else {
        assert Same(z) == z;
      }
    }
    SumReindex(Triangle(n - 1), Triangle(n), Same, f, g);
  }

  /** Summing a score over every outcome, weighted by its chance, is its expectation question by question. */
  lemma {:induction false} SumOfChancesIsExpect(n: nat, improve: real, regress: real, score: Outcome -> real,
                                                start: Outcome)
    ensures Sum(Triangle(n), Weighted(n, improve, regress, score, start)) == Expect(n, improve, regress, score, start)
  {
    if n == 0 {
      assert Triangle(0) == {NONE_FLIPPED};
      SumTakeOut(Triangle(0), NONE_FLIPPED, Weighted(0, improve, regress, score, start));
      assert Plus(start, NONE_FLIPPED) == start;
    } else {
      SumOfChancesIsExpect(n - 1, improve, regress, score, Improve(start));
      SumOfChancesIsExpect(n - 1, improve, regress, score, Regress(start));
      SumOfChancesIsExpect(n - 1, improve, regress, score, start);
      LastImproved(n, improve, regress, score, start);
      LastRegressed(n, improve, regress, score, start);
      LastSame(n, improve, regress, score, start);
      forall x {
        WeightedStep(n, improve, regress, score, start, x);
      }
      SumMix(Triangle(n), improve, regress, AfterImprove(n, improve, regress, score, start),
             AfterRegress(n, improve, regress, score, start), AfterSame(n, improve, regress, score, start),
             Weighted(n, improve, regress, score, start));
    }
  }
}
