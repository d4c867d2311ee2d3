/**
 For which thresholds one outcome can pass a gain gate and fail a tripwire. With enough questions the chance of any one
 outcome of the sign test is as small as need be, so the answer is exact.
*/
module GateOverlap {
  import opened SignTest

  // ---------- The largest binomial coefficient ----------

  function Times(a: nat, b: nat): nat { a * b }

  lemma RatioStep(a: nat, b: nat, c: nat, n: nat, k: nat)
    requires 0 < k < n
    requires Times(b, k) == Times(a, n - k)
    requires Times(c, k + 1) == Times(b, n - 1 - k)
    ensures Times(b + c, k + 1) == Times(a + b, n - k)
  {
    assert (b + c) * (k + 1) == b * (k + 1) + c * (k + 1);
    assert (a + b) * (n - k) == a * (n - k) + b * (n - k);
    assert b * (k + 1) + b * (n - 1 - k) == b * n;
    assert b * k + b * (n - k) == b * n;
  }

  /** Each coefficient in terms of the one before it. */
  lemma {:induction false} CombRatio(n: nat, k: nat)
    requires k <= n
    ensures Times(Comb(n, k + 1), k + 1) == Times(Comb(n, k), n - k)
  {
    if k == n {
      CombIsZeroAbove(n, n + 1);
    } else if k == 0 {
      CombOfOne(n);
    } else {
      CombRatio(n - 1, k - 1);
      CombRatio(n - 1, k);
      RatioStep(Comb(n - 1, k - 1), Comb(n - 1, k), Comb(n - 1, k + 1), n, k);
    }
  }

  lemma {:induction false} CombOfOne(n: nat)
    ensures Comb(n, 1) == n
  {
    if n > 0 {
      CombOfOne(n - 1);
    }
  }

  lemma RatioUp(a: nat, b: nat, x: nat, y: nat)
    requires Times(b, x) == Times(a, y) && 0 < x <= y
    ensures a <= b
  {
    TimesIsMonotone(a, x, y);
    if a > b {
      TimesIsStrict(b, a, x);
    }
  }

  lemma TimesIsMonotone(a: nat, x: nat, y: nat)
    requires x <= y
    ensures Times(a, x) <= Times(a, y)
  {
  }

  lemma TimesIsStrict(a: nat, b: nat, x: nat)
    requires a < b && x > 0
    ensures Times(a, x) < Times(b, x)
  {
  }

  lemma {:induction false} RisesToCentre(m: nat, k: nat)
    requires k <= m
    ensures Comb(2 * m, k) <= Comb(2 * m, m)
    decreases m - k
  {
    if k < m {
      RisesToCentre(m, k + 1);
      CombRatio(2 * m, k);
      RatioUp(Comb(2 * m, k), Comb(2 * m, k + 1), k + 1, 2 * m - k);
    }
  }

  lemma {:induction false} FallsFromCentre(m: nat, k: nat)
    requires k >= m
    ensures Comb(2 * m, k) <= Comb(2 * m, m)
    decreases k
  {
    if k > 2 * m {
      CombIsZeroAbove(2 * m, k);
    } else if k > m {
      FallsFromCentre(m, k - 1);
      CombRatio(2 * m, k - 1);
      RatioUp(Comb(2 * m, k), Comb(2 * m, k - 1), 2 * m - k + 1, k);
    }
  }

  // ---------- The chance of one outcome ----------

  /** The chance of exactly `count` of `d` fair flips. */
  function Mass(count: nat, d: nat): real
  {
    Pow2Positive(d);
    Comb(d, count) as real / Pow2(d) as real
  }

  lemma TailIsMassAndTail(count: nat, d: nat)
    requires d >= 1 && count <= d
    ensures SignTestP(count, d) == Mass(count, d) + SignTestP(count + 1, d)
  {
    Pow2Positive(d);
    SumOfQuotients(Comb(d, count), UpperTail(count + 1, d), Pow2(d));
  }

  lemma SumOfQuotients(a: nat, b: nat, c: nat)
    requires c > 0
    ensures (a + b) as real / c as real == a as real / c as real + b as real / c as real
  {
  }

  lemma QuotientIsMonotone(a: nat, b: nat, c: nat)
    requires a <= b && c > 0
    ensures a as real / c as real <= b as real / c as real
  {
    assert b as real / c as real - a as real / c as real == (b - a) as real / c as real;
  }

  lemma CentreIsLargest(m: nat, k: nat)
    ensures Mass(k, 2 * m) <= Mass(m, 2 * m)
  {
    if k <= m {
      RisesToCentre(m, k);
    } else {
      FallsFromCentre(m, k);
    }
    Pow2Positive(2 * m);
    QuotientIsMonotone(Comb(2 * m, k), Comb(2 * m, m), Pow2(2 * m));
  }

  /** The two middle coefficients of an odd row are equal. */
  lemma MiddlesAreEqual(m: nat)
    ensures Comb(2 * m + 1, m) == Comb(2 * m + 1, m + 1)
  {
    hide Comb, Times;
    CombRatio(2 * m + 1, m);
    SameFactor(Comb(2 * m + 1, m), Comb(2 * m + 1, m + 1), m + 1);
  }

  lemma CentreProduct(a: nat, b: nat, m: nat)
    requires Times(b, m + 1) == Times(a, m)
    ensures Times((a + b) + (a + b), m + 1) == 2 * Times(a, 2 * m + 1)
  {
    assert (a + b) * (m + 1) == a * (m + 1) + b * (m + 1);
    assert a * (m + 1) + a * m == a * (2 * m + 1);
  }

  /** The next centre is the sum of two equal coefficients, each the sum of the centre and its neighbour. */
  lemma NextCentre(m: nat)
    ensures Times(Comb(2 * m + 2, m + 1), m + 1) == 2 * Times(Comb(2 * m, m), 2 * m + 1)
  {
    hide Times;
    CombRatio(2 * m, m);
    MiddlesAreEqual(m);
    CentreProduct(Comb(2 * m, m), Comb(2 * m, m + 1), m);
    assert Comb(2 * m + 1, m + 1) == Comb(2 * m, m) + Comb(2 * m, m + 1);
    assert Comb(2 * m + 2, m + 1) == Comb(2 * m + 1, m) + Comb(2 * m + 1, m + 1);
  }

  lemma SameFactor(a: nat, b: nat, x: nat)
    requires Times(a, x) == Times(b, x) && x > 0
    ensures a == b
  {
    RatioUp(a, b, x, x);
    RatioUp(b, a, x, x);
  }

  function Product(a: real, b: real): real { a * b }

  lemma ProductQuotient(q: real, p: real)
    requires p > 0.0
    ensures Product(q, p) / p == q
  {
  }

  lemma QuotientProduct(a: real, p: real)
    requires p > 0.0
    ensures Product(a / p, p) == a
  {
  }

  /** From b x = 2 a y: b over 4p is a over p times y over 2x. */
  lemma QuotientStep(b: real, a: real, x: real, y: real, p: real)
    requires Product(b, x) == 2.0 * Product(a, y) && x > 0.0 && p > 0.0
    ensures b / (4.0 * p) == Product(a / p, y / (2.0 * x))
  {
    var q, f := a / p, y / (2.0 * x);
    QuotientProduct(a, p);
    QuotientProduct(y, 2.0 * x);
    assert a == q * p && y == f * (2.0 * x);
    CrossProducts(b, q, p, f, x);
    ProductQuotient(q * f, 4.0 * p);
  }

  lemma CrossProducts(b: real, q: real, p: real, f: real, x: real)
    requires x > 0.0 && Product(b, x) == 2.0 * Product(q * p, f * (2.0 * x))
    ensures b == Product(q * f, 4.0 * p)
  {
    var c := (q * f) * (4.0 * p);
    assert c * x == 2.0 * ((q * p) * (f * (2.0 * x)));
    ProductQuotient(b, x);
    ProductQuotient(c, x);
  }

  lemma FourTimes(m: nat)
    ensures Pow2(2 * m + 2) == 4 * Pow2(2 * m) && Pow2(2 * m) > 0
  {
    Pow2Positive(2 * m);
    assert Pow2(2 * m + 2) == 2 * Pow2(2 * m + 1);
  }

  lemma CentreStep(m: nat)
    ensures Mass(m + 1, 2 * m + 2) == Product(Mass(m, 2 * m), (2 * m + 1) as real / (2 * m + 2) as real)
  {
    hide Times, Product, Comb, Pow2;
    NextCentre(m);
    FourTimes(m);
    var b, a := Comb(2 * m + 2, m + 1), Comb(2 * m, m);
    RealProducts(b, a, m + 1, 2 * m + 1);
    QuotientStep(b as real, a as real, (m + 1) as real, (2 * m + 1) as real, Pow2(2 * m) as real);
    assert 2.0 * (m + 1) as real == (2 * m + 2) as real;
    assert 4.0 * Pow2(2 * m) as real == Pow2(2 * m + 2) as real;
  }

  lemma RealProducts(b: nat, a: nat, x: nat, y: nat)
    requires Times(b, x) == 2 * Times(a, y)
    ensures Product(b as real, x as real) == 2.0 * Product(a as real, y as real)
  {
    RealProduct(b, x);
    RealProduct(a, y);
  }

  lemma RealProduct(a: nat, b: nat)
    ensures Product(a as real, b as real) == Times(a, b) as real
  {
  }

  function Squared(x: real, y: real): real { Product(Product(x, x), y) }

  lemma SquaredStep(x: real, n: real)
    requires n >= 1.0
    ensures Squared(Product(x, n / (n + 1.0)), n + 2.0) <= Squared(x, n)
  {
    var f := n / (n + 1.0);
    assert f * (n + 1.0) == n;
    assert f * f * (n + 2.0) <= n by {
      assert f * f * ((n + 1.0) * (n + 1.0)) == n * n;
      assert n * (n + 2.0) <= (n + 1.0) * (n + 1.0);
      FractionBound(f, n);
    }
    var w := x * x;
    assert w >= 0.0;
    ScaleBoth(w, f * f * (n + 2.0), n);
    assert Squared(x * f, n + 2.0) == w * (f * f * (n + 2.0));
  }

  lemma FractionBound(f: real, n: real)
    requires n >= 1.0 && f * (n + 1.0) == n
    ensures f * f * (n + 2.0) <= n
  {
    assert f == 1.0 - 1.0 / (n + 1.0);
    assert f >= 0.0;
    assert f * (n + 2.0) == n + f;
    assert f * (f * (n + 2.0)) == f * n + f * f;
    assert f * n + f == n;
    assert f <= 1.0;
    assert f * f <= f;
  }

  lemma ScaleBoth(w: real, a: real, b: real)
    requires w >= 0.0 && a <= b
    ensures w * a <= w * b
  {
  }

  /** The centre shrinks at least as fast as one over the square root of the number of flips. */
  lemma {:induction false} CentreShrinks(m: nat)
    ensures Mass(m, 2 * m) >= 0.0
    ensures Squared(Mass(m, 2 * m), (2 * m + 1) as real) <= 1.0
  {
    if m == 0 {
      assert Mass(0, 0) == 1.0;
    } else {
      CentreShrinks(m - 1);
      CentreStep(m - 1);
      SquaredStep(Mass(m - 1, 2 * m - 2), (2 * m - 1) as real);
    }
  }

  /** Some number of flips makes every single outcome less likely than `limit`. */
  lemma SmallMasses(limit: real) returns (m: nat)
    requires limit > 0.0
    ensures m >= 1
    ensures forall k: nat :: Mass(k, 2 * m) < limit
  {
    hide Mass;
    var enough := 1.0 / (limit * limit);
    m := enough.Floor + 1;
    CentreShrinks(m);
    assert Squared(limit, (2 * m + 1) as real) > 1.0 by {
      LargeSquare(limit, enough, (2 * m + 1) as real);
    }
    SmallerRoot(Mass(m, 2 * m), limit, (2 * m + 1) as real);
    forall k: nat ensures Mass(k, 2 * m) < limit {
      CentreIsLargest(m, k);
    }
  }

  lemma LargeSquare(limit: real, enough: real, n: real)
    requires limit > 0.0 && enough == 1.0 / (limit * limit) && n > enough
    ensures Squared(limit, n) > 1.0
  {
    var w := limit * limit;
    assert w > 0.0;
    assert w * enough == 1.0;
    assert w * n > w * enough;
  }

  lemma SmallerRoot(x: real, limit: real, n: real)
    requires x >= 0.0 && limit > 0.0 && n > 0.0
    requires Squared(x, n) <= 1.0 < Squared(limit, n)
    ensures x < limit
  {
    if x >= limit {
      ScaleBoth(x, limit, x);
      ScaleBoth(limit, limit, x);
      ScaleBoth(n, limit * limit, x * x);
    }
  }

  // ---------- Which thresholds allow both ----------

  /** The least count whose p is below a positive limit of at most one. */
  lemma {:induction false} LeastBelow(limit: real, d: nat, start: nat) returns (r: nat)
    requires d >= 1 && limit > 0.0 && start <= d && SignTestP(start, d) >= limit
    ensures start < r <= d + 1 && SignTestP(r, d) < limit <= SignTestP(r - 1, d)
    decreases d - start
  {
    hide SignTestP;
    if start == d {
      NothingAbove(d);
      r := d + 1;
    } else if SignTestP(start + 1, d) < limit {
      r := start + 1;
    } else {
      r := LeastBelow(limit, d, start + 1);
    }
  }

  lemma NothingAbove(d: nat)
    requires d >= 1
    ensures SignTestP(d + 1, d) == 0.0
  {
    Pow2Positive(d);
    assert UpperTail(d + 1, d) == 0;
  }

  predicate Overlap(gainPMax: real, tripPMax: real)
  {
    gainPMax > 0.5 && tripPMax > 0.0 && gainPMax + tripPMax > 1.0
  }

  ghost predicate SomeOutcomeDoesBoth(gainPMax: real, tripPMax: real)
  {
    exists improved: nat, regressed: nat, netMin: int ::
      DoesBoth(improved, regressed, netMin, gainPMax, tripPMax)
  }

  predicate DoesBoth(improved: nat, regressed: nat, netMin: int, gainPMax: real, tripPMax: real)
  {
    GainPasses(improved, regressed, netMin, gainPMax) && TripwireFails(improved, regressed, tripPMax)
  }

  /** Outside the overlap nothing does both: the two p values of an outcome with a net loss add up to more than one. */
  lemma NoOverlapNoConflict(improved: nat, regressed: nat, netMin: int, gainPMax: real, tripPMax: real)
    requires DoesBoth(improved, regressed, netMin, gainPMax, tripPMax)
    ensures Overlap(gainPMax, tripPMax)
  {
    hide SignTestP;
    var d := improved + regressed;
    if SignTestP(improved, d) < 0.5 {
      SmallPMeansMoreImproved(improved, regressed);
    }
    SignTestComplement(improved, d);
    SignTestNonIncreasing(regressed, regressed + 1, d);
    SignTestInUnit(regressed, d);
  }

  lemma SignTestInUnit(count: nat, d: nat)
    requires d >= 1
    ensures 0.0 <= SignTestP(count, d) <= 1.0
  {
    SignTestIsFairCoinTail(count, d);
    HeadsBounds(count, d);
  }

  /**
   Near the limit of the tripwire, with every single outcome unlikely, the gain gate's p is as near to one minus it.
  */
  lemma ConflictAt(low: real, limit: real, m: nat, r: nat)
    requires 0.0 <= low < limit <= 0.5 && m >= 1
    requires forall k: nat :: Mass(k, 2 * m) < (limit - low) / 2.0
    requires 0 < r <= 2 * m + 1 && SignTestP(r, 2 * m) < limit <= SignTestP(r - 1, 2 * m)
    ensures r < 2 * m && 2 * m - r < r && SignTestP(2 * m - r, 2 * m) < 1.0 - low
  {
    hide SignTestP, Mass;
    var d := 2 * m;
    TailIsMassAndTail(r - 1, d);
    if r > d {
      assert SignTestP(r, d) == 0.0 by {
        NothingAbove(d);
      }
      assert false;
    }
    TailIsMassAndTail(r, d);
    assert SignTestP(r + 1, d) > low;
    if r == d {
      NothingAbove(d);
      assert false;
    }
    SmallPMeansMoreImproved(r, d - r);
    SignTestComplement(d - r, d);
  }

  lemma OverlapHasConflict(gainPMax: real, tripPMax: real)
    requires Overlap(gainPMax, tripPMax)
    ensures SomeOutcomeDoesBoth(gainPMax, tripPMax)
  {
    hide SignTestP;
    var limit := if tripPMax < 0.5 then tripPMax else 0.5;
    var low := if gainPMax < 1.0 then 1.0 - gainPMax else 0.0;
    var m := SmallMasses((limit - low) / 2.0);
    var d := 2 * m;
    WholeTail(d);
    var r := LeastBelow(limit, d, 0);
    ConflictAt(low, limit, m, r);
    var improved: nat := d - r;
    assert improved + r == d;
    assert DoesBoth(improved, r, improved - r, gainPMax, tripPMax);
  }

  lemma WholeTail(d: nat)
    requires d >= 1
    ensures SignTestP(0, d) == 1.0
  {
    SignTestIsFairCoinTail(0, d);
    HeadsBounds(0, d);
  }

  /**
   Some outcome passes a gain gate and fails a tripwire, for some net gain that is allowed, exactly when the gain
   threshold is above one half, the tripwire's is positive, and together they are above one.
  */
  lemma ConflictExactly(gainPMax: real, tripPMax: real)
    ensures SomeOutcomeDoesBoth(gainPMax, tripPMax) <==> Overlap(gainPMax, tripPMax)
  {
    hide DoesBoth;
    if SomeOutcomeDoesBoth(gainPMax, tripPMax) {
      var improved: nat, regressed: nat, netMin: int :| DoesBoth(improved, regressed, netMin, gainPMax, tripPMax);
      NoOverlapNoConflict(improved, regressed, netMin, gainPMax, tripPMax);
    }
    if Overlap(gainPMax, tripPMax) {
      OverlapHasConflict(gainPMax, tripPMax);
    }
  }
}
