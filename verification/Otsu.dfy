/** Otsu's threshold as the single-pass loop computes it, and its optimality. Python floats are taken as reals. */
module Otsu {
  import opened Histograms

  function BackWeight(h: Histogram, t: nat): nat
    requires t < LEVELS
  {
    Weight(h, t + 1)
  }

  function ForeWeight(h: Histogram, t: nat): nat
    requires t < LEVELS
  {
    WeightMonotone(h, t + 1, LEVELS);
    Total(h) - Weight(h, t + 1)
  }

  /** Both classes, levels up to `t` and levels above, hold pixels. */
  predicate Splits(h: Histogram, t: nat) {
    t < LEVELS && BackWeight(h, t) > 0 && ForeWeight(h, t) > 0
  }

  function Mean(sum: nat, weight: nat): real
    requires weight > 0
  {
    sum as real / weight as real
  }

  function BackMean(h: Histogram, t: nat): real
    requires Splits(h, t)
  {
    Mean(Moment(h, t + 1), BackWeight(h, t))
  }

  function ForeSum(h: Histogram, t: nat): nat
    requires t < LEVELS
  {
    MomentMonotone(h, t + 1, LEVELS);
    Moment(h, LEVELS) - Moment(h, t + 1)
  }

  function ForeMean(h: Histogram, t: nat): real
    requires Splits(h, t)
  {
    Mean(ForeSum(h, t), ForeWeight(h, t))
  }

  function Variance(b: nat, f: nat, mb: real, mf: real): real {
    Times(Times(b as real, f as real), Square(mb - mf))
  }

  /** Between-class variance of a threshold, unnormalised; zero when a class is empty. */
  function Score(h: Histogram, t: nat): real
    requires t < LEVELS
  {
    if Splits(h, t) then Variance(BackWeight(h, t), ForeWeight(h, t), BackMean(h, t), ForeMean(h, t)) else 0.0
  }

  lemma SquareSign(x: real)
    ensures Square(x) >= 0.0
    ensures x != 0.0 ==> Square(x) > 0.0
  {
    if x > 0.0 {
      TimesSign(x, x);
    } else if x < 0.0 {
      TimesSign(-x, -x);
      assert Times(-x, -x) == Square(x);
    }
  }

  lemma VarianceSign(b: nat, f: nat, mb: real, mf: real)
    requires b > 0 && f > 0
    ensures Variance(b, f, mb, mf) >= 0.0
    ensures mb != mf ==> Variance(b, f, mb, mf) > 0.0
  {
    SquareSign(mb - mf);
    TimesSign(b as real, f as real);
    TimesSign(Times(b as real, f as real), Square(mb - mf));
  }

  lemma TimesSign(x: real, y: real)
    requires x > 0.0 && y >= 0.0
    ensures Times(x, y) >= 0.0
    ensures y > 0.0 ==> Times(x, y) > 0.0
  {
  }

  lemma ScoreNonNegative(h: Histogram, t: nat)
    requires t < LEVELS
    ensures Score(h, t) >= 0.0
    ensures Splits(h, t) && BackMean(h, t) != ForeMean(h, t) ==> Score(h, t) > 0.0
  {
    if Splits(h, t) { VarianceSign(BackWeight(h, t), ForeWeight(h, t), BackMean(h, t), ForeMean(h, t)); }
  }

  /** The result rule: the least level with the greatest positive score, or 128 when no score is positive. */
  predicate IsOtsu(h: Histogram, t: nat) {
    if exists u :: 0 <= u < LEVELS && Score(h, u) > 0.0 then
      && t < LEVELS && Score(h, t) > 0.0
      && (forall u :: 0 <= u < LEVELS ==> Score(h, u) <= Score(h, t))
      && (forall u :: 0 <= u < t ==> Score(h, u) < Score(h, t))
    else t == 128
  }

  method OtsuThreshold(h: Histogram) returns (best: nat)
    ensures IsOtsu(h, best)
  {
    var total := Total(h);
    if total == 0 {
      forall u | 0 <= u < LEVELS ensures Score(h, u) == 0.0 { WeightMonotone(h, u + 1, LEVELS); }
      return 128;
    }
    var sumTotal := Moment(h, LEVELS);
    var wB, sumB := 0, 0;
    var bestVar := 0.0;
    best := 128;
    var t := 0;
    while t < LEVELS
      invariant 0 <= t <= LEVELS
      invariant wB == Weight(h, t) && sumB == Moment(h, t)
      invariant bestVar >= 0.0
      invariant forall u :: 0 <= u < t ==> Score(h, u) <= bestVar
      invariant bestVar > 0.0 ==> best < t && Score(h, best) == bestVar
      invariant bestVar > 0.0 ==> forall u :: 0 <= u < best ==> Score(h, u) < bestVar
      invariant bestVar == 0.0 ==> best == 128
    {
      WeightMonotone(h, t + 1, LEVELS);
      wB := wB + h[t];
      if wB == 0 {
        assert !Splits(h, t);
        t := t + 1;
        continue;
      }
      var wF := total - wB;
      if wF == 0 {
        forall u | t <= u < LEVELS ensures Score(h, u) == 0.0 {
          WeightMonotone(h, t + 1, u + 1);
          WeightMonotone(h, u + 1, LEVELS);
        }
        break;
      }
      sumB := sumB + t * h[t];
      MomentMonotone(h, t + 1, LEVELS);
      var mB := Mean(sumB, wB);
      var mF := Mean(sumTotal - sumB, wF);
      var variance := Variance(wB, wF, mB, mF);
      assert variance == Score(h, t);
      if variance > bestVar {
        bestVar := variance;
        best := t;
      }
      t := t + 1;
    }
  }

  // ---- Optimality -----------------------------------------------------------------------------

  /** Sum of squared distances of every pixel to the mean of its own class. */
  function Within(h: Histogram, t: nat): real
    requires Splits(h, t)
  {
    SqDev(h, 0, t + 1, BackMean(h, t)) + SqDev(h, t + 1, LEVELS, ForeMean(h, t))
  }

  /** Sum of squared distances of every pixel to the overall mean. */
  function Scatter(h: Histogram): real
    requires Total(h) > 0
  {
    SqDev(h, 0, LEVELS, Mean(Moment(h, LEVELS), Total(h)))
  }

  /** The decomposition on the sums of two classes. */
  lemma Decompose(qb: real, sb: real, b: real, mb: real, qf: real, sf: real, f: real, mf: real, m: real)
    requires Times(b, mb) == sb && Times(f, mf) == sf && Times(b + f, m) == sb + sf
    ensures Times(b + f, Closed(qb + qf, sb + sf, b + f, m) - Closed(qb, sb, b, mb) - Closed(qf, sf, f, mf))
              == Times(Times(b, f), Square(mb - mf))
  {
  }

  lemma WithinClosed(h: Histogram, t: nat)
    requires Splits(h, t)
    ensures Within(h, t) == Closed(SumQ(h, 0, t + 1), SumS(h, 0, t + 1), SumW(h, 0, t + 1), BackMean(h, t))
                            + Closed(SumQ(h, t + 1, LEVELS), SumS(h, t + 1, LEVELS), SumW(h, t + 1, LEVELS),
                                     ForeMean(h, t))
  {
    SqDevClosed(h, 0, t + 1, BackMean(h, t));
    SqDevClosed(h, t + 1, LEVELS, ForeMean(h, t));
  }

  lemma ScatterClosed(h: Histogram, m: real)
    requires Total(h) > 0 && m == Mean(Moment(h, LEVELS), Total(h))
    ensures Scatter(h) == Closed(SumQ(h, 0, LEVELS), SumS(h, 0, LEVELS), SumW(h, 0, LEVELS), m)
  {
    SqDevClosed(h, 0, LEVELS, m);
  }

  lemma Product(x: real, y: real, x': real, y': real, z: real)
    requires x == x' && y == y'
    ensures Times(Times(x, y), z) == Times(Times(x', y'), z)
  {
  }

  lemma MeanTimesWeight(sum: nat, weight: nat, s: real, w: real)
    requires weight > 0 && s == sum as real && w == weight as real
    ensures Times(w, Mean(sum, weight)) == s
  {
  }

  lemma BackMeanClosed(h: Histogram, t: nat)
    requires Splits(h, t)
    ensures SumW(h, 0, t + 1) == BackWeight(h, t) as real
    ensures Times(SumW(h, 0, t + 1), BackMean(h, t)) == SumS(h, 0, t + 1)
  {
    WeightAgrees(h, 0, t + 1);
    MomentAgrees(h, 0, t + 1);
    MeanTimesWeight(Moment(h, t + 1), BackWeight(h, t), SumS(h, 0, t + 1), SumW(h, 0, t + 1));
  }

  lemma ForeMeanClosed(h: Histogram, t: nat)
    requires Splits(h, t)
    ensures SumW(h, t + 1, LEVELS) == ForeWeight(h, t) as real
    ensures Times(SumW(h, t + 1, LEVELS), ForeMean(h, t)) == SumS(h, t + 1, LEVELS)
  {
    WeightAgrees(h, t + 1, LEVELS);
    MomentAgrees(h, t + 1, LEVELS);
    MeanTimesWeight(ForeSum(h, t), ForeWeight(h, t), SumS(h, t + 1, LEVELS), SumW(h, t + 1, LEVELS));
  }

  lemma WholeMeanClosed(h: Histogram, t: nat)
    requires Splits(h, t)
    ensures SumW(h, 0, LEVELS) == SumW(h, 0, t + 1) + SumW(h, t + 1, LEVELS) == Total(h) as real > 0.0
    ensures SumS(h, 0, LEVELS) == SumS(h, 0, t + 1) + SumS(h, t + 1, LEVELS)
    ensures Times(SumW(h, 0, LEVELS), Mean(Moment(h, LEVELS), Total(h))) == SumS(h, 0, LEVELS)
  {
    WeightAgrees(h, 0, t + 1);
    WeightAgrees(h, t + 1, LEVELS);
    WeightAgrees(h, 0, LEVELS);
    MomentAgrees(h, 0, t + 1);
    MomentAgrees(h, t + 1, LEVELS);
    MomentAgrees(h, 0, LEVELS);
    MeanTimesWeight(Moment(h, LEVELS), Total(h), SumS(h, 0, LEVELS), SumW(h, 0, LEVELS));
  }

  lemma ScoreClosed(h: Histogram, t: nat)
    requires Splits(h, t)
    ensures Score(h, t)
              == Times(Times(SumW(h, 0, t + 1), SumW(h, t + 1, LEVELS)), Square(BackMean(h, t) - ForeMean(h, t)))
  {
    WeightAgrees(h, 0, t + 1);
    WeightAgrees(h, t + 1, LEVELS);
    Product(BackWeight(h, t) as real, ForeWeight(h, t) as real, SumW(h, 0, t + 1), SumW(h, t + 1, LEVELS),
            Square(BackMean(h, t) - ForeMean(h, t)));
  }

  /** The sums of a split, as one record of reals, so that the algebra is done away from the histogram. */
  datatype Sums = Sums(qb: real, sb: real, b: real, mb: real, qf: real, sf: real, f: real, mf: real,
                       q: real, s: real, n: real, m: real)

  predicate Consistent(x: Sums) {
    && x.q == x.qb + x.qf && x.s == x.sb + x.sf && x.n == x.b + x.f && x.n > 0.0
    && Times(x.b, x.mb) == x.sb && Times(x.f, x.mf) == x.sf && Times(x.n, x.m) == x.s
  }

  function SumsOf(h: Histogram, t: nat): Sums
    requires Splits(h, t)
  {
    WholeMeanClosed(h, t);
    Sums(SumQ(h, 0, t + 1), SumS(h, 0, t + 1), SumW(h, 0, t + 1), BackMean(h, t),
         SumQ(h, t + 1, LEVELS), SumS(h, t + 1, LEVELS), SumW(h, t + 1, LEVELS), ForeMean(h, t),
         SumQ(h, 0, LEVELS), SumS(h, 0, LEVELS), SumW(h, 0, LEVELS), Mean(Moment(h, LEVELS), Total(h)))
  }

  lemma SumsOfConsistent(h: Histogram, t: nat)
    requires Splits(h, t)
    ensures Consistent(SumsOf(h, t))
  {
    BackMeanClosed(h, t);
    ForeMeanClosed(h, t);
    WholeMeanClosed(h, t);
    SecondAdds(h, t + 1, LEVELS);
  }

  lemma SplitAlgebra(x: Sums, scatter: real, within: real, score: real)
    requires Consistent(x)
    requires scatter == Closed(x.q, x.s, x.n, x.m)
    requires within == Closed(x.qb, x.sb, x.b, x.mb) + Closed(x.qf, x.sf, x.f, x.mf)
    requires score == Times(Times(x.b, x.f), Square(x.mb - x.mf))
    ensures scatter == within + score / x.n
  {
    Decompose(x.qb, x.sb, x.b, x.mb, x.qf, x.sf, x.f, x.mf, x.m);
    DivideOut(x.n, scatter - within, score);
  }

  lemma DivideOut(n: real, x: real, z: real)
    requires n > 0.0 && Times(n, x) == z
    ensures x == z / n
  {
  }

  lemma ScatterOfSums(h: Histogram, t: nat, x: Sums)
    requires Splits(h, t) && x == SumsOf(h, t)
    ensures Total(h) > 0 && x.n == Total(h) as real
    ensures Scatter(h) == Closed(x.q, x.s, x.n, x.m)
  {
    WholeMeanClosed(h, t);
    ScatterClosed(h, x.m);
  }

  lemma WithinOfSums(h: Histogram, t: nat, x: Sums)
    requires Splits(h, t) && x == SumsOf(h, t)
    ensures Within(h, t) == Closed(x.qb, x.sb, x.b, x.mb) + Closed(x.qf, x.sf, x.f, x.mf)
  {
    WithinClosed(h, t);
  }

  lemma ScoreOfSums(h: Histogram, t: nat, x: Sums)
    requires Splits(h, t) && x == SumsOf(h, t)
    ensures Score(h, t) == Times(Times(x.b, x.f), Square(x.mb - x.mf))
  {
    ScoreClosed(h, t);
  }

  /** Total scatter is scatter within the classes plus scatter between them, for every histogram and split. */
  lemma VarianceDecomposition(h: Histogram, t: nat)
    requires Splits(h, t)
    ensures Total(h) > 0
    ensures Scatter(h) == Within(h, t) + Score(h, t) / Total(h) as real
  {
    var x := SumsOf(h, t);
    SumsOfConsistent(h, t);
    ScatterOfSums(h, t, x);
    WithinOfSums(h, t, x);
    ScoreOfSums(h, t, x);
    SplitAlgebra(x, Scatter(h), Within(h, t), Score(h, t));
  }

  // ---- Ties -----------------------------------------------------------------------------------

  /** An empty level splits the pixels exactly as the level below it. */
  lemma EmptyLevelAddsNothing(h: Histogram, t: nat)
    requires 0 < t < LEVELS && h[t] == 0
    ensures Score(h, t) == Score(h, t - 1)
  {
  }

  lemma FirstLevel(h: Histogram)
    ensures Splits(h, 0) ==> h[0] > 0
  {
    assert Weight(h, 1) == Weight(h, 0) + h[0];
  }

  lemma {:induction false} MomentBounds(h: Histogram, a: nat, b: nat)
    requires a <= b <= LEVELS
    ensures Moment(h, b) - Moment(h, a) >= a * (Weight(h, b) - Weight(h, a))
    decreases b - a
  {
    if a < b {
      MomentBounds(h, a, b - 1);
      AtLeast(a, b - 1, h[b - 1], Weight(h, b - 1) - Weight(h, a));
    }
  }

  lemma AtLeast(a: nat, x: nat, c: nat, w: int)
    requires a <= x
    ensures x * c >= a * c
    ensures a * (w + c) == a * w + a * c
  {
  }

  lemma MeanAtLeast(s: nat, w: nat, m: nat)
    requires w > 0 && s >= m * w
    ensures Mean(s, w) >= m as real
    ensures s == m * w ==> Mean(s, w) == m as real
  {
  }

  /** With a least occupied level and another above it, splitting just above the least one scores. */
  lemma TwoLevelsScore(h: Histogram, lo: nat, hi: nat)
    requires lo < hi < LEVELS && h[lo] > 0 && h[hi] > 0
    requires forall i :: 0 <= i < lo ==> h[i] == 0
    ensures Score(h, lo) > 0.0
  {
    WeightMonotone(h, 0, lo);
    WeightMonotone(h, lo + 1, LEVELS);
    MomentBounds(h, lo + 1, LEVELS);
    MeanAtLeast(Moment(h, lo + 1), h[lo], lo);
    MeanAtLeast(ForeSum(h, lo), ForeWeight(h, lo), lo + 1);
    ScoreNonNegative(h, lo);
  }

  /** Two different levels are occupied. */
  predicate TwoLevels(h: Histogram) {
    exists i, j :: 0 <= i < j < LEVELS && h[i] > 0 && h[j] > 0
  }

  function LeastOccupied(h: Histogram, i: nat, from: nat): (lo: nat)
    requires from <= i < LEVELS && h[i] > 0
    requires forall k :: 0 <= k < from ==> h[k] == 0
    ensures lo <= i && h[lo] > 0 && forall k :: 0 <= k < lo ==> h[k] == 0
    decreases i - from
  {
    if h[from] > 0 then from else LeastOccupied(h, i, from + 1)
  }

  /** Some split scores exactly when at least two levels are occupied. */
  lemma ScoresIffTwoLevels(h: Histogram)
    ensures (exists u :: 0 <= u < LEVELS && Score(h, u) > 0.0) <==> TwoLevels(h)
  {
    if TwoLevels(h) {
      var i, j :| 0 <= i < j < LEVELS && h[i] > 0 && h[j] > 0;
      var lo := LeastOccupied(h, i, 0);
      TwoLevelsScore(h, lo, j);
    }
    if u :| 0 <= u < LEVELS && Score(h, u) > 0.0 {
      WeightMonotone(h, 0, u + 1);
      WeightMonotone(h, u + 1, LEVELS);
      var i :| 0 <= i < u + 1 && h[i] != 0;
      var j :| u + 1 <= j < LEVELS && h[j] != 0;
      assert i < j && h[i] > 0 && h[j] > 0;
    }
  }

  /**
   The threshold is an occupied level with pixels on both sides whenever two levels occur, and the
   least of all maximisers; with one level, or none, it is 128.
   */
  lemma OtsuTies(h: Histogram, best: nat)
    requires IsOtsu(h, best)
    ensures TwoLevels(h) ==>
              && Splits(h, best) && h[best] > 0
              && (forall u :: 0 <= u < LEVELS && (forall v :: 0 <= v < LEVELS ==> Score(h, v) <= Score(h, u)) ==>
                    best <= u)
    ensures !TwoLevels(h) ==> best == 128
  {
    ScoresIffTwoLevels(h);
    if TwoLevels(h) {
      assert Splits(h, best);
      if h[best] == 0 {
        FirstLevel(h);
        EmptyLevelAddsNothing(h, best);
      }
    }
  }

  /** Maximising the between-class score is minimising the squared deviation within the classes. */
  lemma OtsuMinimisesWithin(h: Histogram, best: nat, t: nat)
    requires IsOtsu(h, best) && Splits(h, t)
    ensures Splits(h, best)
    ensures Score(h, t) <= Score(h, best)
    ensures Within(h, best) <= Within(h, t)
  {
    SplitMeansTwoLevels(h, t);
    OtsuTies(h, best);
    ScoresIffTwoLevels(h);
    VarianceDecomposition(h, best);
    VarianceDecomposition(h, t);
    Scale(Score(h, t), Score(h, best), Total(h) as real);
  }

  lemma Scale(x: real, y: real, n: real)
    requires x <= y && n > 0.0
    ensures x / n <= y / n
  {
  }

  lemma SplitMeansTwoLevels(h: Histogram, t: nat)
    requires Splits(h, t)
    ensures TwoLevels(h)
  {
    WeightMonotone(h, 0, t + 1);
    WeightMonotone(h, t + 1, LEVELS);
    var i :| 0 <= i < t + 1 && h[i] != 0;
    var j :| t + 1 <= j < LEVELS && h[j] != 0;
    assert i < j && h[i] > 0 && h[j] > 0;
  }
}
