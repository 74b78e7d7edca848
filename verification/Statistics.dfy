/** Sums, means, extremes and the n-1 variance of a list of reals, and how they
    combine over consecutive groups. */
module Statistics {
  import opened Prelude

  function Sum(xs: seq<real>): (r: real)
  {
    if |xs| == 0 then 0.0 else Sum(xs[..|xs| - 1]) + xs[|xs| - 1]
  }

  function SumSquares(xs: seq<real>): (r: real)
  {
    if |xs| == 0 then 0.0 else SumSquares(xs[..|xs| - 1]) + xs[|xs| - 1] * xs[|xs| - 1]
  }

  function Mean(xs: seq<real>): (r: real)
    requires |xs| > 0
  {
    Sum(xs) / |xs| as real
  }

  function Minimum(xs: seq<real>): (r: real)
    requires |xs| > 0
  {
    if |xs| == 1 then xs[0]
    else
      var m, last := Minimum(xs[..|xs| - 1]), xs[|xs| - 1];
      if last < m then last else m
  }

  function Maximum(xs: seq<real>): (r: real)
    requires |xs| > 0
  {
    if |xs| == 1 then xs[0]
    else
      var m, last := Maximum(xs[..|xs| - 1]), xs[|xs| - 1];
      if m < last then last else m
  }

  lemma {:induction false} ExtremesBound(xs: seq<real>)
    requires |xs| > 0
    ensures Minimum(xs) in xs && Maximum(xs) in xs
    ensures forall i | 0 <= i < |xs| :: Minimum(xs) <= xs[i] <= Maximum(xs)
    decreases |xs|
  {
    if |xs| > 1 {
      ExtremesBound(xs[..|xs| - 1]);
    }
  }

  /** Squared deviations from `m`, summed. */
  function DeviationSquares(xs: seq<real>, m: real): (r: real)
  {
    if |xs| == 0 then 0.0
    else DeviationSquares(xs[..|xs| - 1], m) + (xs[|xs| - 1] - m) * (xs[|xs| - 1] - m)
  }

  /** `np.var(xs, ddof=1)` for two or more values, 0 otherwise. */
  function SampleVariance(xs: seq<real>): (r: real)
  {
    if |xs| > 1 then DeviationSquares(xs, Mean(xs)) / (|xs| - 1) as real else 0.0
  }

  lemma SquareNonnegative(x: real)
    ensures x * x >= 0.0
  {
  }

  lemma {:induction false} DeviationsNonnegative(xs: seq<real>, m: real)
    ensures DeviationSquares(xs, m) >= 0.0
    decreases |xs|
  {
    if |xs| > 0 {
      DeviationsNonnegative(xs[..|xs| - 1], m);
      SquareNonnegative(xs[|xs| - 1] - m);
    }
  }

  lemma VarianceNonnegative(xs: seq<real>)
    ensures SampleVariance(xs) >= 0.0
  {
    if |xs| > 1 {
      DeviationsNonnegative(xs, Mean(xs));
    }
  }

  lemma {:induction false} SumConcat(a: seq<real>, b: seq<real>)
    ensures Sum(a + b) == Sum(a) + Sum(b)
    decreases |b|
  {
    if |b| == 0 {
      assert a + b == a;
    } else {
      assert (a + b)[..|a + b| - 1] == a + b[..|b| - 1];
      SumConcat(a, b[..|b| - 1]);
    }
  }

  lemma {:induction false} SumSquaresConcat(a: seq<real>, b: seq<real>)
    ensures SumSquares(a + b) == SumSquares(a) + SumSquares(b)
    decreases |b|
  {
    if |b| == 0 {
      assert a + b == a;
    } else {
      assert (a + b)[..|a + b| - 1] == a + b[..|b| - 1];
      SumSquaresConcat(a, b[..|b| - 1]);
    }
  }

  lemma DeviationTerm(q: real, s: real, n: real, m: real, x: real)
    ensures (q - 2.0 * m * s + n * m * m) + (x - m) * (x - m)
         == (q + x * x) - 2.0 * m * (s + x) + (n + 1.0) * m * m
  {
    assert (x - m) * (x - m) == x * x - 2.0 * m * x + m * m;
    assert 2.0 * m * (s + x) == 2.0 * m * s + 2.0 * m * x;
    assert (n + 1.0) * m * m == n * m * m + m * m;
  }

  lemma {:induction false} DeviationExpand(xs: seq<real>, m: real)
    ensures DeviationSquares(xs, m) == SumSquares(xs) - 2.0 * m * Sum(xs) + |xs| as real * m * m
    decreases |xs|
  {
    if |xs| > 0 {
      var init, x := xs[..|xs| - 1], xs[|xs| - 1];
      DeviationExpand(init, m);
      DeviationTerm(SumSquares(init), Sum(init), |init| as real, m, x);
    }
  }

  lemma MeanTerm(q: real, s: real, n: real, m: real)
    requires s == n * m
    ensures q - 2.0 * m * s + n * m * m == q - n * (m * m)
  {
    assert m * s == n * (m * m);
    assert 2.0 * m * s == 2.0 * (m * s);
    assert n * m * m == n * (m * m);
  }

  /** Deviations from the mean: the sum of squares less n times the squared mean. */
  lemma DeviationsFromMean(xs: seq<real>)
    requires |xs| > 0
    ensures DeviationSquares(xs, Mean(xs)) == SumSquares(xs) - |xs| as real * (Mean(xs) * Mean(xs))
  {
    DeviationExpand(xs, Mean(xs));
    MeanTerm(SumSquares(xs), Sum(xs), |xs| as real, Mean(xs));
  }

  // ------------------------------------------------------------ groups

  function Sums(xss: seq<seq<real>>): (r: seq<real>)
    ensures |r| == |xss|
  {
    seq(|xss|, i requires 0 <= i < |xss| => Sum(xss[i]))
  }

  function Means(xss: seq<seq<real>>): (r: seq<real>)
    requires forall i | 0 <= i < |xss| :: |xss[i]| > 0
    ensures |r| == |xss|
  {
    seq(|xss|, i requires 0 <= i < |xss| => Mean(xss[i]))
  }

  lemma {:induction false} SumFlatten(xss: seq<seq<real>>)
    ensures Sum(Flatten(xss)) == Sum(Sums(xss))
    decreases |xss|
  {
    if |xss| > 0 {
      var init := xss[..|xss| - 1];
      SumFlatten(init);
      SumConcat(Flatten(init), xss[|xss| - 1]);
      assert Sums(xss)[..|xss| - 1] == Sums(init);
    }
  }

  /** Ten groups of ten: the mean is the mean of the group means. */
  lemma MeanOfMeans(xss: seq<seq<real>>)
    requires |xss| == 10 && forall i | 0 <= i < |xss| :: |xss[i]| == 10
    ensures |Flatten(xss)| == 100
    ensures Mean(Flatten(xss)) == Mean(Means(xss))
  {
    FlattenWidth(xss, 10);
    SumFlatten(xss);
    ScaledSum(Sums(xss), Means(xss), 10.0);
  }

  lemma {:induction false} ScaledSum(xs: seq<real>, ys: seq<real>, w: real)
    requires |xs| == |ys| && w != 0.0
    requires forall i | 0 <= i < |xs| :: ys[i] == xs[i] / w
    ensures Sum(ys) == Sum(xs) / w
    decreases |xs|
  {
    if |xs| > 0 {
      var k := |xs| - 1;
      ScaledSum(xs[..k], ys[..k], w);
      assert Sum(xs[..k]) / w + xs[k] / w == (Sum(xs[..k]) + xs[k]) / w;
    }
  }

  lemma {:induction false} ExtremesConcat(a: seq<real>, b: seq<real>)
    requires |a| > 0 && |b| > 0
    ensures Minimum(a + b) == if Minimum(b) < Minimum(a) then Minimum(b) else Minimum(a)
    ensures Maximum(a + b) == if Maximum(a) < Maximum(b) then Maximum(b) else Maximum(a)
    decreases |b|
  {
    var init := b[..|b| - 1];
    assert (a + b)[..|a + b| - 1] == a + init;
    if |b| == 1 {
      assert a + init == a;
    } else {
      ExtremesConcat(a, init);
    }
  }

  /** The extremes of a concatenation are the extremes of the groups' extremes. */
  lemma {:induction false} ExtremesFlatten(xss: seq<seq<real>>, mins: seq<real>, maxs: seq<real>)
    requires |xss| == |mins| == |maxs| > 0
    requires forall i | 0 <= i < |xss| :: |xss[i]| > 0 && mins[i] == Minimum(xss[i]) && maxs[i] == Maximum(xss[i])
    ensures |Flatten(xss)| > 0
    ensures Minimum(Flatten(xss)) == Minimum(mins) && Maximum(Flatten(xss)) == Maximum(maxs)
    decreases |xss|
  {
    var k := |xss| - 1;
    if k > 0 {
      ExtremesFlatten(xss[..k], mins[..k], maxs[..k]);
      ExtremesConcat(Flatten(xss[..k]), xss[k]);
    } else {
      assert Flatten(xss[..k]) == [];
      assert Flatten(xss) == xss[0];
    }
  }

  /** The within-group part of the law of total variance: the population variances
      of the groups add up to the sum of squares less the squared group means. */
  lemma {:induction false} WithinGroups(xss: seq<seq<real>>, pops: seq<real>)
    requires |pops| == |xss|
    requires forall i | 0 <= i < |xss| :: |xss[i]| == 10
    requires forall i | 0 <= i < |xss| :: pops[i] == SampleVariance(xss[i]) * 9.0 / 10.0
    ensures Sum(pops) == SumSquares(Flatten(xss)) / 10.0 - SumSquares(Means(xss))
    decreases |xss|
  {
    if |xss| > 0 {
      var k := |xss| - 1;
      var init, xs := xss[..k], xss[k];
      WithinGroups(init, pops[..k]);
      DeviationsFromMean(xs);
      assert pops[k] == SumSquares(xs) / 10.0 - Mean(xs) * Mean(xs);
      SumSquaresConcat(Flatten(init), xs);
      assert Means(xss)[..k] == Means(init);
    }
  }

  lemma DeviationsOfTen(xs: seq<real>, m: real)
    requires |xs| == 10 && m == Mean(xs)
    ensures DeviationSquares(xs, m) == SumSquares(xs) - 10.0 * (m * m)
  {
    DeviationsFromMean(xs);
  }

  lemma VarianceOfHundred(xs: seq<real>, m: real)
    requires |xs| == 100 && m == Mean(xs)
    ensures SampleVariance(xs) == (SumSquares(xs) - 100.0 * (m * m)) / 99.0
  {
    DeviationsFromMean(xs);
  }

  lemma MeanOfTen(xs: seq<real>)
    requires |xs| == 10
    ensures Mean(xs) == Sum(xs) / 10.0
  {
  }

  lemma PooledArithmetic(p: real, d: real, q: real, sm: real, mm: real)
    requires p == q / 10.0 - sm && d == sm - 10.0 * mm
    ensures (p / 10.0 + d / 10.0) * 100.0 / 99.0 == (q - 100.0 * mm) / 99.0
  {
  }

  /** Ten groups of ten: the pooled n-1 variance, computed from group means and group
      n-1 variances alone, is the n-1 variance of the hundred values. */
  lemma PooledVariance(xss: seq<seq<real>>, pops: seq<real>)
    requires |xss| == 10 == |pops|
    requires forall i | 0 <= i < |xss| :: |xss[i]| == 10
    requires forall i | 0 <= i < |xss| :: pops[i] == SampleVariance(xss[i]) * 9.0 / 10.0
    ensures var ms := Means(xss);
      (Mean(pops) + DeviationSquares(ms, Mean(ms)) / 10.0) * 100.0 / 99.0 == SampleVariance(Flatten(xss))
  {
    var ms, all := Means(xss), Flatten(xss);
    var m := Mean(ms);
    MeanOfMeans(xss);
    WithinGroups(xss, pops);
    DeviationsOfTen(ms, m);
    VarianceOfHundred(all, m);
    MeanOfTen(pops);
    PooledArithmetic(Sum(pops), DeviationSquares(ms, m), SumSquares(all), SumSquares(ms), m * m);
  }
}
