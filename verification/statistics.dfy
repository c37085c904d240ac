/** Population statistics over `f64` histories, computed over reals. Sums run
    left to right from 0, as `Iterator::sum` does. */
module Statistics {
  import opened Wrappers

  function Sum(xs: seq<real>): real
  {
    if |xs| == 0 then 0.0 else Sum(xs[..|xs| - 1]) + xs[|xs| - 1]
  }

  /** Sum of squares of `xs`. */
  function SumSq(xs: seq<real>): real
  {
    if |xs| == 0 then 0.0 else SumSq(xs[..|xs| - 1]) + xs[|xs| - 1] * xs[|xs| - 1]
  }

  /** Sum of squared deviations of `xs` from `m`. */
  function SumSqDev(xs: seq<real>, m: real): real
  {
    if |xs| == 0 then 0.0
    else SumSqDev(xs[..|xs| - 1], m) + (xs[|xs| - 1] - m) * (xs[|xs| - 1] - m)
  }

  function Mean(xs: seq<real>): real
    requires |xs| > 0
  {
    Sum(xs) / (|xs| as real)
  }

  /** Population variance: squared deviations from the mean divided by n
      (not n - 1). An empty history has no variance: the source divides
      0 by 0 there. */
  function Variance(xs: seq<real>): (r: Option<real>)
    ensures r.Some? <==> |xs| > 0
    ensures r.Some? ==> r.value >= 0.0
  {
    if |xs| == 0 then None
    else
      SumSqDevNonNegative(xs, Mean(xs));
      Some(SumSqDev(xs, Mean(xs)) / (|xs| as real))
  }

  /** `ys` is `xs` with every element multiplied by `c`. */
  predicate IsScaled(c: real, xs: seq<real>, ys: seq<real>)
  {
    |ys| == |xs| && forall k :: 0 <= k < |xs| ==> ys[k] == c * xs[k]
  }

  /** `ys` is `xs` with every element shifted by `c`. */
  predicate IsShifted(c: real, xs: seq<real>, ys: seq<real>)
  {
    |ys| == |xs| && forall k :: 0 <= k < |xs| ==> ys[k] == xs[k] + c
  }

  lemma {:induction false} SumSqDevNonNegative(xs: seq<real>, m: real)
    ensures SumSqDev(xs, m) >= 0.0
  {
    if |xs| > 0 {
      SumSqDevNonNegative(xs[..|xs| - 1], m);
      SquareNonNegative(xs[|xs| - 1] - m);
    }
  }

  lemma SquareNonNegative(d: real)
    ensures d * d >= 0.0
  {
    if d < 0.0 {
      assert d * d == (-d) * (-d);
    }
  }

  lemma ZeroTimes(k: real, z: real)
    requires z == 0.0
    ensures k * z == 0.0
  {
  }

  lemma SumSqDevEmpty(xs: seq<real>, m: real)
    requires |xs| == 0
    ensures SumSqDev(xs, m) == 0.0
  {
  }

  lemma SumSqDevUnfold(xs: seq<real>, m: real)
    requires |xs| > 0
    ensures SumSqDev(xs, m) == SumSqDev(xs[..|xs| - 1], m) + (xs[|xs| - 1] - m) * (xs[|xs| - 1] - m)
  {
  }

  /* The inductive lemmas below hand every arithmetic step to a helper whose
     parameters are the very terms the step is about, so that the solver
     only matches terms and never searches over products. */

  lemma ScaledLength(c: real, xs: seq<real>, ys: seq<real>)
    requires IsScaled(c, xs, ys)
    ensures |ys| == |xs|
  {
  }

  lemma ScaledPrefix(c: real, xs: seq<real>, ys: seq<real>)
    requires IsScaled(c, xs, ys) && |xs| > 0
    ensures |ys| == |xs|
    ensures IsScaled(c, xs[..|xs| - 1], ys[..|xs| - 1])
    ensures ys[|xs| - 1] == c * xs[|xs| - 1]
  {
  }

  lemma ShiftedPrefix(c: real, xs: seq<real>, ys: seq<real>)
    requires IsShifted(c, xs, ys) && |xs| > 0
    ensures IsShifted(c, xs[..|xs| - 1], ys[..|xs| - 1])
    ensures ys[|xs| - 1] == xs[|xs| - 1] + c
  {
  }

  lemma {:induction false} SumScale(c: real, xs: seq<real>, ys: seq<real>)
    requires IsScaled(c, xs, ys)
    ensures Sum(ys) == c * Sum(xs)
  {
    if |xs| == 0 {
      assert Sum(ys) == 0.0;
      ZeroTimes(c, Sum(xs));
    } else {
      ScaledPrefix(c, xs, ys);
      SumScale(c, xs[..|xs| - 1], ys[..|xs| - 1]);
      ScaleSumStep(c, xs[|xs| - 1], ys[|xs| - 1],
        Sum(xs[..|xs| - 1]), Sum(ys[..|xs| - 1]), Sum(xs), Sum(ys));
    }
  }

  lemma ScaleSumStep(c: real, x: real, y: real, a: real, b: real, sa: real, sb: real)
    requires y == c * x && b == c * a
    requires sa == a + x && sb == b + y
    ensures sb == c * sa
  {
  }

  lemma {:induction false} SumShift(c: real, xs: seq<real>, ys: seq<real>)
    requires IsShifted(c, xs, ys)
    ensures Sum(ys) == Sum(xs) + (|xs| as real) * c
  {
    if |xs| == 0 {
      assert (|xs| as real) * c == 0.0;
    } else {
      ShiftedPrefix(c, xs, ys);
      SumShift(c, xs[..|xs| - 1], ys[..|xs| - 1]);
      ShiftSumStep(c, xs[|xs| - 1], ys[|xs| - 1], Sum(xs[..|xs| - 1]), Sum(ys[..|xs| - 1]),
        Sum(xs), Sum(ys), |xs[..|xs| - 1]| as real, |xs| as real);
    }
  }

  lemma ShiftSumStep(c: real, x: real, y: real, a: real, b: real, sa: real, sb: real, k: real, n: real)
    requires y == x + c && b == a + k * c
    requires sa == a + x && sb == b + y && n == k + 1.0
    ensures sb == sa + n * c
  {
  }

  lemma {:induction false} SumSqDevScale(c: real, xs: seq<real>, ys: seq<real>, mx: real, my: real)
    requires IsScaled(c, xs, ys) && my == c * mx
    ensures SumSqDev(ys, my) == c * c * SumSqDev(xs, mx)
  {
    hide *;
    ScaledLength(c, xs, ys);
    if |xs| == 0 {
      SumSqDevEmpty(xs, mx);
      SumSqDevEmpty(ys, my);
      ZeroTimes(c * c, SumSqDev(xs, mx));
    } else {
      ScaledPrefix(c, xs, ys);
      SumSqDevUnfold(xs, mx);
      SumSqDevUnfold(ys, my);
      SumSqDevScale(c, xs[..|xs| - 1], ys[..|xs| - 1], mx, my);
      ScaleSqStep(c, xs[|xs| - 1], ys[|xs| - 1], mx, my,
        SumSqDev(xs[..|xs| - 1], mx), SumSqDev(ys[..|xs| - 1], my), SumSqDev(xs, mx), SumSqDev(ys, my));
    }
  }

  lemma ScaleSqStep(c: real, x: real, y: real, mx: real, my: real, a: real, b: real, sa: real, sb: real)
    requires y == c * x && my == c * mx && b == c * c * a
    requires sa == a + (x - mx) * (x - mx) && sb == b + (y - my) * (y - my)
    ensures sb == c * c * sa
  {
    assert y - my == c * (x - mx);
    assert (y - my) * (y - my) == c * c * ((x - mx) * (x - mx));
  }

  lemma {:induction false} SumSqDevShift(c: real, xs: seq<real>, ys: seq<real>, mx: real, my: real)
    requires IsShifted(c, xs, ys) && my == mx + c
    ensures SumSqDev(ys, my) == SumSqDev(xs, mx)
  {
    if |xs| > 0 {
      ShiftedPrefix(c, xs, ys);
      SumSqDevShift(c, xs[..|xs| - 1], ys[..|xs| - 1], mx, my);
      assert ys[|xs| - 1] - my == xs[|xs| - 1] - mx;
    }
  }

  lemma {:induction false} SumSqDevExpand(xs: seq<real>, m: real)
    ensures SumSqDev(xs, m) == SumSq(xs) - 2.0 * m * Sum(xs) + (|xs| as real) * m * m
  {
    hide *;
    if |xs| == 0 {
      SumsEmpty(xs, m);
      ExpandBase(m, SumSqDev(xs, m), SumSq(xs), Sum(xs), |xs| as real);
    } else {
      var p := xs[..|xs| - 1];
      SumsUnfold(xs, m);
      SumSqDevExpand(p, m);
      ExpandStep(xs[|xs| - 1], m, SumSqDev(p, m), SumSq(p), Sum(p), |p| as real,
        SumSqDev(xs, m), SumSq(xs), Sum(xs), |xs| as real);
    }
  }

  lemma SumsEmpty(xs: seq<real>, m: real)
    requires |xs| == 0
    ensures Sum(xs) == 0.0 && SumSq(xs) == 0.0 && SumSqDev(xs, m) == 0.0
  {
  }

  lemma SumsUnfold(xs: seq<real>, m: real)
    requires |xs| > 0
    ensures var p, x := xs[..|xs| - 1], xs[|xs| - 1];
      Sum(xs) == Sum(p) + x && SumSq(xs) == SumSq(p) + x * x
      && SumSqDev(xs, m) == SumSqDev(p, m) + (x - m) * (x - m)
  {
  }

  lemma ExpandBase(m: real, d: real, q: real, s: real, k: real)
    requires d == 0.0 && q == 0.0 && s == 0.0 && k == 0.0
    ensures d == q - 2.0 * m * s + k * m * m
  {
    ZeroTimes(2.0 * m, s);
    ZeroTimes(m, k);
    ZeroTimes(m, k * m);
  }

  lemma ExpandStep(x: real, m: real, d: real, q: real, s: real, k: real,
                   d': real, q': real, s': real, k': real)
    requires d == q - 2.0 * m * s + k * m * m
    requires d' == d + (x - m) * (x - m) && q' == q + x * x && s' == s + x && k' == k + 1.0
    ensures d' == q' - 2.0 * m * s' + k' * m * m
  {
  }

  lemma VarianceValue(xs: seq<real>)
    requires |xs| > 0
    ensures Mean(xs) == Sum(xs) / (|xs| as real)
    ensures Variance(xs).value == SumSqDev(xs, Mean(xs)) / (|xs| as real)
  {
  }

  /** The variance agrees with the computational formula E[x^2] - E[x]^2,
      an independent definition of the same quantity. */
  lemma VarianceIsMeanSquareMinusSquaredMean(xs: seq<real>)
    requires |xs| > 0
    ensures Variance(xs).Some?
    ensures Variance(xs).value == SumSq(xs) / (|xs| as real) - Mean(xs) * Mean(xs)
  {
    hide *;
    VarianceValue(xs);
    SumSqDevExpand(xs, Mean(xs));
    CentredSquares(SumSq(xs), Sum(xs), |xs| as real, Mean(xs), SumSqDev(xs, Mean(xs)), Variance(xs).value);
  }

  /** (Q - 2 m S + n m^2) / n is Q/n - m^2 when m = S / n. */
  lemma CentredSquares(q: real, s: real, n: real, m: real, d: real, v: real)
    requires n > 0.0 && m == s / n
    requires d == q - 2.0 * m * s + n * m * m
    requires v == d / n
    ensures v == q / n - m * m
  {
    assert s == n * m;
    assert d == q - n * (m * m);
  }

  lemma MeanScale(c: real, xs: seq<real>, ys: seq<real>)
    requires |xs| > 0 && IsScaled(c, xs, ys)
    ensures Mean(ys) == c * Mean(xs)
  {
    SumScale(c, xs, ys);
    ScaledQuotient(c, Sum(xs), |xs| as real, Sum(ys), |ys| as real, Mean(xs), Mean(ys));
  }

  /** Scaling a history by `c` scales its variance by c^2. */
  lemma VarianceScale(c: real, xs: seq<real>, ys: seq<real>)
    requires |xs| > 0 && IsScaled(c, xs, ys)
    ensures Variance(ys).Some?
    ensures Variance(ys).value == c * c * Variance(xs).value
  {
    MeanScale(c, xs, ys);
    SumSqDevScale(c, xs, ys, Mean(xs), Mean(ys));
    VarianceValue(xs);
    VarianceValue(ys);
    ScaledQuotient(c * c, SumSqDev(xs, Mean(xs)), |xs| as real, SumSqDev(ys, Mean(ys)), |ys| as real,
      Variance(xs).value, Variance(ys).value);
  }

  lemma ScaledQuotient(c: real, s: real, n: real, t: real, n': real, v: real, w: real)
    requires n > 0.0 && n' == n && t == c * s && v == s / n && w == t / n'
    ensures w == c * v
  {
  }

  lemma MeanShift(c: real, xs: seq<real>, ys: seq<real>)
    requires |xs| > 0 && IsShifted(c, xs, ys)
    ensures Mean(ys) == Mean(xs) + c
  {
    SumShift(c, xs, ys);
    ShiftedQuotient(c, Sum(xs), |xs| as real, Sum(ys), |ys| as real, Mean(xs), Mean(ys));
  }

  /** A constant offset does not change the variance. */
  lemma VarianceShift(c: real, xs: seq<real>, ys: seq<real>)
    requires |xs| > 0 && IsShifted(c, xs, ys)
    ensures Variance(ys) == Variance(xs)
  {
    MeanShift(c, xs, ys);
    SumSqDevShift(c, xs, ys, Mean(xs), Mean(ys));
    VarianceValue(xs);
    VarianceValue(ys);
  }

  lemma ShiftedQuotient(c: real, s: real, n: real, t: real, n': real, v: real, w: real)
    requires n > 0.0 && n' == n && t == s + n * c && v == s / n && w == t / n'
    ensures w == v + c
  {
  }
}
