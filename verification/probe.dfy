/** One optical-gain probe: it injects a sinusoid into one entry of the
    mode-coefficient vector every tick, records the post-injection values and
    the loop's filtered response, and estimates the gain by lock-in
    correlation at its own frequency.

    Gains are kept SQUARED: the source takes a square root of each quantity
    modelled here, which the model leaves out. */
module Probe {
  import opened Wrappers
  import opened Trig
  import Statistics

  /** Amplitude of every probe, 1e-8. */
  const ProbeAmplitude: real := 0.00000001

  /** Segment number, an unsigned byte that must be at least 1 for the
      index arithmetic `sid - 1` not to underflow. */
  type SegmentId = s: int | 1 <= s < 256 witness 1

  datatype Probe = Probe(
    sid: SegmentId,
    mode: nat,
    nMode: nat,
    amplitude: real,
    frequency: real,
    samplingFrequency: SamplingRate,
    signal: seq<real>,      // injected (post-injection) history
    filtered: seq<real>,    // filtered-response history
    i: nat,                 // sample counter
    gainSquared: Option<real>)

  /** A probe as the client builds it: empty histories, counter at 0 and
      the default gain 0. */
  function Fresh(sid: SegmentId, mode: nat, nMode: nat, frequency: real, fs: SamplingRate): (p: Probe)
    ensures p.signal == [] && p.filtered == [] && p.i == 0
    ensures Consistent(p)
  {
    Probe(sid, mode, nMode, ProbeAmplitude, frequency, fs, [], [], 0, Some(0.0))
  }

  /** The injected history holds exactly one value per sample counted. */
  predicate Consistent(p: Probe)
  {
    |p.signal| == p.i
  }

  /** Position of mode `mode` of segment `sid` in a vector holding `nMode`
      modes per segment. */
  function Index(sid: SegmentId, mode: nat, nMode: nat): nat
  {
    (sid - 1) * nMode + mode
  }

  /** The probe's index into the mode-coefficient and residual vectors. For
      a mode below `nMode` the index decodes back to the segment (quotient)
      and the mode (remainder). */
  function Id(p: Probe): (r: nat)
    ensures r == Index(p.sid, p.mode, p.nMode)
    ensures p.mode < p.nMode ==> r / p.nMode == p.sid - 1 && r % p.nMode == p.mode
  {
    IndexDecodes(p.sid, p.mode, p.nMode);
    Index(p.sid, p.mode, p.nMode)
  }

  lemma IndexDecodes(sid: SegmentId, mode: nat, nMode: nat)
    ensures mode < nMode ==>
      Index(sid, mode, nMode) / nMode == sid - 1 && Index(sid, mode, nMode) % nMode == mode
  {
    if mode < nMode {
      QuotientRemainderUnique(Index(sid, mode, nMode), nMode, sid - 1, mode);
    }
  }

  /** Euclidean division has one quotient and one remainder: writing `x` as
      `q * n + m` with `m < n` fixes both. */
  lemma QuotientRemainderUnique(x: nat, n: nat, q: nat, m: nat)
    requires m < n && x == q * n + m
    ensures x / n == q && x % n == m
  {
    var a: nat, b := x / n, x % n;
    assert a * n + b == q * n + m;
    if a > q {
      MulLeft(q + 1, a, n);
      assert false;
    } else if a < q {
      MulLeft(a + 1, q, n);
      assert false;
    }
  }

  /** Two (segment, mode) pairs with modes below `nMode` share an index
      only if they are the same pair: the index is a one-to-one encoding. */
  lemma IndexInjective(s1: SegmentId, m1: nat, s2: SegmentId, m2: nat, nMode: nat)
    requires m1 < nMode && m2 < nMode
    requires Index(s1, m1, nMode) == Index(s2, m2, nMode)
    ensures s1 == s2 && m1 == m2
  {
    if s1 < s2 {
      BlockOrder(s1 - 1, m1, s2 - 1, m2, nMode);
    } else if s2 < s1 {
      BlockOrder(s2 - 1, m2, s1 - 1, m1, nMode);
    }
  }

  /** A mode of an earlier segment sits below every mode of a later one. */
  lemma BlockOrder(a: nat, m1: nat, b: nat, m2: nat, n: nat)
    requires a < b && m1 < n
    ensures a * n + m1 < b * n + m2
  {
    assert (a + 1) * n <= b * n by {
      MulLeft(a + 1, b, n);
    }
  }

  lemma MulLeft(a: nat, b: nat, n: nat)
    requires a <= b
    ensures a * n <= b * n
  {
  }

  /** An index of a segment up to `segments` with a mode below `nMode`
      lies below `segments * nMode`. */
  lemma IndexBound(sid: SegmentId, mode: nat, nMode: nat, segments: nat)
    requires sid <= segments && mode < nMode
    ensures Index(sid, mode, nMode) < segments * nMode
  {
    MulLeft(sid, segments, nMode);
  }

  /** One tick of the probe on the buffer entry `x`: the entry receives
      amplitude * sin(phase of sample i), the new value is appended to the
      injected history and the counter advances. */
  function Modulate(t: Trig, p: Probe, x: real): (r: (Probe, real))
    ensures r.1 == x + p.amplitude * t.sin(Phase(p.frequency, p.samplingFrequency, p.i))
    ensures r.0.signal == p.signal + [r.1] && r.0.i == p.i + 1
    ensures r.0 == p.(signal := r.0.signal, i := r.0.i)
    ensures Consistent(p) ==> Consistent(r.0)
  {
    var x' := x + p.amplitude * t.sin(Phase(p.frequency, p.samplingFrequency, p.i));
    (p.(signal := p.signal + [x'], i := p.i + 1), x')
  }

  /** The probe after ticking on the baseline entries `xs` in order. */
  function ModulateAll(t: Trig, p: Probe, xs: seq<real>): Probe
  {
    if |xs| == 0 then p else Modulate(t, ModulateAll(t, p, xs[..|xs| - 1]), xs[|xs| - 1]).0
  }

  /** Injected sample k is baseline k plus the sinusoid at the phase of
      sample k: the same phase the lock-in correlation uses at position k. */
  lemma {:induction false} InjectedHistory(t: Trig, p: Probe, xs: seq<real>)
    requires p.signal == [] && p.i == 0
    ensures ModulateAll(t, p, xs).i == |xs|
    ensures |ModulateAll(t, p, xs).signal| == |xs|
    ensures forall k :: 0 <= k < |xs| ==>
      ModulateAll(t, p, xs).signal[k] == xs[k] + p.amplitude * t.sin(Phase(p.frequency, p.samplingFrequency, k))
    ensures ModulateAll(t, p, xs) == p.(signal := ModulateAll(t, p, xs).signal, i := |xs|)
  {
    if |xs| > 0 {
      var front := xs[..|xs| - 1];
      var q := ModulateAll(t, p, front);
      InjectedHistory(t, p, front);
      var r := Modulate(t, q, xs[|xs| - 1]);
      assert ModulateAll(t, p, xs) == r.0;
      forall k | 0 <= k < |xs|
        ensures r.0.signal[k] == xs[k] + p.amplitude * t.sin(Phase(p.frequency, p.samplingFrequency, k))
      {
        if k < |front| {
          assert r.0.signal[k] == q.signal[k];
          assert front[k] == xs[k];
        }
      }
    }
  }

  /** In-phase and quadrature correlation sums of both histories. */
  datatype Sums = Sums(reS: real, imS: real, reF: real, imF: real)

  /** The first `n` samples of `xs`, sample k weighted by `w` at the phase
      of position k. */
  function Weighted(xs: seq<real>, w: real -> real, frequency: real, fs: SamplingRate, n: nat): (r: seq<real>)
    requires n <= |xs|
    ensures |r| == n
    ensures forall k :: 0 <= k < n ==> r[k] == xs[k] * w(Phase(frequency, fs, k))
  {
    if n == 0 then [] else Weighted(xs, w, frequency, fs, n - 1) + [xs[n - 1] * w(Phase(frequency, fs, n - 1))]
  }

  lemma WeightedStep(xs: seq<real>, w: real -> real, frequency: real, fs: SamplingRate, n: nat)
    requires 0 < n <= |xs|
    ensures Statistics.Sum(Weighted(xs, w, frequency, fs, n))
      == Statistics.Sum(Weighted(xs, w, frequency, fs, n - 1)) + xs[n - 1] * w(Phase(frequency, fs, n - 1))
  {
    var ws := Weighted(xs, w, frequency, fs, n);
    assert ws[..n - 1] == Weighted(xs, w, frequency, fs, n - 1);
  }

  /** Correlation sums over the first `n` index pairs, accumulated left to
      right as the source's fold does. */
  function Correlation(t: Trig, frequency: real, fs: SamplingRate, s: seq<real>, f: seq<real>, n: nat): Sums
    requires n <= |s| && n <= |f|
  {
    if n == 0 then Sums(0.0, 0.0, 0.0, 0.0)
    else
      var acc := Correlation(t, frequency, fs, s, f, n - 1);
      var w := Phase(frequency, fs, n - 1);
      Sums(acc.reS + s[n - 1] * t.cos(w), acc.imS + s[n - 1] * t.sin(w),
           acc.reF + f[n - 1] * t.cos(w), acc.imF + f[n - 1] * t.sin(w))
  }

  /** Each correlation sum is the plain sum of its history's first `n`
      samples, sample k weighted by the cosine or sine of phase k. */
  lemma {:induction false} CorrelationIsWeightedSum(t: Trig, frequency: real, fs: SamplingRate,
                                                    s: seq<real>, f: seq<real>, n: nat)
    requires n <= |s| && n <= |f|
    ensures Correlation(t, frequency, fs, s, f, n).reS == Statistics.Sum(Weighted(s, t.cos, frequency, fs, n))
    ensures Correlation(t, frequency, fs, s, f, n).imS == Statistics.Sum(Weighted(s, t.sin, frequency, fs, n))
    ensures Correlation(t, frequency, fs, s, f, n).reF == Statistics.Sum(Weighted(f, t.cos, frequency, fs, n))
    ensures Correlation(t, frequency, fs, s, f, n).imF == Statistics.Sum(Weighted(f, t.sin, frequency, fs, n))
  {
    hide *;
    if n == 0 {
      CorrelationEmpty(t, frequency, fs, s, f);
      WeightedEmpty(s, t.cos, frequency, fs);
      WeightedEmpty(s, t.sin, frequency, fs);
      WeightedEmpty(f, t.cos, frequency, fs);
      WeightedEmpty(f, t.sin, frequency, fs);
    } else {
      CorrelationUnfold(t, frequency, fs, s, f, n);
      CorrelationIsWeightedSum(t, frequency, fs, s, f, n - 1);
      WeightedStep(s, t.cos, frequency, fs, n);
      WeightedStep(s, t.sin, frequency, fs, n);
      WeightedStep(f, t.cos, frequency, fs, n);
      WeightedStep(f, t.sin, frequency, fs, n);
    }
  }

  lemma WeightedEmpty(xs: seq<real>, w: real -> real, frequency: real, fs: SamplingRate)
    ensures Statistics.Sum(Weighted(xs, w, frequency, fs, 0)) == 0.0
  {
  }

  function Min(a: nat, b: nat): nat
  {
    if a <= b then a else b
  }

  /** The probe's sums: `zip` stops at the shorter history, so the sums are
      those of the two histories cut to their common length. */
  function LockIn(t: Trig, p: Probe): (r: Sums)
    ensures var m := Min(|p.signal|, |p.filtered|);
      r == Correlation(t, p.frequency, p.samplingFrequency, p.signal[..m], p.filtered[..m], m)
  {
    var m := Min(|p.signal|, |p.filtered|);
    CorrelationReadsPrefix(t, p.frequency, p.samplingFrequency, p.signal, p.filtered, p.signal[..m], p.filtered[..m], m);
    Correlation(t, p.frequency, p.samplingFrequency, p.signal, p.filtered, Min(|p.signal|, |p.filtered|))
  }

  function SignalPower(s: Sums): real
  {
    s.reS * s.reS + s.imS * s.imS
  }

  function FilteredPower(s: Sums): real
  {
    s.reF * s.reF + s.imF * s.imF
  }

  /** Squared lock-in gain d_f / d_s. With d_s = 0 the source divides by
      zero and gets no finite number: `None`. */
  function GainSquared(t: Trig, p: Probe): (r: Option<real>)
    ensures r.Some? <==> SignalPower(LockIn(t, p)) != 0.0
    ensures r.Some? ==> r.value >= 0.0
  {
    var sums := LockIn(t, p);
    var ds, df := SignalPower(sums), FilteredPower(sums);
    if ds == 0.0 then None
    else
      PowersNonNegative(sums);
      Some(df / ds)
  }

  lemma PowersNonNegative(s: Sums)
    ensures SignalPower(s) >= 0.0 && FilteredPower(s) >= 0.0
  {
    Statistics.SquareNonNegative(s.reS);
    Statistics.SquareNonNegative(s.imS);
    Statistics.SquareNonNegative(s.reF);
    Statistics.SquareNonNegative(s.imF);
  }

  /** Evaluates the gain and stores it; nothing else about the probe changes. */
  function Gain(t: Trig, p: Probe): (r: Probe)
    ensures r == p.(gainSquared := r.gainSquared)
    ensures r.gainSquared == GainSquared(t, p)
    ensures r.gainSquared.Some? <==> SignalPower(LockIn(t, p)) != 0.0
  {
    p.(gainSquared := GainSquared(t, p))
  }

  /** The sums over `n` pairs read only the first `n` entries of each history. */
  lemma {:induction false} CorrelationReadsPrefix(t: Trig, frequency: real, fs: SamplingRate,
                                                  s: seq<real>, f: seq<real>, s': seq<real>, f': seq<real>, n: nat)
    requires n <= |s| && n <= |f| && n <= |s'| && n <= |f'|
    requires forall k :: 0 <= k < n ==> s[k] == s'[k] && f[k] == f'[k]
    ensures Correlation(t, frequency, fs, s, f, n) == Correlation(t, frequency, fs, s', f', n)
  {
    hide *;
    if n == 0 {
      CorrelationEmpty(t, frequency, fs, s, f);
      CorrelationEmpty(t, frequency, fs, s', f');
    } else {
      CorrelationUnfold(t, frequency, fs, s, f, n);
      CorrelationUnfold(t, frequency, fs, s', f', n);
      CorrelationReadsPrefix(t, frequency, fs, s, f, s', f', n - 1);
    }
  }

  /** Samples past the end of the shorter history never reach the sums:
      appending to the history that is already at least as long leaves the
      lock-in sums unchanged. This is how injected samples recorded on
      ticks without a residual drop out of the estimate. */
  lemma ExtraInjectedSamplesIgnored(t: Trig, p: Probe, extra: seq<real>)
    requires |p.signal| >= |p.filtered|
    ensures LockIn(t, p.(signal := p.signal + extra)) == LockIn(t, p)
  {
    CorrelationReadsPrefix(t, p.frequency, p.samplingFrequency, p.signal + extra, p.filtered, p.signal, p.filtered, |p.filtered|);
  }

  lemma ExtraFilteredSamplesIgnored(t: Trig, p: Probe, extra: seq<real>)
    requires |p.filtered| >= |p.signal|
    ensures LockIn(t, p.(filtered := p.filtered + extra)) == LockIn(t, p)
  {
    CorrelationReadsPrefix(t, p.frequency, p.samplingFrequency, p.signal, p.filtered + extra, p.signal, p.filtered, |p.signal|);
  }

  lemma CorrelationUnfold(t: Trig, frequency: real, fs: SamplingRate, s: seq<real>, f: seq<real>, n: nat)
    requires 0 < n <= |s| && n <= |f|
    ensures var acc, w := Correlation(t, frequency, fs, s, f, n - 1), Phase(frequency, fs, n - 1);
      Correlation(t, frequency, fs, s, f, n)
        == Sums(acc.reS + s[n - 1] * t.cos(w), acc.imS + s[n - 1] * t.sin(w),
                acc.reF + f[n - 1] * t.cos(w), acc.imF + f[n - 1] * t.sin(w))
  {
  }

  /** A filtered history that is `c` times the injected one over the first
      `n` pairs gives filtered sums `c` times the injected sums. */
  lemma {:induction false} CorrelationOfScaledCopy(t: Trig, frequency: real, fs: SamplingRate,
                                                   s: seq<real>, f: seq<real>, n: nat, c: real)
    requires n <= |s| && n <= |f|
    requires forall k :: 0 <= k < n ==> f[k] == c * s[k]
    ensures Correlation(t, frequency, fs, s, f, n).reF == c * Correlation(t, frequency, fs, s, f, n).reS
    ensures Correlation(t, frequency, fs, s, f, n).imF == c * Correlation(t, frequency, fs, s, f, n).imS
  {
    hide *;
    if n == 0 {
      CorrelationEmpty(t, frequency, fs, s, f);
      Statistics.ZeroTimes(c, 0.0);
    } else {
      var w := Phase(frequency, fs, n - 1);
      var acc := Correlation(t, frequency, fs, s, f, n - 1);
      var sums := Correlation(t, frequency, fs, s, f, n);
      assert f[n - 1] == c * s[n - 1];
      CorrelationUnfold(t, frequency, fs, s, f, n);
      CorrelationOfScaledCopy(t, frequency, fs, s, f, n - 1, c);
      ScaledTerm(c, s[n - 1], f[n - 1], t.cos(w));
      ScaledTerm(c, s[n - 1], f[n - 1], t.sin(w));
      Statistics.ScaleSumStep(c, s[n - 1] * t.cos(w), f[n - 1] * t.cos(w), acc.reS, acc.reF, sums.reS, sums.reF);
      Statistics.ScaleSumStep(c, s[n - 1] * t.sin(w), f[n - 1] * t.sin(w), acc.imS, acc.imF, sums.imS, sums.imF);
    }
  }

  lemma CorrelationEmpty(t: Trig, frequency: real, fs: SamplingRate, s: seq<real>, f: seq<real>)
    ensures Correlation(t, frequency, fs, s, f, 0) == Sums(0.0, 0.0, 0.0, 0.0)
  {
  }

  lemma ScaledTerm(c: real, s: real, f: real, w: real)
    requires f == c * s
    ensures f * w == c * (s * w)
  {
  }

  /** Lock-in estimate of a pure scaled copy: when every contributing
      filtered sample is `c` times the injected sample, d_f = c^2 d_s, so
      the squared gain is c^2 whenever d_s is not zero. */
  lemma GainOfScaledCopy(t: Trig, p: Probe, c: real)
    requires forall k :: 0 <= k < Min(|p.signal|, |p.filtered|) ==> p.filtered[k] == c * p.signal[k]
    ensures FilteredPower(LockIn(t, p)) == c * c * SignalPower(LockIn(t, p))
    ensures SignalPower(LockIn(t, p)) != 0.0 ==> GainSquared(t, p) == Some(c * c)
  {
    PowersOfScaledCopy(t, p, c);
    var sums := LockIn(t, p);
    if SignalPower(sums) != 0.0 {
      hide *;
      GainSquaredValue(t, p);
      QuotientOfMultiple(c * c, SignalPower(sums), FilteredPower(sums));
    }
  }

  lemma PowersOfScaledCopy(t: Trig, p: Probe, c: real)
    requires forall k :: 0 <= k < Min(|p.signal|, |p.filtered|) ==> p.filtered[k] == c * p.signal[k]
    ensures FilteredPower(LockIn(t, p)) == c * c * SignalPower(LockIn(t, p))
  {
    hide *;
    LockInUnfold(t, p);
    CorrelationOfScaledCopy(t, p.frequency, p.samplingFrequency, p.signal, p.filtered, Min(|p.signal|, |p.filtered|), c);
    PowerOfScaledSums(c, LockIn(t, p));
  }

  lemma LockInUnfold(t: Trig, p: Probe)
    ensures Min(|p.signal|, |p.filtered|) <= |p.signal| && Min(|p.signal|, |p.filtered|) <= |p.filtered|
    ensures LockIn(t, p) == Correlation(t, p.frequency, p.samplingFrequency, p.signal, p.filtered, Min(|p.signal|, |p.filtered|))
  {
  }

  lemma GainSquaredValue(t: Trig, p: Probe)
    requires SignalPower(LockIn(t, p)) != 0.0
    ensures GainSquared(t, p) == Some(FilteredPower(LockIn(t, p)) / SignalPower(LockIn(t, p)))
  {
  }

  lemma PowerOfScaledSums(c: real, s: Sums)
    requires s.reF == c * s.reS && s.imF == c * s.imS
    ensures FilteredPower(s) == c * c * SignalPower(s)
  {
    PowerOfScaled(c, s.reS, s.imS, s.reF, s.imF);
  }

  lemma PowerOfScaled(c: real, a: real, b: real, a': real, b': real)
    requires a' == c * a && b' == c * b
    ensures a' * a' + b' * b' == c * c * (a * a + b * b)
  {
  }

  lemma QuotientOfMultiple(k: real, d: real, e: real)
    requires d != 0.0 && e == k * d
    ensures e / d == k
  {
  }

  /** The power ratio ignores phase: filtered sums that are the injected
      sums rotated by any angle (cosine `a`, sine `b`) and scaled by `c`
      carry c^2 times the injected power. */
  lemma PowerIgnoresPhase(s: Sums, a: real, b: real, c: real)
    requires a * a + b * b == 1.0
    requires s.reF == c * (a * s.reS - b * s.imS)
    requires s.imF == c * (b * s.reS + a * s.imS)
    ensures FilteredPower(s) == c * c * SignalPower(s)
  {
    var x, y := s.reS, s.imS;
    var u, v := a * x - b * y, b * x + a * y;
    assert u * u + v * v == (a * a + b * b) * (x * x + y * y);
    PowerOfScaled(c, u, v, s.reF, s.imF);
  }

  /** Population variance of the injected history; it equals the mean of
      squares minus the squared mean. */
  function SignalVariance(p: Probe): (r: Option<real>)
    ensures r.Some? <==> |p.signal| > 0
    ensures r.Some? ==> r.value >= 0.0
    ensures r.Some? ==>
      r.value == Statistics.SumSq(p.signal) / (|p.signal| as real) - Statistics.Mean(p.signal) * Statistics.Mean(p.signal)
  {
    if |p.signal| == 0 then Statistics.Variance(p.signal)
    else
      Statistics.VarianceIsMeanSquareMinusSquaredMean(p.signal);
      Statistics.Variance(p.signal)
  }

  /** Population variance of the filtered history, likewise. */
  function FilteredVariance(p: Probe): (r: Option<real>)
    ensures r.Some? <==> |p.filtered| > 0
    ensures r.Some? ==> r.value >= 0.0
    ensures r.Some? ==>
      r.value == Statistics.SumSq(p.filtered) / (|p.filtered| as real) - Statistics.Mean(p.filtered) * Statistics.Mean(p.filtered)
  {
    if |p.filtered| == 0 then Statistics.Variance(p.filtered)
    else
      Statistics.VarianceIsMeanSquareMinusSquaredMean(p.filtered);
      Statistics.Variance(p.filtered)
  }

  /** filtered variance / injected variance; `None` where the source
      divides by zero (an empty history or a constant injected history). */
  function VarianceRatio(p: Probe): (r: Option<real>)
    ensures r.Some? <==> |p.signal| > 0 && |p.filtered| > 0 && SignalVariance(p).value != 0.0
    ensures r.Some? ==> r.value >= 0.0
    ensures r.Some? ==> r.value == FilteredVariance(p).value / SignalVariance(p).value
  {
    var vs, vf := SignalVariance(p), FilteredVariance(p);
    if vs.None? || vf.None? || vs.value == 0.0 then None
    else Some(vf.value / vs.value)
  }

  /** For a filtered history that is a scaled copy of the injected one the
      variance ratio is c^2. */
  lemma VarianceRatioOfScaledCopy(p: Probe, c: real)
    requires Statistics.IsScaled(c, p.signal, p.filtered)
    requires |p.signal| > 0 && SignalVariance(p).value != 0.0
    ensures VarianceRatio(p) == Some(c * c)
  {
    Statistics.VarianceScale(c, p.signal, p.filtered);
    QuotientOfMultiple(c * c, SignalVariance(p).value, FilteredVariance(p).value);
  }
}
