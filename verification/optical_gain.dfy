/** The optical-gain client: the ten configured probes sharing one
    mode-coefficient buffer of seven segments times `nMode` modes. */
module OpticalGain {
  import opened Wrappers
  import opened Trig
  import Probe
  import ProbingSignals
  import Statistics

  /** Number of mirror segments. */
  const Segments: nat := 7

  datatype OpticalGain = OpticalGain(probes: seq<Probe.Probe>, data: seq<real>)

  function FreshProbes(es: seq<ProbingSignals.Entry>, nMode: nat, fs: SamplingRate): (r: seq<Probe.Probe>)
    ensures |r| == |es|
    ensures forall k :: 0 <= k < |r| ==>
      r[k] == Probe.Fresh(es[k].sid, es[k].mode, nMode, es[k].frequency, fs)
  {
    if |es| == 0 then []
    else [Probe.Fresh(es[0].sid, es[0].mode, nMode, es[0].frequency, fs)] + FreshProbes(es[1..], nMode, fs)
  }

  function Zeros(n: nat): (r: seq<real>)
    ensures |r| == n
    ensures forall j :: 0 <= j < n ==> r[j] == 0.0
  {
    if n == 0 then [] else Zeros(n - 1) + [0.0]
  }

  /** A client with one fresh probe per configured entry, in table order,
      and an all-zero buffer of `Segments * nMode` coefficients. */
  function New(fs: SamplingRate, nMode: nat): (r: OpticalGain)
    ensures |r.probes| == |ProbingSignals.Configured()| == 10
    ensures forall k :: 0 <= k < |r.probes| ==>
      var e := ProbingSignals.Configured()[k];
      r.probes[k].sid == e.sid && r.probes[k].mode == e.mode && r.probes[k].frequency == e.frequency
      && r.probes[k].nMode == nMode && r.probes[k].samplingFrequency == fs
      && r.probes[k].amplitude == Probe.ProbeAmplitude
      && r.probes[k].signal == [] && r.probes[k].filtered == [] && r.probes[k].i == 0
    ensures |r.data| == Segments * nMode
    ensures forall j :: 0 <= j < |r.data| ==> r.data[j] == 0.0
  {
    ProbingSignals.ConfiguredTable();
    OpticalGain(FreshProbes(ProbingSignals.Configured(), nMode, fs), Zeros(Segments * nMode))
  }

  /** Every probe whose index lies inside a buffer of length `n`. */
  predicate IdsBelow(probes: seq<Probe.Probe>, n: nat)
  {
    forall k :: 0 <= k < |probes| ==> Probe.Id(probes[k]) < n
  }

  /** No probe's index is `j`. */
  predicate Unprobed(probes: seq<Probe.Probe>, j: nat)
  {
    forall k :: 0 <= k < |probes| ==> Probe.Id(probes[k]) != j
  }

  /** `q` is `p` after one more tick: one more injected sample, counter one
      higher, everything else as it was. */
  predicate Ticked(p: Probe.Probe, q: Probe.Probe)
  {
    |q.signal| == |p.signal| + 1 && q.signal[..|p.signal|] == p.signal
    && q == p.(signal := q.signal, i := p.i + 1)
  }

  /** The probes modulate their own buffer entries one after another. The
      source panics on the first probe whose index lies outside the buffer:
      `None`. */
  function ModulateEach(t: Trig, probes: seq<Probe.Probe>, data: seq<real>): (r: Option<(seq<Probe.Probe>, seq<real>)>)
    ensures r.Some? <==> IdsBelow(probes, |data|)
    ensures r.Some? ==> |r.value.0| == |probes| && |r.value.1| == |data|
    ensures r.Some? ==> forall k :: 0 <= k < |probes| ==> Ticked(probes[k], r.value.0[k])
    ensures r.Some? ==> forall j :: 0 <= j < |data| && Unprobed(probes, j) ==> r.value.1[j] == data[j]
    decreases |probes|
  {
    if |probes| == 0 then Some(([], data))
    else
      var id := Probe.Id(probes[0]);
      if id >= |data| then None
      else
        var m := Probe.Modulate(t, probes[0], data[id]);
        match ModulateEach(t, probes[1..], data[id := m.1])
        case None => None
        case Some(rest) => Some(([m.0] + rest.0, rest.1))
  }

  /** One tick of the client. */
  function Update(t: Trig, g: OpticalGain): (r: Option<OpticalGain>)
    ensures r.Some? <==> IdsBelow(g.probes, |g.data|)
    ensures r.Some? ==> |r.value.probes| == |g.probes| && |r.value.data| == |g.data|
    ensures r.Some? ==> forall k :: 0 <= k < |g.probes| ==> Ticked(g.probes[k], r.value.probes[k])
    ensures r.Some? ==> forall j :: 0 <= j < |g.data| && Unprobed(g.probes, j) ==> r.value.data[j] == g.data[j]
  {
    match ModulateEach(t, g.probes, g.data)
    case None => None
    case Some(res) => Some(OpticalGain(res.0, res.1))
  }

  /** All indices of the probes differ. */
  predicate DistinctIds(probes: seq<Probe.Probe>)
  {
    forall j, k :: 0 <= j < k < |probes| ==> Probe.Id(probes[j]) != Probe.Id(probes[k])
  }

  /** With distinct indices each probe's entry ends up as its baseline plus
      the probe's sinusoid, and that is the sample the probe records. */
  lemma ModulateEachDistinct(t: Trig, probes: seq<Probe.Probe>, data: seq<real>)
    requires IdsBelow(probes, |data|) && DistinctIds(probes)
    ensures forall k :: 0 <= k < |probes| ==>
      var p, r := probes[k], ModulateEach(t, probes, data).value;
      r.1[Probe.Id(p)] == data[Probe.Id(p)] + p.amplitude * t.sin(Phase(p.frequency, p.samplingFrequency, p.i))
      && r.0[k].signal[|p.signal|] == r.1[Probe.Id(p)]
  {
    forall k | 0 <= k < |probes|
      ensures var p, r := probes[k], ModulateEach(t, probes, data).value;
        r.1[Probe.Id(p)] == data[Probe.Id(p)] + p.amplitude * t.sin(Phase(p.frequency, p.samplingFrequency, p.i))
        && r.0[k].signal[|p.signal|] == r.1[Probe.Id(p)]
    {
      ModulateEachDistinctAt(t, probes, data, k);
    }
  }

  lemma {:induction false} ModulateEachDistinctAt(t: Trig, probes: seq<Probe.Probe>, data: seq<real>, k: nat)
    requires IdsBelow(probes, |data|) && DistinctIds(probes) && k < |probes|
    ensures var p, r := probes[k], ModulateEach(t, probes, data).value;
      r.1[Probe.Id(p)] == data[Probe.Id(p)] + p.amplitude * t.sin(Phase(p.frequency, p.samplingFrequency, p.i))
      && r.0[k].signal[|p.signal|] == r.1[Probe.Id(p)]
    decreases k, 1
  {
    if k == 0 {
      var p := probes[0];
      var id := Probe.Id(p);
      var m := Probe.Modulate(t, p, data[id]);
      var data' := data[id := m.1];
      hide *;
      DistinctTail(probes, data);
      ModulateEachUnfold(t, probes, data);
      var r' := ModulateEach(t, probes[1..], data').value;
      assert r'.1[id] == data'[id];
    } else {
      ModulateEachDistinctLater(t, probes, data, k);
    }
  }

  /** The step of `ModulateEachDistinctAt` for a probe after the first: the
      first probe's tick writes an entry no later probe reads. */
  lemma {:induction false} ModulateEachDistinctLater(t: Trig, probes: seq<Probe.Probe>, data: seq<real>, k: nat)
    requires IdsBelow(probes, |data|) && DistinctIds(probes) && 0 < k < |probes|
    ensures var p, r := probes[k], ModulateEach(t, probes, data).value;
      r.1[Probe.Id(p)] == data[Probe.Id(p)] + p.amplitude * t.sin(Phase(p.frequency, p.samplingFrequency, p.i))
      && r.0[k].signal[|p.signal|] == r.1[Probe.Id(p)]
    decreases k, 0
  {
    hide ModulateEach, Probe.Modulate;
    var p := probes[0];
    var id := Probe.Id(p);
    var m := Probe.Modulate(t, p, data[id]);
    var data' := data[id := m.1];
    var rest := probes[1..];
    var r := ModulateEach(t, probes, data).value;
    DistinctTail(probes, data);
    ModulateEachUnfold(t, probes, data);
    var r' := ModulateEach(t, rest, data').value;
    ModulateEachDistinctAt(t, rest, data', k - 1);
    assert probes[k] == rest[k - 1];
    DistinctAt(probes, 0, k);
    assert r.0[k] == r'.0[k - 1];
  }

  lemma DistinctAt(probes: seq<Probe.Probe>, j: nat, k: nat)
    requires DistinctIds(probes) && j < k < |probes|
    ensures Probe.Id(probes[j]) != Probe.Id(probes[k])
  {
  }

  lemma DistinctTail(probes: seq<Probe.Probe>, data: seq<real>)
    requires |probes| > 0 && IdsBelow(probes, |data|) && DistinctIds(probes)
    ensures IdsBelow(probes[1..], |data|)
    ensures DistinctIds(probes[1..])
    ensures Unprobed(probes[1..], Probe.Id(probes[0]))
  {
    assert forall k :: 0 <= k < |probes| - 1 ==> probes[1..][k] == probes[k + 1];
  }

  lemma ModulateEachUnfold(t: Trig, probes: seq<Probe.Probe>, data: seq<real>)
    requires |probes| > 0 && IdsBelow(probes, |data|)
    ensures var id := Probe.Id(probes[0]);
      var m := Probe.Modulate(t, probes[0], data[id]);
      var r' := ModulateEach(t, probes[1..], data[id := m.1]);
      r'.Some? && ModulateEach(t, probes, data) == Some(([m.0] + r'.value.0, r'.value.1))
  {
    assert Probe.Id(probes[0]) < |data|;
  }

  /** The mode-coefficient buffer as the client writes it out. */
  function WriteModes(g: OpticalGain): (r: seq<real>)
    ensures r == g.data
  {
    g.data
  }

  /** Reading a mode-coefficient vector replaces the buffer wholesale (any
      length) and leaves the probes alone: writing right after returns
      exactly what was read. */
  function ReadModes(g: OpticalGain, v: seq<real>): (r: OpticalGain)
    ensures WriteModes(r) == v
    ensures r.probes == g.probes
  {
    g.(data := v)
  }

  /** Reading back what was just written changes nothing. */
  lemma WriteThenRead(g: OpticalGain)
    ensures ReadModes(g, WriteModes(g)) == g
  {
  }

  /** Each probe records entry `Id` of the residual vector; `None` when an
      index lies outside it (the source panics). */
  function AppendResiduals(probes: seq<Probe.Probe>, residual: seq<real>): (r: Option<seq<Probe.Probe>>)
    ensures r.Some? <==> IdsBelow(probes, |residual|)
    ensures r.Some? ==> |r.value| == |probes|
    ensures r.Some? ==> forall k :: 0 <= k < |probes| ==>
      Probe.Id(probes[k]) < |residual|
      && r.value[k] == probes[k].(filtered := probes[k].filtered + [residual[Probe.Id(probes[k])]])
    decreases |probes|
  {
    if |probes| == 0 then Some([])
    else
      var id := Probe.Id(probes[0]);
      if id >= |residual| then None
      else
        match AppendResiduals(probes[1..], residual)
        case None => None
        case Some(rest) => Some([probes[0].(filtered := probes[0].filtered + [residual[id]])] + rest)
  }

  /** Reading the residual vector: an empty vector (the delay still warming
      up) is skipped; otherwise every probe records its entry. */
  function ReadResidual(g: OpticalGain, residual: seq<real>): (r: Option<OpticalGain>)
    ensures |residual| == 0 ==> r == Some(g)
    ensures |residual| > 0 ==> (r.Some? <==> IdsBelow(g.probes, |residual|))
    ensures r.Some? ==> r.value.data == g.data && |r.value.probes| == |g.probes|
    ensures r.Some? && |residual| > 0 ==> forall k :: 0 <= k < |g.probes| ==>
      Probe.Id(g.probes[k]) < |residual|
      && r.value.probes[k] == g.probes[k].(filtered := g.probes[k].filtered + [residual[Probe.Id(g.probes[k])]])
  {
    if |residual| == 0 then Some(g)
    else
      match AppendResiduals(g.probes, residual)
      case None => None
      case Some(ps) => Some(g.(probes := ps))
  }

  /** Evaluates every probe's lock-in gain; histories and buffer unchanged. */
  function Gain(t: Trig, g: OpticalGain): (r: OpticalGain)
    ensures r.data == g.data && |r.probes| == |g.probes|
    ensures forall k :: 0 <= k < |g.probes| ==>
      r.probes[k] == Probe.Gain(t, g.probes[k])
      && r.probes[k] == g.probes[k].(gainSquared := Probe.GainSquared(t, g.probes[k]))
      && (r.probes[k].gainSquared.Some? <==> Probe.SignalPower(Probe.LockIn(t, g.probes[k])) != 0.0)
  {
    g.(probes := seq(|g.probes|, k requires 0 <= k < |g.probes| => Probe.Gain(t, g.probes[k])))
  }

  /** The square of `sqrt(2 * ratio)`: twice the variance ratio. */
  function TwiceRatio(p: Probe.Probe): (r: Option<real>)
    ensures r.Some? <==> Probe.VarianceRatio(p).Some?
    ensures r.Some? ==> r.value >= 0.0 && r.value == 2.0 * Probe.VarianceRatio(p).value
  {
    match Probe.VarianceRatio(p)
    case None => None
    case Some(x) => Some(2.0 * x)
  }

  function TwiceRatios(probes: seq<Probe.Probe>): (r: seq<Option<real>>)
    ensures |r| == |probes|
    ensures forall k :: 0 <= k < |r| ==> r[k] == TwiceRatio(probes[k])
  {
    if |probes| == 0 then [] else [TwiceRatio(probes[0])] + TwiceRatios(probes[1..])
  }

  /** Squared variance-based gains, one per probe in probe order, as the
      source computes them: 2 * var(filtered) / var(injected). */
  function GainFromVariance(g: OpticalGain): (r: seq<Option<real>>)
    ensures |r| == |g.probes|
    ensures forall k :: 0 <= k < |r| ==> r[k] == TwiceRatio(g.probes[k])
  {
    TwiceRatios(g.probes)
  }

  function Ratios(probes: seq<Probe.Probe>): (r: seq<Option<real>>)
    ensures |r| == |probes|
    ensures forall k :: 0 <= k < |r| ==> r[k] == Probe.VarianceRatio(probes[k])
  {
    if |probes| == 0 then [] else [Probe.VarianceRatio(probes[0])] + Ratios(probes[1..])
  }

  /** Squared variance-based gains without the factor 2. */
  function GainFromVarianceCorrected(g: OpticalGain): (r: seq<Option<real>>)
    ensures |r| == |g.probes|
    ensures forall k :: 0 <= k < |r| ==> r[k] == Probe.VarianceRatio(g.probes[k])
  {
    Ratios(g.probes)
  }

  /* Index layout of the configured probes. */

  /** With more than 460 modes per segment every probe has an entry of its
      own inside the buffer. */
  lemma NewIdsDistinctAndInBounds(fs: SamplingRate, nMode: nat)
    requires nMode > 460
    ensures DistinctIds(New(fs, nMode).probes)
    ensures IdsBelow(New(fs, nMode).probes, |New(fs, nMode).data|)
  {
    hide New, ProbingSignals.Configured, ProbingSignals.Entries;
    var g := New(fs, nMode);
    var c := ProbingSignals.Configured();
    ProbingSignals.ConfiguredPairsDistinct();
    forall j, k | 0 <= j < k < |g.probes|
      ensures Probe.Id(g.probes[j]) != Probe.Id(g.probes[k])
    {
      if Probe.Id(g.probes[j]) == Probe.Id(g.probes[k]) {
        Probe.IndexInjective(c[j].sid, c[j].mode, c[k].sid, c[k].mode, nMode);
        assert false;
      }
    }
    forall k | 0 <= k < |g.probes|
      ensures Probe.Id(g.probes[k]) < |g.data|
    {
      Probe.IndexBound(c[k].sid, c[k].mode, nMode, Segments);
    }
  }

  /** The buffer holds every probe's index exactly when there are more than
      401 modes per segment: the largest index is the centre probe's
      6 nMode + 401. */
  lemma NewIdsInBoundsIff(fs: SamplingRate, nMode: nat)
    ensures IdsBelow(New(fs, nMode).probes, |New(fs, nMode).data|) <==> nMode > 401
  {
    hide New, ProbingSignals.Configured, ProbingSignals.Entries;
    var g := New(fs, nMode);
    var c := ProbingSignals.Configured();
    if nMode > 401 {
      forall k | 0 <= k < |g.probes|
        ensures Probe.Id(g.probes[k]) < |g.data|
      {
        ProbingSignals.ConfiguredAt(k);
        if k < 6 {
          ProbingSignals.OuterBounds(k);
          Probe.MulLeft(c[k].sid - 1, 5, nMode);
        } else {
          ProbingSignals.CenterBounds(k - 6);
        }
      }
    } else {
      ProbingSignals.ConfiguredAt(9);
      assert Probe.Id(g.probes[9]) == 6 * nMode + 401;
    }
  }

  /** The first tick of a new client succeeds exactly when nMode > 401. */
  lemma FirstUpdateSucceedsIff(t: Trig, fs: SamplingRate, nMode: nat)
    ensures Update(t, New(fs, nMode)).Some? <==> nMode > 401
  {
    NewIdsInBoundsIff(fs, nMode);
  }

  /** In bounds is not enough for distinct: with 453 modes per segment the
      outer probe of segment 6, mode 460, and the centre probe of mode 7
      both sit at index 2725, so on every tick the second of them modulates
      the value the first has already modulated. */
  lemma NewIdsCollideAt453(fs: SamplingRate)
    ensures IdsBelow(New(fs, 453).probes, |New(fs, 453).data|)
    ensures Probe.Id(New(fs, 453).probes[5]) == 2725
    ensures Probe.Id(New(fs, 453).probes[6]) == 2725
  {
    ProbingSignals.ConfiguredAt(5);
    ProbingSignals.ConfiguredAt(6);
    NewIdsInBoundsIff(fs, 453);
  }

  /* A run of the client over the messages it receives. */

  /** One input to the client: a tick, a mode-coefficient vector or a
      residual vector. */
  datatype Event = Tick | Modes(v: seq<real>) | Residual(r: seq<real>)

  function Step(t: Trig, g: OpticalGain, e: Event): Option<OpticalGain>
  {
    match e
    case Tick => Update(t, g)
    case Modes(v) => Some(ReadModes(g, v))
    case Residual(r) => ReadResidual(g, r)
  }

  /** The client after the events in order; `None` if any step panics. */
  function Run(t: Trig, g: OpticalGain, es: seq<Event>): Option<OpticalGain>
    decreases |es|
  {
    if |es| == 0 then Some(g)
    else
      match Step(t, g, es[0])
      case None => None
      case Some(g') => Run(t, g', es[1..])
  }

  function Ticks(es: seq<Event>): nat
  {
    if |es| == 0 then 0 else (if es[0].Tick? then 1 else 0) + Ticks(es[1..])
  }

  /** Residual vectors that are not empty. */
  function Deliveries(es: seq<Event>): nat
  {
    if |es| == 0 then 0 else (if es[0].Residual? && |es[0].r| > 0 then 1 else 0) + Deliveries(es[1..])
  }

  /** Every probe has counted `n` ticks, holds `n` injected and `m`
      filtered samples. */
  predicate Synced(g: OpticalGain, n: nat, m: nat)
  {
    forall k :: 0 <= k < |g.probes| ==>
      g.probes[k].i == n && |g.probes[k].signal| == n && |g.probes[k].filtered| == m
  }

  /** The probes keep in step: after any run each probe has one injected
      sample per tick and one filtered sample per non-empty residual, and
      keeps its index. */
  lemma {:induction false} RunCounts(t: Trig, g: OpticalGain, es: seq<Event>, n: nat, m: nat)
    requires Synced(g, n, m)
    requires Run(t, g, es).Some?
    ensures Synced(Run(t, g, es).value, n + Ticks(es), m + Deliveries(es))
    ensures |Run(t, g, es).value.probes| == |g.probes|
    ensures forall k :: 0 <= k < |g.probes| ==> Probe.Id(Run(t, g, es).value.probes[k]) == Probe.Id(g.probes[k])
    decreases |es|
  {
    hide Update, ReadResidual, ModulateEach, AppendResiduals;
    if |es| > 0 {
      var g' := Step(t, g, es[0]).value;
      match es[0]
      case Tick =>
        assert Synced(g', n + 1, m);
        RunCounts(t, g', es[1..], n + 1, m);
      case Modes(v) =>
        RunCounts(t, g', es[1..], n, m);
      case Residual(r) =>
        if |r| > 0 {
          assert Synced(g', n, m + 1);
          RunCounts(t, g', es[1..], n, m + 1);
        } else {
          RunCounts(t, g', es[1..], n, m);
        }
    }
  }

  /** A new client has counted nothing. */
  lemma NewSynced(fs: SamplingRate, nMode: nat)
    ensures Synced(New(fs, nMode), 0, 0)
  {
  }

  /* The variance-based gain against the lock-in gain. */

  /** For a probe whose filtered history is a scaled copy, c times its
      injected history, the lock-in estimate squares to c^2 and so does the
      variance ratio, but the value the source returns squares to 2 c^2. */
  lemma VarianceGainDisagrees(t: Trig, g: OpticalGain, k: nat, c: real)
    requires k < |g.probes|
    requires Statistics.IsScaled(c, g.probes[k].signal, g.probes[k].filtered)
    requires |g.probes[k].signal| > 0 && Probe.SignalVariance(g.probes[k]).value != 0.0
    ensures GainFromVariance(g)[k] == Some(2.0 * c * c)
    ensures GainFromVarianceCorrected(g)[k] == Some(c * c)
    ensures Probe.SignalPower(Probe.LockIn(t, g.probes[k])) != 0.0 ==>
      Gain(t, g).probes[k].gainSquared == Some(c * c)
  {
    var p := g.probes[k];
    Probe.VarianceRatioOfScaledCopy(p, c);
    Probe.GainOfScaledCopy(t, p, c);
  }

  /** Injected history [1, 3] (variance 1) and filtered history
      [0.5, 1.5] (variance 0.25): the variance-based value squares to 0.5,
      the corrected one and the lock-in gain to 0.25. */
  lemma VarianceGainCounterexample(t: Trig)
    ensures var g := OpticalGain([ScaledCopyProbe()], []);
      GainFromVariance(g) == [Some(0.5)]
      && GainFromVarianceCorrected(g) == [Some(0.25)]
      && (Probe.SignalPower(Probe.LockIn(t, ScaledCopyProbe())) != 0.0 ==>
          Gain(t, g).probes[0].gainSquared == Some(0.25))
  {
    var p := ScaledCopyProbe();
    var g := OpticalGain([p], []);
    assert Statistics.IsScaled(0.5, p.signal, p.filtered);
    UnitVariance();
    VarianceGainDisagrees(t, g, 0, 0.5);
  }

  /** Probe of the first configured entry holding the two-sample histories
      of the counterexample. */
  function ScaledCopyProbe(): Probe.Probe
  {
    Probe.Fresh(1, 7, 1000, 210.0, 1000.0).(signal := [1.0, 3.0], filtered := [0.5, 1.5], i := 2)
  }

  lemma UnitVariance()
    ensures Statistics.Variance([1.0, 3.0]) == Some(1.0)
  {
    var xs := [1.0, 3.0];
    assert xs[..1] == [1.0] && [1.0][..0] == [];
    assert Statistics.Sum(xs) == 4.0;
    assert Statistics.Mean(xs) == 2.0;
    assert Statistics.SumSqDev(xs, 2.0) == 2.0;
  }
}
