# Optical-gain probing client, modelled in Dafny

This project models the optical-gain estimator of `pym-optical-gain`. The
client runs inside a sampled feedback loop. On every tick, each of ten
probes adds a small sinusoid to one entry of the mode-coefficient buffer and
records the entry's value after the injection (baseline plus sinusoid);
this record is what the rows below call the injected history. The loop's filtered response comes back as a
residual vector, and each probe records its entry of it. The gain of each
probed mode is then estimated in one of two ways:

- a lock-in (synchronous) correlation of the two histories at the probe's
  frequency;
- the ratio of the two histories' population variances.

A small warm-up gate, the `Delay`, keeps the residual stream empty until
its counter passes a threshold.

Modules, one file each:

- `Wrappers` (`wrappers.dfy`): `Option`. `None` stands for a value the
  source cannot produce as a finite `f64` (a division by zero), or for a
  panic of the node (an index outside a vector).
- `Trig` (`trig.dfy`):
  - `Pi`;
  - the non-zero sampling rate;
  - `Trig`, a pair of uninterpreted sine and cosine functions passed to
    every operation that needs them;
  - `Phase`, the phase 2πfk/fs of sample k.
- `Delay` (`delay.dfy`): the warm-up gate.
- `Statistics` (`statistics.dfy`): sum, mean and population variance, with
  these laws:
  - the computational formula;
  - how the mean and variance scale when every sample is multiplied by `c`;
  - how they shift when `c` is added to every sample.
- `Probe` (`probe.dfy`): one probe. It covers:
  - the index of the probe's entry in the buffer;
  - modulation;
  - the lock-in sums and the squared gain;
  - the variance ratio.
- `ProbingSignals` (`probing_signals.dfy`): the two constant probe tables,
  and how they are read back as (segment, mode, frequency) triples.
- `OpticalGain` (`optical_gain.dfy`): the client. It covers:
  - construction, the tick, reading and writing the buffer, and reading the
    residual;
  - both gain estimators;
  - how the ten probes' indices lay out in the buffer;
  - a run over a sequence of inputs.

Floating-point numbers are modelled as `real`. The stored gains are
squared (see "Left out").

## Model

| member | source | states |
|---|---|---|
| Delay.New | pym-optical-gain/src/lib.rs:34-39 | a new gate has the given threshold, has counted nothing, holds the empty vector and is not active |
| Delay.Read | pym-optical-gain/src/lib.rs:49-54 | every inbound vector is counted; once the count exceeds the threshold the gate holds the inbound vector, otherwise it keeps what it held; once active it stays active |
| Delay.Write | pym-optical-gain/src/lib.rs:61-63 | writing hands out exactly the vector the gate holds (empty until the gate is active) |
| Delay.WarmUpThenEcho | pym-optical-gain/src/lib.rs:44-63 | after n reads from fresh, the count is n; the output is empty while n <= threshold, and is the last vector read once n > threshold |
| Delay.EchoEachRead | pym-optical-gain/src/lib.rs:44-63 | the j-th inbound vector is the output right after it is read whenever j >= threshold; before that the output is empty, so nothing is dropped or delayed further |
| Statistics.Variance | pym-optical-gain/src/lib.rs:91-96 | the variance exists exactly when the history is non-empty (0/0 otherwise) and is never negative |
| Statistics.VarianceIsMeanSquareMinusSquaredMean | pym-optical-gain/src/lib.rs:91-96 | the divide-by-n variance equals mean of squares minus square of the mean, an independent definition |
| Statistics.MeanScale | pym-optical-gain/src/lib.rs:93 | scaling every sample by c scales the mean by c |
| Statistics.VarianceScale | pym-optical-gain/src/lib.rs:91-96 | scaling every sample by c scales the variance by c^2 |
| Statistics.MeanShift | pym-optical-gain/src/lib.rs:93 | adding c to every sample adds c to the mean |
| Statistics.VarianceShift | pym-optical-gain/src/lib.rs:91-96 | adding c to every sample leaves the variance unchanged |
| Probe.Fresh | pym-optical-gain/src/lib.rs:183-191 | a probe built by the client starts with empty histories and a zero counter, so its counter matches its injected history |
| Probe.IndexInjective | pym-optical-gain/src/lib.rs:100-102 | two (segment, mode) pairs with modes below n_mode have the same index only if they are the same pair |
| Probe.IndexBound | pym-optical-gain/src/lib.rs:100-102 | the index of a segment up to s with a mode below n_mode lies below s * n_mode |
| Probe.Id | pym-optical-gain/src/lib.rs:100-102 | the probe's index is (sid - 1) * n_mode + mode; for a mode below n_mode it decodes back to the segment (quotient by n_mode) and the mode (remainder) |
| Probe.Modulate | pym-optical-gain/src/lib.rs:104-110 | the entry gains amplitude * sin(2 pi f i / fs) at the current counter i; the new value is appended to the injected history; the counter advances by one; nothing else changes; the counter keeps matching the history length |
| Probe.InjectedHistory | pym-optical-gain/src/lib.rs:104-110 | from a fresh probe, injected sample k is baseline k plus the sinusoid at the phase of sample k, the phase the lock-in uses at position k; the counter equals the number of samples |
| Probe.GainSquared | pym-optical-gain/src/lib.rs:112-128 | the squared gain d_f/d_s exists exactly when the injected power d_s is non-zero, and is never negative |
| Probe.Gain | pym-optical-gain/src/lib.rs:112-129 | the stored gain becomes the probe's own squared lock-in gain d_f/d_s (none when d_s is zero); nothing else about the probe changes |
| Probe.PowersNonNegative | pym-optical-gain/src/lib.rs:126-127 | both correlation powers are non-negative |
| Probe.LockIn | pym-optical-gain/src/lib.rs:113-125 | the four sums over the whole histories equal the sums over both histories cut to the shorter one's length, so unmatched samples never contribute |
| Probe.CorrelationIsWeightedSum | pym-optical-gain/src/lib.rs:113-125 | each of the four fold results is the plain sum of sample k times cos or sin of the phase 2 pi f k / fs, over the first n samples of the injected or filtered history |
| Probe.CorrelationReadsPrefix | pym-optical-gain/src/lib.rs:113-125 | the sums over n index pairs depend only on the first n samples of each history |
| Probe.ExtraInjectedSamplesIgnored | pym-optical-gain/src/lib.rs:113 | the zip stops at the shorter history: appending to the injected history when it is already at least as long leaves the sums unchanged |
| Probe.ExtraFilteredSamplesIgnored | pym-optical-gain/src/lib.rs:113 | the same for the filtered history |
| Probe.CorrelationOfScaledCopy | pym-optical-gain/src/lib.rs:113-125 | when each contributing filtered sample is c times the injected one, the filtered sums are c times the injected sums |
| Probe.GainOfScaledCopy | pym-optical-gain/src/lib.rs:112-128 | for a filtered history that is c times the injected one, d_f = c^2 d_s, so the squared gain is c^2 whenever d_s is non-zero |
| Probe.PowerIgnoresPhase | pym-optical-gain/src/lib.rs:126-128 | filtered sums that are the injected sums rotated by any angle and scaled by c carry c^2 times the injected power: the estimate ignores phase |
| Probe.SignalVariance | pym-optical-gain/src/lib.rs:130-132 | the injected history's variance exists exactly when the history is non-empty, is never negative, and equals the mean of the squares minus the square of the mean |
| Probe.FilteredVariance | pym-optical-gain/src/lib.rs:133-135 | the same for the filtered history |
| Probe.VarianceRatio | pym-optical-gain/src/lib.rs:136-138 | the ratio is the filtered variance divided by the injected variance; it exists exactly when both histories are non-empty and the injected variance is non-zero, and is never negative |
| Probe.VarianceRatioOfScaledCopy | pym-optical-gain/src/lib.rs:130-138 | for a filtered history that is c times the injected one, the variance ratio is c^2 |
| ProbingSignals.Entries | pym-optical-gain/src/lib.rs:153-161 | the triples are read in order; there are as many as the shortest of the three arrays |
| ProbingSignals.ConfiguredTable | pym-optical-gain/src/lib.rs:10-19 | the outer table followed by the centre table gives the ten listed (segment, mode, frequency) probes |
| ProbingSignals.ConfiguredAt | pym-optical-gain/src/lib.rs:180-182 | entry k of the chained tables is outer entry k for k < 6 and centre entry k - 6 otherwise |
| ProbingSignals.ConfiguredPairsDistinct | pym-optical-gain/src/lib.rs:10-19 | no two configured probes share a (segment, mode) pair; segments are at most 7 and modes at most 460 |
| OpticalGain.New | pym-optical-gain/src/lib.rs:179-197 | ten probes in table order, each carrying its table entry, n_mode, the sampling rate and amplitude 1e-8, with empty histories; the buffer is 7 * n_mode zeros |
| OpticalGain.ModulateEach | pym-optical-gain/src/lib.rs:213-217 | the pass succeeds exactly when every probe's index lies inside the buffer; then every probe has ticked once, the buffer length is unchanged, and entries no probe indexes are unchanged |
| OpticalGain.Update | pym-optical-gain/src/lib.rs:212-217 | the same for the client's tick |
| OpticalGain.ModulateEachDistinct | pym-optical-gain/src/lib.rs:213-217 | with distinct indices each probe's entry becomes its baseline plus the probe's sinusoid, and that is the sample the probe records |
| OpticalGain.WriteModes | pym-optical-gain/src/lib.rs:220-224 | writing hands out the current mode-coefficient buffer, whatever the probes hold |
| OpticalGain.ReadModes | pym-optical-gain/src/lib.rs:226-230 | after reading v, writing the buffer returns v, and the probes are untouched |
| OpticalGain.WriteThenRead | pym-optical-gain/src/lib.rs:220-230 | reading back what was just written leaves the client unchanged |
| OpticalGain.AppendResiduals | pym-optical-gain/src/lib.rs:234-238 | succeeds exactly when every index lies inside the residual; then each probe's filtered history grows by its own residual entry and nothing else changes |
| OpticalGain.ReadResidual | pym-optical-gain/src/lib.rs:232-240 | an empty residual changes nothing; otherwise the read succeeds exactly when every index is in range, and each probe appends residual[id]; the buffer never changes |
| OpticalGain.Gain | pym-optical-gain/src/lib.rs:199-202 | each probe, in place and in order, stores its own squared lock-in gain, exactly as a single probe's gain evaluation would; the buffer and the probe count are unchanged |
| OpticalGain.TwiceRatio | pym-optical-gain/src/lib.rs:206-207 | the square of the variance-based gain is twice the variance ratio, and exists exactly when the ratio does |
| OpticalGain.GainFromVariance | pym-optical-gain/src/lib.rs:203-209 | one value per probe, in probe order: twice that probe's variance ratio |
| OpticalGain.GainFromVarianceCorrected | pym-optical-gain/src/lib.rs:203-209 | one value per probe, in probe order: that probe's variance ratio |
| OpticalGain.NewIdsDistinctAndInBounds | pym-optical-gain/src/lib.rs:179-197 | with n_mode > 460 the ten indices are pairwise distinct and lie inside the buffer |
| OpticalGain.NewIdsInBoundsIff | pym-optical-gain/src/lib.rs:179-197 | all ten indices lie inside the 7 * n_mode buffer exactly when n_mode > 401 |
| OpticalGain.FirstUpdateSucceedsIff | pym-optical-gain/src/lib.rs:212-217 | the first tick of a new client panics exactly when n_mode <= 401 |
| OpticalGain.NewIdsCollideAt453 | pym-optical-gain/src/lib.rs:179-197 | with n_mode = 453 every index is in range, but the outer probe S6#460 and the centre probe S7#7 share index 2725 |
| OpticalGain.NewSynced | pym-optical-gain/src/lib.rs:179-197 | a new client's probes have counted no ticks and hold no samples |
| OpticalGain.RunCounts | pym-optical-gain/src/lib.rs:212-240 | over any run that does not panic, each probe gains one injected sample and one count per tick and one filtered sample per non-empty residual; probes keep their number and their indices |
| OpticalGain.VarianceGainDisagrees | pym-optical-gain/src/lib.rs:203-209 | for a filtered history that is c times the injected one, the variance-based value squares to 2 c^2, while both the corrected value and the lock-in gain square to c^2 |
| OpticalGain.VarianceGainCounterexample | pym-optical-gain/src/lib.rs:203-209 | with injected [1, 3] and filtered [0.5, 1.5], the variance-based value squares to 0.5, while the corrected value and the lock-in gain square to 0.25 |

Helpers without a row compute what the rows above describe. Examples are
`Probe.Index`, `Probe.Correlation` (whose contract is
`Probe.CorrelationIsWeightedSum`), `OpticalGain.Step`/`OpticalGain.Run`,
and the arithmetic step lemmas in `Statistics` and `Probe`.

## Left out

- Probe.GainSquared: keeps d_f/d_s, the square of the source's `sqrt(d_f / d_s)`, because square roots are not modelled. For d_s > 0 the square root is monotone, so the gain is the non-negative root of the value kept.
- OpticalGain.GainFromVariance: keeps `2 * ratio`, the square of the source's `sqrt(2 * ratio)`, for the same reason.
- Sine and cosine are uninterpreted (`Trig`). No trigonometric identity is assumed. So end-to-end phase invariance for a resampled, phase-shifted sinusoid is not modelled. `Probe.PowerIgnoresPhase` states its algebraic core, with cos^2 + sin^2 = 1 as a hypothesis.
- IEEE-754 rounding is not modelled. Division by zero gives NaN or infinity in the source; here it is `None`, with no clamping. This covers:
  - an empty history's variance;
  - a zero injected variance or power;
  - a zero sampling frequency, which `Trig.SamplingRate` excludes.
- A panic is modelled as `None`. The source panics on an out-of-range index in `update` or in the residual read, after the probes before the offending one have already been changed. The node does not survive a panic, so the partly changed state is not modelled.
- Machine integers are unbounded. `usize` overflow of `id` or of `n_mode * 7` is not modelled. The segment byte is restricted to 1..255 because `sid as usize - 1` underflows for 0.
- Left out as plumbing:
  - the `Display` implementations;
  - `Arc` sharing in `Delay`, where the held vector is an immutable value;
  - the `Data`/`UniqueIdentifier` conversions;
  - the empty `Update` of `Delay`;
  - the `Write` results being wrapped in `Some`, which is always present.
- The binaries in `pym-optical-gain/src/main.rs`, `optical-model-pym/src/main.rs` and `optical-model/src/main.rs` are not part of this model. They wire the client, the delay and the optical model into a pipeline.
- Both `gain` and `gain_from_variance` estimate the same mode's gain. On a pure scaled copy, c times the injected history, `gain_from_variance` returns √2·|c| while `gain` returns |c|. The model follows the code (see Findings).

## Findings

| source | as written | input that shows it | evidently intended | confidence | as-written member | corrected member |
|---|---|---|---|---|---|---|
| pym-optical-gain/src/lib.rs:203-209 | `gain_from_variance` returns `sqrt(2 * variance_ratio)` for each probe | injected history [1, 3] with filtered history [0.5, 1.5], a copy scaled by 0.5: the result is sqrt(0.5) ≈ 0.707, while `Probe::gain` gives 0.5 | on a pure scaled copy, agree with the lock-in gain, i.e. `sqrt(variance_ratio)`. The factor 2 that converts a sinusoid's variance to its squared amplitude cancels in a ratio of two variances | low, not executed | OpticalGain.GainFromVariance (exhibited by OpticalGain.VarianceGainCounterexample) | OpticalGain.GainFromVarianceCorrected (agreement proved by OpticalGain.VarianceGainDisagrees) |
