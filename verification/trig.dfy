/** The trigonometry the probes rely on, kept abstract: the model reasons over
    reals and never evaluates a sine or a cosine. */
module Trig {

  /** `std::f64::consts::PI`, written as the shortest decimal that rounds to
      the same double. */
  const Pi: real := 3.141592653589793

  /** A sampling frequency the phase can be divided by. */
  type SamplingRate = r: real | r != 0.0 witness 1000.0

  /** Sine and cosine as uninterpreted total functions. */
  datatype Trig = Trig(sin: real -> real, cos: real -> real)

  /** Phase of sample `k` of a tone at `frequency`, sampled at `fs`:
      2 pi f k / fs. */
  function Phase(frequency: real, fs: SamplingRate, k: nat): real
  {
    2.0 * Pi * frequency * (k as real) / fs
  }
}
