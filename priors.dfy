/** The prior generators of sim/priors_func.py. */
module Priors {

  /** `UNIFORM_LOW`: the smallest prior a uniform draw can give, so that no
      scientist starts at credence 0. */
  const UniformLow: real := 0.001

  /** `ConfidentStartConfig`: the share of scientists that start confident,
      and how confident they are. */
  datatype ConfidentStartConfig = ConfidentStartConfig(minPropConfident: real, highCredence: real)

  /** A `ConfidentStartConfig` with its default `high_credence`, which lies
      above the 0.99 cut that counts a scientist as confident. */
  function DefaultConfidentStart(minPropConfident: real): (c: ConfidentStartConfig)
    ensures c.minPropConfident == minPropConfident
    ensures c.highCredence > 0.99
  {
    ConfidentStartConfig(minPropConfident, 0.991)
  }

  /** `uniform_priors(pop, rng)`: `rng.uniform(low=UNIFORM_LOW, size=pop)`.
      The generator is replaced by its standard uniform draws `samples`,
      each in [0, 1), which the call scales to [UNIFORM_LOW, 1). */
  function UniformPriors(pop: nat, samples: seq<real>): (r: seq<real>)
    requires |samples| == pop
    requires forall i | 0 <= i < pop :: 0.0 <= samples[i] < 1.0
    ensures |r| == pop
    ensures forall i | 0 <= i < pop :: UniformLow <= r[i] < 1.0
  {
    seq(pop, i requires 0 <= i < pop => UniformLow + (1.0 - UniformLow) * samples[i])
  }

  /** `confident_priors(pop, rng)`: `[.991] * pop`.  The generator argument
      is ignored, so it is not a parameter here. */
  function ConfidentPriors(pop: nat): (r: seq<real>)
    ensures |r| == pop
    ensures forall i | 0 <= i < pop :: r[i] > 0.99 && 0.0 <= r[i] <= 1.0
  {
    seq(pop, _ => 0.991)
  }
}
