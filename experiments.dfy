/** Values shared by every revision of the simulator: optional values, the
    record of one binomial experiment (capabilities/experimentgen.py) and the
    errors the Python code raises. */
module Experiments {

  datatype Option<+T> = None | Some(value: T)

  /** `BinomialExperiment(k, n)`: k successes in n trials. */
  datatype BinomialExperiment = BinomialExperiment(k: nat, n: nat)

  /** The exceptions the modelled code raises, as values. */
  datatype Error = ValueError | NotImplementedError | ZeroDivisionError

  /** Outcome of an operation that either completes or raises. */
  datatype Outcome = Pass | Fail(error: Error)

  /** A value, or the error raised instead of producing it. */
  datatype Result<+T> = Success(value: T) | Failure(error: Error)

  /** `ExperimentGen.experiment(n, epsilon)`: the binomial sampler is not
      modelled; its draw `k` (the number of successes) is an input. */
  function Experiment(n: nat, k: nat): (e: BinomialExperiment)
    requires k <= n
    ensures e.n == n && e.k <= e.n
  {
    BinomialExperiment(k, n)
  }
}
