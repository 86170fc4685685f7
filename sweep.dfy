/** The configuration sweep of `test_rate_constants`: every configuration of
    the option space is generated and run, and a failure is swallowed only
    for configurations that set both a vector width and a loop depth. */
module Sweep {
  import opened Optional
  import opened Specializer

  datatype MemoryOrder = C | F

  /** One point of the option space. */
  datatype Config = Config(
    lang: string,
    width: Option<int>,
    depth: Option<int>,
    ilp: bool,
    unr: Option<int>,
    order: MemoryOrder,
    device: string,
    ratespec: RateSpecialization,
    ratespecKernels: bool)

  /** Python truthiness of an optional integer option: `None` and `0` are false. */
  predicate Truthy(o: Option<int>) { o.Some? && o.value != 0 }

  /** `state['width'] and state['depth']`: the failure of such a configuration
      is an accepted incompatibility; every other failure is re-raised. */
  function ToleratesFailure(c: Config): (tolerated: bool)
    ensures tolerated ==> c.width.Some? && c.depth.Some?
    ensures c.width == None || c.depth == None || c.width == Some(0) || c.depth == Some(0) ==> !tolerated
  {
    Truthy(c.width) && Truthy(c.depth)
  }

  /** The option lists the sweep enumerates. */
  predicate InOptionSpace(c: Config) {
    && c.lang == "opencl"
    && (c.width == Some(4) || c.width == None)
    && (c.depth == Some(4) || c.depth == None)
    && (c.unr == None || c.unr == Some(4))
    && (c.device == "0:0" || c.device == "1")
  }

  /** Within the option space exactly the width-4, depth-4 configurations may
      fail; a configuration with either option unset must succeed. */
  lemma ToleranceInOptionSpace(c: Config)
    requires InOptionSpace(c)
    ensures ToleratesFailure(c) <==> c.width == Some(4) && c.depth == Some(4)
    ensures c.width == None || c.depth == None ==> !ToleratesFailure(c)
  {
  }

  /** One configuration together with whether generating or running its
      kernel failed (an exception, including a failed comparison). */
  datatype Trial = Trial(config: Config, failed: bool)

  /** A failure the sweep re-raises. */
  predicate Fatal(t: Trial) { t.failed && !ToleratesFailure(t.config) }

  /** The sweep either runs to completion or stops by re-raising at a trial. */
  datatype SweepOutcome = Completed | Raised(at: nat)

  /** The loop over the option space with its `try`/`except`: it completes
      exactly when no trial fails fatally, and otherwise stops at the first
      fatal failure. */
  method RunSweep(trials: seq<Trial>) returns (outcome: SweepOutcome)
    ensures outcome.Completed? <==> forall k :: 0 <= k < |trials| ==> !Fatal(trials[k])
    ensures outcome.Raised? ==>
      && outcome.at < |trials|
      && Fatal(trials[outcome.at])
      && forall k :: 0 <= k < outcome.at ==> !Fatal(trials[k])
  {
    var i := 0;
    while i < |trials|
      invariant 0 <= i <= |trials|
      invariant forall k :: 0 <= k < i ==> !Fatal(trials[k])
    {
      if trials[i].failed {
        if !ToleratesFailure(trials[i].config) {
          return Raised(i);
        }
      }
      i := i + 1;
    }
    return Completed;
  }
}
