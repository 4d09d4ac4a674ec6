/** Values shared by several components: optional values, and the permit and result
    that travel between a worker and the coordinator for one upstream attempt. */
module Attempts {

  datatype Option<+T> = None | Some(value: T)

  /** The breaker epoch an attempt was admitted under, and its probe number if it was a probe. */
  datatype AttemptPermit = AttemptPermit(probe: bool, generation: nat, probeId: nat)

  /** The terminal outcome of one upstream attempt. */
  datatype AttemptResult = AttemptResult(route: nat, endpoint: nat, permit: AttemptPermit, success: bool)
}
