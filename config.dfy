/** The controller's fixed configuration, read once at start-up (scaler.py:9-24). */
module Config {

  /** Name of the service passed to the scale command. */
  const SERVICE_NAME: string := "web"

  /** Bounds on the number of running instances. */
  const MIN_INSTANCES: int := 1
  const MAX_INSTANCES: int := 8

  /** Requests per second above which the controller tries to scale up. */
  const RPS_THRESHOLD: int := 10

  /** Seconds between ticks; also the look-back window of the request count. */
  const CHECK_INTERVAL: nat := 5

  /** Memory each instance is assumed to need, in MB. */
  const MEMORY_USAGE_PER_INSTANCE_MB: int := 120

  /** Simulated memory cap at start-up, in MB. */
  const INITIAL_MEMORY_CAP_MB: nat := 800

  /** The one-shot raise of the cap when a scale-up is short of memory, in MB. */
  const CAP_STEP_MB: nat := 100
}
