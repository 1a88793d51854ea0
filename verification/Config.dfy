/** Limits from benchmark.h and the message sizes the clients ask for. */
module Config {
  const MAX_MSG_SIZE: nat := 128 * 1024
  const MAX_LATENCIES: nat := 1000000

  const MIN_PAYLOAD: nat := 2048
  const MAX_PAYLOAD: nat := 4096  // exclusive
  /** The longest message a client sends. */
  const LONGEST: nat := 4131
}
