/** The bounded channels of the Golden Thread dispatcher. */
module Channels {
  const FAST_CAPACITY := 64
  const TASK_CAPACITY := 256
}
