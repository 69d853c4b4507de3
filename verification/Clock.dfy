/** Times and durations, in nanoseconds. */
module Clock {
  type Time = int
}
