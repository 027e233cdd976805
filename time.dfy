/** The clock, which the model takes as a parameter wherever the application reads it. */
module Time {

  /** Milliseconds since the epoch, as `new Date()` gives them. */
  type Timestamp = nat
}
