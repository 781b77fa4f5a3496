/** Points in time and the units the code counts them in. */
module Clock {

  /** Milliseconds. */
  type Time = int

  const MINUTE: int := 60000
}
