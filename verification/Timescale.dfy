/** Instants and spans are whole microseconds. */
module Timescale {

  const MINUTE: int := 60_000_000
  const MILLISECOND: int := 1_000
}
