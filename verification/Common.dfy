// What several modules share: optional values, durations in nanoseconds, the channel limit
// of a connection.
module Common {

  datatype Option<T> = None | Some(value: T)

  const MILLISECOND := 1_000_000
  const SECOND := 1000 * MILLISECOND

  const TWO_64: int := 0x1_0000_0000_0000_0000

  // maxChannelsPerConn of internal/upstream/pool.go.
  const MAX_CHANNELS_PER_CONN := 4

  function Bit(b: bool): nat {
    if b then 1 else 0
  }
}
