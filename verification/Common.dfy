/** Small vocabulary shared by every component of the model. */
module Common {

  datatype Option<+T> = None | Some(value: T)

  /** A value, or the error the source raises instead of it. */
  datatype Result<+T, +E> = Ok(value: T) | Err(error: E)

  /** Instants and durations, in microseconds: the resolution of the source's timestamps. */
  type Instant = int

  const SECOND: int := 1_000_000
  const MINUTE: int := 60 * SECOND
  const HOUR: int := 60 * MINUTE
  const DAY: int := 24 * HOUR

  /** What a member may be to a workspace. */
  datatype Role = Admin | Contributor | Advisor

  /** A 128-bit identifier; the database orders identifiers as big-endian numbers. */
  type Uuid = u: int | 0 <= u < 0x1_0000_0000_0000_0000_0000_0000_0000_0000
}
