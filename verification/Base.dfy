/** Values shared by every engine: optional values, identifiers and instants. */
module Base {

  datatype Option<+T> = None | Some(value: T)

  /** Database identifiers. Only equality and a total order (the source's `localeCompare`) are used. */
  type Id = nat

  /** Milliseconds since the epoch. */
  type Instant = int

  const MINUTE: int := 60_000

  /** `Math.floor((a - b) / 60_000)`: Dafny's division by a positive number rounds down, as floor does. */
  function DiffMinutes(a: Instant, b: Instant): int {
    (a - b) / MINUTE
  }

  function AddMinutes(t: Instant, minutes: int): Instant {
    t + minutes * MINUTE
  }

  /** The half-open overlap test on two windows. */
  predicate WindowsOverlap(aStart: Instant, aEnd: Instant, bStart: Instant, bEnd: Instant) {
    aStart < bEnd && bStart < aEnd
  }

  function Max(a: int, b: int): int {
    if a < b then b else a
  }

  function Min(a: int, b: int): int {
    if b < a then b else a
  }

  function Clamp(value: real, lo: real, hi: real): real {
    var raised := if value < lo then lo else value;
    if hi < raised then hi else raised
  }
}
