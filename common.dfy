/** What the FastAPI handlers of the backend raise, and how time is measured. */
module Common {

  /** A raised `HTTPException(status_code, detail)`, or any other uncaught Python
      exception, which FastAPI answers with status 500. */
  datatype Failure =
    | HttpError(status: int, detail: string)
    | Unhandled(exception: string)

  /** A `datetime.utcnow()` reading, in microseconds (the resolution of `datetime`). */
  type Instant = int

  const SECOND: int := 1_000_000
  const MINUTE: int := 60 * SECOND
  const MILLISECOND: int := 1_000

  /** The instant a BSON datetime keeps when MongoDB stores `t`: milliseconds,
      the rest truncated toward the past. */
  function Stored(t: Instant): (s: Instant)
    ensures s <= t < s + MILLISECOND && s % MILLISECOND == 0
  {
    t / MILLISECOND * MILLISECOND
  }
}
