/** Vocabulary shared by the schemas, the route handlers and the reports:
    identifiers, the authenticated caller, the failures a route answers with,
    local-time arithmetic on integer milliseconds, and JavaScript's Math.round. */
module Common {

  /** A document identifier (a MongoDB ObjectId, abstracted to a number). */
  type Id = nat

  datatype Option<T> = None | Some(value: T)

  /** The role carried by the caller's token; any string other than the two
      the routes test for is `OtherRole`. */
  datatype Role = Manager | Employee | OtherRole

  /** The identity the authentication middleware attaches to a request. */
  datatype Caller = Caller(userId: Id, role: Role)

  /** The non-success answers of the routes. */
  datatype Failure =
    | AccessDenied       // role or ownership check failed
    | NotFound           // the referenced document does not exist
    | AlreadyCheckedIn   // a second check-in on the same day
    | NoActiveCheckIn    // check-out without an open record for today
    | InvalidEmployeeId  // a non-blank assignee that is not an id
    | ServerError        // an exception reached the route's catch block
  {
    /** The HTTP status each failure is answered with. */
    function HttpStatus(): (code: int)
      ensures 400 <= code < 600
      ensures code == 500 <==> this == ServerError
      ensures code == 403 <==> this == AccessDenied
      ensures code == 404 <==> this == NotFound
      ensures code == 400 <==> this.AlreadyCheckedIn? || this.NoActiveCheckIn? || this.InvalidEmployeeId?
    {
      match this
      case AccessDenied => 403
      case NotFound => 404
      case AlreadyCheckedIn => 400
      case NoActiveCheckIn => 400
      case InvalidEmployeeId => 400
      case ServerError => 500
    }
  }

  datatype Result<T> = Ok(value: T) | Err(failure: Failure)

  /** A coordinate pair in decimal degrees. */
  datatype Point = Point(latitude: real, longitude: real)

  const MsPerHour: int := 3_600_000
  const MsPerDay: int := 86_400_000

  /** The number of whole local days since the epoch (day 0 is 1970-01-01). */
  function DayNumber(t: int): int
  {
    t / MsPerDay
  }

  /** `d.setHours(0, 0, 0, 0)`: the start of the local day holding `t`. */
  function Midnight(t: int): (m: int)
    ensures m % MsPerDay == 0
    ensures m <= t < m + MsPerDay
  {
    DayNumber(t) * MsPerDay
  }

  /** `d.getDay()`: 0 is Sunday, 1 Monday, ..., 6 Saturday (1970-01-01 was a Thursday). */
  function DayOfWeek(t: int): (d: int)
    ensures 0 <= d < 7
  {
    (DayNumber(t) + 4) % 7
  }

  /** A midnight is the only day start within one day of `t`. */
  lemma MidnightUnique(t: int, m: int)
    requires m % MsPerDay == 0 && m <= t < m + MsPerDay
    ensures m == Midnight(t)
  {
    var k := m / MsPerDay;
    assert m == k * MsPerDay;
    assert k * MsPerDay <= t < (k + 1) * MsPerDay;
    assert DayNumber(t) == k;
  }

  /** The day number of a midnight is that day's number. */
  lemma DayNumberOfDayStart(k: int)
    ensures DayNumber(k * MsPerDay) == k
  {
  }

  /** `Math.round(x)`: the nearest integer, halves rounded up. */
  function Round(x: real): (n: int)
    ensures x - 0.5 < n as real <= x + 0.5
  {
    (x + 0.5).Floor
  }

  /** Rounding keeps a value inside integer bounds it already lies in. */
  lemma RoundWithin(x: real, lo: int, hi: int)
    requires lo as real <= x <= hi as real
    ensures lo <= Round(x) <= hi
  {
  }
}
