/** The Attendance schema (server/models/Attendance.js) and the two lifecycle
    steps the attendance route applies to a record: opening it at check-in and
    closing it at check-out. */
module AttendanceModel {
  import opened Common

  datatype AttendanceStatus = Active | Completed

  /** A location as the request body gives it: two numbers, each possibly
      missing, never validated. */
  datatype Coordinates = Coordinates(latitude: Option<real>, longitude: Option<real>)

  datatype Attendance = Attendance(
    employeeId: Id,
    taskId: Option<Id>,
    checkInTime: int,
    checkOutTime: Option<int>,
    checkInLocation: Coordinates,
    checkOutLocation: Option<Coordinates>,
    totalHours: real,
    date: int,
    status: AttendanceStatus,
    createdAt: int,
    updatedAt: int)
  {
    /** The shape every stored record keeps: dated at a midnight, open records
        carry no check-out and no hours, closed records carry the check-out
        time and exactly the hours between check-in and check-out. */
    predicate WellFormed()
    {
      && date % MsPerDay == 0
      && (status == Active ==> checkOutTime.None? && checkOutLocation.None? && totalHours == 0.0)
      && (status == Completed ==>
            checkOutTime.Some? && checkOutLocation.Some?
            && totalHours == HoursBetween(checkInTime, checkOutTime.value))
    }
  }

  /** `(checkOutTime - checkInTime) / (1000 * 60 * 60)`. */
  function HoursBetween(from: int, to: int): (h: real)
    ensures from <= to ==> 0.0 <= h
    ensures h * MsPerHour as real == (to - from) as real
  {
    (to - from) as real / MsPerHour as real
  }

  /** The record a check-in creates: dated at the midnight of `now`, checked in
      at `now`, with the schema's defaults (status active, no hours). */
  function CheckedIn(employeeId: Id, taskId: Option<Id>, location: Coordinates, now: int): (a: Attendance)
    ensures a.WellFormed() && a.status == Active
    ensures a.employeeId == employeeId && a.taskId == taskId && a.checkInLocation == location
    ensures a.date == Midnight(now) && a.checkInTime == now
    ensures a.date <= a.checkInTime < a.date + MsPerDay
    ensures a.createdAt == now && a.updatedAt == now
  {
    Attendance(employeeId, taskId, now, None, location, None, 0.0, Midnight(now), Active, now, now)
  }

  /** The record a check-out leaves: closed at `now` and `location`, with the
      elapsed hours, refreshed by the save hook; nothing else changes. */
  function CheckedOut(a: Attendance, location: Coordinates, now: int): (b: Attendance)
    requires a.WellFormed() && a.status == Active
    ensures b.WellFormed() && b.status == Completed
    ensures b.checkOutTime == Some(now) && b.checkOutLocation == Some(location)
    ensures b.totalHours * MsPerHour as real == (now - a.checkInTime) as real
    ensures b.updatedAt == now
    ensures b.(checkOutTime := None, checkOutLocation := None, totalHours := 0.0,
               status := Active, updatedAt := a.updatedAt) == a
  {
    a.(checkOutTime := Some(now), checkOutLocation := Some(location), status := Completed,
       totalHours := HoursBetween(a.checkInTime, now), updatedAt := now)
  }

  /** The record of `employeeId` for the day starting at `day`. */
  predicate IsRecordFor(a: Attendance, employeeId: Id, day: int)
  {
    a.employeeId == employeeId && a.date == day
  }

  /** Some record exists for this employee and day. */
  predicate HasRecord(s: seq<Attendance>, employeeId: Id, day: int)
  {
    exists i :: 0 <= i < |s| && IsRecordFor(s[i], employeeId, day)
  }

  /** At most one record per employee per day. */
  predicate UniquePerDay(s: seq<Attendance>)
  {
    forall i, j :: 0 <= i < j < |s| && s[i].employeeId == s[j].employeeId ==> s[i].date != s[j].date
  }

  /** Adding a record for a day that has none keeps the records unique per day. */
  lemma AppendKeepsUnique(s: seq<Attendance>, a: Attendance)
    requires UniquePerDay(s) && !HasRecord(s, a.employeeId, a.date)
    ensures UniquePerDay(s + [a])
  {
    var t := s + [a];
    forall i, j | 0 <= i < j < |t| && t[i].employeeId == t[j].employeeId
      ensures t[i].date != t[j].date
    {
      if j == |s| {
        assert !IsRecordFor(s[i], a.employeeId, a.date);
      }
    }
  }

  /** Replacing a record by one for the same employee and day keeps the records
      unique per day. */
  lemma ReplaceKeepsUnique(s: seq<Attendance>, k: int, a: Attendance)
    requires UniquePerDay(s) && 0 <= k < |s|
    requires a.employeeId == s[k].employeeId && a.date == s[k].date
    ensures UniquePerDay(s[k := a])
  {
  }
}
