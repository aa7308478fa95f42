/** The reporting routes (server/routes/reports.js): the manager dashboard,
    the per-employee performance report and the daily/weekly summary. Each is a
    pure function of the query results it reads; none changes a collection. */
module Reports {
  import opened Common
  import opened TaskModel
  import opened WorkUpdateModel
  import opened AttendanceModel

  // ----- counting and selecting -----

  /** `s.filter(p).length`. */
  function Count<T>(s: seq<T>, p: T -> bool): (n: nat)
    ensures n <= |s|
    decreases |s|
  {
    if s == [] then 0
    else Count(s[..|s| - 1], p) + (if p(s[|s| - 1]) then 1 else 0)
  }

  /** `s.filter(p)`, keeping the order. */
  function Filter<T(==, !new)>(s: seq<T>, p: T -> bool): (r: seq<T>)
    ensures |r| == Count(s, p)
    ensures forall x :: x in r <==> x in s && p(x)
    ensures forall x :: multiset(r)[x] == if p(x) then multiset(s)[x] else 0
    decreases |s|
  {
    if s == [] then []
    else
      var prefix := Filter(s[..|s| - 1], p);
      assert forall x :: x in s <==> x in s[..|s| - 1] || x == s[|s| - 1] by {
        assert s == s[..|s| - 1] + [s[|s| - 1]];
      }
      assert multiset(s) == multiset(s[..|s| - 1]) + multiset{s[|s| - 1]} by {
        assert s == s[..|s| - 1] + [s[|s| - 1]];
      }
      prefix + (if p(s[|s| - 1]) then [s[|s| - 1]] else [])
  }

  /** A weaker condition counts at least as many elements. */
  lemma {:induction false} CountMonotone<T>(s: seq<T>, p: T -> bool, q: T -> bool)
    requires forall x :: p(x) ==> q(x)
    ensures Count(s, p) <= Count(s, q)
    decreases |s|
  {
    if s != [] {
      CountMonotone(s[..|s| - 1], p, q);
    }
  }

  // ----- rates and rounding -----

  /** `whole > 0 ? (part / whole) * 100 : 0`. */
  function Ratio(part: nat, whole: nat): (r: real)
    ensures whole == 0 ==> r == 0.0
    ensures 0 < whole ==> r * whole as real == 100.0 * part as real
    ensures part <= whole ==> 0.0 <= r <= 100.0
  {
    if whole > 0 then (part as real / whole as real) * 100.0 else 0.0
  }

  /** A product `y = x * w` with positive `w` stays above `lo * w` when `lo <= x`. */
  lemma ScaledAbove(lo: real, x: real, w: real, y: real)
    requires lo <= x && 0.0 < w && x * w == y
    ensures lo * w <= y
  {
    assert y - lo * w == (x - lo) * w;
  }

  /** A product `y = x * w` with positive `w` stays below `hi * w` when `x < hi`. */
  lemma ScaledBelow(x: real, hi: real, w: real, y: real)
    requires x < hi && 0.0 < w && x * w == y
    ensures y < hi * w
  {
    assert hi * w - y == (hi - x) * w;
  }

  /** An integer within half a unit of the percentage part/whole brackets
      100 * part between its half-unit neighbours times whole. */
  lemma RoundIsNearestPercent(part: nat, whole: nat, r: real, n: int)
    requires 0 < whole && r * whole as real == 100.0 * part as real
    requires r - 0.5 < n as real <= r + 0.5
    ensures NearestPercent(n, part, whole)
  {
    ScaledAbove(n as real - 0.5, r, whole as real, 100.0 * part as real);
    ScaledBelow(r, n as real + 0.5, whole as real, 100.0 * part as real);
  }

  /** A full ratio is exactly 100. */
  lemma FullRatio(whole: nat)
    requires 0 < whole
    ensures Ratio(whole, whole) == 100.0
  {
    assert whole as real / whole as real == 1.0;
  }

  /** `n` is the whole percentage nearest to 100 * part / whole, halves
      rounded up: 100 * part lies in [(n - 0.5) * whole, (n + 0.5) * whole). */
  predicate NearestPercent(n: int, part: nat, whole: nat)
  {
    (n as real - 0.5) * whole as real <= 100.0 * part as real < (n as real + 0.5) * whole as real
  }

  /** `Math.round` of a guarded ratio: the whole percentage nearest to
      100 * part / whole, halves rounded up. */
  function RoundedRate(part: nat, whole: nat): (n: int)
    ensures whole == 0 ==> n == 0
    ensures 0 < whole ==> NearestPercent(n, part, whole)
    ensures part <= whole ==> 0 <= n <= 100
    ensures part == whole && 0 < whole ==> n == 100
  {
    var r := Ratio(part, whole);
    if whole == 0 then Round(r)
    else
      RoundIsNearestPercent(part, whole, r, Round(r));
      if part <= whole then
        RoundWithin(r, 0, 100);
        if part == whole then FullRatio(whole); Round(r) else Round(r)
      else Round(r)
  }

  // ----- dashboard -----

  predicate IsCompleted(t: Task)
  {
    t.status == TaskStatus.Completed
  }

  predicate IsPending(u: WorkUpdate)
  {
    u.status == UpdateStatus.Pending
  }

  /** The attendance query `{ date: day }`. */
  function DatedOn(day: int): Attendance -> bool
  {
    (a: Attendance) => a.date == day
  }

  /** The attendance query `{ date: day, status: 'active' }`. */
  function ActiveOn(day: int): Attendance -> bool
  {
    (a: Attendance) => a.date == day && a.status == Active
  }

  datatype DashboardStats = DashboardStats(
    activeEmployees: nat,
    totalTasks: nat,
    completedTasks: nat,
    completionRate: int,
    pendingUpdates: nat,
    todaysAttendance: seq<Attendance>)

  /** GET /dashboard: managers only; counts for the day holding `now`. */
  function Dashboard(caller: Caller, tasks: seq<Task>, updates: seq<WorkUpdate>,
                     attendance: seq<Attendance>, now: int): (r: Result<DashboardStats>)
    ensures r.Err? <==> caller.role != Manager
    ensures r.Err? ==> r.failure == AccessDenied
    ensures r.Ok? ==>
      var d := r.value;
      && d.totalTasks == |tasks| && d.completedTasks <= d.totalTasks
      && d.completedTasks == Count(tasks, IsCompleted)
      && d.completionRate == RoundedRate(d.completedTasks, d.totalTasks)
      && 0 <= d.completionRate <= 100
      && (d.totalTasks == 0 ==> d.completionRate == 0)
      && (0 < d.totalTasks == d.completedTasks ==> d.completionRate == 100)
      && d.pendingUpdates == Count(updates, IsPending) && d.pendingUpdates <= |updates|
      && d.todaysAttendance == Filter(attendance, DatedOn(Midnight(now)))
      && (forall a :: a in d.todaysAttendance <==> a in attendance && a.date == Midnight(now))
      && d.activeEmployees == Count(attendance, ActiveOn(Midnight(now)))
      && d.activeEmployees <= |d.todaysAttendance|
  {
    if caller.role != Manager then Err(AccessDenied)
    else
      var today := Midnight(now);
      CountMonotone(attendance, ActiveOn(today), DatedOn(today));
      var completed := Count(tasks, IsCompleted);
      Ok(DashboardStats(
        Count(attendance, ActiveOn(today)),
        |tasks|,
        completed,
        RoundedRate(completed, |tasks|),
        Count(updates, IsPending),
        Filter(attendance, DatedOn(today))))
  }

  // ----- distinct employees -----

  /** `new Set(records.map(a => a.employeeId))`. */
  function EmployeeIds(s: seq<Attendance>): (ids: set<Id>)
    ensures forall e :: e in ids <==> exists i :: 0 <= i < |s| && s[i].employeeId == e
    ensures |ids| <= |s|
    decreases |s|
  {
    if s == [] then {}
    else
      var prefix := EmployeeIds(s[..|s| - 1]);
      assert forall i :: 0 <= i < |s| - 1 ==> s[..|s| - 1][i] == s[i];
      prefix + {s[|s| - 1].employeeId}
  }

  /** Selecting records keeps them unique per employee and day. */
  lemma {:induction false} FilterKeepsUnique(s: seq<Attendance>, p: Attendance -> bool)
    requires UniquePerDay(s)
    ensures UniquePerDay(Filter(s, p))
    decreases |s|
  {
    if s != [] {
      var init := s[..|s| - 1];
      var last := s[|s| - 1];
      assert UniquePerDay(init);
      FilterKeepsUnique(init, p);
      if p(last) {
        var f := Filter(init, p);
        forall j | 0 <= j < |f| ensures !IsRecordFor(f[j], last.employeeId, last.date) {
          assert f[j] in init;
          var i :| 0 <= i < |init| && init[i] == f[j];
          assert s[i] == f[j];
        }
        AppendKeepsUnique(f, last);
      }
    }
  }

  /** Records of one day that are unique per employee and day belong to as many
      distinct employees as there are records. */
  lemma {:induction false} OneRecordPerEmployee(s: seq<Attendance>, day: int)
    requires UniquePerDay(s)
    requires forall i :: 0 <= i < |s| ==> s[i].date == day
    ensures |EmployeeIds(s)| == |s|
    decreases |s|
  {
    if s != [] {
      var init := s[..|s| - 1];
      var last := s[|s| - 1];
      assert UniquePerDay(init);
      OneRecordPerEmployee(init, day);
      forall i | 0 <= i < |init| ensures init[i].employeeId != last.employeeId {
        assert s[i] == init[i] && s[i].date == day && s[|s| - 1].date == day;
      }
      assert last.employeeId !in EmployeeIds(init);
    }
  }

  /** While attendance keeps one record per employee per day, the dashboard's
      active count is a count of distinct employees. */
  lemma ActiveEmployeesAreDistinct(attendance: seq<Attendance>, now: int)
    requires UniquePerDay(attendance)
    ensures Count(attendance, ActiveOn(Midnight(now))) ==
            |EmployeeIds(Filter(attendance, ActiveOn(Midnight(now))))|
  {
    var today := Midnight(now);
    var active := Filter(attendance, ActiveOn(today));
    FilterKeepsUnique(attendance, ActiveOn(today));
    forall i | 0 <= i < |active| ensures active[i].date == today {
      assert active[i] in active;
    }
    OneRecordPerEmployee(active, today);
  }

  // ----- performance -----

  /** The update query `{ employeeId, createdAt: { $gte: start, $lte: end } }`. */
  function ByEmployeeBetween(employeeId: Id, start: int, end: int): WorkUpdate -> bool
  {
    (u: WorkUpdate) => u.employeeId == employeeId && start <= u.createdAt <= end
  }

  predicate IsGeoVerified(u: WorkUpdate)
  {
    u.isGeoVerified
  }

  predicate IsApproved(u: WorkUpdate)
  {
    u.status == Approved
  }

  /** The coarse "on time" test: at least half done. */
  predicate IsOnTime(u: WorkUpdate)
  {
    u.completionPercentage >= 50.0
  }

  /** The unrounded score: the three percentages summed, divided by 60. */
  function RawScore(s: seq<WorkUpdate>): (x: real)
    ensures 0.0 <= x <= 5.0
  {
    CountMonotone(s, IsGeoVerified, _ => true);
    CountMonotone(s, IsApproved, _ => true);
    CountMonotone(s, IsOnTime, _ => true);
    assert Count(s, _ => true) == |s| by { CountAll(s); }
    (Ratio(Count(s, IsGeoVerified), |s|) + Ratio(Count(s, IsApproved), |s|)
     + Ratio(Count(s, IsOnTime), |s|)) / 60.0
  }

  /** Counting with a condition every element meets counts them all. */
  lemma {:induction false} CountAll<T>(s: seq<T>)
    ensures Count(s, _ => true) == |s|
    decreases |s|
  {
    if s != [] {
      CountAll(s[..|s| - 1]);
    }
  }

  /** `Math.min(5, Math.max(0, n))`. */
  function Clamp05(n: int): (c: int)
    ensures 0 <= c <= 5
    ensures 0 <= n <= 5 ==> c == n
    ensures n < 0 ==> c == 0
    ensures 5 < n ==> c == 5
  {
    if n > 5 then 5 else if n < 0 then 0 else n
  }

  /** The clamp never bites: the rounded raw score already lies in [0, 5]. */
  lemma ScoreClampInert(s: seq<WorkUpdate>)
    ensures Clamp05(Round(RawScore(s))) == Round(RawScore(s))
    ensures 0 <= Round(RawScore(s)) <= 5
  {
    RoundWithin(RawScore(s), 0, 5);
  }

  datatype PerformanceReport = PerformanceReport(
    employeeId: Id,
    start: int,
    end: int,
    totalUpdates: nat,
    geoVerifiedUpdates: nat,
    approvedUpdates: nat,
    onTimeUpdates: nat,
    geoVerificationRate: int,
    approvalRate: int,
    onTimeRate: int,
    performanceScore: int,
    updates: seq<WorkUpdate>)

  /** The metrics block of the performance report for the updates `selected`:
      the three counts, their rounded rates and the clamped score. */
  function PerformanceOf(employeeId: Id, start: int, end: int, selected: seq<WorkUpdate>): (p: PerformanceReport)
    ensures p.employeeId == employeeId && p.start == start && p.end == end && p.updates == selected
    ensures p.totalUpdates == |selected|
    ensures p.geoVerifiedUpdates == Count(selected, IsGeoVerified) <= p.totalUpdates
    ensures p.approvedUpdates == Count(selected, IsApproved) <= p.totalUpdates
    ensures p.onTimeUpdates == Count(selected, IsOnTime) <= p.totalUpdates
    ensures p.geoVerificationRate == RoundedRate(p.geoVerifiedUpdates, p.totalUpdates)
    ensures p.approvalRate == RoundedRate(p.approvedUpdates, p.totalUpdates)
    ensures p.onTimeRate == RoundedRate(p.onTimeUpdates, p.totalUpdates)
    ensures 0 <= p.geoVerificationRate <= 100 && 0 <= p.approvalRate <= 100 && 0 <= p.onTimeRate <= 100
    ensures p.performanceScore == Round(RawScore(selected)) && 0 <= p.performanceScore <= 5
    ensures p.totalUpdates == 0 ==>
      && p.geoVerificationRate == 0 && p.approvalRate == 0 && p.onTimeRate == 0
      && p.performanceScore == 0
  {
    var total := |selected|;
    var geo := Count(selected, IsGeoVerified);
    var approved := Count(selected, IsApproved);
    var onTime := Count(selected, IsOnTime);
    ScoreClampInert(selected);
    PerformanceReport(
      employeeId, start, end, total, geo, approved, onTime,
      RoundedRate(geo, total), RoundedRate(approved, total), RoundedRate(onTime, total),
      Clamp05(Round(RawScore(selected))),
      selected)
  }

  /** GET /performance/:employeeId: the employee's updates created in
      [start, end] (by default the last 30 days up to `now`), three rates and
      a 0 to 5 score. No role is required. */
  function Performance(employeeId: Id, startDate: Option<int>, endDate: Option<int>,
                       updates: seq<WorkUpdate>, now: int): (p: PerformanceReport)
    ensures p.employeeId == employeeId
    ensures p.start == if startDate.Some? then startDate.value else now - 30 * MsPerDay
    ensures p.end == if endDate.Some? then endDate.value else now
    ensures p.updates == Filter(updates, ByEmployeeBetween(employeeId, p.start, p.end))
    ensures forall u :: u in p.updates <==>
      u in updates && u.employeeId == employeeId && p.start <= u.createdAt <= p.end
    ensures p.totalUpdates == |p.updates|
    ensures p.geoVerifiedUpdates == Count(p.updates, IsGeoVerified) <= p.totalUpdates
    ensures p.approvedUpdates == Count(p.updates, IsApproved) <= p.totalUpdates
    ensures p.onTimeUpdates == Count(p.updates, IsOnTime) <= p.totalUpdates
    ensures p.geoVerificationRate == RoundedRate(p.geoVerifiedUpdates, p.totalUpdates)
    ensures p.approvalRate == RoundedRate(p.approvedUpdates, p.totalUpdates)
    ensures p.onTimeRate == RoundedRate(p.onTimeUpdates, p.totalUpdates)
    ensures 0 <= p.geoVerificationRate <= 100 && 0 <= p.approvalRate <= 100 && 0 <= p.onTimeRate <= 100
    ensures p.performanceScore == Round(RawScore(p.updates)) && 0 <= p.performanceScore <= 5
    ensures p.totalUpdates == 0 ==>
      && p.geoVerificationRate == 0 && p.approvalRate == 0 && p.onTimeRate == 0
      && p.performanceScore == 0
  {
    var start := if startDate.Some? then startDate.value else now - 30 * MsPerDay;
    var end := if endDate.Some? then endDate.value else now;
    var selected := Filter(updates, ByEmployeeBetween(employeeId, start, end));
    var report := PerformanceOf(employeeId, start, end, selected);
    assert report.updates == selected;
    report
  }

  // ----- summary periods -----

  /** A half-open interval of local time, [start, end). */
  datatype Period = Period(start: int, end: int)
  {
    predicate Contains(t: int)
    {
      start <= t < end
    }
  }

  /** The Monday midnight that starts the week holding `t`: `getDate() - day + 1`,
      or six days back when `t` falls on a Sunday, then `setHours(0, 0, 0, 0)`. */
  function WeekStart(t: int): (m: int)
    ensures m % MsPerDay == 0 && DayOfWeek(m) == 1
    ensures m <= t < m + 7 * MsPerDay
  {
    var day := DayOfWeek(t);
    var offset := if day == 0 then -6 else 1 - day;
    DayNumberOfDayStart(DayNumber(t) + offset);
    (DayNumber(t) + offset) * MsPerDay
  }

  /** A Monday midnight no more than a week before `t` is `WeekStart(t)`. */
  lemma WeekStartUnique(t: int, m: int)
    requires m % MsPerDay == 0 && DayOfWeek(m) == 1
    requires m <= t < m + 7 * MsPerDay
    ensures m == WeekStart(t)
  {
    var w := WeekStart(t);
    var k := m / MsPerDay;
    var kw := w / MsPerDay;
    assert m == k * MsPerDay && w == kw * MsPerDay;
    DayNumberOfDayStart(k);
    DayNumberOfDayStart(kw);
    assert (k + 4) % 7 == 1 && (kw + 4) % 7 == 1;
    assert -7 < k - kw < 7;
    assert (k - kw) % 7 == 0;
  }

  /** The reporting period: the local day of `reportDate` for "daily", and the
      Monday-to-Monday week holding it for any other type. */
  function SummaryPeriod(periodType: string, reportDate: int): (p: Period)
    ensures p.Contains(reportDate) && p.start % MsPerDay == 0
    ensures periodType == "daily" ==> p.start == Midnight(reportDate) && p.end == p.start + MsPerDay
    ensures periodType != "daily" ==> DayOfWeek(p.start) == 1 && p.end == p.start + 7 * MsPerDay
  {
    if periodType == "daily" then
      var start := Midnight(reportDate);
      Period(start, start + MsPerDay)
    else
      var start := WeekStart(reportDate);
      Period(start, start + 7 * MsPerDay)
  }

  /** Every time in a period of either kind has that period. */
  lemma PeriodIsStable(periodType: string, t: int, u: int)
    requires SummaryPeriod(periodType, t).Contains(u)
    ensures SummaryPeriod(periodType, u) == SummaryPeriod(periodType, t)
  {
    var p := SummaryPeriod(periodType, t);
    if periodType == "daily" {
      MidnightUnique(u, p.start);
    } else {
      WeekStartUnique(u, p.start);
    }
  }

  // ----- summary totals -----

  /** `records.reduce((sum, a) => sum + (a.totalHours || 0), 0)`; records
      whose hours are never negative sum to a non-negative total. */
  function TotalHours(s: seq<Attendance>): (h: real)
    ensures (forall i :: 0 <= i < |s| ==> s[i].totalHours >= 0.0) ==> h >= 0.0
    decreases |s|
  {
    if s == [] then 0.0
    else
      assert forall i :: 0 <= i < |s| - 1 ==> s[..|s| - 1][i] == s[i];
      TotalHours(s[..|s| - 1]) + s[|s| - 1].totalHours
  }

  /** `Math.round(x * 100) / 100`: x to two decimals. */
  function RoundCents(x: real): (y: real)
    ensures x - 0.005 < y <= x + 0.005
    ensures (y * 100.0).Floor as real == y * 100.0
  {
    Round(x * 100.0) as real / 100.0
  }

  /** The attendance query `{ date: { $gte: start, $lt: end } }`. */
  function AttendanceIn(p: Period): Attendance -> bool
  {
    (a: Attendance) => p.Contains(a.date)
  }

  /** The update query `{ createdAt: { $gte: start, $lt: end } }`. */
  function CreatedIn(p: Period): WorkUpdate -> bool
  {
    (u: WorkUpdate) => p.Contains(u.createdAt)
  }

  datatype SummaryReport = SummaryReport(
    periodType: string,
    period: Period,
    totalEmployees: nat,
    totalHours: real,
    totalUpdates: nat,
    approvedUpdates: nat,
    approvalRate: int,
    attendance: seq<Attendance>,
    updates: seq<WorkUpdate>)

  /** GET /summary: the period (daily unless another type is given, around
      `date` or else `now`), the attendance and updates inside it, and their
      totals. No role is required. `userExists` tells which employee ids still
      name a user: counting employees reads the populated user of every record
      in the period, and a record whose user is gone has none, so the route
      answers 500. */
  function Summary(periodType: Option<string>, date: Option<int>, attendance: seq<Attendance>,
                   updates: seq<WorkUpdate>, userExists: Id -> bool, now: int): (res: Result<SummaryReport>)
    ensures var period := SummaryPeriod(if periodType.Some? then periodType.value else "daily",
                                        if date.Some? then date.value else now);
      res.Err? <==> exists a :: a in attendance && period.Contains(a.date) && !userExists(a.employeeId)
    ensures res.Err? ==> res.failure == ServerError
    ensures res.Ok? ==>
      var s := res.value;
      && s.periodType == (if periodType.Some? then periodType.value else "daily")
      && s.period == SummaryPeriod(s.periodType, if date.Some? then date.value else now)
      && s.attendance == Filter(attendance, AttendanceIn(s.period))
      && s.updates == Filter(updates, CreatedIn(s.period))
      && (forall a :: a in s.attendance <==> a in attendance && s.period.Contains(a.date))
      && (forall u :: u in s.updates <==> u in updates && s.period.Contains(u.createdAt))
      && s.totalEmployees == |EmployeeIds(s.attendance)| <= |s.attendance|
      && s.totalHours == RoundCents(TotalHours(s.attendance))
      && TotalHours(s.attendance) - 0.005 < s.totalHours <= TotalHours(s.attendance) + 0.005
      && s.totalUpdates == |s.updates|
      && s.approvedUpdates == Count(s.updates, IsApproved) <= s.totalUpdates
      && s.approvalRate == RoundedRate(s.approvedUpdates, s.totalUpdates)
      && 0 <= s.approvalRate <= 100 && (s.totalUpdates == 0 ==> s.approvalRate == 0)
  {
    var kind := if periodType.Some? then periodType.value else "daily";
    var period := SummaryPeriod(kind, if date.Some? then date.value else now);
    var inPeriod := Filter(attendance, AttendanceIn(period));
    if exists a | a in inPeriod :: !userExists(a.employeeId) then Err(ServerError)
    else
      var created := Filter(updates, CreatedIn(period));
      var approved := Count(created, IsApproved);
      Ok(SummaryReport(
        kind, period,
        |EmployeeIds(inPeriod)|,
        RoundCents(TotalHours(inPeriod)),
        |created|, approved,
        RoundedRate(approved, |created|),
        inPeriod, created))
  }

  /** A weekly summary asked for on Wednesday 17 January 2024 (day 19739 since
      the epoch) starts on Monday 15 January (day 19737). */
  lemma WeeklyFromWednesday()
    ensures DayOfWeek(19739 * MsPerDay) == 3
    ensures SummaryPeriod("weekly", 19739 * MsPerDay + 10 * MsPerHour).start == 19737 * MsPerDay
  {
    var t := 19739 * MsPerDay + 10 * MsPerHour;
    DayNumberOfDayStart(19737);
    WeekStartUnique(t, 19737 * MsPerDay);
  }
}
