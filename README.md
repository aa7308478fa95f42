# Geotracking server core, modelled in Dafny

This project models the server-side business logic of a field-work tracking
service. Managers create location-bound tasks and assign them to employees.
Employees check in and out each day and submit progress reports ("work
updates") from the field. Each report is checked against the task's geofence
when it is submitted. Reports give managers a dashboard, per-employee
performance scores and daily or weekly summaries.

The model has one module per concern:

- `Common` (`common.dfy`): ids, the caller `(userId, role)`, the failures a
  route answers with and their HTTP codes, local midnight and day of week on
  integer milliseconds, and `Math.round`.
- `Geo` (`geo.dfy`): the fence test `dist(p, centre) <= radius`. The distance
  function is a parameter.
- `WorkUpdateModel`, `AttendanceModel` and `TaskModel` (`work_update.dfy`,
  `attendance.dfy`, `task.dfy`): the records, their enums, validation,
  defaults and the save hook's `updatedAt`, plus the record-level steps the
  routes apply.
- `Store` (`store.dfy`): a `Database` class with the task and update maps, the
  attendance records and the id counter. Its `Valid()` is the store invariant
  every route keeps:
  - every stored update passed its schema;
  - every attendance record is well formed (dated at a midnight, hours
    consistent with its times);
  - there is at most one attendance record per employee per day.
- `TaskRoutes` (`tasks.dfy`) and `UpdateRoutes` (`updates.dfy`): the route
  handlers, as methods that take the caller, the request fields and `now`, and
  modify the database. Each states every failure case and the whole new state.
  A failure leaves the database unchanged.
- `Reports` (`reports.dfy`): pure functions over query results.

Behaviour of the code a reader might not expect:

- A submission for a task that exists but is assigned to someone else answers
  not-found, not an authorisation error. Both cases are one query.
- A second check-in on the same day answers 400 even when the day's record is
  already completed.
- The decision route accepts any status in the enum, including `pending`. A
  status outside the enum makes the save fail (500) and nothing changes.
- Creating a task checks no title, description or radius. The Task schema file
  is not part of this model.
- A non-manager updating an unassigned task dereferences a missing
  `assignedTo`. The route answers 500, not 403.
- Any summary type other than `daily` gives the weekly period.
- An attendance request whose type is neither `checkin` nor `checkout` re-saves
  today's record (refreshing `updatedAt`). Without a record it fails with 500.
- The performance and summary reports check no role.

## Model

| member | source | states |
|---|---|---|
| `Common.Midnight` | server/routes/updates.js:132-133 | the day start is a multiple of a day and lies within one day at or before `t` |
| `Common.MidnightUnique` | server/routes/reports.js:130-131 | that day start is the only midnight within a day at or before `t` |
| `Common.Round` | server/routes/reports.js:59 | `Math.round` lands within half a unit of its argument |
| `Common.DayOfWeek` | server/routes/reports.js:136 | `getDay()` is a weekday number from 0 (Sunday) to 6 |
| `Common.Failure.HttpStatus` | server/routes/updates.js:49-170 | access denied answers 403, not found 404, the three request errors (already checked in, no active check-in, invalid employee id) 400, and a server error 500, each code for exactly those failures |
| `Common.RoundWithin` | server/routes/reports.js:111 | rounding a value inside integer bounds stays inside them |
| `Geo.WithinFence` | server/utils/geo.js:18-21 | a point passes the fence test exactly when its distance from the centre is at most the radius |
| `Geo.WithinFenceMonotone` | server/utils/geo.js:18-21 | a point inside a fence stays inside any wider fence |
| `WorkUpdateModel.ParseStatus` | server/models/WorkUpdate.js:38-42 | a status string is accepted exactly when it is one of the three enum names |
| `WorkUpdateModel.StatusRoundTrip` | server/models/WorkUpdate.js:38-42 | every status's name reads back as that status |
| `WorkUpdateModel.NewWorkUpdate` | server/models/WorkUpdate.js:3-61 | creation succeeds exactly when description, percentage in [0,100], latitude and longitude are present; the record is valid, `pending`, unverified and without images by default, stamped `now` |
| `WorkUpdateModel.Decided` | server/routes/updates.js:110-115 | sets the status, replaces the comment only with a non-empty one, refreshes `updatedAt`, changes nothing else and keeps validity |
| `WorkUpdateModel.DecisionKeepsEvidence` | server/routes/updates.js:110-113 | a decision keeps task, author, report, location, geo flag, images and creation times |
| `AttendanceModel.HoursBetween` | server/routes/updates.js:161-163 | hours times 3,600,000 equal the elapsed milliseconds, and are non-negative for a forward interval |
| `AttendanceModel.CheckedIn` | server/routes/updates.js:145-151 | the new record is well formed and active, dated at the midnight of `now` and checked in at `now` |
| `AttendanceModel.CheckedOut` | server/routes/updates.js:157-163 | the closed record is well formed and completed, with check-out time and place and the elapsed hours; nothing else changes |
| `AttendanceModel.AppendKeepsUnique` | server/routes/updates.js:140-151 | adding a record for a day with none keeps one record per employee per day |
| `AttendanceModel.ReplaceKeepsUnique` | server/routes/updates.js:152-166 | rewriting a record in place keeps one record per employee per day |
| `TaskModel.RecordProgress` | server/routes/updates.js:80-84 | the task takes the percentage; exactly 100 makes it `completed`, any other value leaves the status; nothing else changes |
| `TaskModel.ProgressStatusTransitions` | server/routes/updates.js:80-84 | progress never leaves `completed` and never enters `in_progress` |
| `TaskModel.Put` | server/routes/tasks.js:97 | `task[key] = value` writes that field and leaves every other field |
| `TaskModel.FieldsDetermineTask` | server/routes/tasks.js:94-99 | two tasks with equal fields are equal |
| `TaskRoutes.VisibleTasks` | server/routes/tasks.js:27-31 | a manager sees every task; anyone else sees exactly the tasks assigned to them |
| `TaskRoutes.NormaliseAssignee` | server/routes/tasks.js:49-58 | absent, non-string and blank assignees give an unassigned task; a non-blank string that does not parse fails with 400; otherwise the parsed id |
| `TaskRoutes.NewTask` | server/routes/tasks.js:60-69 | the stored task carries the request's fields, the caller as `assignedBy`, the normalised assignee, status `pending` and completion 0 |
| `TaskRoutes.CreateTask` | server/routes/tasks.js:40-80 | non-managers are refused and a bad assignee fails, both with nothing changed; otherwise exactly one fresh task is added, assigned by the caller |
| `TaskRoutes.ApplyBody` | server/routes/tasks.js:95-99 | the body's defined values are assigned in order; a field the body never defines keeps its value |
| `TaskRoutes.LastAssigned` | server/routes/tasks.js:94-99 | the value of a defined entry for the field with no later defined entry for it, or none exactly when the body defines no value for it |
| `TaskRoutes.ApplyBodyField` | server/routes/tasks.js:94-99 | after an update each field holds the body's last defined value for it, or its old value when the body defines none |
| `TaskRoutes.ApplyBodyNoDefined` | server/routes/tasks.js:94-99 | a body without defined values leaves the task unchanged |
| `TaskRoutes.AssignKeys` | server/routes/tasks.js:94-99 | the key-by-key loop computes the body applied in order |
| `TaskRoutes.UpdateTask` | server/routes/tasks.js:83-107 | unknown id gives not-found; a non-manager on an unassigned task gives 500 and on another's task 403, all with nothing changed; otherwise only that task changes, to the body applied to it |
| `TaskRoutes.DeleteTask` | server/routes/tasks.js:110-126 | the role is checked before the id; a successful delete removes only that task and leaves every update |
| `UpdateRoutes.VisibleUpdates` | server/routes/updates.js:25-43 | a manager sees every update; anyone else sees exactly their own |
| `UpdateRoutes.GeoVerified` | server/routes/updates.js:61-65 | the submitted point passes the task's fence test; a missing coordinate never passes |
| `UpdateRoutes.SubmittedUpdate` | server/routes/updates.js:61-75 | the schema accepts the submission exactly when description, percentage in [0,100], latitude and longitude are present; the new update is valid, `pending`, by the caller for the task, stamped `now`, and its geo flag is the fence test of its location |
| `UpdateRoutes.SubmitUpdate` | server/routes/updates.js:46-94 | non-employees are refused; a task that is missing or not the caller's gives not-found; a schema failure gives 500; all three change nothing; otherwise one fresh `pending` update by the caller, whose geo flag is the fence test of its location against the task's fence, and the task takes its percentage |
| `UpdateRoutes.DecideUpdate` | server/routes/updates.js:97-121 | manager only; unknown id gives not-found and a status outside the enum gives 500, both with nothing changed; otherwise only that update changes, by `Decided`, and decided updates can be re-decided |
| `UpdateRoutes.FindRecord` | server/routes/updates.js:135-138 | returns the first record for the employee and day, or -1 exactly when there is none |
| `UpdateRoutes.RecordIsUnique` | server/routes/updates.js:135-138 | with one record per employee per day, two records for the same employee and day are the same record |
| `UpdateRoutes.RecordAttendance` | server/routes/updates.js:124-172 | employees only; a check-in fails while any record exists for today and otherwise appends one; a check-out fails without an active record and otherwise closes it in place; other types re-save today's record or fail; completed records stay completed |
| `Reports.Count` | server/routes/reports.js:85-91 | a filtered count never exceeds the number of records |
| `Reports.Filter` | server/routes/reports.js:86-88 | the selection holds exactly the records meeting the condition, as many as `Count` gives, each as many times as in the input |
| `Reports.CountMonotone` | server/routes/reports.js:37-53 | a weaker condition counts at least as many records |
| `Reports.Ratio` | server/routes/reports.js:93-95 | the guarded percentage is 0 for no records, otherwise part/whole × 100, and lies in [0,100] |
| `Reports.RoundedRate` | server/routes/reports.js:45-59 | the rounded rate `n` is the whole percentage nearest to 100 × part / whole, halves rounded up: (n − ½) × whole ≤ 100 × part < (n + ½) × whole; it is 0 for no records, lies in [0,100], and is 100 when all records qualify |
| `Reports.Dashboard` | server/routes/reports.js:25-67 | refused exactly for non-managers; counts active records dated today, completed tasks and pending updates; the completion rate is the rounded rate of completed over all tasks, in [0,100] and 0 without tasks; today's attendance is the `Filter` of the records by today's date, so exactly the records dated today, each as often as stored |
| `Reports.EmployeeIds` | server/routes/reports.js:155 | the set holds exactly the employee ids of the records, and is no larger than the record list |
| `Reports.FilterKeepsUnique` | server/routes/reports.js:37-40 | selecting records keeps one record per employee per day |
| `Reports.OneRecordPerEmployee` | server/routes/reports.js:37-40 | unique records of one day belong to as many distinct employees as there are records |
| `Reports.ActiveEmployeesAreDistinct` | server/routes/reports.js:37-40 | while attendance is unique per day, the active count equals the number of distinct active employees |
| `Reports.RawScore` | server/routes/reports.js:98 | the unrounded score of any selection lies in [0,5] |
| `Reports.CountAll` | server/routes/reports.js:85 | counting with an always-true condition gives the number of records |
| `Reports.Clamp05` | server/routes/reports.js:111 | the clamp lies in [0,5], keeps any value already there, and sends values below to 0 and above to 5 |
| `Reports.ScoreClampInert` | server/routes/reports.js:111 | the clamp to [0,5] never changes the rounded score |
| `Reports.PerformanceOf` | server/routes/reports.js:85-111 | for a given selection: the total, the geo-verified, approved and at-least-half-done counts, each rate the rounded rate of its count over the total, the score the rounded raw score in [0,5], and all zero without updates |
| `Reports.Performance` | server/routes/reports.js:70-119 | the selection is the `Filter` of the updates by employee and closed period, so exactly the employee's updates created in the closed period (default: 30 days before `now` to `now`); each count is at most the total; each rate is the rounded rate of its count over the total, in [0,100]; the score is the rounded raw score in [0,5]; no updates give all rates and the score 0 |
| `Reports.WeekStart` | server/routes/reports.js:135-141 | the week start is a Monday midnight at most seven days before, and not after, the reference time |
| `Reports.WeekStartUnique` | server/routes/reports.js:135-141 | it is the only Monday midnight within the seven days up to the reference time |
| `Reports.SummaryPeriod` | server/routes/reports.js:129-142 | the period contains the reference time and starts at a midnight; daily periods last one day from that day's midnight; weekly periods start on a Monday and last seven days |
| `Reports.PeriodIsStable` | server/routes/reports.js:129-142 | every time inside a period yields that same period |
| `Reports.TotalHours` | server/routes/reports.js:156 | the hours summed over the records; records without negative hours sum to a non-negative total |
| `Reports.RoundCents` | server/routes/reports.js:165 | the total is rounded to a whole number of cents within half a cent |
| `Reports.Summary` | server/routes/reports.js:122-177 | fails with 500 exactly when a record in the period belongs to an employee whose user is gone; otherwise type defaults to daily; the attendance and updates are the `Filter` of each collection by the period, so exactly the records in the period, each as often as stored; distinct employees are at most the records; hours are the exact sum rounded to cents, within half a cent; the approval rate is the rounded rate of approved over all updates, in [0,100] and 0 without updates |
| `Reports.WeeklyFromWednesday` | server/routes/reports.js:135-141 | a weekly summary for Wednesday 17 January 2024 starts on Monday 15 January |

## Left out

- The haversine distance of server/utils/geo.js is floating-point trigonometry. It is a parameter of the submission instead. Fence membership is `dist(p, centre) <= radius`.
- Token verification by the authentication middleware calls a crypto library. The caller `(userId, role)` is an input.
- Persistence is not modelled: the `createdAt` sort of the listings and the JSON responses. Collections are maps, and attendance is a sequence.
- `populate` is not modelled except where its result is dereferenced. The summary reads the populated user of every attendance record in the period (server/routes/reports.js:147, 155), so a record whose user is gone makes it fail with 500; `Summary` takes the set of existing users as a predicate `userExists`. Elsewhere a missing referenced document only shows up as a null in the response.
- NewTask: the defaults `pending` status and 0 completion come from the Task schema, which is not part of this model; they are the values the routes rely on elsewhere. A create request without a priority stores an undefined priority, which the schema would default; the model takes the priority as always given.
- ObjectId format checking is a parameter `parseId` of task creation.
- The Task schema file is not part of this model. Its validation on save and its own timestamps are not modelled. The task save after a submission is taken to succeed, so the non-atomic window between the two saves cannot be reached in the model.
- Mongoose casting and strict mode on task update are not modelled. A body key is one of the task's fields, with a value of that field's type.
- Concurrent check-ins for the same day are not modelled. The routes run one at a time.
- Time zones and daylight saving are not modelled. Times are local integer milliseconds, and 1970-01-01 is a Thursday.
- The attendance route reads the clock twice, for `today` and for `checkInTime`. Both are the single `now`.
- Unparseable date strings in report queries are not modelled. A given date is already in milliseconds.
- Floating point is not modelled: percentages, coordinates, hours and rates are exact reals.
- A decision request without a status, and non-string comments, are not modelled. The status is a string and the comment is an optional string.
- A submission without a task id is not modelled.
