/** The work-update and attendance routes (server/routes/updates.js): the
    role-filtered listing, submission with the geofence check and progress
    propagation, the manager's decision, and daily check-in / check-out. */
module UpdateRoutes {
  import opened Common
  import opened Geo
  import opened TaskModel
  import opened WorkUpdateModel
  import opened AttendanceModel
  import opened Store

  /** GET /: a manager sees every update, anyone else only their own. */
  function VisibleUpdates(updates: map<Id, WorkUpdate>, caller: Caller): (r: map<Id, WorkUpdate>)
    ensures forall id :: id in r <==>
      id in updates && (caller.role == Manager || updates[id].employeeId == caller.userId)
    ensures forall id :: id in r ==> r[id] == updates[id]
  {
    if caller.role == Manager then updates
    else map id | id in updates && updates[id].employeeId == caller.userId :: updates[id]
  }

  /** The body of a submission; every field but the task id may be missing. */
  datatype SubmitBody = SubmitBody(
    taskId: Id,
    description: Option<string>,
    completionPercentage: Option<real>,
    latitude: Option<real>,
    longitude: Option<real>,
    proofImages: Option<seq<string>>)

  /** `Task.findOne({ _id: taskId, assignedTo: userId })` finds a task. */
  predicate AssignedTo(tasks: map<Id, Task>, taskId: Id, employeeId: Id)
  {
    taskId in tasks && tasks[taskId].assignedTo == Some(employeeId)
  }

  /** The geofence test of the submitted coordinates against the task's fence;
      a missing coordinate makes the distance NaN, which no fence contains. */
  predicate GeoVerified(dist: Distance, body: SubmitBody, task: Task)
  {
    && body.latitude.Some? && body.longitude.Some?
    && WithinFence(dist, Point(body.latitude.value, body.longitude.value), task.location, task.geoFenceRadius)
  }

  /** The update a submission would save for `task`, or None when the schema
      refuses it. */
  function SubmittedUpdate(dist: Distance, body: SubmitBody, task: Task, employeeId: Id, now: int): (r: Option<WorkUpdate>)
    ensures r.Some? <==>
      && body.description.Some? && body.description.value != ""
      && body.completionPercentage.Some? && 0.0 <= body.completionPercentage.value <= 100.0
      && body.latitude.Some? && body.longitude.Some?
    ensures r.Some? ==>
      && r.value.Valid() && r.value.status == UpdateStatus.Pending
      && r.value.taskId == body.taskId && r.value.employeeId == employeeId
      && r.value.location == Point(body.latitude.value, body.longitude.value)
      && r.value.isGeoVerified == WithinFence(dist, r.value.location, task.location, task.geoFenceRadius)
      && r.value.createdAt == now
  {
    NewWorkUpdate(body.taskId, employeeId, body.description, body.completionPercentage,
                  body.latitude, body.longitude, Some(GeoVerified(dist, body, task)),
                  body.proofImages, now)
  }

  /** Every update that was stored is still stored, with the same evidence. */
  ghost predicate EvidenceKept(before: map<Id, WorkUpdate>, after: map<Id, WorkUpdate>)
  {
    forall id :: id in before ==> id in after && SameEvidence(before[id], after[id])
  }

  /** POST /: employees only; the task must exist and be assigned to the
      caller. The update is saved first (its schema may refuse it), then the
      task takes the reported percentage. */
  method SubmitUpdate(db: Database, caller: Caller, body: SubmitBody, dist: Distance, now: int)
    returns (r: Result<Id>)
    requires db.Valid()
    modifies db
    ensures db.Valid()
    ensures db.attendance == old(db.attendance)
    ensures EvidenceKept(old(db.updates), db.updates)
    ensures caller.role != Employee ==> r == Err(AccessDenied) && unchanged(db)
    ensures caller.role == Employee && !AssignedTo(old(db.tasks), body.taskId, caller.userId) ==>
      r == Err(NotFound) && unchanged(db)
    ensures caller.role == Employee && AssignedTo(old(db.tasks), body.taskId, caller.userId)
            && SubmittedUpdate(dist, body, old(db.tasks)[body.taskId], caller.userId, now).None? ==>
      r == Err(ServerError) && unchanged(db)
    ensures r.Ok? ==>
      && caller.role == Employee && AssignedTo(old(db.tasks), body.taskId, caller.userId)
      && r.value == old(db.nextId) && r.value !in old(db.updates)
      && db.updates == old(db.updates)[r.value :=
           SubmittedUpdate(dist, body, old(db.tasks)[body.taskId], caller.userId, now).value]
      && db.tasks == old(db.tasks)[body.taskId :=
           RecordProgress(old(db.tasks)[body.taskId], body.completionPercentage.value)]
    ensures r.Ok? ==>
      var u := db.updates[r.value];
      var task := old(db.tasks)[body.taskId];
      && u.employeeId == caller.userId && u.taskId == body.taskId && u.status == UpdateStatus.Pending
      && u.isGeoVerified == WithinFence(dist, u.location, task.location, task.geoFenceRadius)
      && db.tasks[body.taskId].completionPercentage == u.completionPercentage
    ensures caller.role == Employee && AssignedTo(old(db.tasks), body.taskId, caller.userId)
            && SubmittedUpdate(dist, body, old(db.tasks)[body.taskId], caller.userId, now).Some? ==>
      r.Ok?
  {
    if caller.role != Employee {
      return Err(AccessDenied);
    }
    if !(body.taskId in db.tasks && db.tasks[body.taskId].assignedTo == Some(caller.userId)) {
      return Err(NotFound);
    }
    var task := db.tasks[body.taskId];
    var update := NewWorkUpdate(body.taskId, caller.userId, body.description, body.completionPercentage,
                                body.latitude, body.longitude, Some(GeoVerified(dist, body, task)),
                                body.proofImages, now);
    if update.None? {
      return Err(ServerError);
    }
    var id := db.FreshId();
    db.updates := db.updates[id := update.value];
    var percentage := update.value.completionPercentage;
    task := task.(completionPercentage := percentage);
    if percentage == 100.0 {
      task := task.(status := TaskStatus.Completed);
    }
    db.tasks := db.tasks[body.taskId := task];
    r := Ok(id);
  }

  /** PUT /:id/status: managers only; the update must exist and the new status
      must be in the enum (otherwise the save fails). A decided update may be
      decided again. */
  method DecideUpdate(db: Database, caller: Caller, id: Id, status: string, managerComments: Option<string>,
                      now: int) returns (r: Result<WorkUpdate>)
    requires db.Valid()
    modifies db
    ensures db.Valid()
    ensures db.tasks == old(db.tasks) && db.attendance == old(db.attendance) && db.nextId == old(db.nextId)
    ensures EvidenceKept(old(db.updates), db.updates)
    ensures caller.role != Manager ==> r == Err(AccessDenied) && unchanged(db)
    ensures caller.role == Manager && id !in old(db.updates) ==> r == Err(NotFound) && unchanged(db)
    ensures caller.role == Manager && id in old(db.updates) && ParseStatus(status).None? ==>
      r == Err(ServerError) && unchanged(db)
    ensures caller.role == Manager && id in old(db.updates) && ParseStatus(status).Some? ==>
      && r == Ok(Decided(old(db.updates)[id], ParseStatus(status).value, managerComments, now))
      && db.updates == old(db.updates)[id := r.value]
  {
    if caller.role != Manager {
      return Err(AccessDenied);
    }
    if id !in db.updates {
      return Err(NotFound);
    }
    var parsed := ParseStatus(status);
    if parsed.None? {
      return Err(ServerError);
    }
    // The fields are set on the stored document one by one, as `Decided` describes.
    var update := db.updates[id];
    update := update.(status := parsed.value);
    if managerComments.Some? && managerComments.value != "" {
      update := update.(managerComments := managerComments);
    }
    update := update.(updatedAt := now);
    DecisionKeepsEvidence(db.updates[id], parsed.value, managerComments, now);
    db.updates := db.updates[id := update];
    r := Ok(update);
  }

  /** `Attendance.findOne({ employeeId, date: day })`: the index of the first
      record for this employee and day, or -1 when there is none. */
  method FindRecord(records: seq<Attendance>, employeeId: Id, day: int) returns (i: int)
    ensures -1 <= i < |records|
    ensures i >= 0 ==> IsRecordFor(records[i], employeeId, day)
    ensures i >= 0 ==> forall j :: 0 <= j < i ==> !IsRecordFor(records[j], employeeId, day)
    ensures i < 0 <==> !HasRecord(records, employeeId, day)
  {
    i := 0;
    while i < |records|
      invariant 0 <= i <= |records|
      invariant forall j :: 0 <= j < i ==> !IsRecordFor(records[j], employeeId, day)
    {
      if records[i].employeeId == employeeId && records[i].date == day {
        return;
      }
      i := i + 1;
    }
    i := -1;
  }

  /** With one record per employee per day, the record found is the only one. */
  lemma RecordIsUnique(records: seq<Attendance>, i: int, j: int, employeeId: Id, day: int)
    requires UniquePerDay(records)
    requires 0 <= i < |records| && IsRecordFor(records[i], employeeId, day)
    requires 0 <= j < |records| && IsRecordFor(records[j], employeeId, day)
    ensures i == j
  {
  }

  /** POST /attendance: employees only; the record is keyed by the caller and
      the midnight of `now`. "checkin" opens one when none exists; "checkout"
      closes an open one; any other type re-saves an existing record and fails
      on a missing one. */
  method RecordAttendance(db: Database, caller: Caller, kind: string, taskId: Option<Id>,
                          location: Coordinates, now: int) returns (r: Result<Attendance>)
    requires db.Valid()
    modifies db
    ensures db.Valid()
    ensures db.tasks == old(db.tasks) && db.updates == old(db.updates) && db.nextId == old(db.nextId)
    ensures caller.role != Employee ==> r == Err(AccessDenied) && unchanged(db)
    ensures caller.role == Employee && kind == "checkin" ==>
      if HasRecord(old(db.attendance), caller.userId, Midnight(now)) then
        r == Err(AlreadyCheckedIn) && unchanged(db)
      else
        && r == Ok(CheckedIn(caller.userId, taskId, location, now))
        && db.attendance == old(db.attendance) + [r.value]
    ensures caller.role == Employee && kind == "checkout" && !HasRecord(old(db.attendance), caller.userId, Midnight(now)) ==>
      r == Err(NoActiveCheckIn) && unchanged(db)
    ensures caller.role == Employee && kind != "checkin" && kind != "checkout"
            && !HasRecord(old(db.attendance), caller.userId, Midnight(now)) ==>
      r == Err(ServerError) && unchanged(db)
    ensures forall i ::
      (0 <= i < |old(db.attendance)| && caller.role == Employee &&
       IsRecordFor(old(db.attendance)[i], caller.userId, Midnight(now))) ==>
      var a := old(db.attendance)[i];
      && (kind == "checkout" && a.status == AttendanceStatus.Completed ==> r == Err(NoActiveCheckIn) && unchanged(db))
      && (kind == "checkout" && a.status == Active ==>
            && r == Ok(CheckedOut(a, location, now))
            && db.attendance == old(db.attendance)[i := r.value])
      && (kind != "checkin" && kind != "checkout" ==>
            && r == Ok(a.(updatedAt := now))
            && db.attendance == old(db.attendance)[i := r.value])
    ensures |db.attendance| >= |old(db.attendance)|
    ensures forall i :: 0 <= i < |old(db.attendance)| && old(db.attendance)[i].status == AttendanceStatus.Completed ==>
      db.attendance[i].(updatedAt := old(db.attendance)[i].updatedAt) == old(db.attendance)[i]
  {
    if caller.role != Employee {
      return Err(AccessDenied);
    }
    var today := Midnight(now);
    var i := FindRecord(db.attendance, caller.userId, today);
    forall j | 0 <= j < |db.attendance| && IsRecordFor(db.attendance[j], caller.userId, today)
      ensures j == i
    {
      RecordIsUnique(db.attendance, i, j, caller.userId, today);
    }
    if kind == "checkin" {
      if i >= 0 {
        return Err(AlreadyCheckedIn);
      }
      var record := CheckedIn(caller.userId, taskId, location, now);
      AppendKeepsUnique(db.attendance, record);
      db.attendance := db.attendance + [record];
      r := Ok(record);
    } else if kind == "checkout" {
      if i < 0 || db.attendance[i].status == AttendanceStatus.Completed {
        return Err(NoActiveCheckIn);
      }
      var record := db.attendance[i];
      record := record.(checkOutTime := Some(now));
      record := record.(checkOutLocation := Some(location));
      record := record.(status := AttendanceStatus.Completed);
      record := record.(totalHours := HoursBetween(record.checkInTime, now));
      record := record.(updatedAt := now);
      ReplaceKeepsUnique(db.attendance, i, record);
      db.attendance := db.attendance[i := record];
      r := Ok(record);
    } else {
      if i < 0 {
        return Err(ServerError);
      }
      var record := db.attendance[i].(updatedAt := now);
      ReplaceKeepsUnique(db.attendance, i, record);
      db.attendance := db.attendance[i := record];
      r := Ok(record);
    }
  }
}
