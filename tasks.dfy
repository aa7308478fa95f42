/** The task routes (server/routes/tasks.js): the role-filtered listing,
    creation with the assignee normalised, the key-by-key update and deletion. */
module TaskRoutes {
  import opened Common
  import opened TaskModel
  import opened Store

  /** GET /: a manager sees every task, anyone else only the tasks assigned to them. */
  function VisibleTasks(tasks: map<Id, Task>, caller: Caller): (r: map<Id, Task>)
    ensures forall id :: id in r <==>
      id in tasks && (caller.role == Manager || tasks[id].assignedTo == Some(caller.userId))
    ensures forall id :: id in r ==> r[id] == tasks[id]
  {
    if caller.role == Manager then tasks
    else map id | id in tasks && tasks[id].assignedTo == Some(caller.userId) :: tasks[id]
  }

  /** The `assignedTo` of a create request, by JavaScript type. */
  datatype AssigneeInput = Absent | NonString | Text(s: string)

  /** The characters `String.prototype.trim` removes. */
  predicate IsTrimmed(c: char)
  {
    || c == ' ' || c == '\t' || c == '\n' || c == '\r' || c == '\U{B}' || c == '\U{C}'
    || c == '\U{A0}' || c == '\U{1680}' || ('\U{2000}' <= c <= '\U{200A}')
    || c == '\U{2028}' || c == '\U{2029}' || c == '\U{202F}' || c == '\U{205F}'
    || c == '\U{3000}' || c == '\U{FEFF}'
  }

  /** `s.trim() === ''`. */
  predicate IsBlank(s: string)
  {
    forall i :: 0 <= i < |s| ==> IsTrimmed(s[i])
  }

  /** The assignee a create request stores: absent, non-string and blank
      values leave the task unassigned; any other string must parse as an id. */
  function NormaliseAssignee(input: AssigneeInput, parseId: string -> Option<Id>): (r: Result<Option<Id>>)
    ensures r.Err? <==> input.Text? && !IsBlank(input.s) && parseId(input.s).None?
    ensures r.Err? ==> r.failure == InvalidEmployeeId
    ensures r == Ok(None) <==> !input.Text? || IsBlank(input.s)
    ensures r.Ok? && r.value.Some? ==> input.Text? && parseId(input.s) == r.value
  {
    match input
    case Text(s) =>
      if IsBlank(s) then Ok(None)
      else if parseId(s).None? then Err(InvalidEmployeeId)
      else Ok(parseId(s))
    case _ => Ok(None)
  }

  /** The fields of a create request other than the assignee. */
  datatype TaskDraft = TaskDraft(
    title: string, description: string, location: Point, geoFenceRadius: real,
    priority: Priority, deadline: Option<int>)

  /** The task a create request stores: the manager as `assignedBy`, the
      normalised assignee, no progress yet. */
  function NewTask(draft: TaskDraft, assignedTo: Option<Id>, assignedBy: Id): (t: Task)
    ensures t.assignedBy == assignedBy && t.assignedTo == assignedTo
    ensures t.status == Pending && t.completionPercentage == 0.0
    ensures t.title == draft.title && t.description == draft.description
    ensures t.location == draft.location && t.geoFenceRadius == draft.geoFenceRadius
    ensures t.priority == draft.priority && t.deadline == draft.deadline
  {
    Task(draft.title, draft.description, assignedTo, assignedBy, draft.location,
         draft.geoFenceRadius, Pending, draft.priority, 0.0, draft.deadline)
  }

  /** POST /: manager only; the assignee is normalised before anything is stored. */
  method CreateTask(db: Database, caller: Caller, draft: TaskDraft, assignedTo: AssigneeInput,
                    parseId: string -> Option<Id>) returns (r: Result<Id>)
    requires db.Valid()
    modifies db
    ensures db.Valid()
    ensures db.updates == old(db.updates) && db.attendance == old(db.attendance)
    ensures caller.role != Manager ==> r == Err(AccessDenied) && unchanged(db)
    ensures caller.role == Manager && NormaliseAssignee(assignedTo, parseId).Err? ==>
      r == Err(InvalidEmployeeId) && unchanged(db)
    ensures caller.role == Manager && NormaliseAssignee(assignedTo, parseId).Ok? ==>
      && r == Ok(old(db.nextId))
      && r.value !in old(db.tasks)
      && db.tasks == old(db.tasks)[r.value :=
           NewTask(draft, NormaliseAssignee(assignedTo, parseId).value, caller.userId)]
    ensures r.Ok? ==> db.tasks[r.value].assignedBy == caller.userId
  {
    if caller.role != Manager {
      return Err(AccessDenied);
    }
    var assignee := NormaliseAssignee(assignedTo, parseId);
    if assignee.Err? {
      return Err(InvalidEmployeeId);
    }
    var id := db.FreshId();
    db.tasks := db.tasks[id := NewTask(draft, assignee.value, caller.userId)];
    r := Ok(id);
  }

  /** One key of an update request's body. A key whose value is `undefined`
      is skipped. */
  datatype BodyEntry = Defined(assignment: Assignment) | Undefined(key: FieldKey)

  /** Entry `i` of the body defines field `k`. */
  predicate DefinesAt(body: seq<BodyEntry>, i: int, k: FieldKey)
    requires 0 <= i < |body|
  {
    body[i].Defined? && Key(body[i].assignment) == k
  }

  /** The task after the body's keys are assigned in order. */
  function ApplyBody(t: Task, body: seq<BodyEntry>): (r: Task)
    ensures forall k :: (forall i :: 0 <= i < |body| ==> !DefinesAt(body, i, k)) ==> Get(r, k) == Get(t, k)
    decreases |body|
  {
    if body == [] then t
    else
      var init := body[..|body| - 1];
      assert forall i, k :: 0 <= i < |init| ==> (DefinesAt(init, i, k) <==> DefinesAt(body, i, k));
      var prefix := ApplyBody(t, init);
      match body[|body| - 1]
      case Defined(a) =>
        assert DefinesAt(body, |body| - 1, Key(a));
        Put(prefix, a)
      case Undefined(_) => prefix
  }

  /** The last defined assignment to field `k` in the body, if any. */
  function LastAssigned(body: seq<BodyEntry>, k: FieldKey): (r: Option<Assignment>)
    ensures r.Some? ==> Key(r.value) == k
    ensures r.Some? ==>
      exists i :: 0 <= i < |body| && body[i] == Defined(r.value)
        && forall j :: i < j < |body| ==> !DefinesAt(body, j, k)
    ensures r.None? <==> forall i :: 0 <= i < |body| ==> !DefinesAt(body, i, k)
    decreases |body|
  {
    if body == [] then None
    else
      var n := |body| - 1;
      var last := body[n];
      if last.Defined? && Key(last.assignment) == k then
        assert DefinesAt(body, n, k);
        Some(last.assignment)
      else
        var init := body[..n];
        var r := LastAssigned(init, k);
        assert forall i :: 0 <= i < n ==> init[i] == body[i] && (DefinesAt(init, i, k) <==> DefinesAt(body, i, k));
        assert !DefinesAt(body, n, k);
        assert r.Some? ==>
          exists i :: 0 <= i < |body| && body[i] == Defined(r.value)
            && forall j :: i < j < |body| ==> !DefinesAt(body, j, k)
        by {
          if r.Some? {
            var i :| 0 <= i < n && init[i] == Defined(r.value)
              && forall j :: i < j < n ==> !DefinesAt(init, j, k);
            assert forall j :: i < j < |body| ==> !DefinesAt(body, j, k) by {
              forall j | i < j < |body| ensures !DefinesAt(body, j, k) {
                if j < n { assert !DefinesAt(init, j, k); }
              }
            }
          }
        }
        r
  }

  /** Each field ends up with the last defined value the body gives it, and a
      field the body does not define keeps its value. */
  lemma {:induction false} ApplyBodyField(t: Task, body: seq<BodyEntry>, k: FieldKey)
    ensures Get(ApplyBody(t, body), k) ==
      match LastAssigned(body, k)
      case Some(a) => a
      case None => Get(t, k)
    decreases |body|
  {
    if body != [] {
      ApplyBodyField(t, body[..|body| - 1], k);
    }
  }

  /** A body with no defined value leaves the task as it was. */
  lemma ApplyBodyNoDefined(t: Task, body: seq<BodyEntry>)
    requires forall i :: 0 <= i < |body| ==> body[i].Undefined?
    ensures ApplyBody(t, body) == t
  {
    forall k ensures Get(ApplyBody(t, body), k) == Get(t, k) {
      ApplyBodyField(t, body, k);
    }
    FieldsDetermineTask(ApplyBody(t, body), t);
  }

  /** `Object.keys(updates).forEach(...)`: assigns every defined key in turn. */
  method AssignKeys(t: Task, body: seq<BodyEntry>) returns (r: Task)
    ensures r == ApplyBody(t, body)
  {
    r := t;
    var i := 0;
    while i < |body|
      invariant 0 <= i <= |body|
      invariant r == ApplyBody(t, body[..i])
    {
      assert body[..i + 1][..i] == body[..i];
      if body[i].Defined? {
        r := Put(r, body[i].assignment);
      }
      i := i + 1;
    }
    assert body[..i] == body;
  }

  /** PUT /:id: the task must exist; then only a manager or its assignee may
      change it. A non-manager on an unassigned task hits a null dereference. */
  method UpdateTask(db: Database, caller: Caller, id: Id, body: seq<BodyEntry>) returns (r: Result<Task>)
    requires db.Valid()
    modifies db
    ensures db.Valid()
    ensures db.updates == old(db.updates) && db.attendance == old(db.attendance)
    ensures db.nextId == old(db.nextId)
    ensures id !in old(db.tasks) ==> r == Err(NotFound) && unchanged(db)
    ensures id in old(db.tasks) && caller.role != Manager && old(db.tasks)[id].assignedTo.None? ==>
      r == Err(ServerError) && unchanged(db)
    ensures id in old(db.tasks) && caller.role != Manager && old(db.tasks)[id].assignedTo.Some?
            && old(db.tasks)[id].assignedTo.value != caller.userId ==>
      r == Err(AccessDenied) && unchanged(db)
    ensures id in old(db.tasks) && (caller.role == Manager || old(db.tasks)[id].assignedTo == Some(caller.userId)) ==>
      && r == Ok(ApplyBody(old(db.tasks)[id], body))
      && db.tasks == old(db.tasks)[id := r.value]
  {
    if id !in db.tasks {
      return Err(NotFound);
    }
    var task := db.tasks[id];
    if caller.role != Manager {
      if task.assignedTo.None? {
        return Err(ServerError);
      }
      if task.assignedTo.value != caller.userId {
        return Err(AccessDenied);
      }
    }
    task := AssignKeys(task, body);
    db.tasks := db.tasks[id := task];
    r := Ok(task);
  }

  /** DELETE /:id: the role is checked before the id; only that task goes,
      work updates that reference it stay. */
  method DeleteTask(db: Database, caller: Caller, id: Id) returns (r: Result<()>)
    requires db.Valid()
    modifies db
    ensures db.Valid()
    ensures db.updates == old(db.updates) && db.attendance == old(db.attendance)
    ensures db.nextId == old(db.nextId)
    ensures caller.role != Manager ==> r == Err(AccessDenied) && unchanged(db)
    ensures caller.role == Manager && id !in old(db.tasks) ==> r == Err(NotFound) && unchanged(db)
    ensures caller.role == Manager && id in old(db.tasks) ==>
      r == Ok(()) && db.tasks == old(db.tasks) - {id}
  {
    if caller.role != Manager {
      return Err(AccessDenied);
    }
    if id !in db.tasks {
      return Err(NotFound);
    }
    db.tasks := db.tasks - {id};
    r := Ok(());
  }
}
