/** The Task record as the routes use it. Its schema file is not part of this
    model: the fields below are the ones tasks.js and updates.js read and write.
    Each field can be read or written by key, as `task[key]` does. */
module TaskModel {
  import opened Common

  datatype TaskStatus = Pending | InProgress | Completed

  datatype Priority = Low | Medium | High

  datatype Task = Task(
    title: string,
    description: string,
    assignedTo: Option<Id>,
    assignedBy: Id,
    location: Point,
    geoFenceRadius: real,
    status: TaskStatus,
    priority: Priority,
    completionPercentage: real,
    deadline: Option<int>)

  /** `task.completionPercentage = p; if (p === 100) task.status = 'completed'`. */
  function RecordProgress(t: Task, percentage: real): (r: Task)
    ensures r.completionPercentage == percentage
    ensures percentage == 100.0 ==> r.status == Completed
    ensures percentage != 100.0 ==> r.status == t.status
    ensures r.(completionPercentage := t.completionPercentage, status := t.status) == t
  {
    var r := t.(completionPercentage := percentage);
    if percentage == 100.0 then r.(status := Completed) else r
  }

  /** Progress never takes a task out of `completed` and never moves it into
      `in_progress`. */
  lemma ProgressStatusTransitions(t: Task, percentage: real)
    ensures t.status == Completed ==> RecordProgress(t, percentage).status == Completed
    ensures RecordProgress(t, percentage).status == InProgress ==> t.status == InProgress
  {
  }

  /** The names of the task's fields. */
  datatype FieldKey =
    | TitleKey | DescriptionKey | AssignedToKey | AssignedByKey | LocationKey
    | GeoFenceRadiusKey | StatusKey | PriorityKey | CompletionPercentageKey | DeadlineKey

  /** `task[key] = value`, one constructor per field. */
  datatype Assignment =
    | SetTitle(title: string)
    | SetDescription(description: string)
    | SetAssignedTo(assignedTo: Option<Id>)
    | SetAssignedBy(assignedBy: Id)
    | SetLocation(location: Point)
    | SetGeoFenceRadius(geoFenceRadius: real)
    | SetStatus(status: TaskStatus)
    | SetPriority(priority: Priority)
    | SetCompletionPercentage(completionPercentage: real)
    | SetDeadline(deadline: Option<int>)

  /** The field an assignment writes. */
  function Key(a: Assignment): FieldKey
  {
    match a
    case SetTitle(_) => TitleKey
    case SetDescription(_) => DescriptionKey
    case SetAssignedTo(_) => AssignedToKey
    case SetAssignedBy(_) => AssignedByKey
    case SetLocation(_) => LocationKey
    case SetGeoFenceRadius(_) => GeoFenceRadiusKey
    case SetStatus(_) => StatusKey
    case SetPriority(_) => PriorityKey
    case SetCompletionPercentage(_) => CompletionPercentageKey
    case SetDeadline(_) => DeadlineKey
  }

  /** `task[key]`, as the assignment that would write the current value back. */
  function Get(t: Task, k: FieldKey): (a: Assignment)
    ensures Key(a) == k
  {
    match k
    case TitleKey => SetTitle(t.title)
    case DescriptionKey => SetDescription(t.description)
    case AssignedToKey => SetAssignedTo(t.assignedTo)
    case AssignedByKey => SetAssignedBy(t.assignedBy)
    case LocationKey => SetLocation(t.location)
    case GeoFenceRadiusKey => SetGeoFenceRadius(t.geoFenceRadius)
    case StatusKey => SetStatus(t.status)
    case PriorityKey => SetPriority(t.priority)
    case CompletionPercentageKey => SetCompletionPercentage(t.completionPercentage)
    case DeadlineKey => SetDeadline(t.deadline)
  }

  /** `task[key] = value`. */
  function Put(t: Task, a: Assignment): (r: Task)
    ensures Get(r, Key(a)) == a
    ensures forall k :: k != Key(a) ==> Get(r, k) == Get(t, k)
  {
    match a
    case SetTitle(v) => t.(title := v)
    case SetDescription(v) => t.(description := v)
    case SetAssignedTo(v) => t.(assignedTo := v)
    case SetAssignedBy(v) => t.(assignedBy := v)
    case SetLocation(v) => t.(location := v)
    case SetGeoFenceRadius(v) => t.(geoFenceRadius := v)
    case SetStatus(v) => t.(status := v)
    case SetPriority(v) => t.(priority := v)
    case SetCompletionPercentage(v) => t.(completionPercentage := v)
    case SetDeadline(v) => t.(deadline := v)
  }

  /** A task is determined by the values of its fields. */
  lemma FieldsDetermineTask(t: Task, u: Task)
    requires forall k :: Get(t, k) == Get(u, k)
    ensures t == u
  {
    assert Get(t, TitleKey) == Get(u, TitleKey);
    assert Get(t, DescriptionKey) == Get(u, DescriptionKey);
    assert Get(t, AssignedToKey) == Get(u, AssignedToKey);
    assert Get(t, AssignedByKey) == Get(u, AssignedByKey);
    assert Get(t, LocationKey) == Get(u, LocationKey);
    assert Get(t, GeoFenceRadiusKey) == Get(u, GeoFenceRadiusKey);
    assert Get(t, StatusKey) == Get(u, StatusKey);
    assert Get(t, PriorityKey) == Get(u, PriorityKey);
    assert Get(t, CompletionPercentageKey) == Get(u, CompletionPercentageKey);
    assert Get(t, DeadlineKey) == Get(u, DeadlineKey);
  }
}
