/** The WorkUpdate schema (server/models/WorkUpdate.js): required fields, the
    percentage range, the status enum, the defaults and the save hook. */
module WorkUpdateModel {
  import opened Common

  datatype UpdateStatus = Pending | Approved | Rejected

  datatype WorkUpdate = WorkUpdate(
    taskId: Id,
    employeeId: Id,
    description: string,
    completionPercentage: real,
    location: Point,
    isGeoVerified: bool,
    status: UpdateStatus,
    managerComments: Option<string>,
    proofImages: seq<string>,
    timestamp: int,
    createdAt: int,
    updatedAt: int)
  {
    /** What the schema validates on every save: a required string is
        non-empty and the percentage lies in [0, 100]. */
    predicate Valid()
    {
      description != "" && 0.0 <= completionPercentage <= 100.0
    }
  }

  /** The enum's spelling of each status. */
  function StatusName(s: UpdateStatus): string
  {
    match s
    case Pending => "pending"
    case Approved => "approved"
    case Rejected => "rejected"
  }

  /** Reads a status string against the enum; anything else fails validation. */
  function ParseStatus(s: string): (r: Option<UpdateStatus>)
    ensures r.Some? <==> s in {"pending", "approved", "rejected"}
    ensures r.Some? ==> StatusName(r.value) == s
  {
    if s == "pending" then Some(Pending)
    else if s == "approved" then Some(Approved)
    else if s == "rejected" then Some(Rejected)
    else None
  }

  /** Every status name reads back as that status. */
  lemma StatusRoundTrip(s: UpdateStatus)
    ensures ParseStatus(StatusName(s)) == Some(s)
  {
  }

  /** `new WorkUpdate({...}).save()`: validation of the required fields and
      the percentage range, then the defaults. None is a validation error. */
  function NewWorkUpdate(
    taskId: Id, employeeId: Id, description: Option<string>,
    completionPercentage: Option<real>, latitude: Option<real>, longitude: Option<real>,
    isGeoVerified: Option<bool>, proofImages: Option<seq<string>>, now: int): (r: Option<WorkUpdate>)
    ensures r.Some? <==>
      && description.Some? && description.value != ""
      && completionPercentage.Some? && 0.0 <= completionPercentage.value <= 100.0
      && latitude.Some? && longitude.Some?
    ensures r.Some? ==> r.value.Valid()
    ensures r.Some? ==>
      && r.value.taskId == taskId && r.value.employeeId == employeeId
      && r.value.description == description.value
      && r.value.completionPercentage == completionPercentage.value
      && r.value.location == Point(latitude.value, longitude.value)
    ensures r.Some? ==>
      && r.value.status == Pending
      && r.value.managerComments == None
      && r.value.isGeoVerified == (isGeoVerified.Some? && isGeoVerified.value)
      && r.value.proofImages == (if proofImages.Some? then proofImages.value else [])
      && r.value.timestamp == now && r.value.createdAt == now && r.value.updatedAt == now
  {
    if description.None? || description.value == "" then None
    else if completionPercentage.None? then None
    else if !(0.0 <= completionPercentage.value <= 100.0) then None
    else if latitude.None? || longitude.None? then None
    else
      Some(WorkUpdate(
        taskId, employeeId, description.value, completionPercentage.value,
        Point(latitude.value, longitude.value),
        if isGeoVerified.Some? then isGeoVerified.value else false,
        Pending, None,
        if proofImages.Some? then proofImages.value else [],
        now, now, now))
  }

  /** A manager's decision as saved: the new status, the comment replaced only
      by a non-empty one, and the save hook's fresh `updatedAt`. */
  function Decided(u: WorkUpdate, status: UpdateStatus, comments: Option<string>, now: int): (d: WorkUpdate)
    ensures d.status == status && d.updatedAt == now
    ensures d.managerComments == if comments.Some? && comments.value != "" then comments else u.managerComments
    ensures d.(status := u.status, managerComments := u.managerComments, updatedAt := u.updatedAt) == u
    ensures u.Valid() ==> d.Valid()
  {
    var d := u.(status := status);
    var d := if comments.Some? && comments.value != "" then d.(managerComments := comments) else d;
    d.(updatedAt := now)
  }

  /** The fields an update is created with and never changes afterwards:
      its task, its author, its report, its location, its verification flag
      and its creation times. */
  predicate SameEvidence(a: WorkUpdate, b: WorkUpdate)
  {
    && a.taskId == b.taskId && a.employeeId == b.employeeId
    && a.description == b.description && a.completionPercentage == b.completionPercentage
    && a.location == b.location && a.isGeoVerified == b.isGeoVerified
    && a.proofImages == b.proofImages
    && a.timestamp == b.timestamp && a.createdAt == b.createdAt
  }

  /** A decision never touches the evidence of an update. */
  lemma DecisionKeepsEvidence(u: WorkUpdate, status: UpdateStatus, comments: Option<string>, now: int)
    ensures SameEvidence(u, Decided(u, status, comments, now))
  {
  }
}
