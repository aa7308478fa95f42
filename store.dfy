/** The three collections the routes read and write, as one mutable store.
    Persistence, population of references and query ordering are not modelled:
    a collection is a map from id to document (attendance, which the routes
    only look up by employee and day, is a sequence of documents). */
module Store {
  import opened Common
  import opened TaskModel
  import opened WorkUpdateModel
  import opened AttendanceModel

  class Database {
    var tasks: map<Id, Task>
    var updates: map<Id, WorkUpdate>
    var attendance: seq<Attendance>
    /** The next identifier to hand out; every id in use is below it. */
    var nextId: nat

    /** What every route preserves: ids are below `nextId`, every stored work
        update passed its schema, every attendance record is well formed and
        there is at most one per employee per day. */
    predicate Valid()
      reads this
    {
      && (forall id :: id in tasks ==> id < nextId)
      && (forall id :: id in updates ==> id < nextId)
      && (forall id :: id in updates ==> updates[id].Valid())
      && (forall i :: 0 <= i < |attendance| ==> attendance[i].WellFormed())
      && UniquePerDay(attendance)
    }

    constructor ()
      ensures Valid()
      ensures tasks == map[] && updates == map[] && attendance == [] && nextId == 0
    {
      tasks := map[];
      updates := map[];
      attendance := [];
      nextId := 0;
    }

    /** A new document id, unused by any task or update. */
    method FreshId() returns (id: Id)
      requires Valid()
      modifies this`nextId
      ensures Valid()
      ensures id == old(nextId) && nextId == id + 1
      ensures id !in tasks && id !in updates
    {
      id := nextId;
      nextId := nextId + 1;
    }
  }
}
