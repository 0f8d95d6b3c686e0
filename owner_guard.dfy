/** The ownership pre-handler of app/middleware/check-owner.ts: look the
    objective up by the path id, answer 404 when it is missing, 403 when
    someone else created it, 500 when the lookup fails, and otherwise let
    the request through. */
module OwnerGuard {
  import opened Objectives
  import opened Repository

  /** What the lookup by id produced. */
  datatype Lookup = Fetched(row: Option<Objective>) | LookupFailed

  /** Either the request goes on to its handler, or it is answered here. */
  datatype Gate = Proceed | Halt(status: int, error: string)

  const NotFoundHalt := Halt(404, "Task not found")
  const ForbiddenHalt := Halt(403, "You do not have permission to perform this action")
  const FailureHalt := Halt(500, "Failed to verify task ownership")

  function CheckToDoOwner(lookup: Lookup, userId: UserId): (g: Gate)
    ensures g == Proceed <==> lookup.Fetched? && lookup.row.Some? && lookup.row.value.creatorId == userId
    ensures lookup == Fetched(None) ==> g == NotFoundHalt
    ensures lookup.Fetched? && lookup.row.Some? && lookup.row.value.creatorId != userId ==> g == ForbiddenHalt
    ensures g == ForbiddenHalt ==> lookup.Fetched? && lookup.row.Some?
    ensures lookup.LookupFailed? ==> g == FailureHalt
    ensures g.Halt? ==> g in {NotFoundHalt, ForbiddenHalt, FailureHalt}
  {
    match lookup
    case LookupFailed => FailureHalt
    case Fetched(None) => NotFoundHalt
    case Fetched(Some(task)) => if task.creatorId != userId then ForbiddenHalt else Proceed
  }

  /** Against the table: the request goes through exactly when a row with
      the id exists and was created by the requester. */
  lemma GatePassesOnlyTheCreator(rows: seq<Objective>, id: ObjectiveId, userId: UserId)
    requires UniqueIds(rows)
    ensures CheckToDoOwner(Fetched(FindById(rows, id)), userId) == Proceed
        <==> exists o :: o in rows && o.id == id && o.creatorId == userId
    ensures CheckToDoOwner(Fetched(FindById(rows, id)), userId) == NotFoundHalt
        <==> forall o :: o in rows ==> o.id != id
  {
  }

  /** Whoever asks, a missing objective is answered 404, never 403. */
  lemma MissingIsNeverForbidden(userId: UserId, other: UserId)
    ensures CheckToDoOwner(Fetched(None), userId) == CheckToDoOwner(Fetched(None), other) == NotFoundHalt
  {
  }
}
