/** The guards of app/common/middleware/check-owner.ts, which throw an
    AccessException (status 403) instead of answering themselves, and the
    grant records of the `user-objective-shares` table they consult. */
module AccessGuard {
  import opened Objectives
  import opened Repository
  import OwnerGuard

  type GrantId = string

  /** One row of `user-objective-shares`: user `userId` was given access to
      objective `objectiveId`. Nothing makes the (userId, objectiveId) pair unique. */
  datatype Grant = Grant(id: GrantId, userId: UserId, objectiveId: ObjectiveId)

  /** `AccessException` always carries status 403. */
  const AccessDeniedStatus := 403

  datatype Verdict = Allow | Deny(publicMessage: string) {
    function Status(): int
      requires Deny?
    {
      AccessDeniedStatus
    }
  }

  const NotOwnerMessage := "You are not owner"
  const NotGrantedMessage := "Access do not issued"

  /** Throws only when the objective exists and someone else created it; a
      missing objective is let through. */
  function CheckToDoOwner(task: Option<Objective>, userId: UserId): (v: Verdict)
    ensures v.Deny? <==> task.Some? && task.value.creatorId != userId
    ensures v.Deny? ==> v == Deny(NotOwnerMessage) && v.Status() == 403
    ensures task.None? ==> v == Allow
    ensures task.Some? && task.value.creatorId == userId ==> v == Allow
  {
    if task.Some? && task.value.creatorId != userId then Deny(NotOwnerMessage) else Allow
  }

  /** `checkUserAccess(id, userId)` found something: some grant record links
      that objective to that user. */
  predicate HasAccess(grants: set<Grant>, id: ObjectiveId, userId: UserId) {
    exists g :: g in grants && g.objectiveId == id && g.userId == userId
  }

  /** Throws unless a grant links the objective to the requester. */
  function CheckSharePermission(grants: set<Grant>, id: ObjectiveId, userId: UserId): (v: Verdict)
    ensures v.Deny? <==> !HasAccess(grants, id, userId)
    ensures v.Deny? ==> v == Deny(NotGrantedMessage) && v.Status() == 403
  {
    if HasAccess(grants, id, userId) then Allow else Deny(NotGrantedMessage)
  }

  /** Against the table: the lenient check rejects exactly when a row with the
      id exists and was created by someone else. */
  lemma LenientCheckOnTable(rows: seq<Objective>, id: ObjectiveId, userId: UserId)
    requires UniqueIds(rows)
    ensures CheckToDoOwner(FindById(rows, id), userId).Deny?
        <==> exists o :: o in rows && o.id == id && o.creatorId != userId
  {
  }

  /** The two ownership checks agree on an existing objective and part ways on
      a missing one: this one lets it through, the other answers 404. */
  lemma OwnerChecksCompared(task: Option<Objective>, userId: UserId)
    ensures task.Some? ==>
      (CheckToDoOwner(task, userId) == Allow <==> OwnerGuard.CheckToDoOwner(OwnerGuard.Fetched(task), userId) == OwnerGuard.Proceed)
    ensures task.None? ==>
      CheckToDoOwner(task, userId) == Allow && OwnerGuard.CheckToDoOwner(OwnerGuard.Fetched(task), userId) == OwnerGuard.NotFoundHalt
  {
  }

  /** Deleting an objective cascades to its grants: nobody keeps access to it,
      and access to every other objective is as before. */
  function AfterObjectiveDeleted(grants: set<Grant>, id: ObjectiveId): (r: set<Grant>)
    ensures r <= grants
    ensures forall o, u :: HasAccess(r, o, u) <==> o != id && HasAccess(grants, o, u)
  {
    var r := set g | g in grants && g.objectiveId != id;
    assert forall o, u | o != id && HasAccess(grants, o, u) :: HasAccess(r, o, u) by {
      forall o, u | o != id && HasAccess(grants, o, u)
        ensures HasAccess(r, o, u)
      {
        var g :| g in grants && g.objectiveId == o && g.userId == u;
        assert g in r;
      }
    }
    r
  }

  /** Deleting a user cascades to the grants made to that user: that user keeps
      no access, and every other user keeps theirs. */
  function AfterUserDeleted(grants: set<Grant>, userId: UserId): (r: set<Grant>)
    ensures r <= grants
    ensures forall o, u :: HasAccess(r, o, u) <==> u != userId && HasAccess(grants, o, u)
  {
    var r := set g | g in grants && g.userId != userId;
    assert forall o, u | u != userId && HasAccess(grants, o, u) :: HasAccess(r, o, u) by {
      forall o, u | u != userId && HasAccess(grants, o, u)
        ensures HasAccess(r, o, u)
      {
        var g :| g in grants && g.objectiveId == o && g.userId == u;
        assert g in r;
      }
    }
    r
  }

  /** Once an objective is deleted nobody passes the share check for it, and
      access to every other objective is as before. */
  lemma DeletedObjectiveGrantsNothing(grants: set<Grant>, id: ObjectiveId, userId: UserId, other: ObjectiveId)
    requires other != id
    ensures CheckSharePermission(AfterObjectiveDeleted(grants, id), id, userId) == Deny(NotGrantedMessage)
    ensures CheckSharePermission(AfterObjectiveDeleted(grants, id), other, userId) == CheckSharePermission(grants, other, userId)
  {
  }

  /** Once a user is deleted that user passes no share check, and other users
      keep their access. */
  lemma DeletedUserIsGrantedNothing(grants: set<Grant>, id: ObjectiveId, userId: UserId, other: UserId)
    requires other != userId
    ensures CheckSharePermission(AfterUserDeleted(grants, userId), id, userId) == Deny(NotGrantedMessage)
    ensures CheckSharePermission(AfterUserDeleted(grants, userId), id, other) == CheckSharePermission(grants, id, other)
  {
  }

  /** Nothing makes a (user, objective) pair unique, so deleting one grant row
      does not revoke access while another row for the same pair remains. */
  lemma DeletingOneDuplicateKeepsAccess(grants: set<Grant>, a: Grant, b: Grant)
    requires a in grants && b in grants && a.id != b.id
    requires a.userId == b.userId && a.objectiveId == b.objectiveId
    ensures CheckSharePermission(grants - {a}, a.objectiveId, a.userId) == Allow
  {
    assert b in grants - {a};
  }
}
