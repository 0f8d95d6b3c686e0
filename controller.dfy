/** The route handlers of the to-do module: each runs one repository call
    and maps what it returns to a reply. */
module Controller {
  import opened Objectives
  import opened Ordering
  import opened Repository
  import opened CreateSchema
  import opened UpdateSchema
  import opened QuerySchema
  import OwnerGuard

  /** A handler's answer; `Status` is the HTTP code it is sent with. */
  datatype Reply<T> =
    | Created(record: T)
    | Ok(record: T)
    | NotFound(error: string)
    | Unauthorized(error: string)
    | InternalError(error: string)
  {
    function Status(): int {
      match this
      case Created(_) => 201
      case Ok(_) => 200
      case NotFound(_) => 404
      case Unauthorized(_) => 401
      case InternalError(_) => 500
    }
  }

  const TaskNotFound := "Task not found"

  // ---------------------------------------------------------------------------
  // createToDo
  // ---------------------------------------------------------------------------

  /** `req.user && req.user.id`: an id is present and is not the empty string. */
  predicate Authenticated(requester: Option<UserId>) {
    requester.Some? && requester.value != ""
  }

  /** The record handed to `insertObjective`: the body, owned by the requester,
      created and updated now. `toTimestamp` is the database's reading of a
      date-time string. */
  function NewTask(body: CreateBody, userId: UserId, now: Timestamp, toTimestamp: string -> Timestamp): Insertable {
    Insertable(
      userId, body.title, body.description,
      if body.notifyAt.Some? then Some(toTimestamp(body.notifyAt.value)) else None,
      body.isCompleted, now, now)
  }

  /** `createToDo`; `newId` is the key the database generates for the row. */
  method CreateToDo(store: ObjectiveStore, requester: Option<UserId>, body: CreateBody, newId: ObjectiveId,
                    now: Timestamp, toTimestamp: string -> Timestamp) returns (r: Reply<Objective>)
    requires store.Valid()
    modifies store
    ensures store.Valid()
    ensures r.Created? || r.Unauthorized? || r.InternalError?
    ensures r.Status() == 401 <==> !Authenticated(requester)
    ensures !Authenticated(requester) ==> r == Unauthorized("Unauthorized") && store.rows == old(store.rows)
    ensures Authenticated(requester) ==> (r.Status() == 201 <==> FindById(old(store.rows), newId).None?)
    ensures r.Created? ==>
      && r.record == WithId(NewTask(body, requester.value, now, toTimestamp), newId)
      && store.rows == old(store.rows) + [r.record]
    ensures r.Created? ==>
      && r.record.id == newId && r.record.creatorId == requester.value
      && r.record.createdAt == now && r.record.updatedAt == now
      && r.record.title == body.title && r.record.description == body.description
      && r.record.isCompleted == body.isCompleted
    ensures r.InternalError? ==> r.error == "Failed to create task" && store.rows == old(store.rows)
  {
    if !Authenticated(requester) {
      return Unauthorized("Unauthorized");
    }
    var newTask := NewTask(body, requester.value, now, toTimestamp);
    var insertedTask := store.InsertObjective(newTask, newId);
    match insertedTask {
      case Some(task) => r := Created(task);
      case None => r := InternalError("Failed to create task");
    }
  }

  // ---------------------------------------------------------------------------
  // updateToDo
  // ---------------------------------------------------------------------------

  /** The updates handed to `updateObjective`: `notifyAt` only when it is a
      non-empty string, otherwise left out. */
  function PatchOf(body: UpdateInput, toTimestamp: string -> Timestamp): Patch {
    Patch(
      body.title, body.description,
      if body.notifyAt.Some? && body.notifyAt.value != "" then Some(toTimestamp(body.notifyAt.value)) else None,
      body.isCompleted)
  }

  /** `updateToDo`. The row is chosen by the `id` of the body, not by the path;
      an absent body id matches no row. */
  method UpdateToDo(store: ObjectiveStore, bodyId: Option<ObjectiveId>, body: UpdateInput,
                    now: Timestamp, toTimestamp: string -> Timestamp) returns (r: Reply<Objective>)
    requires store.Valid()
    modifies store
    ensures store.Valid()
    ensures r.Ok? || r.NotFound?
    ensures r.Status() == 404 <==> bodyId.None? || FindById(old(store.rows), bodyId.value).None?
    ensures bodyId.None? ==> r == NotFound(TaskNotFound) && store.rows == old(store.rows)
    ensures bodyId.Some? ==> store.rows == UpdatedRows(old(store.rows), bodyId.value, PatchOf(body, toTimestamp), now)
    ensures bodyId.Some? && FindById(old(store.rows), bodyId.value).None? ==>
      r == NotFound(TaskNotFound) && store.rows == old(store.rows)
    ensures bodyId.Some? && FindById(old(store.rows), bodyId.value).Some? ==>
      r == Ok(ApplyPatch(FindById(old(store.rows), bodyId.value).value, PatchOf(body, toTimestamp), now))
  {
    var updates := PatchOf(body, toTimestamp);
    if bodyId.None? {
      return NotFound(TaskNotFound);
    }
    var taskToUpdate := store.UpdateObjective(bodyId.value, updates, now);
    if taskToUpdate.None? {
      return NotFound(TaskNotFound);
    }
    r := Ok(taskToUpdate.value);
  }

  /** A field left out of the body is left as it was; a title-only body
      changes the title and the update time and nothing else. */
  lemma AbsentFieldsUnchanged(o: Objective, body: UpdateInput, now: Timestamp, toTimestamp: string -> Timestamp)
    ensures var u := ApplyPatch(o, PatchOf(body, toTimestamp), now);
      && (body.title.None? ==> u.title == o.title)
      && (body.description.None? ==> u.description == o.description)
      && (body.notifyAt.None? ==> u.notifyAt == o.notifyAt)
      && (body.isCompleted.None? ==> u.isCompleted == o.isCompleted)
    ensures body.title.Some? && body.description.None? && body.notifyAt.None? && body.isCompleted.None? ==>
      ApplyPatch(o, PatchOf(body, toTimestamp), now) == o.(title := body.title.value, updatedAt := now)
  {
  }

  /** The ownership pre-handler checks the path id, but the update goes to the
      body id: a requester who owns the path's objective passes the check and
      then rewrites another user's objective named in the body. */
  lemma OwnerGateDoesNotGuardBodyId(rows: seq<Objective>, pathId: ObjectiveId, bodyId: ObjectiveId, requester: UserId,
                                    body: UpdateInput, now: Timestamp, toTimestamp: string -> Timestamp)
    requires UniqueIds(rows)
    requires OwnerGuard.CheckToDoOwner(OwnerGuard.Fetched(FindById(rows, pathId)), requester) == OwnerGuard.Proceed
    requires FindById(rows, bodyId).Some? && FindById(rows, bodyId).value.creatorId != requester
    ensures pathId != bodyId
    ensures FindById(UpdatedRows(rows, bodyId, PatchOf(body, toTimestamp), now), bodyId)
         == Some(ApplyPatch(FindById(rows, bodyId).value, PatchOf(body, toTimestamp), now))
  {
    UpdateThenFind(rows, bodyId, PatchOf(body, toTimestamp), now, FindById(rows, bodyId).value);
  }

  /** Two users' objectives are enough to pass the check on one and rewrite the other. */
  lemma ForeignRowReachableThroughOwnedPath()
    ensures var mine := Objective("a", "alice", "mine", None, None, false, 0, 0);
            var theirs := Objective("b", "bob", "theirs", None, None, false, 0, 0);
            && UniqueIds([mine, theirs])
            && OwnerGuard.CheckToDoOwner(OwnerGuard.Fetched(FindById([mine, theirs], "a")), "alice") == OwnerGuard.Proceed
            && FindById([mine, theirs], "b") == Some(theirs) && theirs.creatorId != "alice"
  {
  }

  // ---------------------------------------------------------------------------
  // getToDos
  // ---------------------------------------------------------------------------

  /** `"true"` and `"false"` become booleans; anything else is dropped. */
  function ParseIsCompleted(s: Option<string>): (r: Option<bool>)
    ensures r == Some(true) <==> s == Some("true")
    ensures r == Some(false) <==> s == Some("false")
    ensures r.None? <==> s != Some("true") && s != Some("false")
  {
    if s == Some("true") then Some(true) else if s == Some("false") then Some(false) else None
  }

  /** The options `getToDos` passes on: the validated query with its defaults
      filled in and the completion flag as a boolean. */
  function ListOptionsOf(q: QueryInput): ListOptions
    requires QueryValid(q)
  {
    var limit: nat := q.limit.GetOr(DefaultLimit);
    var offset: nat := q.offset.GetOr(DefaultOffset);
    ListOptions(
      q.search, limit, offset,
      q.sortBy.GetOr(DefaultSortBy),
      if q.sortOrder == Some("desc") then Desc else Asc,
      match ParseIsCompleted(q.isCompleted)
      case Some(b) => AsBool(b)
      case None => Unset)
  }

  /** Absent parameters default to limit 10, offset 0, createdAt and ascending;
      present ones are passed on. */
  lemma ListOptionsDefaults(q: QueryInput)
    requires QueryValid(q)
    ensures var o := ListOptionsOf(q);
      && o.search == q.search
      && o.limit == (if q.limit.Some? then q.limit.value else 10)
      && o.offset == (if q.offset.Some? then q.offset.value else 0)
      && o.sortBy == (if q.sortBy.Some? then q.sortBy.value else "createdAt")
      && (o.sortOrder == Desc <==> q.sortOrder == Some("desc"))
      && 1 <= o.limit <= 100
  {
  }

  /** Filling in the schema's declared defaults first makes no difference. */
  lemma DeclaredDefaultsAgree(q: QueryInput)
    requires QueryValid(q)
    ensures ListOptionsOf(WithDeclaredDefaults(q)) == ListOptionsOf(q)
  {
  }

  /** The handler hands the repository a boolean, which the repository does
      not recognise: the `isCompleted` parameter never filters anything. */
  lemma ListIgnoresCompletionParameter(rows: seq<Objective>, q: QueryInput)
    requires QueryValid(q)
    ensures CompletionFilter(ListOptionsOf(q).isCompleted).None?
    ensures ListSpec(rows, ListOptionsOf(q)) == ListSpec(rows, ListOptionsOf(q.(isCompleted := None)))
  {
  }

  /** Asking for completed tasks still lists an open one. */
  lemma CompletedQueryListsOpenTask(o: Objective)
    requires !o.isCompleted
    ensures o in ListSpec([o], ListOptionsOf(QueryInput(None, None, None, None, None, Some("true"))))
  {
    var options := ListOptionsOf(QueryInput(None, None, None, None, None, Some("true")));
    FullPageHoldsEveryMatch([o], options);
  }

  /** `getToDos`: 200 with the page the repository returns. */
  method GetToDos(store: ObjectiveStore, q: QueryInput) returns (r: Reply<seq<Objective>>)
    requires QueryValid(q)
    ensures r == Ok(ListSpec(store.rows, ListOptionsOf(q))) && r.Status() == 200
    ensures |r.record| <= ListOptionsOf(q).limit <= LimitMax
    ensures forall x :: x in r.record ==> x in store.rows
  {
    var options := ListOptionsOf(q);
    var tasks := store.GetToDos(options);
    r := Ok(tasks);
  }

  // ---------------------------------------------------------------------------
  // getToDoById
  // ---------------------------------------------------------------------------

  /** `getToDoById`: 404 when no row has the id, otherwise 200 with that row. */
  method GetToDoById(store: ObjectiveStore, id: ObjectiveId) returns (r: Reply<Objective>)
    ensures r.Ok? || r == NotFound(TaskNotFound)
    ensures r.Status() == 404 <==> forall o :: o in store.rows ==> o.id != id
    ensures r.Status() == 200 <==> exists o :: o in store.rows && o.id == id
    ensures r.Ok? ==> r.record in store.rows && r.record.id == id
    ensures r.Ok? ==> Some(r.record) == FindById(store.rows, id)
  {
    var task := store.GetToDoById(id);
    if task.None? {
      return NotFound(TaskNotFound);
    }
    r := Ok(task.value);
  }
}
