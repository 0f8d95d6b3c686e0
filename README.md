# To-do objectives backend — a Dafny model

This project models the core of a multi-user to-do backend, written in TypeScript with Fastify, Kysely and zod. Users create *objectives* (tasks) and list, look up and update them. The model covers:

- **The objectives table** (`Repository.ObjectiveStore`). It is a class holding the rows in insertion order, with unique ids as its invariant. It has four operations: insert a row under a generated key, patch the row with a given id (refreshing `updatedAt`), look a row up by id, and the list query. The list query filters by a case-insensitive title search and a completion flag, orders by a whitelisted column, and cuts a `LIMIT`/`OFFSET` page. The list query is specified by the function `Repository.ListSpec`; the method builds its result one clause at a time, as the source builds its query.
- **Two ownership guards.**
  - `OwnerGuard` (`app/middleware/check-owner.ts`) answers 404 for a missing objective, 403 for someone else's, and 500 when the lookup fails; otherwise it lets the request through.
  - `AccessGuard` (`app/common/middleware/check-owner.ts`) is a variant that throws a 403 `AccessException`. It does so only when the objective exists and belongs to someone else, so a missing objective passes. Its `checkSharePermission` calls `checkUserAccess` on the objectives repository (`app/common/middleware/check-owner.ts:18`), which that module does not define. The model assumes the lookup succeeds exactly when a record of the `user-objective-shares` table links the objective to the requester.
- **The handlers** (`Controller`): `createToDo`, `updateToDo`, `getToDos` and `getToDoById`. They map repository results to a `Reply`: Created, Ok, NotFound, Unauthorized or InternalError.
- **The zod validators** of the create body, the update body and the list query (`CreateSchema`, `UpdateSchema`, `QuerySchema`), with the date-time string format they share (`DateTimeFormat`).

The clock (`new Date()`) is the parameter `now`. The conversion of a date-time string to a timestamp is the parameter `toTimestamp`. The database-generated key of a new row is the parameter `newId`.

### Behaviour reproduced as the code has it

- **The `isCompleted` list filter is dropped.** The handler turns `"true"`/`"false"` into booleans (`controller.to-do.ts:53`). The repository only recognises the strings (`repository.to-do.ts:41`). So the completion filter never applies on this path. See `Controller.ListIgnoresCompletionParameter` and `Controller.CompletedQueryListsOpenTask`.
- **`updateToDo` takes the id from the body, not the path** (`controller.to-do.ts:29`). The ownership guard checks the path id (`app/middleware/check-owner.ts:7`). So passing the guard on one's own objective lets the body name another user's objective. See `Controller.OwnerGateDoesNotGuardBodyId`. The update schema declares no `id`, so the model takes the body id as optional. An absent id matches no row, because SQL `id = NULL` is never true, and the reply is 404.
- **The list query has no creator condition.** Rows of every creator are returned (`Repository.FullPageHoldsEveryMatch`, `Repository.UnfilteredFullPageIsWholeTable`).
- **The title bounds differ.** Create accepts 0–127 characters; update accepts 1–255 (`UpdateSchema.TitleAcceptedByBoth`, `UpdateSchema.LongTitleOnlyOnUpdate`, `UpdateSchema.EmptyTitleOnlyOnCreate`).
- **The query schema's defaults** are declared as `.default(x).optional()`. The handler repeats the same defaults. `Controller.DeclaredDefaultsAgree` shows that filling the declared defaults in first changes nothing, so the model does not depend on whether zod applies them.

## Model

| member | source | states |
|---|---|---|
| `Repository.ObjectiveStore.InsertObjective` | app/modules/to-do/repository.to-do.ts:6-8 | Appends exactly one row, equal to the returned record, and leaves the earlier rows as they were. A key already taken stores nothing and returns nothing (the insert throws). Unique ids are kept. |
| `Repository.InsertThenFind` | app/modules/to-do/repository.to-do.ts:6-8 | After the insert, the new row is found under its key, ids stay unique, and every other lookup gives what it gave before. |
| `Repository.ObjectiveStore.UpdateObjective` | app/modules/to-do/repository.to-do.ts:10-22 | The new table is the old one with every row of that id patched. A missing id changes nothing and returns nothing. Otherwise it returns the patched row. Rows with other ids are unchanged and ids stay unique. |
| `Repository.PatchOverwritesOnlySuppliedFields` | app/modules/to-do/repository.to-do.ts:13-16 | Each supplied field is overwritten and each absent one kept. `updatedAt` becomes now. id, creator and `createdAt` never change. |
| `Repository.PatchIdempotent` | app/modules/to-do/repository.to-do.ts:13-16 | Applying the same patch twice at the same instant is the same as applying it once. |
| `Repository.UpdateOfMissingIdIsNoOp` | app/modules/to-do/repository.to-do.ts:17-21 | An id that no row carries leaves the table identical, and the update finds nothing. |
| `Repository.UpdateThenFind` | app/modules/to-do/repository.to-do.ts:10-21 | Updating an existing id makes the lookup return the patched row. Ids stay unique, and every other row keeps its value and position. |
| `Repository.FindById` | app/modules/to-do/repository.to-do.ts:53-55 | A found row is a table row with that id. Nothing is found exactly when no row has the id. |
| `Repository.FindByIdUnique` | app/modules/to-do/repository.to-do.ts:53-55 | With unique ids, looking up a row's id returns that very row. |
| `Repository.ObjectiveStore.GetToDoById` | app/modules/to-do/repository.to-do.ts:53-55 | Returns the row with the id or nothing, reads only, and has no `modifies` clause. |
| `Repository.ObjectiveStore.GetToDos` | app/modules/to-do/repository.to-do.ts:33-51 | Builds the list clause by clause. Equals `ListSpec` of the table. Holds at most `limit` rows, each a table row meeting the conditions in force. Changes nothing. |
| `Repository.SearchFilter` | app/modules/to-do/repository.to-do.ts:36-38 | A title condition applies exactly when `search` is present and non-empty, and then it uses that text. |
| `Repository.CompletionFilter` | app/modules/to-do/repository.to-do.ts:40-45 | The completion condition is `true` exactly for the string "true" and `false` exactly for "false". Any other value, including a boolean, adds no condition. |
| `Repository.SortKeyOf` | app/modules/to-do/repository.to-do.ts:35-46 | "title" and "notifyAt" select their columns. Every other name falls back to `createdAt`. |
| `Repository.FilterTitle` | app/modules/to-do/repository.to-do.ts:37 | A row survives exactly when it is in the input and its title contains the search text case-insensitively. The result is a sub-multiset of the input. |
| `Repository.FilterCompleted` | app/modules/to-do/repository.to-do.ts:43 | A row survives exactly when it is in the input and its completion flag equals the one asked for. The result is a sub-multiset of the input. |
| `Repository.Window` | app/modules/to-do/repository.to-do.ts:48 | The page has at most `limit` rows. It is empty past the end, otherwise `min(limit, remaining)` long. Its i-th row is row `offset + i` of the input. |
| `Repository.FilteredIsExactlyTheMatches` | app/modules/to-do/repository.to-do.ts:36-45 | After the WHERE conditions, a row remains exactly when it is in the table and meets every condition in force. None of the conditions mentions the creator. |
| `Repository.NoConditionNoFiltering` | app/modules/to-do/repository.to-do.ts:36-45 | With no search text and no recognised completion value, no rows are filtered out. |
| `Repository.ListedRowsMatch` | app/modules/to-do/repository.to-do.ts:33-50 | Every listed row is a table row meeting the conditions in force, and the page holds at most `limit` rows. |
| `Repository.ListIsOrderedWindow` | app/modules/to-do/repository.to-do.ts:46-48 | The filtered rows are put in order by the chosen key and direction, as a permutation. The page is that ordering's run of rows starting at `offset`, and is itself ordered. |
| `Repository.FullPageHoldsEveryMatch` | app/modules/to-do/repository.to-do.ts:33-50 | A first page at least as large as the table holds exactly the matching rows, whoever created them. |
| `Repository.UnfilteredFullPageIsWholeTable` | app/modules/to-do/repository.to-do.ts:33-50 | With no condition in force, such a page is the whole table as a multiset, covering every creator. |
| `Ordering.SortRowsCorrect` | app/modules/to-do/repository.to-do.ts:47 | Sorting yields a permutation of its input that is ordered by the key in the chosen direction. |
| `Ordering.PrecedesTotal` | app/modules/to-do/repository.to-do.ts:47 | Any two rows can be compared under every key and direction. |
| `Ordering.PrecedesTransitive` | app/modules/to-do/repository.to-do.ts:47 | The order on every key and direction is transitive, including lexicographic order on titles. |
| `TextSearch.ContainsCIIgnoresCase` | app/modules/to-do/repository.to-do.ts:37 | Lower-casing the title or the search text does not change whether it matches. |
| `TextSearch.LiteralOccurrenceMatches` | app/modules/to-do/repository.to-do.ts:37 | A title that contains the search text literally matches. |
| `TextSearch.EmptySearchMatchesEverything` | app/modules/to-do/repository.to-do.ts:37 | `ILIKE '%%'` matches every title. |
| `TextSearch.ExampleMixedCase` | app/modules/to-do/repository.to-do.ts:37 | "milk" matches "Buy MILK today". |
| `OwnerGuard.CheckToDoOwner` | app/middleware/check-owner.ts:6-26 | Proceeds exactly when the objective exists and the requester created it. A missing objective gets 404 "Task not found". Someone else's gets 403. 403 is only given for an existing objective. A failed lookup gets 500 and never proceeds. |
| `OwnerGuard.GatePassesOnlyTheCreator` | app/middleware/check-owner.ts:11-21 | Against the table: it proceeds exactly when a row with the id was created by the requester, and it answers 404 exactly when no row has the id. |
| `OwnerGuard.MissingIsNeverForbidden` | app/middleware/check-owner.ts:13-19 | Whoever asks, a missing objective is answered 404, never 403. |
| `AccessGuard.CheckToDoOwner` | app/common/middleware/check-owner.ts:6-14 | Denies with "You are not owner" and status 403 exactly when the objective exists and someone else created it. A missing objective passes. The creator always passes. |
| `AccessGuard.CheckSharePermission` | app/common/middleware/check-owner.ts:16-22 | Denies with "Access do not issued" and status 403 exactly when no grant links the objective to the requester. |
| `AccessGuard.LenientCheckOnTable` | app/common/middleware/check-owner.ts:9-13 | Against the table: it denies exactly when a row with the id exists and was created by someone else. |
| `AccessGuard.OwnerChecksCompared` | app/common/middleware/check-owner.ts:11-13 | The two ownership checks agree on an existing objective. On a missing one, this check lets it through while the other answers 404. |
| `AccessGuard.AfterObjectiveDeleted` | app/common/migrations/3_create-user-objectives-table.ts:8 | Deleting an objective keeps a subset of the grants. After it, a user has access to an objective exactly when that objective is not the deleted one and the user had access before. |
| `AccessGuard.AfterUserDeleted` | app/common/migrations/3_create-user-objectives-table.ts:7 | Deleting a user keeps a subset of the grants. After it, a user has access to an objective exactly when that user is not the deleted one and had access before. |
| `AccessGuard.DeletedObjectiveGrantsNothing` | app/common/migrations/3_create-user-objectives-table.ts:8 | After the cascade nobody passes the share check for the deleted objective. Access to other objectives is unchanged. |
| `AccessGuard.DeletedUserIsGrantedNothing` | app/common/migrations/3_create-user-objectives-table.ts:7 | After the cascade the deleted user passes no share check. Other users keep their access. |
| `AccessGuard.DeletingOneDuplicateKeepsAccess` | app/common/migrations/3_create-user-objectives-table.ts:5-9 | No uniqueness is declared on the (user, objective) pair. So when two grant rows link the same pair, deleting one of them leaves the share check passing. |
| `Controller.CreateToDo` | app/modules/to-do/controller.to-do.ts:9-26 | The reply is 401 exactly when there is no non-empty user id, and then nothing is inserted. Otherwise the body is stored with the creator forced to the requester and both timestamps set to now. The reply is 201 with the inserted row. A failed insert gives 500 and stores nothing. |
| `Controller.UpdateToDo` | app/modules/to-do/controller.to-do.ts:28-48 | Patches the row named by the body id. The reply is 404 exactly when there is no body id or no such row, and then nothing changes. Otherwise: 200 with the patched row. |
| `Controller.AbsentFieldsUnchanged` | app/modules/to-do/controller.to-do.ts:32-37 | A field left out of the body is left as it was. A title-only body changes just the title and `updatedAt`. |
| `Controller.OwnerGateDoesNotGuardBodyId` | app/modules/to-do/controller.to-do.ts:29-32 | When the guard passes on the path id and the body id names another user's objective, the two ids differ and the update rewrites that other objective. |
| `Controller.ForeignRowReachableThroughOwnedPath` | app/modules/to-do/router.to-do.ts:17 | A concrete two-user table in which the guard passes on the requester's own objective while the body id names the other user's. |
| `Controller.ParseIsCompleted` | app/modules/to-do/controller.to-do.ts:53 | "true" becomes true and "false" becomes false. Every other value, including an absent one, is dropped. |
| `Controller.ListOptionsDefaults` | app/modules/to-do/controller.to-do.ts:52-61 | Absent parameters default to limit 10, offset 0, `createdAt` and ascending. Present ones are passed on. The limit stays within 1..100. |
| `Controller.DeclaredDefaultsAgree` | app/modules/to-do/controller.to-do.ts:52 | Filling in the schema's declared defaults before the handler's own changes nothing. |
| `Controller.ListIgnoresCompletionParameter` | app/modules/to-do/controller.to-do.ts:53-61 | For every valid query, no completion condition reaches the query. The page is the same as with the parameter absent. |
| `Controller.CompletedQueryListsOpenTask` | app/modules/to-do/controller.to-do.ts:53 | `isCompleted=true` still lists a task that is not completed. |
| `Controller.GetToDos` | app/modules/to-do/controller.to-do.ts:50-68 | 200 with the repository's page for the defaulted options. It holds at most 100 table rows. |
| `Controller.GetToDoById` | app/modules/to-do/controller.to-do.ts:70-84 | 404 "Task not found" exactly when no row has the id, and 200 with that row exactly when one has it. |
| `CreateSchema.ParseCreate` | app/modules/to-do/schema/create-to-do.schema.ts:4-9 | Accepted exactly when a title of at most 127 characters is present, any description has at most 1000, and any `notifyAt` is a date-time string. `isCompleted` is true only when sent as true, and false by default. |
| `CreateSchema.ParseAsInputRoundTrip` | app/modules/to-do/schema/create-to-do.schema.ts:4-9 | A validated body, sent again with every field spelled out, validates to itself. |
| `CreateSchema.EmptyTitleAccepted` | app/modules/to-do/schema/create-to-do.schema.ts:5 | The empty title is accepted at creation, since there is no minimum length. |
| `UpdateSchema.EmptyPatchValid` | app/modules/to-do/schema/update-to-do.schema.ts:4-9 | Every field is optional, so the empty patch is valid. |
| `UpdateSchema.TitleAcceptedByBoth` | app/modules/to-do/schema/update-to-do.schema.ts:5 | A title passes both the create and the update validator exactly when it has 1 to 127 characters. |
| `UpdateSchema.LongTitleOnlyOnUpdate` | app/modules/to-do/schema/update-to-do.schema.ts:5 | A title of 128 to 255 characters passes update validation and fails create validation. |
| `UpdateSchema.EmptyTitleOnlyOnCreate` | app/modules/to-do/schema/update-to-do.schema.ts:5 | The empty title passes create validation and fails update validation. |
| `UpdateSchema.CreateFieldsPassUpdate` | app/modules/to-do/schema/update-to-do.schema.ts:5-8 | A body valid for creation with a non-empty title is a valid update: the description, date-time and boolean rules are the same. |
| `QuerySchema.WithDeclaredDefaults` | app/modules/to-do/schema/query-to-do.schema.ts:4-9 | Fills in limit 10, offset 0, `createdAt` and `asc` for absent fields. Keeps the present fields, `search` and `isCompleted`. Keeps a valid query valid. |
| `QuerySchema.FieldBounds` | app/modules/to-do/schema/query-to-do.schema.ts:5-8 | With the other fields valid, a `limit` is accepted exactly when it lies in 1..100, an `offset` exactly when it is at least 0, a `sortBy` exactly when it is `title`, `createdAt` or `notifyAt`, and a `sortOrder` exactly when it is `asc` or `desc`. |
| `QuerySchema.FreeTextFieldsUnconstrained` | app/modules/to-do/schema/query-to-do.schema.ts:4-9 | `search` and `isCompleted` never affect whether a query is valid. Every field may be left out. |
| `QuerySchema.EmptyQueryDefaults` | app/modules/to-do/schema/query-to-do.schema.ts:4-9 | The empty query is valid and defaults to the first ten rows by creation time, ascending. |
| `DateTimeFormat.AcceptsWholeSeconds` | app/modules/to-do/schema/create-to-do.schema.ts:7 | "2024-05-01T09:30:00Z" is accepted. |
| `DateTimeFormat.AcceptsFractions` | app/modules/to-do/schema/update-to-do.schema.ts:7 | "2024-05-01T09:30:00.125Z" is accepted. |
| `DateTimeFormat.RejectsSpaceSeparator` | app/modules/to-do/schema/update-to-do.schema.ts:7 | A space instead of `T` is rejected. |
| `DateTimeFormat.RejectsNumericOffset` | app/modules/to-do/schema/update-to-do.schema.ts:7 | An offset other than `Z` is rejected. |

## Left out

- Share, revoke, list-grants and delete handlers: the router names `shareToDo`, `revokeToDoAccess`, `listToDoGrants` and `deleteToDo` (`router.to-do.ts:18,21-23`), but the controller does not define them. They are not part of this model, and no behaviour is invented for them.
- `checkUserAccess` and `checkTaskExists` are not part of this model. `checkSharePermission` takes the set of grant records as an abstract relation, and "access found" means some record links the objective to the user.
- Router wiring and `@fastify/auth` guard combination: not modelled. The guards and handlers are modelled separately. The one concrete route shape used is a single guard ahead of the update handler.
- Mail delivery (`app/common/utils/mailer.ts`): an SMTP side effect whose errors are logged and swallowed. It has no state the model could observe.
- Async execution, logging and database failures: only the failures the source distinguishes are modelled. These are a lookup failure in the ownership guard (500) and a failed insert in `createToDo` (500, taken to be a primary-key clash on the generated key). Other database errors, including a missing creator user, are not modelled.
- TextSearch.ContainsCI: ILIKE wildcards `%` and `_` inside the search text are treated as literal characters. Only ASCII A–Z is case-folded, not full Unicode case folding.
- Ordering.LexLe: titles are ordered by code point, not by the database collation. Ties are broken by the insertion sort, which keeps equal rows in table order. The database promises no tie order, so `ListSpec` and every member stated by it fix one tie order that a real query need not follow; only sortedness and permutation hold for any order.
- Ordering.KeyLe: a missing `notifyAt` sorts after every timestamp. This is the database default, last when ascending and first when descending.
- `createToDo` reads the clock twice, for `createdAt` and `updatedAt`. The model uses one reading `now` for both.
- `new Date(notifyAt)` and the database's parsing of the stored string are the opaque parameter `toTimestamp`.
- QuerySchema.QueryInput: `limit` and `offset` are integers. zod's number coercion of non-numeric or fractional strings is not modelled.
- DateTimeFormat.IsDateTime: models the shape check of `z.string().datetime()`. The month, day and hour range checks that some zod releases add are not modelled.
- String lengths are counted in Unicode characters, not in the UTF-16 code units zod counts.
- `Repository.Patch` carries only the four fields the handler passes. Kysely's dropping of undefined values from the SET list is assumed: absent means not supplied.
- Removal of unknown body keys by zod: whether the body `id` survives validation depends on how the framework applies the parse result. The model takes the body id as optional.
- Cascade deletion of grants is modelled on the grant records alone. Deleting objectives and users from their own tables is not modelled, because the delete handler is not part of this model.
- Ids as uuids: `ObjectiveId` and `UserId` are strings compared exactly. The id columns are `uuid` (`app/common/migrations/3_create-user-objectives-table.ts:6-8`). The database treats other spellings of one uuid, such as upper case, as equal, and it rejects text that is not a uuid with an error. For such an id `updateToDo` would answer 500 (`controller.to-do.ts:44-46`) where `Controller.UpdateToDo` answers 404. The guards, which run on routes with unvalidated path ids (`router.to-do.ts:17`), would answer 500 or throw where the model looks the id up and finds nothing.
- Missing user in the guards: `OwnerGuard.CheckToDoOwner` and `AccessGuard.CheckToDoOwner` take the requester's id as always present. The source reads `req.user.id` before its `try` (`app/middleware/check-owner.ts:8`), so a request without a user throws outside the 500 path. That case is not modelled.
