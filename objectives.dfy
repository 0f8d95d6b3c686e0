/** The rows of the `objectives` table and the record that inserts one. */
module Objectives {

  datatype Option<T> = None | Some(value: T) {
    /** The carried value, or `default` when there is none. */
    function GetOr(default: T): T {
      match this
      case Some(v) => v
      case None => default
    }
  }

  type ObjectiveId = string
  type UserId = string

  /** A point in time as a timestamp column holds it; the clock is a parameter. */
  type Timestamp = int

  /** One row of the `objectives` table. */
  datatype Objective = Objective(
    id: ObjectiveId,
    creatorId: UserId,
    title: string,
    description: Option<string>,
    notifyAt: Option<Timestamp>,
    isCompleted: bool,
    createdAt: Timestamp,
    updatedAt: Timestamp)

  /** What `insertObjective` is handed: every column except the generated `id`. */
  datatype Insertable = Insertable(
    creatorId: UserId,
    title: string,
    description: Option<string>,
    notifyAt: Option<Timestamp>,
    isCompleted: bool,
    createdAt: Timestamp,
    updatedAt: Timestamp)

  /** The row the database stores for `e` once it has generated the key `id`. */
  function WithId(e: Insertable, id: ObjectiveId): Objective {
    Objective(id, e.creatorId, e.title, e.description, e.notifyAt, e.isCompleted, e.createdAt, e.updatedAt)
  }
}
