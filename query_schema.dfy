/** The query-string validator of the list route: every field optional,
    `limit` within 1..100, `offset` at least 0, `sortBy` and `sortOrder` from
    fixed sets, `search` and `isCompleted` any string. */
module QuerySchema {
  import opened Objectives

  const LimitMin := 1
  const LimitMax := 100
  const DefaultLimit := 10
  const DefaultOffset := 0
  const DefaultSortBy := "createdAt"
  const DefaultSortOrder := "asc"

  /** The query as received, after coercion to numbers and strings. */
  datatype QueryInput = QueryInput(
    search: Option<string>,
    limit: Option<int>,
    offset: Option<int>,
    sortBy: Option<string>,
    sortOrder: Option<string>,
    isCompleted: Option<string>)

  predicate IsSortField(s: string) {
    s == "title" || s == "createdAt" || s == "notifyAt"
  }

  predicate IsSortDirection(s: string) {
    s == "asc" || s == "desc"
  }

  predicate QueryValid(q: QueryInput) {
    && (q.limit.Some? ==> LimitMin <= q.limit.value <= LimitMax)
    && (q.offset.Some? ==> 0 <= q.offset.value)
    && (q.sortBy.Some? ==> IsSortField(q.sortBy.value))
    && (q.sortOrder.Some? ==> IsSortDirection(q.sortOrder.value))
  }

  /** The query with the defaults the schema declares filled in. */
  function WithDeclaredDefaults(q: QueryInput): (d: QueryInput)
    ensures d.limit.Some? && d.offset.Some? && d.sortBy.Some? && d.sortOrder.Some?
    ensures d.search == q.search && d.isCompleted == q.isCompleted
    ensures d.limit == (if q.limit.Some? then q.limit else Some(DefaultLimit))
    ensures d.offset == (if q.offset.Some? then q.offset else Some(DefaultOffset))
    ensures d.sortBy == (if q.sortBy.Some? then q.sortBy else Some(DefaultSortBy))
    ensures d.sortOrder == (if q.sortOrder.Some? then q.sortOrder else Some(DefaultSortOrder))
    ensures QueryValid(q) ==> QueryValid(d)
  {
    q.(limit := Some(q.limit.GetOr(DefaultLimit)),
       offset := Some(q.offset.GetOr(DefaultOffset)),
       sortBy := Some(q.sortBy.GetOr(DefaultSortBy)),
       sortOrder := Some(q.sortOrder.GetOr(DefaultSortOrder)))
  }

  /** The bounds on each constrained field, with the other fields held valid. */
  lemma FieldBounds(q: QueryInput, n: int, s: string)
    requires QueryValid(q)
    ensures QueryValid(q.(limit := Some(n))) <==> 1 <= n <= 100
    ensures QueryValid(q.(offset := Some(n))) <==> n >= 0
    ensures QueryValid(q.(sortBy := Some(s))) <==> s in {"title", "createdAt", "notifyAt"}
    ensures QueryValid(q.(sortOrder := Some(s))) <==> s in {"asc", "desc"}
  {
  }

  /** `search` and `isCompleted` accept any string, and every field may be left out. */
  lemma FreeTextFieldsUnconstrained(q: QueryInput, search: Option<string>, isCompleted: Option<string>)
    ensures QueryValid(q) <==> QueryValid(q.(search := search, isCompleted := isCompleted))
    ensures QueryValid(QueryInput(search, None, None, None, None, isCompleted))
  {
  }

  /** The empty query is valid and defaults to the first ten rows by creation time, ascending. */
  lemma EmptyQueryDefaults()
    ensures QueryValid(QueryInput(None, None, None, None, None, None))
    ensures WithDeclaredDefaults(QueryInput(None, None, None, None, None, None))
         == QueryInput(None, Some(10), Some(0), Some("createdAt"), Some("asc"), None)
  {
  }
}
