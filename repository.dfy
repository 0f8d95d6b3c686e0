/** The objectives table and the four queries the handlers run against it:
    insert a row, patch the row with a given id, look a row up by id, and
    list rows filtered by title and completion, ordered and paged. */
module Repository {
  import opened Objectives
  import opened TextSearch
  import opened Ordering

  // ---------------------------------------------------------------------------
  // Lookup by id
  // ---------------------------------------------------------------------------

  /** The primary key: no two rows share an id. */
  ghost predicate UniqueIds(rows: seq<Objective>) {
    forall i, j :: 0 <= i < j < |rows| ==> rows[i].id != rows[j].id
  }

  /** `SELECT * FROM objectives WHERE id = <id>`, first row. */
  function FindById(rows: seq<Objective>, id: ObjectiveId): (r: Option<Objective>)
    ensures r.Some? ==> r.value in rows && r.value.id == id
    ensures r.None? <==> forall o :: o in rows ==> o.id != id
  {
    if rows == [] then None
    else if rows[0].id == id then Some(rows[0])
    else FindById(rows[1..], id)
  }

  /** With unique ids, the lookup finds exactly the row carrying the id. */
  lemma FindByIdUnique(rows: seq<Objective>, o: Objective)
    requires UniqueIds(rows) && o in rows
    ensures FindById(rows, o.id) == Some(o)
  {
  }

  /** Appending a row changes the lookup only for an id that was absent. */
  lemma {:induction false} FindByIdAppend(rows: seq<Objective>, x: Objective, id: ObjectiveId)
    ensures FindById(rows + [x], id) ==
      if FindById(rows, id).Some? then FindById(rows, id)
      else if x.id == id then Some(x)
      else None
  {
    if rows != [] {
      assert (rows + [x])[1..] == rows[1..] + [x];
      FindByIdAppend(rows[1..], x, id);
    }
  }

  // ---------------------------------------------------------------------------
  // Insert
  // ---------------------------------------------------------------------------

  /** A row whose key is still free is found under that key once appended,
      the key stays unique, and every other lookup is as before. */
  lemma InsertThenFind(rows: seq<Objective>, e: Insertable, id: ObjectiveId)
    requires UniqueIds(rows) && FindById(rows, id).None?
    ensures UniqueIds(rows + [WithId(e, id)])
    ensures FindById(rows + [WithId(e, id)], id) == Some(WithId(e, id))
    ensures forall other :: other != id ==> FindById(rows + [WithId(e, id)], other) == FindById(rows, other)
  {
    FindByIdAppend(rows, WithId(e, id), id);
    forall other | other != id
      ensures FindById(rows + [WithId(e, id)], other) == FindById(rows, other)
    {
      FindByIdAppend(rows, WithId(e, id), other);
    }
    var r := rows + [WithId(e, id)];
    forall i, j | 0 <= i < j < |r|
      ensures r[i].id != r[j].id
    {
      if j == |rows| {
        assert r[i] in rows;
      }
    }
  }

  // ---------------------------------------------------------------------------
  // Partial update
  // ---------------------------------------------------------------------------

  /** The columns `updateObjective` is asked to overwrite; `None` marks a field
      that was not supplied and is therefore dropped from the SET list. */
  datatype Patch = Patch(
    title: Option<string>,
    description: Option<string>,
    notifyAt: Option<Timestamp>,
    isCompleted: Option<bool>)

  /** `SET ...updates, updatedAt = now` applied to one row. */
  function ApplyPatch(o: Objective, p: Patch, now: Timestamp): Objective {
    o.(title := p.title.GetOr(o.title),
       description := if p.description.Some? then p.description else o.description,
       notifyAt := if p.notifyAt.Some? then p.notifyAt else o.notifyAt,
       isCompleted := p.isCompleted.GetOr(o.isCompleted),
       updatedAt := now)
  }

  /** Every supplied field is overwritten, every absent one is kept, the
      timestamp is refreshed, and the key, owner and creation time never move. */
  lemma PatchOverwritesOnlySuppliedFields(o: Objective, p: Patch, now: Timestamp)
    ensures var r := ApplyPatch(o, p, now);
      && r.id == o.id && r.creatorId == o.creatorId && r.createdAt == o.createdAt
      && r.updatedAt == now
      && (p.title.Some? ==> r.title == p.title.value)
      && (p.title.None? ==> r.title == o.title)
      && (p.description.Some? ==> r.description == p.description)
      && (p.description.None? ==> r.description == o.description)
      && (p.notifyAt.Some? ==> r.notifyAt == p.notifyAt)
      && (p.notifyAt.None? ==> r.notifyAt == o.notifyAt)
      && (p.isCompleted.Some? ==> r.isCompleted == p.isCompleted.value)
      && (p.isCompleted.None? ==> r.isCompleted == o.isCompleted)
  {
  }

  /** Sending the same patch again at the same instant changes nothing more. */
  lemma PatchIdempotent(o: Objective, p: Patch, now: Timestamp)
    ensures ApplyPatch(ApplyPatch(o, p, now), p, now) == ApplyPatch(o, p, now)
  {
  }

  /** `UPDATE objectives SET ... WHERE id = <id>`: every row with the id is patched. */
  function UpdatedRows(rows: seq<Objective>, id: ObjectiveId, p: Patch, now: Timestamp): seq<Objective> {
    seq(|rows|, i requires 0 <= i < |rows| => if rows[i].id == id then ApplyPatch(rows[i], p, now) else rows[i])
  }

  /** An update with an id no row carries leaves the table as it was and returns nothing. */
  lemma UpdateOfMissingIdIsNoOp(rows: seq<Objective>, id: ObjectiveId, p: Patch, now: Timestamp)
    requires FindById(rows, id).None?
    ensures UpdatedRows(rows, id, p, now) == rows
    ensures FindById(UpdatedRows(rows, id, p, now), id).None?
  {
  }

  /** An update on an existing id patches that row, keeps the ids unique, and
      leaves every other row as it was. */
  lemma UpdateThenFind(rows: seq<Objective>, id: ObjectiveId, p: Patch, now: Timestamp, o: Objective)
    requires UniqueIds(rows) && FindById(rows, id) == Some(o)
    ensures UniqueIds(UpdatedRows(rows, id, p, now))
    ensures FindById(UpdatedRows(rows, id, p, now), id) == Some(ApplyPatch(o, p, now))
    ensures |UpdatedRows(rows, id, p, now)| == |rows|
    ensures forall i :: 0 <= i < |rows| && rows[i] != o ==> UpdatedRows(rows, id, p, now)[i] == rows[i]
  {
    var r := UpdatedRows(rows, id, p, now);
    var k :| 0 <= k < |rows| && rows[k] == o;
    assert forall i :: 0 <= i < |rows| && rows[i].id == id ==> i == k;
    assert r[k] == ApplyPatch(o, p, now);
    FindByIdUnique(r, r[k]);
  }

  // ---------------------------------------------------------------------------
  // The list query
  // ---------------------------------------------------------------------------

  /** `options.isCompleted`: absent, a boolean, or a string. */
  datatype CompletionArg = Unset | AsBool(flag: bool) | AsText(text: string)

  /** The options `getToDos` receives. */
  datatype ListOptions = ListOptions(
    search: Option<string>,
    limit: nat,
    offset: nat,
    sortBy: string,
    sortOrder: SortOrder,
    isCompleted: CompletionArg)

  /** The title filter in force: only a present, non-empty search text adds one. */
  function SearchFilter(search: Option<string>): (r: Option<string>)
    ensures r.Some? <==> search.Some? && search.value != ""
    ensures r.Some? ==> r == search
  {
    match search
    case Some(s) => if s != "" then Some(s) else None
    case None => None
  }

  /** The completion filter in force: only the exact strings "true" and
      "false" add one; a boolean or any other string adds none. */
  function CompletionFilter(arg: CompletionArg): (r: Option<bool>)
    ensures r == Some(true) <==> arg == AsText("true")
    ensures r == Some(false) <==> arg == AsText("false")
    ensures r.None? <==> arg != AsText("true") && arg != AsText("false")
  {
    match arg
    case AsText(t) => if t == "true" then Some(true) else if t == "false" then Some(false) else None
    case _ => None
  }

  /** The ORDER BY column: a name outside the whitelist falls back to createdAt. */
  function SortKeyOf(sortBy: string): (k: SortKey)
    ensures k == Title <==> sortBy == "title"
    ensures k == NotifyAt <==> sortBy == "notifyAt"
    ensures sortBy != "title" && sortBy != "notifyAt" ==> k == CreatedAt
  {
    if sortBy == "title" then Title
    else if sortBy == "notifyAt" then NotifyAt
    else CreatedAt
  }

  /** `WHERE title ILIKE '%s%'`. */
  function FilterTitle(rows: seq<Objective>, s: string): (r: seq<Objective>)
    ensures forall x :: x in r <==> x in rows && ContainsCI(x.title, s)
    ensures multiset(r) <= multiset(rows) && |r| <= |rows|
  {
    if rows == [] then []
    else
      assert rows == [rows[0]] + rows[1..];
      (if ContainsCI(rows[0].title, s) then [rows[0]] else []) + FilterTitle(rows[1..], s)
  }

  /** `WHERE isCompleted = b`. */
  function FilterCompleted(rows: seq<Objective>, b: bool): (r: seq<Objective>)
    ensures forall x :: x in r <==> x in rows && x.isCompleted == b
    ensures multiset(r) <= multiset(rows) && |r| <= |rows|
  {
    if rows == [] then []
    else
      assert rows == [rows[0]] + rows[1..];
      (if rows[0].isCompleted == b then [rows[0]] else []) + FilterCompleted(rows[1..], b)
  }

  /** The conditions a listed row meets; note that none mentions the creator. */
  predicate Matches(o: Objective, options: ListOptions) {
    && (SearchFilter(options.search).Some? ==> ContainsCI(o.title, SearchFilter(options.search).value))
    && (CompletionFilter(options.isCompleted).Some? ==> o.isCompleted == CompletionFilter(options.isCompleted).value)
  }

  /** The rows left after the WHERE conditions, added one after the other. */
  function Filtered(rows: seq<Objective>, options: ListOptions): seq<Objective> {
    var bySearch :=
      match SearchFilter(options.search)
      case Some(s) => FilterTitle(rows, s)
      case None => rows;
    match CompletionFilter(options.isCompleted)
    case Some(b) => FilterCompleted(bySearch, b)
    case None => bySearch
  }

  /** `LIMIT limit OFFSET offset`. */
  function Window(s: seq<Objective>, offset: nat, limit: nat): (w: seq<Objective>)
    ensures |w| <= limit
    ensures offset >= |s| ==> w == []
    ensures offset < |s| ==> |w| == (if limit <= |s| - offset then limit else |s| - offset)
    ensures forall i :: 0 <= i < |w| ==> offset + i < |s| && w[i] == s[offset + i]
  {
    if offset >= |s| then []
    else s[offset .. if offset + limit <= |s| then offset + limit else |s|]
  }

  /** The filtered rows in the requested order, before paging. */
  function Ordered(rows: seq<Objective>, options: ListOptions): seq<Objective> {
    SortRows(Filtered(rows, options), SortKeyOf(options.sortBy), options.sortOrder)
  }

  /** What `getToDos` returns. */
  function ListSpec(rows: seq<Objective>, options: ListOptions): seq<Objective> {
    Window(Ordered(rows, options), options.offset, options.limit)
  }

  /** A row survives the WHERE conditions exactly when it is in the table and
      meets every condition in force. */
  lemma FilteredIsExactlyTheMatches(rows: seq<Objective>, options: ListOptions)
    ensures forall x :: x in Filtered(rows, options) <==> x in rows && Matches(x, options)
  {
  }

  /** No search text and no recognised completion value: no WHERE condition at all. */
  lemma NoConditionNoFiltering(rows: seq<Objective>, options: ListOptions)
    requires SearchFilter(options.search).None? && CompletionFilter(options.isCompleted).None?
    ensures Filtered(rows, options) == rows
  {
  }

  /** Every listed row is a table row meeting the conditions, and the page
      holds at most `limit` rows. */
  lemma ListedRowsMatch(rows: seq<Objective>, options: ListOptions)
    ensures |ListSpec(rows, options)| <= options.limit
    ensures forall x :: x in ListSpec(rows, options) ==> x in rows && Matches(x, options)
  {
    var f := Filtered(rows, options);
    var o := SortRows(f, SortKeyOf(options.sortBy), options.sortOrder);
    var w := Window(o, options.offset, options.limit);
    assert w == ListSpec(rows, options);
    SortRowsCorrect(f, SortKeyOf(options.sortBy), options.sortOrder);
    FilteredIsExactlyTheMatches(rows, options);
    forall x | x in w
      ensures x in f
    {
      var i :| 0 <= i < |w| && w[i] == x;
      assert o[options.offset + i] == x;
      assert x in multiset(o);
    }
  }

  /** The page is a run of consecutive rows, starting at `offset`, of an
      ordering of the filtered rows by the chosen key and direction. */
  lemma ListIsOrderedWindow(rows: seq<Objective>, options: ListOptions)
    ensures Sorted(SortKeyOf(options.sortBy), options.sortOrder, Ordered(rows, options))
    ensures multiset(Ordered(rows, options)) == multiset(Filtered(rows, options))
    ensures Sorted(SortKeyOf(options.sortBy), options.sortOrder, ListSpec(rows, options))
    ensures forall i :: 0 <= i < |ListSpec(rows, options)| ==>
      ListSpec(rows, options)[i] == Ordered(rows, options)[options.offset + i]
  {
    SortRowsCorrect(Filtered(rows, options), SortKeyOf(options.sortBy), options.sortOrder);
    var o := Ordered(rows, options);
    var w := ListSpec(rows, options);
    forall i, j | 0 <= i < j < |w|
      ensures Precedes(SortKeyOf(options.sortBy), options.sortOrder, w[i], w[j])
    {
      assert w[i] == o[options.offset + i] && w[j] == o[options.offset + j];
    }
  }

  /** A first page large enough for the table holds every matching row,
      whoever created it: the query never restricts by creator. */
  lemma FullPageHoldsEveryMatch(rows: seq<Objective>, options: ListOptions)
    requires options.offset == 0 && options.limit >= |rows|
    ensures forall x :: x in ListSpec(rows, options) <==> x in rows && Matches(x, options)
  {
    var f := Filtered(rows, options);
    SortRowsCorrect(f, SortKeyOf(options.sortBy), options.sortOrder);
    ListedRowsMatch(rows, options);
    assert |f| <= |rows|;
    assert ListSpec(rows, options) == Ordered(rows, options);
    forall x | x in rows && Matches(x, options)
      ensures x in ListSpec(rows, options)
    {
      FilteredIsExactlyTheMatches(rows, options);
      assert x in multiset(f);
    }
  }

  /** With no condition in force, a large enough first page returns the whole
      table: the rows of every creator, each as often as it is stored. */
  lemma UnfilteredFullPageIsWholeTable(rows: seq<Objective>, options: ListOptions)
    requires SearchFilter(options.search).None? && CompletionFilter(options.isCompleted).None?
    requires options.offset == 0 && options.limit >= |rows|
    ensures multiset(ListSpec(rows, options)) == multiset(rows)
  {
    SortRowsCorrect(rows, SortKeyOf(options.sortBy), options.sortOrder);
    assert ListSpec(rows, options) == Ordered(rows, options);
  }

  // ---------------------------------------------------------------------------
  // The table
  // ---------------------------------------------------------------------------

  /** The `objectives` table, held in insertion order. */
  class ObjectiveStore {
    var rows: seq<Objective>

    ghost predicate Valid()
      reads this
    {
      UniqueIds(rows)
    }

    constructor ()
      ensures Valid() && rows == []
    {
      rows := [];
    }

    /** `insertObjective`: adds the row under the generated key `id` and returns
        it; a key already taken violates the primary key and nothing is stored. */
    method InsertObjective(entity: Insertable, id: ObjectiveId) returns (r: Option<Objective>)
      requires Valid()
      modifies this
      ensures Valid()
      ensures FindById(old(rows), id).Some? ==> r.None? && rows == old(rows)
      ensures FindById(old(rows), id).None? ==>
        r == Some(WithId(entity, id)) && rows == old(rows) + [WithId(entity, id)]
      ensures r.Some? ==> FindById(rows, id) == r
    {
      if FindById(rows, id).Some? {
        r := None;
      } else {
        InsertThenFind(rows, entity, id);
        var row := WithId(entity, id);
        rows := rows + [row];
        r := Some(row);
      }
    }

    /** `updateObjective`: patches the row with key `id`, refreshing `updatedAt`,
        and returns the updated row; with no such row it returns nothing. */
    method UpdateObjective(id: ObjectiveId, updates: Patch, now: Timestamp) returns (r: Option<Objective>)
      requires Valid()
      modifies this
      ensures Valid()
      ensures rows == UpdatedRows(old(rows), id, updates, now)
      ensures old(FindById(rows, id)).None? ==> r.None? && rows == old(rows)
      ensures old(FindById(rows, id)).Some? ==> r == Some(ApplyPatch(old(FindById(rows, id)).value, updates, now))
      ensures forall i :: 0 <= i < |rows| && old(rows)[i].id != id ==> rows[i] == old(rows)[i]
    {
      match FindById(rows, id) {
        case None =>
          UpdateOfMissingIdIsNoOp(rows, id, updates, now);
        case Some(o) =>
          UpdateThenFind(rows, id, updates, now, o);
      }
      rows := UpdatedRows(rows, id, updates, now);
      r := FindById(rows, id);
    }

    /** `getToDos`: the query is built up one clause at a time. */
    method GetToDos(options: ListOptions) returns (r: seq<Objective>)
      ensures r == ListSpec(rows, options)
      ensures |r| <= options.limit
      ensures forall x :: x in r ==> x in rows && Matches(x, options)
    {
      var query := rows;
      match SearchFilter(options.search) {
        case Some(s) => query := FilterTitle(query, s);
        case None =>
      }
      match CompletionFilter(options.isCompleted) {
        case Some(b) => query := FilterCompleted(query, b);
        case None =>
      }
      query := SortRows(query, SortKeyOf(options.sortBy), options.sortOrder);
      query := Window(query, options.offset, options.limit);
      ListedRowsMatch(rows, options);
      r := query;
    }

    /** `getToDoById`: the row with key `id`, if any. */
    method GetToDoById(id: ObjectiveId) returns (r: Option<Objective>)
      ensures r.Some? ==> r.value in rows && r.value.id == id
      ensures r.None? <==> forall o :: o in rows ==> o.id != id
      ensures r == FindById(rows, id)
    {
      r := FindById(rows, id);
    }
  }
}
