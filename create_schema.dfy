/** The body validator of the create route: a required title of at most 127
    characters, an optional description of at most 1000, an optional
    date-time string, and a completion flag that defaults to false. */
module CreateSchema {
  import opened Objectives
  import opened DateTimeFormat

  const TitleMaxLength := 127
  const DescriptionMaxLength := 1000

  /** The body as sent; `None` marks an absent field. */
  datatype CreateInput = CreateInput(
    title: Option<string>,
    description: Option<string>,
    notifyAt: Option<string>,
    isCompleted: Option<bool>)

  /** The body as the handler receives it once validated. */
  datatype CreateBody = CreateBody(
    title: string,
    description: Option<string>,
    notifyAt: Option<string>,
    isCompleted: bool)

  predicate CreateValid(i: CreateInput) {
    && i.title.Some? && |i.title.value| <= TitleMaxLength
    && (i.description.Some? ==> |i.description.value| <= DescriptionMaxLength)
    && (i.notifyAt.Some? ==> IsDateTime(i.notifyAt.value))
  }

  /** Validation, with the completion flag's default filled in. */
  function ParseCreate(i: CreateInput): (r: Option<CreateBody>)
    ensures r.Some? <==> CreateValid(i)
    ensures r.Some? ==> r.value.title == i.title.value && |r.value.title| <= TitleMaxLength
    ensures r.Some? ==> r.value.description == i.description && r.value.notifyAt == i.notifyAt
    ensures r.Some? ==> (r.value.isCompleted <==> i.isCompleted == Some(true))
  {
    if CreateValid(i) then
      Some(CreateBody(i.title.value, i.description, i.notifyAt, i.isCompleted.GetOr(false)))
    else None
  }

  /** The body sent with every field spelled out. */
  function AsInput(b: CreateBody): CreateInput {
    CreateInput(Some(b.title), b.description, b.notifyAt, Some(b.isCompleted))
  }

  /** A validated body, sent again in full, validates to itself. */
  lemma ParseAsInputRoundTrip(i: CreateInput)
    requires CreateValid(i)
    ensures ParseCreate(AsInput(ParseCreate(i).value)) == ParseCreate(i)
  {
  }

  /** An empty title is accepted: there is no minimum length. */
  lemma EmptyTitleAccepted()
    ensures ParseCreate(CreateInput(Some(""), None, None, None)) == Some(CreateBody("", None, None, false))
  {
  }
}
