/** The body validator of the update route: every field optional, a title of
    1 to 255 characters, a description of at most 1000, a date-time string,
    a boolean. It declares no `id` field. */
module UpdateSchema {
  import opened Objectives
  import opened DateTimeFormat
  import CreateSchema

  const TitleMinLength := 1
  const TitleMaxLength := 255
  const DescriptionMaxLength := 1000

  datatype UpdateInput = UpdateInput(
    title: Option<string>,
    description: Option<string>,
    notifyAt: Option<string>,
    isCompleted: Option<bool>)

  predicate UpdateValid(u: UpdateInput) {
    && (u.title.Some? ==> TitleMinLength <= |u.title.value| <= TitleMaxLength)
    && (u.description.Some? ==> |u.description.value| <= DescriptionMaxLength)
    && (u.notifyAt.Some? ==> IsDateTime(u.notifyAt.value))
  }

  /** The empty patch is valid. */
  lemma EmptyPatchValid()
    ensures UpdateValid(UpdateInput(None, None, None, None))
  {
  }

  /** A title is accepted by both routes exactly when it has 1 to 127 characters. */
  lemma TitleAcceptedByBoth(t: string)
    ensures (CreateSchema.CreateValid(CreateSchema.CreateInput(Some(t), None, None, None))
             && UpdateValid(UpdateInput(Some(t), None, None, None)))
        <==> 1 <= |t| <= 127
  {
  }

  /** A title of 128 to 255 characters can be set by an update but not at creation. */
  lemma LongTitleOnlyOnUpdate(t: string)
    requires 128 <= |t| <= 255
    ensures UpdateValid(UpdateInput(Some(t), None, None, None))
    ensures !CreateSchema.CreateValid(CreateSchema.CreateInput(Some(t), None, None, None))
  {
  }

  /** The empty title can be given at creation but not set by an update. */
  lemma EmptyTitleOnlyOnCreate()
    ensures CreateSchema.CreateValid(CreateSchema.CreateInput(Some(""), None, None, None))
    ensures !UpdateValid(UpdateInput(Some(""), None, None, None))
  {
  }

  /** Apart from the title, a body valid for creation is a valid update. */
  lemma CreateFieldsPassUpdate(i: CreateSchema.CreateInput)
    requires CreateSchema.CreateValid(i) && |i.title.value| >= TitleMinLength
    ensures UpdateValid(UpdateInput(i.title, i.description, i.notifyAt, i.isCompleted))
  {
  }
}
