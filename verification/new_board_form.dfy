/** The new-board form: two text fields, a validating submit that emits the
    raw field values, and a reset after emitting. */
module NewBoardForm {
  import opened Wrappers
  import opened JsText

  /** The form's input state. */
  datatype Fields = Fields(title: string, owner: string)

  /** The payload handed to the parent's `onBoardSubmit`. */
  datatype NewBoard = NewBoard(title: string, owner: string)

  /** The fields after a submit, and the payload it emitted, if any. */
  datatype Submitted = Submitted(fields: Fields, emitted: Option<NewBoard>)

  /** Both fields empty, as at mount and after a successful submit. */
  const Cleared := Fields("", "")

  /** `handleTitleChange`: the title takes the typed value; the owner stays. */
  function HandleTitleChange(f: Fields, value: string): (r: Fields)
    ensures r.title == value && r.owner == f.owner
  {
    f.(title := value)
  }

  /** `handleOwnerChange`: the owner takes the typed value; the title stays. */
  function HandleOwnerChange(f: Fields, value: string): (r: Fields)
    ensures r.owner == value && r.title == f.title
  {
    f.(owner := value)
  }

  /** `handleSubmit`: blocked, with nothing emitted and nothing changed, when
      the trimmed title or the trimmed owner is empty, that is when either is
      all whitespace; otherwise the untrimmed values are emitted once and both
      fields are cleared. */
  function HandleSubmit(f: Fields): (r: Submitted)
    ensures r.emitted.None? <==> AllWhitespace(f.title) || AllWhitespace(f.owner)
    ensures r.emitted.None? ==> r.fields == f
    ensures r.emitted.Some? ==> r.emitted.value == NewBoard(f.title, f.owner) && r.fields == Cleared
  {
    if |Trim(f.title)| == 0 || |Trim(f.owner)| == 0 then Submitted(f, None)
    else Submitted(Cleared, Some(NewBoard(f.title, f.owner)))
  }

  /** Submitting again straight after a submit emits nothing: either the first
      was blocked and the fields are as they were, or it emitted and the
      fields are empty. */
  lemma SecondSubmitEmitsNothing(f: Fields)
    ensures HandleSubmit(HandleSubmit(f).fields).emitted.None?
    ensures HandleSubmit(HandleSubmit(f).fields).fields == HandleSubmit(f).fields
  {
    var first := HandleSubmit(f);
    if first.emitted.Some? {
      assert AllWhitespace(first.fields.title);
    }
  }

  /** A payload the form emits has a title and an owner that each contain a
      character other than whitespace. */
  lemma EmittedIsNotBlank(f: Fields)
    requires HandleSubmit(f).emitted.Some?
    ensures exists i :: 0 <= i < |HandleSubmit(f).emitted.value.title|
                        && !IsWhitespace(HandleSubmit(f).emitted.value.title[i])
    ensures exists i :: 0 <= i < |HandleSubmit(f).emitted.value.owner|
                        && !IsWhitespace(HandleSubmit(f).emitted.value.owner[i])
  {
  }
}
