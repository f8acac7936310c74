/** The status dialog of the dashboard: a form with the chosen status, a
    comment, who ordered the change and the "skip next automatic free
    report" flag. Submitting requires a non-blank "ordered by" and hands
    status, comment and flag to the matrix's status update. */
module StatusDialog {
  import opened Domain
  import Text

  /** The arguments `onSubmit` receives. */
  datatype Submission = Submission(status: StatusKind, comment: string, skipAutoFree: bool)

  class StatusForm {
    var status: StatusKind
    var comment: string
    var orderedBy: string
    var skipAutoFree: bool

    constructor ()
      ensures status == Free && comment == "" && orderedBy == "" && !skipAutoFree
    {
      status, comment, orderedBy, skipAutoFree := Free, "", "", false;
    }

    /** The effect on `currentData`: a present cell loads its status and
      comment; an absent one leaves the form as it is. */
    method SyncFromCell(current: Option<Cell>)
      modifies this`status, this`comment
      ensures current.Some? ==> status == current.value.status && comment == current.value.comment
      ensures current.None? ==> status == old(status) && comment == old(comment)
    {
      if current.Some? {
        status := current.value.status;
        comment := current.value.comment;
      }
    }

    /** `handleSubmit`: refuses, changing nothing, while "ordered by" is
      blank after trimming; otherwise emits the status, comment and flag
      and clears "ordered by", the comment and the flag, keeping the status. */
    method Submit() returns (r: Option<Submission>)
      modifies this`comment, this`orderedBy, this`skipAutoFree
      ensures r.None? <==> Text.IsBlank(old(orderedBy))
      ensures r.Some? <==> exists i :: 0 <= i < |old(orderedBy)| && !Text.IsWhitespace(old(orderedBy)[i])
      ensures r.None? ==> comment == old(comment) && orderedBy == old(orderedBy) && skipAutoFree == old(skipAutoFree)
      ensures r.Some? ==> r.value == Submission(status, old(comment), old(skipAutoFree))
      ensures r.Some? ==> comment == "" && orderedBy == "" && !skipAutoFree
    {
      Text.BlankIffAllWhitespace(orderedBy);
      if Text.IsBlank(orderedBy) {
        return None;
      }
      r := Some(Submission(status, comment, skipAutoFree));
      orderedBy, comment, skipAutoFree := "", "", false;
    }
  }
}
