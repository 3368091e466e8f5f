/**
 * The two-field add form (`AddItemForm`): an id and a label typed by the
 * user, handed on trimmed when the id is not blank, as two arguments or as
 * one `{ id, label }` object.
 */
module AddItemForm {
  import opened Wrappers
  import opened Strings

  /** What `onAdd` is called with. */
  datatype Submission = Separate(id: string, labelText: string) | AsObject(id: string, labelText: string)

  /** `label.trim() || id.trim()`. */
  function SubmittedLabel(id: string, labelText: string): (r: string)
    ensures Trim(labelText) != [] ==> r == Trim(labelText)
    ensures Trim(labelText) == [] ==> r == Trim(id)
  {
    if Trim(labelText) != [] then Trim(labelText) else Trim(id)
  }

  /** `handleSubmit`'s decision: nothing for a blank id, else the trimmed id and label in the shape `separateArgs` selects. */
  function SubmitDecision(id: string, labelText: string, separateArgs: bool): (r: Option<Submission>)
    ensures r.None? <==> Trim(id) == []
    ensures r.Some? ==> r.value.Separate? == separateArgs
    ensures r.Some? ==> r.value.id == Trim(id) && r.value.labelText == SubmittedLabel(id, labelText)
  {
    if Trim(id) == [] then None
    else if separateArgs then Some(Separate(Trim(id), SubmittedLabel(id, labelText)))
    else Some(AsObject(Trim(id), SubmittedLabel(id, labelText)))
  }

  /** An accepted submission never carries a blank id or label, whatever the label field held. */
  lemma AcceptedFieldsNotBlank(id: string, labelText: string, separateArgs: bool)
    requires SubmitDecision(id, labelText, separateArgs).Some?
    ensures SubmitDecision(id, labelText, separateArgs).value.id != []
    ensures SubmitDecision(id, labelText, separateArgs).value.labelText != []
  {
  }

  /** A form is refused exactly when its id field holds only whitespace. */
  lemma RefusedIffBlankId(id: string, labelText: string, separateArgs: bool)
    ensures SubmitDecision(id, labelText, separateArgs).None? <==> forall i :: 0 <= i < |id| ==> IsJsWhitespace(id[i])
  {
    TrimEmptyIffBlank(id);
  }

  /** The two shapes carry the same id and label. */
  lemma ShapesAgree(id: string, labelText: string)
    requires Trim(id) != []
    ensures SubmitDecision(id, labelText, true).value.id == SubmitDecision(id, labelText, false).value.id
    ensures SubmitDecision(id, labelText, true).value.labelText == SubmitDecision(id, labelText, false).value.labelText
  {
  }

  /** The form's two input fields. */
  class Form {
    var id: string
    var labelText: string

    constructor ()
      ensures id == "" && labelText == ""
    {
      id := "";
      labelText := "";
    }

    /** `handleSubmit`: both fields are cleared only when the submission is accepted. */
    method Submit(separateArgs: bool) returns (r: Option<Submission>)
      modifies this
      ensures r == SubmitDecision(old(id), old(labelText), separateArgs)
      ensures r.Some? ==> id == "" && labelText == ""
      ensures r.None? ==> id == old(id) && labelText == old(labelText)
    {
      r := SubmitDecision(id, labelText, separateArgs);
      if r.Some? {
        id := "";
        labelText := "";
      }
    }

    /** `handleKeyPress`: Enter submits; any other key does nothing. */
    method KeyPress(key: string, separateArgs: bool) returns (r: Option<Submission>)
      modifies this
      ensures key != "Enter" ==> r.None? && id == old(id) && labelText == old(labelText)
      ensures key == "Enter" ==> r == SubmitDecision(old(id), old(labelText), separateArgs)
      ensures key == "Enter" && r.Some? ==> id == "" && labelText == ""
      ensures key == "Enter" && r.None? ==> id == old(id) && labelText == old(labelText)
    {
      r := None;
      if key == "Enter" {
        r := Submit(separateArgs);
      }
    }
  }
}
