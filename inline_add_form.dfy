/**
 * The inline add form (`InlineAddForm`): one label field checked as it is
 * typed against the labels already in use, and submitted trimmed. The
 * component's props (`showForm`, `existingLabels`, `itemType` and the
 * default label computed from `nextKey`) are parameters of the operations.
 */
module InlineAddForm {
  import opened Wrappers
  import opened Strings

  const EmptyLabelError: string := "Label cannot be empty"

  /** The message for a label that is already in use. */
  function DuplicateError(itemType: string, trimmed: string): string {
    "A " + ToLower(itemType) + " with the label \"" + trimmed + "\" already exists. Please use a unique label."
  }

  /** Some existing label equals `trimmed` once it is trimmed itself and both are lower-cased. */
  predicate IsDuplicate(trimmed: string, existing: seq<string>) {
    exists i :: 0 <= i < |existing| && ToLower(Trim(existing[i])) == ToLower(trimmed)
  }

  /** The validation effect's verdict on a label: empty, duplicate, or `None` for no error. */
  function ValidationError(labelText: string, existing: seq<string>, itemType: string): (r: Option<string>)
    ensures Trim(labelText) == [] ==> r == Some(EmptyLabelError)
    ensures Trim(labelText) != [] && IsDuplicate(Trim(labelText), existing) ==> r == Some(DuplicateError(itemType, Trim(labelText)))
    ensures r.None? <==> Trim(labelText) != [] && !IsDuplicate(Trim(labelText), existing)
  {
    var trimmed := Trim(labelText);
    if trimmed == [] then Some(EmptyLabelError)
    else if IsDuplicate(trimmed, existing) then Some(DuplicateError(itemType, trimmed))
    else None
  }

  /** An entry that differs from an existing label only in surrounding whitespace and ASCII case is refused as a duplicate. */
  lemma SameLabelIsDuplicate(existing: seq<string>, i: int, labelText: string, itemType: string)
    requires 0 <= i < |existing| && Trim(labelText) != []
    requires ToLower(Trim(existing[i])) == ToLower(Trim(labelText))
    ensures ValidationError(labelText, existing, itemType) == Some(DuplicateError(itemType, Trim(labelText)))
  {
  }

  /** The form's own state: the typed label and the current error. */
  class InlineForm {
    var labelText: string
    var error: Option<string>

    constructor ()
      ensures labelText == "" && error.None?
    {
      labelText := "";
      error := None;
    }

    /** `canSubmit`: no error and a label that is not blank. */
    predicate CanSubmit()
      reads this
    {
      error.None? && |Trim(labelText)| > 0
    }

    /** The opening effect: the default label for the next key, and no error. */
    method Open(defaultLabel: string)
      modifies this
      ensures labelText == defaultLabel && error.None?
    {
      labelText := defaultLabel;
      error := None;
    }

    /** The validation effect, run after each change of the label or the props; nothing while the form is hidden. */
    method Validate(showForm: bool, existing: seq<string>, itemType: string)
      modifies this`error
      ensures showForm ==> error == ValidationError(labelText, existing, itemType)
      ensures !showForm ==> error == old(error)
    {
      if showForm {
        error := ValidationError(labelText, existing, itemType);
      }
    }

    /** Typing into the field, followed by the validation effect. */
    method Edit(newLabel: string, showForm: bool, existing: seq<string>, itemType: string)
      modifies this
      ensures labelText == newLabel
      ensures showForm ==> error == ValidationError(newLabel, existing, itemType)
      ensures !showForm ==> error == old(error)
    {
      labelText := newLabel;
      Validate(showForm, existing, itemType);
    }

    /** `handleSubmit`: hands on the trimmed label exactly when the form can be submitted. */
    method Submit() returns (added: Option<string>)
      ensures added.Some? <==> CanSubmit()
      ensures added.Some? ==> added.value == Trim(labelText)
    {
      if error.Some? || Trim(labelText) == [] {
        return None;
      }
      return Some(Trim(labelText));
    }

    /** `handleCancel`: clears the label and the error, then the parent is told. */
    method Cancel()
      modifies this
      ensures labelText == "" && error.None?
    {
      labelText := "";
      error := None;
    }

    /** `handleKeyDown`: Enter submits when it can, Escape cancels, other keys do nothing. */
    method KeyDown(key: string) returns (added: Option<string>, cancelled: bool)
      modifies this
      ensures key == "Enter" ==> !cancelled && added == (if old(CanSubmit()) then Some(Trim(old(labelText))) else None)
      ensures key == "Enter" ==> labelText == old(labelText) && error == old(error)
      ensures key == "Escape" ==> cancelled && added.None? && labelText == "" && error.None?
      ensures key != "Enter" && key != "Escape" ==> !cancelled && added.None? && labelText == old(labelText) && error == old(error)
    {
      added, cancelled := None, false;
      if key == "Enter" && error.None? && Trim(labelText) != [] {
        added := Submit();
      } else if key == "Escape" {
        Cancel();
        cancelled := true;
      }
    }
  }

  /**
   * After the validation effect has run on the shown form, a label is handed
   * on exactly when it is not blank and no existing label matches it, so the
   * label handed on is never one already in use.
   */
  lemma SubmittedLabelIsUnique(labelText: string, existing: seq<string>, itemType: string)
    ensures ValidationError(labelText, existing, itemType).None? && |Trim(labelText)| > 0
      <==> Trim(labelText) != [] && !IsDuplicate(Trim(labelText), existing)
    ensures ValidationError(labelText, existing, itemType).None? ==>
      forall i :: 0 <= i < |existing| ==> ToLower(Trim(existing[i])) != ToLower(Trim(labelText))
  {
  }
}
