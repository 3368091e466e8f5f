/**
 * The save-template dialog of the web app (`useTemplateModal`): its two
 * visibility flags and the typed name, and the save that hands the current
 * configuration to the preset list.
 */
module TemplateModal {
  import opened Wrappers
  import opened Strings
  import opened Presets

  /** The alert shown for a blank template name. */
  const BlankNameAlert: string := "Please enter a template name"

  class TemplateDialog {
    var showSaveTemplate: bool
    var showLoadTemplate: bool
    var templateName: string

    constructor ()
      ensures !showSaveTemplate && !showLoadTemplate && templateName == ""
    {
      showSaveTemplate := false;
      showLoadTemplate := false;
      templateName := "";
    }

    /**
     * `handleSaveTemplate`: a blank name raises the alert and changes
     * nothing; any other name is saved (which then always succeeds, since
     * the preset list applies the same test), after which the name is
     * cleared and the dialog closed.
     */
    method HandleSaveTemplate<C>(store: PresetStore<C>, config: C, now: int) returns (alert: Option<string>)
      modifies this, store
      ensures IsBlankName(old(templateName)) ==>
        && alert == Some(BlankNameAlert)
        && templateName == old(templateName) && showSaveTemplate == old(showSaveTemplate)
        && store.presets == old(store.presets) && store.storage == old(store.storage)
      ensures !IsBlankName(old(templateName)) ==>
        && alert == None
        && Saved(old(store.presets), old(templateName), config, now).Some?
        && store.presets == Saved(old(store.presets), old(templateName), config, now).value
        && store.storage == Some(store.presets)
        && templateName == "" && !showSaveTemplate
      ensures showLoadTemplate == old(showLoadTemplate)
    {
      if IsBlankName(templateName) {
        return Some(BlankNameAlert);
      }
      TrimEmptyIffBlank(templateName);
      var ok := store.SavePreset(templateName, config, now);
      if ok {
        templateName := "";
        showSaveTemplate := false;
      }
      return None;
    }

    /** `closeSaveTemplate`: hide the dialog and forget the typed name. */
    method CloseSaveTemplate()
      modifies this
      ensures !showSaveTemplate && templateName == "" && showLoadTemplate == old(showLoadTemplate)
    {
      showSaveTemplate := false;
      templateName := "";
    }
  }
}
