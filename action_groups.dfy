/**
 * The action catalogue of the web app (`useActionGroups`): a dictionary from
 * group key to a group with a label, an icon and a list of catalogue
 * actions, and the operations that replace it.
 */
module ActionGroups {
  import opened Wrappers
  import opened AppTypes
  import opened Lists

  /**
   * A group object. Each property may be missing: `addActionToGroup` on a
   * missing key creates a group with only `actions`, `renameGroup` one with
   * only `label`.
   */
  datatype Group = Group(labelText: Option<string>, icon: Option<string>, actions: Option<seq<CatalogAction>>)

  type Groups = map<string, Group>

  /** The icon of a custom group. */
  const ToolsIcon: string := "\U{1F6E0}\U{FE0F}"

  /** The key the load-time migration removes. */
  const StartGroupKey: string := "start"

  function Entry(id: string, labelText: string): CatalogAction {
    CatalogAction(id, labelText, false, None, None)
  }

  /** `DEFAULT_ACTION_GROUPS`. */
  const DefaultActionGroups: Groups := map[
    "launch" := Group(Some("Launch"), Some("\U{1F680}"), Some([Entry("near_launch", "Near Launch"), Entry("far_launch", "Far Launch")])),
    "pickup" := Group(Some("Pickup"), Some("\U{1F4E6}"),
                      Some([Entry("spike_1", "Spike 1"), Entry("spike_2", "Spike 2"), Entry("spike_3", "Spike 3"), Entry("corner", "Corner")])),
    "parking" := Group(Some("Parking"), Some("\U{1F17F}\U{FE0F}"), Some([Entry("near_park", "Park (Near)"), Entry("far_park", "Park (Far)")])),
    "other" := Group(Some("Other"), Some(ToolsIcon),
                     Some([Entry("dump", "Dump"), Entry("drive_to", "DriveTo"),
                           CatalogAction("wait", "Wait", false, None, Some(map["waitTime" := Num(0.0)]))]))
  ]

  /** The dictionary the hook starts from: the stored one without a `start` group, or the defaults when nothing valid is stored. */
  function InitialActionGroups(stored: Option<Groups>): (r: Groups)
    ensures StartGroupKey !in r
    ensures stored.None? ==> r == DefaultActionGroups
    ensures stored.Some? ==> forall k :: k != StartGroupKey ==> (k in r <==> k in stored.value) && (k in r ==> r[k] == stored.value[k])
  {
    if stored.None? then DefaultActionGroups else stored.value - {StartGroupKey}
  }

  /** An update of a catalogue action: each present field overrides. */
  datatype ActionUpdate = ActionUpdate(id: Option<string>, labelText: Option<string>, hasConfig: Option<bool>)

  /** `{ ...action, ...updated }`. */
  function MergeAction(a: CatalogAction, u: ActionUpdate): (r: CatalogAction)
    ensures r.id == u.id.GetOr(a.id) && r.labelText == u.labelText.GetOr(a.labelText)
    ensures r.hasConfig == u.hasConfig.GetOr(a.hasConfig)
    ensures r.configType == a.configType && r.config == a.config
  {
    a.(id := u.id.GetOr(a.id), labelText := u.labelText.GetOr(a.labelText), hasConfig := u.hasConfig.GetOr(a.hasConfig))
  }

  /** `addCustomGroup`: nothing for an empty key; otherwise an empty group labelled `label || key` (`title`), replacing any group there. */
  function AddCustomGroup(groups: Groups, key: string, title: string): (r: Groups)
    ensures key == "" ==> r == groups
    ensures key != "" ==> r.Keys == groups.Keys + {key} && r[key].actions == Some([]) && r[key].icon == Some(ToolsIcon)
    ensures key != "" && title != "" ==> r[key].labelText == Some(title)
    ensures key != "" && title == "" ==> r[key].labelText == Some(key)
    ensures forall k :: k in groups && k != key ==> r[k] == groups[k]
  {
    if key == "" then groups
    else groups[key := Group(Some(if title != "" then title else key), Some(ToolsIcon), Some([]))]
  }

  /** `renameGroup`: only that group's label changes (a missing group becomes a label-only group). */
  function RenameGroup(groups: Groups, key: string, newLabel: string): (r: Groups)
    ensures r.Keys == groups.Keys + {key} && r[key].labelText == Some(newLabel)
    ensures key in groups ==> r[key] == groups[key].(labelText := Some(newLabel))
    ensures key !in groups ==> r[key] == Group(Some(newLabel), None, None)
    ensures forall k :: k in groups && k != key ==> r[k] == groups[k]
  {
    var g := if key in groups then groups[key] else Group(None, None, None);
    groups[key := g.(labelText := Some(newLabel))]
  }

  /** `deleteGroup`: removes exactly that key. */
  function DeleteGroup(groups: Groups, key: string): (r: Groups)
    ensures r.Keys == groups.Keys - {key}
    ensures forall k :: k in r ==> r[k] == groups[k]
  {
    groups - {key}
  }

  /** The actions of a group, `[]` when the group or its list is missing (`prev[groupKey]?.actions || []`). */
  function ActionsOf(groups: Groups, key: string): seq<CatalogAction> {
    if key in groups && groups[key].actions.Some? then groups[key].actions.value else []
  }

  /** `addActionToGroup`: appends to the group's list, creating an actions-only group when it is missing. */
  function AddActionToGroup(groups: Groups, key: string, a: CatalogAction): (r: Groups)
    ensures r.Keys == groups.Keys + {key}
    ensures r[key].actions == Some(ActionsOf(groups, key) + [a])
    ensures key in groups ==> r[key].labelText == groups[key].labelText && r[key].icon == groups[key].icon
    ensures key !in groups ==> r[key] == Group(None, None, Some([a]))
    ensures forall k :: k in groups && k != key ==> r[k] == groups[k]
  {
    if key in groups then groups[key := groups[key].(actions := Some(ActionsOf(groups, key) + [a]))]
    else
      assert ActionsOf(groups, key) + [a] == [a];
      groups[key := Group(None, None, Some([a]))]
  }

  /** A custom group shows up empty, and what is then added to it is its whole list. */
  lemma AddToNewCustomGroup(groups: Groups, key: string, title: string, a: CatalogAction)
    requires key != ""
    ensures ActionsOf(AddActionToGroup(AddCustomGroup(groups, key, title), key, a), key) == [a]
  {
  }

  /** Deleting a group that was just created restores the dictionary. */
  lemma DeleteAddedGroup(groups: Groups, key: string, title: string)
    requires key != "" && key !in groups
    ensures DeleteGroup(AddCustomGroup(groups, key, title), key) == groups
  {
  }

  /**
   * The outcome of an operation on one group's list: `Thrown` when the group
   * exists but has no `actions` list (spreading or filtering `undefined`
   * throws a `TypeError` inside the state update).
   */
  datatype Outcome = Updated(groups: Groups) | Thrown

  /**
   * `updateActionInGroup`: merges into the action at `index`; nothing for a
   * missing group or an index outside its list.
   */
  function UpdateActionInGroup(groups: Groups, key: string, index: int, u: ActionUpdate): (r: Outcome)
    ensures r.Thrown? <==> key in groups && groups[key].actions.None?
    ensures key !in groups ==> r == Updated(groups)
    ensures key in groups && groups[key].actions.Some? ==>
      var actions := groups[key].actions.value;
      if 0 <= index < |actions| then
        r == Updated(groups[key := groups[key].(actions := Some(actions[index := MergeAction(actions[index], u)]))])
      else r == Updated(groups)
  {
    if key !in groups then Updated(groups)
    else
      match groups[key].actions
      case None => Thrown
      case Some(actions) =>
        if 0 <= index < |actions| then
          Updated(groups[key := groups[key].(actions := Some(actions[index := MergeAction(actions[index], u)]))])
        else Updated(groups)
  }

  /** `deleteActionInGroup`: removes the action at `index`; nothing for a missing group. */
  function DeleteActionInGroup(groups: Groups, key: string, index: int): (r: Outcome)
    ensures r.Thrown? <==> key in groups && groups[key].actions.None?
    ensures key !in groups ==> r == Updated(groups)
    ensures key in groups && groups[key].actions.Some? ==>
      r == Updated(groups[key := groups[key].(actions := Some(WithoutIndex(groups[key].actions.value, index)))])
  {
    if key !in groups then Updated(groups)
    else
      match groups[key].actions
      case None => Thrown
      case Some(actions) => Updated(groups[key := groups[key].(actions := Some(WithoutIndex(actions, index)))])
  }

  /** Only the group's own list changes: the other groups and its label and icon stay. */
  lemma DeleteActionKeepsRest(groups: Groups, key: string, index: int)
    requires key in groups && groups[key].actions.Some?
    ensures var r := DeleteActionInGroup(groups, key, index).groups;
      && r.Keys == groups.Keys
      && (forall k :: k in groups && k != key ==> r[k] == groups[k])
      && r[key].labelText == groups[key].labelText && r[key].icon == groups[key].icon
  {
  }

  /** A label-only group, as `renameGroup` makes for a missing key, cannot have an action updated or deleted. */
  lemma RenamedMissingGroupThrows(groups: Groups, key: string, title: string, index: int, u: ActionUpdate)
    requires key !in groups
    ensures UpdateActionInGroup(RenameGroup(groups, key, title), key, index, u).Thrown?
    ensures DeleteActionInGroup(RenameGroup(groups, key, title), key, index).Thrown?
  {
  }

  /** The state of `useActionGroups`. */
  class ActionGroupStore {
    var groups: Groups

    constructor (stored: Option<Groups>)
      ensures groups == InitialActionGroups(stored)
    {
      groups := InitialActionGroups(stored);
    }

    method AddCustom(key: string, title: string)
      modifies this
      ensures groups == AddCustomGroup(old(groups), key, title)
    {
      groups := AddCustomGroup(groups, key, title);
    }

    method Rename(key: string, newLabel: string)
      modifies this
      ensures groups == RenameGroup(old(groups), key, newLabel)
    {
      groups := RenameGroup(groups, key, newLabel);
    }

    method Delete(key: string)
      modifies this
      ensures groups == DeleteGroup(old(groups), key)
    {
      groups := DeleteGroup(groups, key);
    }

    method AddAction(key: string, a: CatalogAction)
      modifies this
      ensures groups == AddActionToGroup(old(groups), key, a)
    {
      groups := AddActionToGroup(groups, key, a);
    }

    /** `updateActionInGroup`; `thrown` reports the `TypeError`, after which the dictionary is unchanged. */
    method UpdateAction(key: string, index: int, u: ActionUpdate) returns (thrown: bool)
      modifies this
      ensures thrown <==> UpdateActionInGroup(old(groups), key, index, u).Thrown?
      ensures !thrown ==> groups == UpdateActionInGroup(old(groups), key, index, u).groups
      ensures thrown ==> groups == old(groups)
    {
      var r := UpdateActionInGroup(groups, key, index, u);
      if r.Thrown? {
        return true;
      }
      groups := r.groups;
      return false;
    }

    /** `deleteActionInGroup`; `thrown` reports the `TypeError`, after which the dictionary is unchanged. */
    method DeleteAction(key: string, index: int) returns (thrown: bool)
      modifies this
      ensures thrown <==> DeleteActionInGroup(old(groups), key, index).Thrown?
      ensures !thrown ==> groups == DeleteActionInGroup(old(groups), key, index).groups
      ensures thrown ==> groups == old(groups)
    {
      var r := DeleteActionInGroup(groups, key, index);
      if r.Thrown? {
        return true;
      }
      groups := r.groups;
      return false;
    }
  }
}
