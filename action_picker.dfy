/**
 * The action picker of the wizard (`ActionPicker`): which groups it offers,
 * which catalogue entries it disables, and which group is expanded.
 * `Object.entries` of the group dictionary is taken as a sequence of pairs.
 */
module ActionPicker {
  import opened Wrappers
  import opened AppTypes
  import opened Lists
  import opened ActionUtils
  import opened ActionGroups

  /** The id of wait entries that may be added any number of times. */
  const RepeatableId: string := "W"

  function NotStartGroup(): ((string, Group)) -> bool {
    (e: (string, Group)) => e.0 != StartGroupKey
  }

  /** `.filter(([groupKey]) => groupKey !== 'start')`: every group but `start`, in order. */
  function OfferedGroups(entries: seq<(string, Group)>): (r: seq<(string, Group)>)
    ensures forall i :: 0 <= i < |r| ==> r[i].0 != StartGroupKey
    ensures forall e :: e in r <==> e in entries && e.0 != StartGroupKey
  {
    forall e {
      FilterMembers(entries, NotStartGroup(), e);
    }
    Filter(entries, NotStartGroup())
  }

  /** `isAlreadyAdded`: the entry's id is not `W` and some action of the list has it as its type. */
  predicate IsAlreadyAdded(id: string, actionList: seq<Action>)
    ensures id == RepeatableId || actionList == [] ==> !IsAlreadyAdded(id, actionList)
    ensures IsAlreadyAdded(id, actionList) ==> exists a :: a in actionList && a.actionType == id
  {
    id != RepeatableId && exists i :: 0 <= i < |actionList| && actionList[i].actionType == id
  }

  /** An entry with id `W` is never disabled. */
  lemma RepeatableNeverDisabled(actionList: seq<Action>)
    ensures !IsAlreadyAdded(RepeatableId, actionList)
  {
  }

  /**
   * Once an entry has been added, it is disabled, unless its id is `W`; in
   * particular the default wait entry, whose id is `wait`, can be added only
   * once.
   */
  lemma AddedEntryIsDisabled(c: CatalogAction, freshId: string, actionList: seq<Action>)
    ensures IsAlreadyAdded(c.id, actionList + [CreateNewAction(c, freshId)]) <==> c.id != RepeatableId
  {
    var l := actionList + [CreateNewAction(c, freshId)];
    assert l[|actionList|].actionType == c.id;
  }

  /** An entry whose id no action has as its type stays enabled. */
  lemma UnusedEntryEnabled(id: string, actionList: seq<Action>)
    requires forall i :: 0 <= i < |actionList| ==> actionList[i].actionType != id
    ensures !IsAlreadyAdded(id, actionList)
  {
  }

  /** The expanded group after clicking the header of `key`: collapse when it was expanded, else expand it. */
  function NextExpanded(expanded: Option<string>, key: string): (r: Option<string>)
    ensures r == Some(key) <==> expanded != Some(key)
    ensures r.None? <==> expanded == Some(key)
  {
    if expanded == Some(key) then None else Some(key)
  }

  /** Two clicks on the same collapsed header leave it collapsed. */
  lemma ClickTwice(expanded: Option<string>, key: string)
    requires expanded != Some(key)
    ensures NextExpanded(NextExpanded(expanded, key), key) == None
  {
  }
}
