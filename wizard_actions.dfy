/**
 * The match wizard (`useWizardActions`): the step it shows and the edits of
 * the current match's action sequence and start position, each made by
 * `updateMatch` on the match store. An edit that reads the current match
 * while there is none throws a `TypeError` in the app; the methods report
 * that as `thrown` and change nothing.
 */
module WizardActions {
  import opened Wrappers
  import opened AppTypes
  import opened Lists
  import opened ActionUtils
  import opened Matches

  /** The last step of the wizard (steps 0 to 3). */
  const LastStep: int := 3

  /** `action => action.id === id`. */
  function ActionHasId(id: string): Action -> bool {
    (a: Action) => a.id == id
  }

  /** `action => action.id !== id`. */
  function ActionLacksId(id: string): Action -> bool {
    (a: Action) => a.id != id
  }

  /** `removeAction`'s list: every action with that id is dropped, the others keep their order. */
  function RemoveActionById(actions: seq<Action>, id: string): (r: seq<Action>)
    ensures forall i :: 0 <= i < |r| ==> r[i].id != id
    ensures forall a :: a in r <==> a in actions && a.id != id
  {
    forall a {
      FilterMembers(actions, ActionLacksId(id), a);
    }
    var r := Filter(actions, ActionLacksId(id));
    assert forall i :: 0 <= i < |r| ==> ActionLacksId(id)(r[i]);
    r
  }

  /** Removing an id no action has changes nothing. */
  lemma RemoveUnknownAction(actions: seq<Action>, id: string)
    requires forall i :: 0 <= i < |actions| ==> actions[i].id != id
    ensures RemoveActionById(actions, id) == actions
  {
    FilterKeepsAll(actions, ActionLacksId(id));
  }

  /** The neighbour `moveAction` swaps with: the one before for `'up'`, the one after for anything else. */
  function MoveTarget(index: int, direction: string): int {
    if direction == "up" then index - 1 else index + 1
  }

  /** `moveAction`'s list: swap the first action with that id and its neighbour, if both exist. */
  function MoveAction(actions: seq<Action>, id: string, direction: string): (r: seq<Action>)
    ensures var k := FirstIndex(actions, ActionHasId(id)); var t := MoveTarget(k, direction);
      if k < |actions| && 0 <= t < |actions| then r == Swap(actions, k, t) else r == actions
    ensures multiset(r) == multiset(actions)
  {
    var k := FirstIndex(actions, ActionHasId(id));
    var t := MoveTarget(k, direction);
    if k < |actions| && 0 <= t < |actions| then
      SwapTwice(actions, k, t);
      Swap(actions, k, t)
    else actions
  }

  /** Moving an action up and then down again restores the list. */
  lemma {:induction false} MoveUpThenDown(actions: seq<Action>, id: string)
    requires FirstIndex(actions, ActionHasId(id)) < |actions| && FirstIndex(actions, ActionHasId(id)) > 0
    ensures MoveAction(MoveAction(actions, id, "up"), id, "down") == actions
  {
    var k := FirstIndex(actions, ActionHasId(id));
    var moved := Swap(actions, k, k - 1);
    assert MoveAction(actions, id, "up") == moved;
    FirstIndexAt(moved, ActionHasId(id), k - 1);
    assert MoveTarget(k - 1, "down") == k;
    SwapTwice(actions, k, k - 1);
    assert Swap(moved, k - 1, k) == Swap(moved, k, k - 1);
  }

  /** The action at either end cannot move past it. */
  lemma MoveAtEndsIsNoOp(actions: seq<Action>, id: string)
    requires actions != []
    ensures actions[0].id == id ==> MoveAction(actions, id, "up") == actions
    ensures FirstIndex(actions, ActionHasId(id)) == |actions| - 1 ==> MoveAction(actions, id, "down") == actions
  {
    if actions[0].id == id {
      FirstIndexAt(actions, ActionHasId(id), 0);
    }
  }

  /** `{ ...action.config, [key]: value }`: a missing config spreads as `{}`. */
  function SetConfigKey(a: Action, key: string, value: Value): (r: Action)
    ensures r.config.Some? && key in r.config.value && r.config.value[key] == value
    ensures forall k :: k != key ==> (k in r.config.value <==> a.config.Some? && k in a.config.value)
    ensures forall k :: k != key && k in r.config.value ==> r.config.value[k] == a.config.value[k]
    ensures r.(config := a.config) == a
  {
    a.(config := Some(a.config.GetOr(map[])[key := value]))
  }

  /** `updateActionConfig`'s list: only `config[key]` of the actions with that id changes. */
  function UpdateActionConfig(actions: seq<Action>, id: string, key: string, value: Value): (r: seq<Action>)
    ensures |r| == |actions|
    ensures forall i :: 0 <= i < |actions| ==>
      r[i] == if actions[i].id == id then SetConfigKey(actions[i], key, value) else actions[i]
  {
    seq(|actions|, i requires 0 <= i < |actions| =>
      if actions[i].id == id then SetConfigKey(actions[i], key, value) else actions[i])
  }

  lemma SetConfigKeyTwice(a: Action, key: string, v1: Value, v2: Value)
    ensures SetConfigKey(SetConfigKey(a, key, v1), key, v2) == SetConfigKey(a, key, v2)
  {
    assert a.config.GetOr(map[])[key := v1][key := v2] == a.config.GetOr(map[])[key := v2];
  }

  /** A second update of the same key wins over the first. */
  lemma UpdateConfigTwice(actions: seq<Action>, id: string, key: string, v1: Value, v2: Value)
    ensures UpdateActionConfig(UpdateActionConfig(actions, id, key, v1), id, key, v2)
            == UpdateActionConfig(actions, id, key, v2)
  {
    var once := UpdateActionConfig(actions, id, key, v1);
    var twice := UpdateActionConfig(once, id, key, v2);
    forall i | 0 <= i < |actions|
      ensures twice[i] == UpdateActionConfig(actions, id, key, v2)[i]
    {
      if actions[i].id == id {
        SetConfigKeyTwice(actions[i], key, v1, v2);
      }
    }
  }

  /** The coordinate `updateStartPositionField` sets. */
  datatype PoseField = X | Y | Theta

  /**
   * `{ ...startPosition, [field]: parseFloat(value) || 0 }`; `parsed` is
   * `parseFloat`'s result, `None` for `NaN`.
   */
  function SetPoseField(p: Option<StartPosition>, field: PoseField, parsed: Option<real>): (r: StartPosition)
    ensures var v := parsed.GetOr(0.0);
      match field
      case X => r.x == Some(v) && r.y == (if p.Some? then p.value.y else None) && r.theta == (if p.Some? then p.value.theta else None)
      case Y => r.y == Some(v) && r.x == (if p.Some? then p.value.x else None) && r.theta == (if p.Some? then p.value.theta else None)
      case Theta => r.theta == Some(v) && r.x == (if p.Some? then p.value.x else None) && r.y == (if p.Some? then p.value.y else None)
    ensures r.positionType == if p.Some? then p.value.positionType else None
  {
    var base := p.GetOr(StartPosition(None, None, None, None));
    var v := parsed.GetOr(0.0);
    match field
    case X => base.(x := Some(v))
    case Y => base.(y := Some(v))
    case Theta => base.(theta := Some(v))
  }

  /** `canGoNext`. */
  function CanGoNext(step: int, current: Option<Match>): (r: bool)
    ensures current.None? ==> !r
    ensures current.Some? && step == 0 ==> (r <==> current.value.matchNumber > 0 && current.value.alliance != "")
    ensures current.Some? && step == 1 ==>
      (r <==> !(current.value.startPosition.Some? && current.value.startPosition.value.positionType == Some("")))
    ensures current.Some? && step != 0 && step != 1 ==> r
  {
    if current.None? then false
    else if step == 0 then current.value.matchNumber > 0 && current.value.alliance != ""
    else if step == 1 then
      match current.value.startPosition
      case None => true
      case Some(p) => p.positionType != Some("")
    else true
  }

  /** A match from `addMatch` can always leave the first two steps. */
  lemma NewMatchCanGoNext(id: string, number: int)
    requires number > 0
    ensures CanGoNext(0, Some(NewMatch(id, number))) && CanGoNext(1, Some(NewMatch(id, number)))
  {
  }

  /** The state of `useWizardActions` over a match store. */
  class Wizard {
    var currentStep: int
    var expandedGroup: Option<string>
    const store: MatchStore

    predicate Valid()
      reads this`currentStep
    {
      0 <= currentStep <= LastStep
    }

    constructor (store: MatchStore)
      ensures this.store == store && currentStep == 0 && expandedGroup == None && Valid()
    {
      this.store := store;
      currentStep := 0;
      expandedGroup := None;
    }

    /** `matchesHook.currentMatchId` is truthy: present and not the empty string. */
    predicate HasCurrentId()
      reads store`currentMatchId
    {
      store.currentMatchId.Some? && store.currentMatchId.value != ""
    }

    /** `updateCurrentMatch`: ignored without a current id. */
    method UpdateCurrentMatch(u: MatchUpdate)
      modifies store`matches
      ensures HasCurrentId() ==> store.matches == UpdateAll(old(store.matches), store.currentMatchId.value, u)
      ensures !HasCurrentId() ==> store.matches == old(store.matches)
    {
      if HasCurrentId() {
        store.UpdateMatch(store.currentMatchId.value, u);
      }
    }

    /** `addAction`: the current match's actions with one new entry for `c` at the end. */
    method AddAction(c: CatalogAction, freshId: string) returns (thrown: bool)
      modifies store`matches
      ensures thrown <==> old(store.GetCurrentMatch()).None?
      ensures thrown ==> store.matches == old(store.matches)
      ensures !thrown && HasCurrentId() ==>
        store.matches == UpdateAll(old(store.matches), store.currentMatchId.value,
                                   ActionsUpdate(old(store.GetCurrentMatch()).value.actions + [CreateNewAction(c, freshId)]))
      ensures !HasCurrentId() ==> store.matches == old(store.matches)
    {
      var current := store.GetCurrentMatch();
      if current.None? {
        return true;
      }
      UpdateCurrentMatch(ActionsUpdate(current.value.actions + [CreateNewAction(c, freshId)]));
      return false;
    }

    /** `removeAction`. */
    method RemoveAction(id: string) returns (thrown: bool)
      modifies store`matches
      ensures thrown <==> old(store.GetCurrentMatch()).None?
      ensures thrown ==> store.matches == old(store.matches)
      ensures !thrown && HasCurrentId() ==>
        store.matches == UpdateAll(old(store.matches), store.currentMatchId.value,
                                   ActionsUpdate(RemoveActionById(old(store.GetCurrentMatch()).value.actions, id)))
      ensures !HasCurrentId() ==> store.matches == old(store.matches)
    {
      var current := store.GetCurrentMatch();
      if current.None? {
        return true;
      }
      UpdateCurrentMatch(ActionsUpdate(RemoveActionById(current.value.actions, id)));
      return false;
    }

    /** `moveAction`; an unknown id or a move past either end does not update the match at all. */
    method MoveActionOf(id: string, direction: string) returns (thrown: bool)
      modifies store`matches
      ensures thrown <==> old(store.GetCurrentMatch()).None?
      ensures thrown ==> store.matches == old(store.matches)
      ensures !thrown ==>
        var actions := old(store.GetCurrentMatch()).value.actions;
        var k := FirstIndex(actions, ActionHasId(id));
        var t := MoveTarget(k, direction);
        if k < |actions| && 0 <= t < |actions| && HasCurrentId() then
          store.matches == UpdateAll(old(store.matches), store.currentMatchId.value, ActionsUpdate(Swap(actions, k, t)))
        else store.matches == old(store.matches)
    {
      var current := store.GetCurrentMatch();
      if current.None? {
        return true;
      }
      var actions := current.value.actions;
      var k := FirstIndex(actions, ActionHasId(id));
      var t := MoveTarget(k, direction);
      if k < |actions| && 0 <= t < |actions| {
        UpdateCurrentMatch(ActionsUpdate(MoveAction(actions, id, direction)));
      }
      return false;
    }

    /** `updateActionConfig`. */
    method UpdateActionConfigOf(id: string, key: string, value: Value) returns (thrown: bool)
      modifies store`matches
      ensures thrown <==> old(store.GetCurrentMatch()).None?
      ensures thrown ==> store.matches == old(store.matches)
      ensures !thrown && HasCurrentId() ==>
        store.matches == UpdateAll(old(store.matches), store.currentMatchId.value,
                                   ActionsUpdate(UpdateActionConfig(old(store.GetCurrentMatch()).value.actions, id, key, value)))
      ensures !HasCurrentId() ==> store.matches == old(store.matches)
    {
      var current := store.GetCurrentMatch();
      if current.None? {
        return true;
      }
      UpdateCurrentMatch(ActionsUpdate(UpdateActionConfig(current.value.actions, id, key, value)));
      return false;
    }

    /** `clearAll`; `confirmed` is the answer to the confirmation dialog. */
    method ClearAll(confirmed: bool)
      modifies store`matches
      ensures confirmed && HasCurrentId() ==>
        store.matches == UpdateAll(old(store.matches), store.currentMatchId.value, ActionsUpdate([]))
      ensures !confirmed || !HasCurrentId() ==> store.matches == old(store.matches)
    {
      if confirmed {
        UpdateCurrentMatch(ActionsUpdate([]));
      }
    }

    /** `updateStartPositionField`. */
    method UpdateStartPositionField(field: PoseField, parsed: Option<real>) returns (thrown: bool)
      modifies store`matches
      ensures thrown <==> old(store.GetCurrentMatch()).None?
      ensures thrown ==> store.matches == old(store.matches)
      ensures !thrown && HasCurrentId() ==>
        store.matches == UpdateAll(old(store.matches), store.currentMatchId.value,
                                   StartPositionUpdate(SetPoseField(old(store.GetCurrentMatch()).value.startPosition, field, parsed)))
      ensures !HasCurrentId() ==> store.matches == old(store.matches)
    {
      var current := store.GetCurrentMatch();
      if current.None? {
        return true;
      }
      UpdateCurrentMatch(StartPositionUpdate(SetPoseField(current.value.startPosition, field, parsed)));
      return false;
    }

    /** `canGoNext` for the current step and match. */
    function CanGoNextNow(): (r: bool)
      reads this`currentStep, store
      ensures r == CanGoNext(currentStep, store.GetCurrentMatch())
    {
      CanGoNext(currentStep, store.GetCurrentMatch())
    }

    /** `handleNext`: one step on, but not past the last. */
    method HandleNext()
      modifies this`currentStep
      ensures currentStep == if old(currentStep) < LastStep then old(currentStep) + 1 else old(currentStep)
      ensures old(Valid()) ==> Valid()
    {
      if currentStep < LastStep {
        currentStep := currentStep + 1;
      }
    }

    /** `handlePrev`: one step back, but not before the first. */
    method HandlePrev()
      modifies this`currentStep
      ensures currentStep == if old(currentStep) > 0 then old(currentStep) - 1 else old(currentStep)
      ensures old(Valid()) ==> Valid()
    {
      if currentStep > 0 {
        currentStep := currentStep - 1;
      }
    }
  }
}
