/**
 * The small action helpers of the web app: the label an action shows in the
 * sequence list, the guard of a drag-and-drop reorder, and the construction
 * of a sequence entry from a catalogue entry.
 */
module ActionUtils {
  import opened Wrappers
  import opened AppTypes

  /** A property of an action's `config`, `None` when the key is missing. */
  function ConfigValue(config: Config, key: string): (v: Option<Value>)
    ensures v.Some? <==> key in config
    ensures v.Some? ==> v.value == config[key]
  {
    if key in config then Some(config[key]) else None
  }

  /** `config[key] ?? 0`: a missing coordinate reads as the number 0. */
  function CoordinateOrZero(config: Config, key: string): Value {
    ConfigValue(config, key).GetOr(Num(0.0))
  }

  /** A start action whose `config.positionType` is the string `kind`. */
  predicate IsStartOfKind(a: Action, kind: string) {
    && a.configType == Some("start") && a.config.Some?
    && ConfigValue(a.config.value, "positionType") == Some(Text(kind))
  }

  /**
   * `getActionDisplayLabel`. Numbers are rendered by `show` (JavaScript's
   * number-to-string conversion inside the template literal).
   */
  function GetActionDisplayLabel(a: Action, show: Value -> string): (r: string)
    ensures IsStartOfKind(a, "front") ==> r == "Start (Front)"
    ensures IsStartOfKind(a, "back") ==> r == "Start (Back)"
    ensures IsStartOfKind(a, "custom") ==>
      var c := a.config.value;
      r == "Start (" + show(CoordinateOrZero(c, "x")) + ", " + show(CoordinateOrZero(c, "y")) + ", "
           + show(CoordinateOrZero(c, "theta")) + "°)"
    ensures !IsStartOfKind(a, "front") && !IsStartOfKind(a, "back") && !IsStartOfKind(a, "custom") ==>
      r == a.labelText
  {
    if a.configType == Some("start") && a.config.Some? then
      var c := a.config.value;
      match ConfigValue(c, "positionType")
      case Some(Text(kind)) =>
        if kind == "front" then "Start (Front)"
        else if kind == "back" then "Start (Back)"
        else if kind == "custom" then
          "Start (" + show(CoordinateOrZero(c, "x")) + ", " + show(CoordinateOrZero(c, "y")) + ", "
          + show(CoordinateOrZero(c, "theta")) + "°)"
        else a.labelText
      case _ => a.labelText
    else a.labelText
  }

  /** Only a start action can show anything but its own label; its config is then irrelevant. */
  lemma OtherActionsShowTheirLabel(a: Action, config: Option<Config>, show: Value -> string)
    requires a.configType != Some("start")
    ensures GetActionDisplayLabel(a.(config := config), show) == a.labelText
  {
  }

  /** The rendering of numbers matters only for a custom start. */
  lemma RenderingOnlyForCustom(a: Action, f: Value -> string, g: Value -> string)
    requires !IsStartOfKind(a, "custom")
    ensures GetActionDisplayLabel(a, f) == GetActionDisplayLabel(a, g)
  {
  }

  /** A custom start with no coordinates shows all three as 0. */
  lemma CustomStartWithoutPose(a: Action, show: Value -> string)
    requires a.configType == Some("start") && a.config == Some(map["positionType" := Text("custom")])
    ensures GetActionDisplayLabel(a, show) ==
      "Start (" + show(Num(0.0)) + ", " + show(Num(0.0)) + ", " + show(Num(0.0)) + "°)"
  {
    assert IsStartOfKind(a, "custom");
    assert "x" !in a.config.value && "y" !in a.config.value && "theta" !in a.config.value;
  }

  /**
   * `isValidReorder`: a reorder needs a real source element; the target is
   * not checked beyond the `-1` of "no target".
   */
  predicate IsValidReorder<T>(list: seq<T>, from: int, to: int)
    ensures IsValidReorder(list, from, to) ==> 0 <= from < |list| && to != -1
    ensures from == -1 || to == -1 ==> !IsValidReorder(list, from, to)
  {
    from != -1 && to != -1 && 0 <= from < |list|
  }

  /** The guard looks at the target only to reject `-1`. */
  lemma ReorderTargetUnchecked<T>(list: seq<T>, from: int, to: int, to': int)
    requires to != -1 && to' != -1
    ensures IsValidReorder(list, from, to) <==> IsValidReorder(list, from, to')
  {
  }

  /** The reorder is refused exactly for a `-1`, or for a source outside the list. */
  lemma ReorderRefusals<T>(list: seq<T>, from: int, to: int)
    ensures !IsValidReorder(list, from, to) <==> from == -1 || to == -1 || from < 0 || from >= |list|
  {
  }

  /** The configuration a new entry starts with. */
  const WaitConfig: Config := map["waitTime" := Num(0.0)]

  /**
   * `createNewAction`: the entry appended to a match's sequence for catalogue
   * entry `c`; `freshId` stands for `crypto.randomUUID()`.
   */
  function CreateNewAction(c: CatalogAction, freshId: string): (r: Action)
    ensures r.id == freshId && r.actionType == c.id && r.labelText == c.labelText && r.configType == c.configType
    ensures r.config.Some? <==> c.hasConfig && c.configType == Some("wait")
    ensures r.config.Some? ==> r.config.value == WaitConfig
  {
    var config := if c.hasConfig && c.configType == Some("wait") then Some(WaitConfig) else None;
    Action(freshId, c.id, c.labelText, config, c.configType)
  }

  /** The catalogue entry's own `config` is never copied: the default wait entry gets none. */
  lemma DefaultWaitGetsNoConfig(freshId: string)
    ensures CreateNewAction(CatalogAction("wait", "Wait", false, None, Some(WaitConfig)), freshId).config == None
  {
  }

  /** Two entries made from the same catalogue entry differ only in their id. */
  lemma CreatedEntriesDifferOnlyInId(c: CatalogAction, id1: string, id2: string)
    ensures CreateNewAction(c, id1).(id := id2) == CreateNewAction(c, id2)
  {
  }
}
