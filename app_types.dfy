/**
 * The records the web app keeps in React state and exports: actions of a
 * match's sequence, start positions, matches and the catalogue entries the
 * action picker offers. JavaScript objects become datatypes; a property that
 * may be absent (or null) becomes an `Option`; an open-ended object such as
 * an action's `config` becomes a map from property name to value.
 */
module AppTypes {
  import opened Wrappers

  /** A property value of an action's `config`: a number or a string. */
  datatype Value = Num(num: real) | Text(text: string)

  type Config = map<string, Value>

  /** An entry of a match's action sequence (`createNewAction`'s result). */
  datatype Action = Action(id: string, actionType: string, labelText: string, config: Option<Config>, configType: Option<string>)

  /** A match's start position: a key (`S1`, `S0`, legacy `front`, ...) and, for `S0`, a pose. */
  datatype StartPosition = StartPosition(positionType: Option<string>, x: Option<real>, y: Option<real>, theta: Option<real>)

  /** A match as the wizard edits it. */
  datatype Match = Match(id: string, matchNumber: int, partnerTeam: string, alliance: string,
                         startPosition: Option<StartPosition>, actions: seq<Action>)

  /** An entry of the action catalogue (an action group's `actions`). */
  datatype CatalogAction = CatalogAction(id: string, labelText: string, hasConfig: bool,
                                         configType: Option<string>, config: Option<Config>)

  /** The start position `addMatch` gives a new match. */
  const LegacyFront: StartPosition := StartPosition(Some("front"), None, None, None)
}
