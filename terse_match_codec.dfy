/**
 * The robot-side terse codec (`TerseMatchCodec`): a match becomes
 * `{number}{R|B}S{id}{W<sec> | A<id>}*` and the decoder scans such a text back
 * with a cursor. The start position is one of the fixed ids 1, 2, 3, 4, 9 and
 * an action is one of a fixed catalogue of ten ids.
 *
 * Java exceptions are the `Failure` case of a `Result`; a Java `int` is an
 * `int` that the parser keeps in 32 bits and whose product is wrapped.
 */
module TerseMatchCodec {
  import opened Wrappers
  import opened Strings
  import opened MatchData
  import PoseEncoder

  /** The exceptions `encode` and `decode` can throw on their inputs. */
  datatype JavaException =
    | NullPointerException
    | StringIndexOutOfBoundsException
    | NumberFormatException(input: string)

  // The fixed catalogues

  /** The action types of ids 1 to 10, in order. */
  const CatalogTypes: seq<string> := ["near_launch", "far_launch", "spike_1", "spike_2", "spike_3",
                                      "near_park", "far_park", "dump", "corner", "drive_to"]

  /** The labels `decodeActionFromId` gives ids 1 to 10, in order. */
  const CatalogLabels: seq<string> := ["Near Launch", "Far Launch", "Spike 1", "Spike 2", "Spike 3",
                                       "Near Park", "Far Park", "Dump", "Corner", "Drive To"]

  /** The start-position types the codec knows, in id order 1, 2, 3, 4, 9. */
  const StartTypes: seq<string> := ["front", "back", "left", "right", "custom"]

  /** The id written for each of `StartTypes`. */
  const StartIds: seq<int> := [1, 2, 3, 4, 9]

  /** `getActionId`: the catalogue id of a type, 99 for any other. */
  function GetActionId(actionType: string): (id: int)
    ensures 1 <= id <= 10 ==> CatalogTypes[id - 1] == actionType
    ensures id == 99 <==> actionType !in CatalogTypes
    ensures 1 <= id <= 10 || id == 99
  {
    if actionType == "near_launch" then 1
    else if actionType == "far_launch" then 2
    else if actionType == "spike_1" then 3
    else if actionType == "spike_2" then 4
    else if actionType == "spike_3" then 5
    else if actionType == "near_park" then 6
    else if actionType == "far_park" then 7
    else if actionType == "dump" then 8
    else if actionType == "corner" then 9
    else if actionType == "drive_to" then 10
    else 99
  }

  /** `decodeActionFromId`: the catalogue entry of an id, `unknown` for any other; no config. */
  function DecodeActionFromId(id: int): (a: Action)
    ensures a.waitTime.None?
    ensures 1 <= id <= 10 ==> a.actionType == CatalogTypes[id - 1] && a.labelText == CatalogLabels[id - 1]
    ensures !(1 <= id <= 10) ==> a.actionType == "unknown" && a.labelText == "Unknown"
  {
    if 1 <= id <= 10 then Action(CatalogTypes[id - 1], CatalogLabels[id - 1], None)
    else Action("unknown", "Unknown", None)
  }

  /** `encodeStartPosition`: the id of the lower-cased type, 1 for any other. */
  function EncodeStartPosition(pos: StartPosition): (id: int)
    ensures id in StartIds
    ensures ToLower(pos.positionType) !in StartTypes ==> id == 1
  {
    var t := ToLower(pos.positionType);
    if t == "front" then 1
    else if t == "back" then 2
    else if t == "left" then 3
    else if t == "right" then 4
    else if t == "custom" then 9
    else 1
  }

  /** `decodeStartPosition`: the type of a known id, `front` for any other. */
  function DecodeStartPosition(id: int): (pos: StartPosition)
    ensures pos.positionType in StartTypes
    ensures id !in StartIds ==> pos.positionType == "front"
  {
    if id == 2 then StartPosition("back")
    else if id == 3 then StartPosition("left")
    else if id == 4 then StartPosition("right")
    else if id == 9 then StartPosition("custom")
    else StartPosition("front")
  }

  // Scanning helpers

  /** `findNextLetter`: the least index from `start` on holding a non-digit, else the length. */
  function NextLetter(s: string, start: nat): (r: nat)
    ensures start <= |s| ==> start <= r <= |s|
    ensures start > |s| ==> r == |s|
    ensures start <= |s| ==> AllDigits(s[start..r])
    ensures r < |s| ==> !IsDigit(s[r])
    decreases |s| - start
  {
    if start >= |s| then |s|
    else if !IsDigit(s[start]) then start
    else
      var r := NextLetter(s, start + 1);
      assert s[start..r] == [s[start]] + s[start + 1..r];
      r
  }

  /** `findNextLetter`: the index loop. */
  method FindNextLetter(s: string, start: nat) returns (r: nat)
    ensures r == NextLetter(s, start)
  {
    var i := start;
    while i < |s|
      invariant start <= i
      invariant NextLetter(s, i) == NextLetter(s, start)
      decreases |s| - i
    {
      if !IsDigit(s[i]) {
        return i;
      }
      i := i + 1;
    }
    return |s|;
  }

  /**
   * `Integer.parseInt` on a run of decimal digits (the only text the decoder
   * hands it): an empty run or a value above 2147483647 throws.
   */
  function ParseInt(digits: string): (r: Result<int, JavaException>)
    requires AllDigits(digits)
    ensures r.Failure? ==> r.error == NumberFormatException(digits)
    ensures r.Success? ==> IsInt32(r.value) && r.value >= 0
  {
    if digits == [] || DigitsValue(digits) > Int32Max then Failure(NumberFormatException(digits))
    else Success(DigitsValue(digits))
  }

  /** `StringBuilder.append(int)` followed by `parseInt` gives the number back. */
  lemma ParseIntOfNatToString(n: nat)
    requires n <= Int32Max
    ensures ParseInt(NatToString(n)) == Success(n)
  {
  }

  /** The digits between `i` and the next letter are a run `parseInt` accepts or rejects. */
  lemma DigitRun(s: string, i: nat)
    requires i <= |s|
    ensures AllDigits(s[i..NextLetter(s, i)])
  {
  }

  // Encoding

  /**
   * `action.getConfigInt("waitTime", 1000)` rounded to whole seconds by
   * `Math.round(ms / 1000.0f)`: the floor of `ms / 1000 + 1/2`, which for an
   * integer `ms` is the floor of `(ms + 500) / 1000`.
   */
  function WaitSeconds(a: Action): int {
    (a.waitTime.GetOr(1000) + 500) / 1000
  }

  /** The integer form above is `Math.round` of the exact quotient. */
  lemma WaitSecondsRounds(a: Action)
    ensures WaitSeconds(a) == PoseEncoder.JsRound(a.waitTime.GetOr(1000) as real / 1000.0)
  {
    var ms := a.waitTime.GetOr(1000);
    var q := (ms + 500) / 1000;
    assert q * 1000 <= ms + 500 < q * 1000 + 1000;
    assert (q as real) <= ms as real / 1000.0 + 0.5 < q as real + 1.0;
  }

  /** One action's token: `W` and the wait in seconds for `wait`, else `A` and the catalogue id. */
  function ActionToken(a: Action): string {
    if a.actionType == "wait" then "W" + IntToString(WaitSeconds(a))
    else "A" + IntToString(GetActionId(a.actionType))
  }

  /** The tokens of an action list, in order. */
  function ActionTokens(actions: seq<Action>): string
    decreases |actions|
  {
    if actions == [] then [] else ActionToken(actions[0]) + ActionTokens(actions[1..])
  }

  /** The alliance letter: `R` when the lower-cased colour starts with `r`, else `B`. */
  function ColorLetter(color: Option<string>): (r: Result<char, JavaException>)
    ensures r.Failure? <==> color.None? || color.value == []
    ensures r.Success? ==> (r.value == 'R' <==> LowerChar(color.value[0]) == 'r')
    ensures r.Success? ==> r.value == 'R' || r.value == 'B'
  {
    match color
    case None => Failure(NullPointerException)
    case Some(c) =>
      var lower := ToLower(c);
      if lower == [] then Failure(StringIndexOutOfBoundsException)
      else Success(if lower[0] == 'r' then 'R' else 'B')
  }

  /** The start token: `S` and the id, or nothing without a start position. */
  function StartText(start: Option<StartPosition>): string {
    match start
    case None => []
    case Some(p) => "S" + IntToString(EncodeStartPosition(p))
  }

  /** The action part: the tokens, or nothing without an action list. */
  function ActionsText(actions: Option<seq<Action>>): string {
    match actions
    case None => []
    case Some(acts) => ActionTokens(acts)
  }

  /**
   * What `encode` returns or throws: the number, then (with an alliance) its
   * letter, then (with an autonomous part) the start and the action tokens.
   */
  function Encoding(m: Match): (r: Result<string, JavaException>)
    ensures r.Failure? <==> m.alliance.Some? && ColorLetter(m.alliance.value.color).Failure?
  {
    var head := IntToString(m.number);
    match m.alliance
    case None => Success(head)
    case Some(al) =>
      var letter :- ColorLetter(al.color);
      match al.auto
      case None => Success(head + [letter])
      case Some(auto) => Success(head + [letter] + StartText(auto.startPosition) + ActionsText(auto.actions))
  }

  lemma ConcatAssoc<T>(a: seq<T>, b: seq<T>, c: seq<T>)
    ensures (a + b) + c == a + (b + c)
  {
  }

  /** The tokens of a list extended by one action end with that action's token. */
  lemma {:induction false} ActionTokensSnoc(actions: seq<Action>, i: nat)
    requires i < |actions|
    ensures ActionTokens(actions[..i + 1]) == ActionTokens(actions[..i]) + ActionToken(actions[i])
    decreases i
  {
    if i == 0 {
      assert actions[..1][1..] == [];
      assert actions[..1][0] == actions[0];
    } else {
      var tail := actions[1..];
      assert actions[..i + 1][1..] == tail[..i];
      assert actions[..i][1..] == tail[..i - 1];
      assert actions[..i + 1][0] == actions[..i][0] == actions[0];
      ActionTokensSnoc(tail, i - 1);
      ConcatAssoc(ActionToken(actions[0]), ActionTokens(tail[..i - 1]), ActionToken(actions[i]));
    }
  }

  /** `encode`: the text is appended to a `StringBuilder` piece by piece. */
  method Encode(m: Match) returns (r: Result<string, JavaException>)
    ensures r == Encoding(m)
  {
    var sb := IntToString(m.number);
    if m.alliance.Some? {
      var al := m.alliance.value;
      if al.color.None? {
        return Failure(NullPointerException);
      }
      var lower := ToLower(al.color.value);
      if |lower| == 0 {
        return Failure(StringIndexOutOfBoundsException);
      }
      sb := sb + [if lower[0] == 'r' then 'R' else 'B'];
      if al.auto.Some? {
        var auto := al.auto.value;
        if auto.startPosition.Some? {
          sb := sb + "S" + IntToString(EncodeStartPosition(auto.startPosition.value));
        }
        ghost var prefix := sb;
        assert prefix == IntToString(m.number) + [ColorLetter(al.color).value] + StartText(auto.startPosition);
        if auto.actions.Some? {
          sb := AppendActionTokens(sb, auto.actions.value);
        }
        assert sb == prefix + ActionsText(auto.actions);
      }
    }
    r := Success(sb);
  }

  /** The action loop of `encode`: one token per action, appended in order. */
  method AppendActionTokens(prefix: string, actions: seq<Action>) returns (sb: string)
    ensures sb == prefix + ActionTokens(actions)
  {
    sb := prefix;
    var i := 0;
    assert actions[..0] == [];
    while i < |actions|
      invariant 0 <= i <= |actions|
      invariant sb == prefix + ActionTokens(actions[..i])
    {
      ActionTokensSnoc(actions, i);
      ConcatAssoc(prefix, ActionTokens(actions[..i]), ActionToken(actions[i]));
      sb := sb + ActionToken(actions[i]);
      i := i + 1;
    }
    assert actions[..i] == actions;
  }

  // Decoding

  /** The action a `W` token decodes to. */
  function WaitAction(ms: int): Action {
    Action("wait", "Wait", Some(ms))
  }

  /** The action a `W` (seconds) or `A` (catalogue id) token with number `n` stands for. */
  function MarkerAction(marker: char, n: int): Action {
    if marker == 'W' then WaitAction(Wrap32(n * 1000)) else DecodeActionFromId(n)
  }

  /** The actions decoded so far in front of what the rest of the text decodes to. */
  function Prepend(done: seq<Action>, rest: Result<seq<Action>, JavaException>): Result<seq<Action>, JavaException> {
    match rest
    case Success(acts) => Success(done + acts)
    case Failure(e) => Failure(e)
  }

  lemma PrependNothing(rest: Result<seq<Action>, JavaException>)
    ensures Prepend([], rest) == rest
  {
    if rest.Success? {
      assert [] + rest.value == rest.value;
    }
  }

  lemma PrependPrepend(done: seq<Action>, a: Action, rest: Result<seq<Action>, JavaException>)
    ensures Prepend(done, Prepend([a], rest)) == Prepend(done + [a], rest)
  {
    if rest.Success? {
      ConcatAssoc(done, [a], rest.value);
    }
  }

  /** One step of the action scan at index `i`. */
  lemma DecodeActionsAt(t: string, i: nat)
    requires i < |t|
    ensures t[i] != 'W' && t[i] != 'A' ==> DecodeActions(t, i) == DecodeActions(t, i + 1)
    ensures t[i] == 'W' || t[i] == 'A' ==>
      var e := NextLetter(t, i + 1);
      AllDigits(t[i + 1..e]) &&
      DecodeActions(t, i) == match ParseInt(t[i + 1..e])
        case Failure(err) => Failure(err)
        case Success(n) => Prepend([MarkerAction(t[i], n)], DecodeActions(t, e))
  {
    DigitRun(t, i + 1);
  }

  /**
   * The action section from index `i` on: `W` and `A` read a digit run each,
   * any other character is skipped.
   */
  function DecodeActions(t: string, i: nat): Result<seq<Action>, JavaException>
    decreases |t| - i
  {
    if i >= |t| then Success([])
    else if t[i] == 'W' || t[i] == 'A' then
      var e := NextLetter(t, i + 1);
      DigitRun(t, i + 1);
      var n :- ParseInt(t[i + 1..e]);
      Prepend([MarkerAction(t[i], n)], DecodeActions(t, e))
    else DecodeActions(t, i + 1)
  }

  /** The start section at `i`: `S` and a digit run, or nothing when `t[i]` is not `S`. */
  function StartAt(t: string, i: nat): (r: Result<(Option<StartPosition>, nat), JavaException>)
    requires i <= |t|
    ensures r.Success? ==> i <= r.value.1 <= |t|
  {
    if i < |t| && t[i] == 'S' then
      var e := NextLetter(t, i + 1);
      DigitRun(t, i + 1);
      var id :- ParseInt(t[i + 1..e]);
      Success((Some(DecodeStartPosition(id)), e))
    else Success((None, i))
  }

  /** The colour at `i`: any character is consumed, `R` reads as red and the rest as blue. */
  function ColorAt(t: string, i: nat): (Option<string>, nat) {
    if i < |t| then (Some(if t[i] == 'R' then "red" else "blue"), i + 1) else (None, i)
  }

  /** The decoded match around the decoded action section. */
  function Assemble(number: int, color: Option<string>, start: Option<StartPosition>,
                    actions: Result<seq<Action>, JavaException>): Result<Match, JavaException>
  {
    match actions
    case Failure(e) => Failure(e)
    case Success(acts) => Success(Match(number, Some(Alliance(color, 0, Some(Autonomous(start, Some(acts)))))))
  }

  /** What `decode` returns or throws. */
  function Decoding(t: string): Result<Match, JavaException> {
    var numEnd := NextLetter(t, 0);
    DigitRun(t, 0);
    var number :- ParseInt(t[0..numEnd]);
    var color := ColorAt(t, numEnd);
    var start :- StartAt(t, color.1);
    Assemble(number, color.0, start.0, DecodeActions(t, start.1))
  }

  /** `Decoding` once the number, the colour and the start have been read. */
  lemma DecodingFrom(t: string, number: int, color: Option<string>, afterColor: nat, start: Option<StartPosition>, i0: nat)
    requires ParseInt(t[0..NextLetter(t, 0)]) == Success(number)
    requires ColorAt(t, NextLetter(t, 0)) == (color, afterColor) && afterColor <= |t|
    requires StartAt(t, afterColor) == Success((start, i0))
    ensures Decoding(t) == Assemble(number, color, start, DecodeActions(t, i0))
  {
  }

  /** `decode`: the number, the colour letter and the start section, then the action loop. */
  method Decode(terse: string) returns (r: Result<Match, JavaException>)
    ensures r == Decoding(terse)
  {
    var i := 0;
    var numEnd := FindNextLetter(terse, i);
    DigitRun(terse, i);
    var number := ParseInt(terse[i..numEnd]);
    if number.Failure? {
      return Failure(number.error);
    }
    i := numEnd;
    var color: Option<string> := None;
    if i < |terse| {
      color := Some(if terse[i] == 'R' then "red" else "blue");
      i := i + 1;
    }
    ghost var afterColor := i;
    assert ColorAt(terse, numEnd) == (color, afterColor);
    var start: Option<StartPosition> := None;
    if i < |terse| && terse[i] == 'S' {
      i := i + 1;
      numEnd := FindNextLetter(terse, i);
      DigitRun(terse, i);
      var id := ParseInt(terse[i..numEnd]);
      if id.Failure? {
        return Failure(id.error);
      }
      start := Some(DecodeStartPosition(id.value));
      i := numEnd;
    }
    assert StartAt(terse, afterColor) == Success((start, i));
    DecodingFrom(terse, number.value, color, afterColor, start, i);
    var actions := DecodeActionLoop(terse, i);
    if actions.Failure? {
      return Failure(actions.error);
    }
    r := Success(Match(number.value, Some(Alliance(color, 0, Some(Autonomous(start, Some(actions.value)))))));
  }

  /** The action loop of `decode`: a cursor moves over the text and the actions are appended to a list. */
  method DecodeActionLoop(terse: string, i0: nat) returns (r: Result<seq<Action>, JavaException>)
    requires i0 <= |terse|
    ensures r == DecodeActions(terse, i0)
  {
    var i := i0;
    var actions: seq<Action> := [];
    PrependNothing(DecodeActions(terse, i0));
    while i < |terse|
      invariant i0 <= i <= |terse|
      invariant DecodeActions(terse, i0) == Prepend(actions, DecodeActions(terse, i))
      decreases |terse| - i
    {
      var c := terse[i];
      DecodeActionsAt(terse, i);
      i := i + 1;
      if c == 'W' {
        var numEnd := FindNextLetter(terse, i);
        var sec := ParseInt(terse[i..numEnd]);
        if sec.Failure? {
          return Failure(sec.error);
        }
        PrependPrepend(actions, WaitAction(Wrap32(sec.value * 1000)), DecodeActions(terse, numEnd));
        actions := actions + [WaitAction(Wrap32(sec.value * 1000))];
        i := numEnd;
      } else if c == 'A' {
        var numEnd := FindNextLetter(terse, i);
        var id := ParseInt(terse[i..numEnd]);
        if id.Failure? {
          return Failure(id.error);
        }
        PrependPrepend(actions, DecodeActionFromId(id.value), DecodeActions(terse, numEnd));
        actions := actions + [DecodeActionFromId(id.value)];
        i := numEnd;
      }
    }
    assert actions + [] == actions;
    r := Success(actions);
  }

  // Catalogue round trips

  /** Each catalogue type survives `getActionId` then `decodeActionFromId`; any other type comes back `unknown`. */
  lemma ActionCatalogRoundTrip(actionType: string)
    ensures DecodeActionFromId(GetActionId(actionType)).actionType
            == (if actionType in CatalogTypes then actionType else "unknown")
  {
  }

  /** Each id 1..10 survives `decodeActionFromId` then `getActionId`; any other id comes back 99. */
  lemma ActionIdRoundTrip(id: int)
    ensures GetActionId(DecodeActionFromId(id).actionType) == (if 1 <= id <= 10 then id else 99)
  {
    if 1 <= id <= 10 {
      var k := GetActionId(CatalogTypes[id - 1]);
      assert k == id by {
        assert CatalogTypes[k - 1] == CatalogTypes[id - 1];
      }
    } else {
      assert "unknown" !in CatalogTypes;
    }
  }

  /** A known start type (in any letter case) comes back lower-cased; any other comes back `front`. */
  lemma StartPositionRoundTrip(pos: StartPosition)
    ensures DecodeStartPosition(EncodeStartPosition(pos)).positionType
            == (if ToLower(pos.positionType) in StartTypes then ToLower(pos.positionType) else "front")
  {
  }

  /** A known start id comes back; any other id comes back as 1 (`front`). */
  lemma StartIdRoundTrip(id: int)
    ensures EncodeStartPosition(DecodeStartPosition(id)) == (if id in StartIds then id else 1)
  {
    assert ToLower("front") == "front";
    assert ToLower("back") == "back";
    assert ToLower("left") == "left";
    assert ToLower("right") == "right";
    assert ToLower("custom") == "custom";
  }

  // Decode after encode

  /** A wait whose rounded seconds the decoder's `parseInt` reads back. */
  predicate WaitEncodable(a: Action) {
    a.actionType == "wait" ==> 0 <= WaitSeconds(a) <= Int32Max
  }

  /** The inputs `decode(encode(m))` is stated for: a non-negative number and waits of at least -500 ms. */
  predicate Encodable(m: Match) {
    && 0 <= m.number <= Int32Max
    && Encoding(m).Success?
    && (m.alliance.Some? && m.alliance.value.auto.Some? && m.alliance.value.auto.value.actions.Some? ==>
          forall k :: 0 <= k < |m.alliance.value.auto.value.actions.value| ==>
            WaitEncodable(m.alliance.value.auto.value.actions.value[k]))
  }

  /** What an action comes back as: a wait of its rounded seconds times 1000, or a catalogue entry. */
  function DecodedAction(a: Action): Action {
    if a.actionType == "wait" then WaitAction(Wrap32(WaitSeconds(a) * 1000))
    else DecodeActionFromId(GetActionId(a.actionType))
  }

  function DecodedActions(actions: seq<Action>): (r: seq<Action>)
    ensures |r| == |actions|
    ensures forall k :: 0 <= k < |actions| ==> r[k] == DecodedAction(actions[k])
    decreases |actions|
  {
    if actions == [] then [] else [DecodedAction(actions[0])] + DecodedActions(actions[1..])
  }

  function ColorName(letter: char): string {
    if letter == 'R' then "red" else "blue"
  }

  /** The match `decode(encode(m))` gives. */
  function RoundTripped(m: Match): Match
    requires Encoding(m).Success?
  {
    var color := if m.alliance.None? then None else Some(ColorName(ColorLetter(m.alliance.value.color).value));
    var auto := if m.alliance.None? then None else m.alliance.value.auto;
    var start := if auto.None? || auto.value.startPosition.None? then None
                 else Some(DecodeStartPosition(EncodeStartPosition(auto.value.startPosition.value)));
    var actions := if auto.None? || auto.value.actions.None? then [] else DecodedActions(auto.value.actions.value);
    Match(m.number, Some(Alliance(color, 0, Some(Autonomous(start, Some(actions))))))
  }

  /** The scan from `i` stops after exactly the digit run `d` when a non-digit or the end follows it. */
  lemma NextLetterAfterDigits(t: string, i: nat, d: string)
    requires AllDigits(d) && i + |d| <= |t| && t[i..i + |d|] == d
    requires i + |d| == |t| || !IsDigit(t[i + |d|])
    ensures NextLetter(t, i) == i + |d|
  {
    var r := NextLetter(t, i);
    assert forall k | i <= k < i + |d| :: t[k] == d[k - i];
    assert forall k | i <= k < r :: t[k] == t[i..r][k - i];
  }

  /** Every token text starts with its marker `W` or `A`. */
  lemma ActionTokensStart(actions: seq<Action>)
    ensures var s := ActionTokens(actions); s == [] || s[0] == 'W' || s[0] == 'A'
  {
    if actions != [] {
      assert ActionTokens(actions)[0] == ActionToken(actions[0])[0];
    }
  }

  /** The letter a token starts with. */
  function TokenMarker(a: Action): char {
    if a.actionType == "wait" then 'W' else 'A'
  }

  /** The number a token carries after its marker. */
  function TokenNumber(a: Action): int {
    if a.actionType == "wait" then WaitSeconds(a) else GetActionId(a.actionType)
  }

  lemma ActionTokenShape(a: Action)
    requires WaitEncodable(a)
    ensures 0 <= TokenNumber(a) <= Int32Max
    ensures ActionToken(a) == [TokenMarker(a)] + NatToString(TokenNumber(a))
  {
  }

  /** A marker, a digit run and then a marker or the end: one action, then the rest. */
  lemma DecodeMarkerToken(t: string, i: nat, n: nat, d: string)
    requires i < |t| && (t[i] == 'W' || t[i] == 'A')
    requires n <= Int32Max && d == NatToString(n)
    requires i + 1 + |d| <= |t| && t[i + 1..i + 1 + |d|] == d
    requires i + 1 + |d| == |t| || t[i + 1 + |d|] == 'W' || t[i + 1 + |d|] == 'A'
    ensures DecodeActions(t, i) == Prepend([MarkerAction(t[i], n)], DecodeActions(t, i + 1 + |d|))
  {
    NextLetterAfterDigits(t, i + 1, d);
    ParseIntOfNatToString(n);
    DecodeActionsAtMarker(t, i, n);
  }

  /** A marker token whose continuation decodes to `later`. */
  lemma DecodeMarkerTokenThen(t: string, i: nat, n: nat, d: string, later: seq<Action>)
    requires i < |t| && (t[i] == 'W' || t[i] == 'A')
    requires n <= Int32Max && d == NatToString(n)
    requires i + 1 + |d| <= |t| && t[i + 1..i + 1 + |d|] == d
    requires i + 1 + |d| == |t| || t[i + 1 + |d|] == 'W' || t[i + 1 + |d|] == 'A'
    requires DecodeActions(t, i + 1 + |d|) == Success(later)
    ensures DecodeActions(t, i) == Success([MarkerAction(t[i], n)] + later)
  {
    DecodeMarkerToken(t, i, n, d);
  }

  /** One unfolding of the action scan at a `W` or `A` whose digit run parses. */
  lemma DecodeActionsAtMarker(t: string, i: nat, n: int)
    requires i < |t| && (t[i] == 'W' || t[i] == 'A')
    requires AllDigits(t[i + 1..NextLetter(t, i + 1)]) && ParseInt(t[i + 1..NextLetter(t, i + 1)]) == Success(n)
    ensures DecodeActions(t, i) == Prepend([MarkerAction(t[i], n)], DecodeActions(t, NextLetter(t, i + 1)))
  {
  }

  /** A marker or the end of the text at index `j`: where one token stops. */
  predicate TokenBoundary(t: string, j: nat) {
    j == |t| || (j < |t| && (t[j] == 'W' || t[j] == 'A'))
  }

  lemma MarkerOfDecoded(a: Action)
    ensures MarkerAction(TokenMarker(a), TokenNumber(a)) == DecodedAction(a)
  {
  }

  lemma SliceMiddle<T>(a: seq<T>, b: seq<T>, c: seq<T>)
    ensures (a + b + c)[|a|..|a| + |b|] == b
    ensures |a + b| < |a + b + c| ==> (a + b + c)[|a + b|] == c[0]
  {
  }

  /** The parts of a suffix that is a concatenation. */
  lemma SuffixSplit<T>(t: seq<T>, i: nat, x: seq<T>, y: seq<T>)
    requires i <= |t| && t[i..] == x + y
    ensures i + |x| <= |t| && t[i..i + |x|] == x && t[i + |x|..] == y
    ensures y != [] ==> t[i + |x|] == y[0]
  {
    assert t[i..i + |x|] == t[i..][..|x|];
    assert t[i + |x|..] == t[i..][|x|..];
  }

  /** A token as the decoder sees it: a marker letter and the number after it. */
  datatype Token = Token(marker: char, number: nat)

  /** Every token has a marker letter and a number `parseInt` accepts. */
  predicate GoodTokens(ks: seq<Token>)
    decreases |ks|
  {
    ks == [] || ((ks[0].marker == 'W' || ks[0].marker == 'A') && ks[0].number <= Int32Max && GoodTokens(ks[1..]))
  }

  function TokenText(k: Token): string {
    [k.marker] + NatToString(k.number)
  }

  function TokensText(ks: seq<Token>): string
    decreases |ks|
  {
    if ks == [] then "" else TokenText(ks[0]) + TokensText(ks[1..])
  }

  function TokenActions(ks: seq<Token>): seq<Action>
    decreases |ks|
  {
    if ks == [] then [] else [MarkerAction(ks[0].marker, ks[0].number)] + TokenActions(ks[1..])
  }

  /** The tokens an action list is written as. */
  function TokensOf(actions: seq<Action>): seq<Token>
    requires forall k :: 0 <= k < |actions| ==> WaitEncodable(actions[k])
    decreases |actions|
  {
    if actions == [] then []
    else
      ActionTokenShape(actions[0]);
      [Token(TokenMarker(actions[0]), TokenNumber(actions[0]))] + TokensOf(actions[1..])
  }

  lemma TokensTextStart(ks: seq<Token>)
    requires GoodTokens(ks)
    ensures var s := TokensText(ks); s == [] || s[0] == 'W' || s[0] == 'A'
  {
  }

  /** The action text of a list is the text of its tokens, and decodes as they do. */
  lemma {:induction false} TokensOfActions(actions: seq<Action>)
    requires forall k :: 0 <= k < |actions| ==> WaitEncodable(actions[k])
    ensures GoodTokens(TokensOf(actions))
    ensures TokensText(TokensOf(actions)) == ActionTokens(actions)
    ensures TokenActions(TokensOf(actions)) == DecodedActions(actions)
    decreases |actions|
  {
    if actions != [] {
      var a, tail := actions[0], actions[1..];
      assert forall k :: 0 <= k < |tail| ==> WaitEncodable(tail[k]) by {
        forall k | 0 <= k < |tail| ensures WaitEncodable(tail[k]) {
          assert tail[k] == actions[k + 1];
        }
      }
      TokensOfActions(tail);
      ActionTokenShape(a);
      MarkerOfDecoded(a);
      var ks := TokensOf(actions);
      assert ks[0] == Token(TokenMarker(a), TokenNumber(a)) && ks[1..] == TokensOf(tail);
    }
  }

  /**
   * The text from `i` on spells the tokens `ks`, token by token: a marker,
   * its digits and then the next marker or the end.
   */
  predicate Spells(t: string, i: nat, ks: seq<Token>)
    decreases |ks|
  {
    if ks == [] then i == |t|
    else
      var j := i + 1 + |NatToString(ks[0].number)|;
      && j <= |t| && t[i] == ks[0].marker && t[i + 1..j] == NatToString(ks[0].number)
      && (j == |t| || t[j] == 'W' || t[j] == 'A')
      && Spells(t, j, ks[1..])
  }

  /** A token text from `i` to the end spells its tokens. */
  lemma {:induction false} TokensTextSpells(t: string, i: nat, ks: seq<Token>)
    requires GoodTokens(ks)
    requires i <= |t| && t[i..] == TokensText(ks)
    ensures Spells(t, i, ks)
    decreases |ks|
  {
    if ks == [] {
      assert |t[i..]| == 0;
    } else {
      var j := i + 1 + |NatToString(ks[0].number)|;
      FirstTokenLayout(t, i, ks);
      assert GoodTokens(ks[1..]) && t[j..] == TokensText(ks[1..]);
      TokensTextSpells(t, j, ks[1..]);
      SpellsCons(t, i, ks);
    }
  }

  /** One token spelled at `i`, and the rest spelled after it. */
  lemma SpellsCons(t: string, i: nat, ks: seq<Token>)
    requires ks != []
    requires var j := i + 1 + |NatToString(ks[0].number)|;
      && j <= |t| && t[i] == ks[0].marker && t[i + 1..j] == NatToString(ks[0].number)
      && (j == |t| || t[j] == 'W' || t[j] == 'A')
      && Spells(t, j, ks[1..])
    ensures Spells(t, i, ks)
  {
  }

  /** Where the first token of a token text sits, and what follows it. */
  lemma FirstTokenLayout(t: string, i: nat, ks: seq<Token>)
    requires ks != [] && GoodTokens(ks)
    requires i <= |t| && t[i..] == TokensText(ks)
    ensures var d := NatToString(ks[0].number);
      && i + 1 + |d| <= |t| && t[i] == ks[0].marker && t[i + 1..i + 1 + |d|] == d
      && (i + 1 + |d| == |t| || t[i + 1 + |d|] == 'W' || t[i + 1 + |d|] == 'A')
      && t[i + 1 + |d|..] == TokensText(ks[1..])
  {
    var d := NatToString(ks[0].number);
    var tok, rest := TokenText(ks[0]), TokensText(ks[1..]);
    TokensTextStart(ks[1..]);
    SuffixSplit(t, i, tok, rest);
    assert t[i] == t[i..i + |tok|][0] == ks[0].marker;
    assert t[i + 1..i + 1 + |d|] == t[i..i + |tok|][1..] == d;
  }

  /** Spelled tokens decode to the tokens' actions. */
  lemma {:induction false} DecodeSpelled(t: string, i: nat, ks: seq<Token>)
    requires GoodTokens(ks) && Spells(t, i, ks)
    ensures DecodeActions(t, i) == Success(TokenActions(ks))
    decreases |ks|
  {
    if ks != [] {
      var d := NatToString(ks[0].number);
      DecodeSpelled(t, i + 1 + |d|, ks[1..]);
      DecodeMarkerTokenThen(t, i, ks[0].number, d, TokenActions(ks[1..]));
    }
  }

  /** The action text of a list, running to the end of the text, decodes to the decoded list. */
  lemma DecodeTokens(t: string, i: nat, actions: seq<Action>)
    requires forall k :: 0 <= k < |actions| ==> WaitEncodable(actions[k])
    requires i <= |t| && t[i..] == ActionTokens(actions)
    ensures DecodeActions(t, i) == Success(DecodedActions(actions))
  {
    TokensOfActions(actions);
    TokensTextSpells(t, i, TokensOf(actions));
    DecodeSpelled(t, i, TokensOf(actions));
  }

  /** A decimal number at the start of the text, ended by a non-digit or the end, is read back. */
  lemma DecodeNumberPrefix(t: string, n: nat)
    requires n <= Int32Max
    requires |NatToString(n)| <= |t| && t[..|NatToString(n)|] == NatToString(n)
    requires |NatToString(n)| == |t| || !IsDigit(t[|NatToString(n)|])
    ensures NextLetter(t, 0) == |NatToString(n)|
    ensures ParseInt(t[0..NextLetter(t, 0)]) == Success(n)
  {
    NextLetterAfterDigits(t, 0, NatToString(n));
    assert t[0..|NatToString(n)|] == t[..|NatToString(n)|];
    ParseIntOfNatToString(n);
  }

  /** What a start position comes back as. */
  function DecodedStart(start: Option<StartPosition>): Option<StartPosition> {
    match start
    case None => None
    case Some(p) => Some(DecodeStartPosition(EncodeStartPosition(p)))
  }

  /** The start text at `i`, followed by a marker or the end, is read back. */
  lemma DecodeStartText(t: string, i: nat, start: Option<StartPosition>)
    requires i + |StartText(start)| <= |t| && t[i..i + |StartText(start)|] == StartText(start)
    requires TokenBoundary(t, i + |StartText(start)|)
    ensures StartAt(t, i) == Success((DecodedStart(start), i + |StartText(start)|))
  {
    if start.Some? {
      var id := EncodeStartPosition(start.value);
      var d := NatToString(id);
      assert StartText(start) == "S" + d;
      assert t[i] == t[i..i + |StartText(start)|][0] == 'S';
      assert t[i + 1..i + 1 + |d|] == t[i..i + |StartText(start)|][1..] == d;
      NextLetterAfterDigits(t, i + 1, d);
      ParseIntOfNatToString(id);
    }
  }

  /** The tokens of an optional action list. */
  function ActionList(actions: Option<seq<Action>>): seq<Action> {
    match actions
    case None => []
    case Some(acts) => acts
  }

  /** Decode after encode, when the match has an autonomous part. */
  lemma DecodeFullText(n: nat, letter: char, start: Option<StartPosition>, actions: seq<Action>)
    requires n <= Int32Max && (letter == 'R' || letter == 'B')
    requires forall k :: 0 <= k < |actions| ==> WaitEncodable(actions[k])
    ensures Decoding(NatToString(n) + [letter] + StartText(start) + ActionTokens(actions))
            == Success(Match(n, Some(Alliance(Some(ColorName(letter)), 0,
                 Some(Autonomous(DecodedStart(start), Some(DecodedActions(actions))))))))
  {
    var num, st, at := NatToString(n), StartText(start), ActionTokens(actions);
    var q := num + [letter] + st;
    var t := q + at;
    ActionTokensStart(actions);
    FullTextHeader(n, letter, start, at);
    assert t[|q|..] == at;
    DecodeTokens(t, |q|, actions);
    DecodingFrom(t, n, Some(ColorName(letter)), |num| + 1, DecodedStart(start), |q|);
  }

  /** The header of an encoded text, followed by action tokens, is read back up to the first token. */
  lemma FullTextHeader(n: nat, letter: char, start: Option<StartPosition>, at: string)
    requires n <= Int32Max && (letter == 'R' || letter == 'B')
    requires at == [] || at[0] == 'W' || at[0] == 'A'
    ensures var num := NatToString(n);
      var q := num + [letter] + StartText(start);
      var t := q + at;
      && ParseInt(t[0..NextLetter(t, 0)]) == Success(n)
      && ColorAt(t, NextLetter(t, 0)) == (Some(ColorName(letter)), |num| + 1) && |num| + 1 <= |t|
      && StartAt(t, |num| + 1) == Success((DecodedStart(start), |q|))
  {
    var num, st := NatToString(n), StartText(start);
    var q := num + [letter] + st;
    var t := q + at;
    TextLayout(num, letter, st, at);
    assert TokenBoundary(t, |q|);
    HeaderDecodes(t, n, letter, start, |q|);
  }

  /** The number, the letter and the start token laid out at the head of `t` are read back. */
  lemma HeaderDecodes(t: string, n: nat, letter: char, start: Option<StartPosition>, qlen: nat)
    requires n <= Int32Max && (letter == 'R' || letter == 'B')
    requires var num, st := NatToString(n), StartText(start);
      && qlen == |num| + 1 + |st| <= |t| && t[..|num|] == num && t[|num|] == letter
      && t[|num| + 1..qlen] == st && TokenBoundary(t, qlen)
    ensures var num := NatToString(n);
      && NextLetter(t, 0) == |num| && ParseInt(t[0..NextLetter(t, 0)]) == Success(n)
      && ColorAt(t, NextLetter(t, 0)) == (Some(ColorName(letter)), |num| + 1)
      && StartAt(t, |num| + 1) == Success((DecodedStart(start), qlen))
  {
    var num := NatToString(n);
    assert !IsDigit(t[|num|]);
    DecodeNumberPrefix(t, n);
    assert ColorAt(t, |num|) == (Some(ColorName(letter)), |num| + 1);
    StartAfterColor(t, |num| + 1, start, qlen);
  }

  lemma StartAfterColor(t: string, i: nat, start: Option<StartPosition>, qlen: nat)
    requires qlen == i + |StartText(start)| <= |t| && t[i..qlen] == StartText(start) && TokenBoundary(t, qlen)
    ensures StartAt(t, i) == Success((DecodedStart(start), qlen))
  {
    DecodeStartText(t, i, start);
  }

  /** Where the number, the letter, the start and the actions sit in the whole text. */
  lemma TextLayout(num: string, letter: char, st: string, at: string)
    ensures var t := num + [letter] + st + at;
      && t[..|num|] == num && t[|num|] == letter
      && t[|num| + 1..|num| + 1 + |st|] == st
      && (at != [] ==> t[|num + [letter] + st|] == at[0])
  {
    var t := num + [letter] + st + at;
    assert t == num + ([letter] + st + at);
    SliceMiddle(num + [letter], st, at);
  }

  /** Decode after encode, when the match has an alliance but no autonomous part. */
  lemma DecodeColorOnly(n: nat, letter: char)
    requires n <= Int32Max && (letter == 'R' || letter == 'B')
    ensures Decoding(NatToString(n) + [letter])
            == Success(Match(n, Some(Alliance(Some(ColorName(letter)), 0, Some(Autonomous(None, Some([])))))))
  {
    var num := NatToString(n);
    var t := num + [letter];
    assert t[..|num|] == num;
    DecodeNumberPrefix(t, n);
    DecodingFrom(t, n, Some(ColorName(letter)), |t|, None, |t|);
  }

  /** Decode after encode, when the match has no alliance. */
  lemma DecodeNumberOnly(n: nat)
    requires n <= Int32Max
    ensures Decoding(NatToString(n)) == Success(Match(n, Some(Alliance(None, 0, Some(Autonomous(None, Some([])))))))
  {
    var t := NatToString(n);
    assert t[..|t|] == t;
    DecodeNumberPrefix(t, n);
    DecodingFrom(t, n, None, |t|, None, |t|);
  }

  /**
   * `decode(encode(m))`: the number, the colour letter, the start position
   * mapped through its id, and every action mapped through its token, in order.
   */
  lemma DecodeEncode(m: Match)
    requires Encodable(m)
    ensures Decoding(Encoding(m).value) == Success(RoundTripped(m))
  {
    var n: nat := m.number;
    assert IntToString(m.number) == NatToString(n);
    if m.alliance.Some? {
      var al := m.alliance.value;
      var letter := ColorLetter(al.color).value;
      if al.auto.Some? {
        var au := al.auto.value;
        var acts := ActionList(au.actions);
        assert ActionsText(au.actions) == ActionTokens(acts);
        DecodeFullText(n, letter, au.startPosition, acts);
      } else {
        DecodeColorOnly(n, letter);
      }
    } else {
      DecodeNumberOnly(n);
    }
  }

  /** A wait of whole seconds survives the round trip; any other (32-bit) wait does not. */
  lemma WaitSurvivesIff(ms: int)
    requires IsInt32(ms) && ms >= -500
    ensures Wrap32((ms + 500) / 1000 * 1000) == ms <==> ms % 1000 == 0
  {
    var q := (ms + 500) / 1000;
    var x := q * 1000;
    assert ms - 500 < x <= ms + 500;
    if ms % 1000 == 0 {
      assert ms == ms / 1000 * 1000;
      assert q == ms / 1000;
    } else {
      assert x % 1000 == 0;
      assert x != ms;
      Wrap32Congruent(x);
      assert Wrap32(x) != ms;
    }
  }

  /**
   * What survives `decode(encode(m))`: the number; red exactly when the colour
   * starts with `r` in any case; the start type when it is one of the five
   * known ones (else `front`); every action's type when it is `wait` or in the
   * catalogue (else `unknown`); and a wait time exactly when it is a whole
   * number of seconds.
   */
  lemma RoundTripKeeps(m: Match)
    requires Encodable(m)
    ensures Decoding(Encoding(m).value) == Success(RoundTripped(m))
    ensures var d := RoundTripped(m);
      && d.number == m.number
      && (m.alliance.Some? ==>
            && d.alliance.value.color.Some?
            && (d.alliance.value.color == Some("red") <==> LowerChar(m.alliance.value.color.value[0]) == 'r'))
      && (m.alliance.Some? && m.alliance.value.auto.Some? && m.alliance.value.auto.value.startPosition.Some? ==>
            var t := ToLower(m.alliance.value.auto.value.startPosition.value.positionType);
            d.alliance.value.auto.value.startPosition.value.positionType == (if t in StartTypes then t else "front"))
  {
    DecodeEncode(m);
    if m.alliance.Some? && m.alliance.value.auto.Some? && m.alliance.value.auto.value.startPosition.Some? {
      StartPositionRoundTrip(m.alliance.value.auto.value.startPosition.value);
    }
  }

  /** Each action after `decode(encode(m))`. */
  lemma RoundTripKeepsActions(m: Match)
    requires Encodable(m)
    requires m.alliance.Some? && m.alliance.value.auto.Some? && m.alliance.value.auto.value.actions.Some?
    ensures Decoding(Encoding(m).value) == Success(RoundTripped(m))
    ensures var acts := m.alliance.value.auto.value.actions.value;
      var back := RoundTripped(m).alliance.value.auto.value.actions.value;
      && |back| == |acts|
      && (forall k :: 0 <= k < |acts| ==>
            back[k].actionType == (if acts[k].actionType == "wait" || acts[k].actionType in CatalogTypes
                                   then acts[k].actionType else "unknown"))
      && (forall k :: 0 <= k < |acts| && acts[k].actionType == "wait" && IsInt32(acts[k].waitTime.GetOr(1000)) ==>
            (back[k].waitTime == Some(acts[k].waitTime.GetOr(1000)) <==> acts[k].waitTime.GetOr(1000) % 1000 == 0))
  {
    DecodeEncode(m);
    var acts := m.alliance.value.auto.value.actions.value;
    var back := DecodedActions(acts);
    forall k | 0 <= k < |acts|
      ensures back[k].actionType == (if acts[k].actionType == "wait" || acts[k].actionType in CatalogTypes
                                     then acts[k].actionType else "unknown")
    {
      ActionCatalogRoundTrip(acts[k].actionType);
    }
    forall k | 0 <= k < |acts| && acts[k].actionType == "wait" && IsInt32(acts[k].waitTime.GetOr(1000))
      ensures back[k].waitTime == Some(acts[k].waitTime.GetOr(1000)) <==> acts[k].waitTime.GetOr(1000) % 1000 == 0
    {
      assert WaitEncodable(acts[k]);
      WaitSurvivesIff(acts[k].waitTime.GetOr(1000));
    }
  }

  /** A negative match number is written with a `-` that the decoder cannot read. */
  lemma NegativeNumberNotDecoded(m: Match)
    requires m.number < 0 && Encoding(m).Success?
    ensures Decoding(Encoding(m).value) == Failure(NumberFormatException(""))
  {
    var t := Encoding(m).value;
    assert t[0] == IntToString(m.number)[0] == '-';
    assert NextLetter(t, 0) == 0;
  }

  /** Characters other than `W` and `A` in the action section are skipped. */
  lemma {:induction false} SkipsOtherCharacters(t: string, i: nat, j: nat)
    requires i <= j <= |t|
    requires forall k :: i <= k < j ==> t[k] != 'W' && t[k] != 'A'
    ensures DecodeActions(t, i) == DecodeActions(t, j)
    decreases j - i
  {
    if i < j {
      DecodeActionsAt(t, i);
      SkipsOtherCharacters(t, i + 1, j);
    }
  }

  /** An empty text has no match number. */
  lemma DecodeEmptyFails()
    ensures Decoding("") == Failure(NumberFormatException(""))
  {
    assert ""[0..0] == "";
  }

  /** A start marker without digits throws. */
  lemma DecodeStartWithoutDigitsFails()
    ensures Decoding("5RSW1") == Failure(NumberFormatException(""))
  {
    var t := "5RSW1";
    assert NextLetter(t, 0) == 1;
    assert t[0..1] == "5";
    assert DigitsValue("5") == 5;
    assert NextLetter(t, 3) == 3;
    assert t[3..3] == "";
  }

  /** A trailing action marker without digits throws. */
  lemma DecodeTrailingMarkerFails()
    ensures Decoding("5RS1A") == Failure(NumberFormatException(""))
  {
    var t := "5RS1A";
    assert NextLetter(t, 0) == 1;
    assert t[0..1] == "5";
    assert DigitsValue("5") == 5;
    assert NextLetter(t, 3) == 4;
    assert t[3..4] == "1";
    assert DigitsValue("1") == 1;
    assert NextLetter(t, 5) == 5;
    assert t[5..5] == "";
  }

  /** The web app's custom start `S0` is read as `front`, the scan stopping at the pose text. */
  lemma WebPoseStartIsFront()
    ensures StartAt("5RS0qqa8AAW1A1A3", 2) == Success((Some(StartPosition("front")), 4))
  {
    var t := "5RS0qqa8AAW1A1A3";
    assert NextLetter(t, 3) == 4;
    assert t[3..4] == "0";
    assert DigitsValue("0") == 0;
  }

  /** The pose letters are skipped up to `AA`, an action marker without digits. */
  lemma WebPoseActionsFail()
    ensures DecodeActions("5RS0qqa8AAW1A1A3", 4) == Failure(NumberFormatException(""))
  {
    var t := "5RS0qqa8AAW1A1A3";
    SkipsOtherCharacters(t, 4, 8);
    assert NextLetter(t, 9) == 9;
    assert t[9..9] == "";
    DecodeActionsAt(t, 8);
  }

  /**
   * A custom start written by the web app (`S0` and an eight-character pose)
   * is read as `S0`, which is `front`, and the pose text then throws: here
   * `AA` is an action marker followed by another letter.
   */
  lemma WebPoseTextNotDecoded()
    ensures StartAt("5RS0qqa8AAW1A1A3", 2) == Success((Some(StartPosition("front")), 4))
    ensures Decoding("5RS0qqa8AAW1A1A3") == Failure(NumberFormatException(""))
  {
    var t := "5RS0qqa8AAW1A1A3";
    assert NextLetter(t, 0) == 1;
    assert t[0..1] == "5";
    assert DigitsValue("5") == 5;
    assert ColorAt(t, 1) == (Some("red"), 2);
    WebPoseStartIsFront();
    WebPoseActionsFail();
    DecodingFrom(t, 5, Some("red"), 2, Some(StartPosition("front")), 4);
  }

  /** A wait of 2147483500 ms is written as `W2147484` and comes back wrapped to a negative time. */
  lemma LongWaitWraps()
    ensures WaitSeconds(Action("wait", "Wait", Some(2147483500))) == 2147484
    ensures DecodedAction(Action("wait", "Wait", Some(2147483500))).waitTime == Some(-2147483296)
  {
  }

  /** `encodeConfig`: the first match only; an absent or empty list, or an empty first wrapper, is the empty text. */
  function EncodeConfig(config: Option<MatchDataConfig>): (r: Result<string, JavaException>)
    ensures (config.None? || config.value.matches.None? || config.value.matches.value == []
             || config.value.matches.value[0].wrapped.None?) ==> r == Success("")
    ensures r.Failure? ==> Encoding(config.value.matches.value[0].wrapped.value).Failure?
  {
    if config.None? || config.value.matches.None? || config.value.matches.value == [] then Success("")
    else
      var wrapper := config.value.matches.value[0];
      if wrapper.wrapped.Some? then Encoding(wrapper.wrapped.value) else Success("")
  }

  /** `decodeConfig`: version 1.0.0 and one wrapper holding the decoded match; a decoding exception propagates. */
  function DecodeConfig(terse: string): (r: Result<MatchDataConfig, JavaException>)
    ensures r.Success? <==> Decoding(terse).Success?
    ensures r.Failure? ==> r.error == Decoding(terse).error
    ensures r.Success? ==> r.value.version == Some("1.0.0") && r.value.matches == Some([MatchWrapper(Some(Decoding(terse).value))])
  {
    var m :- Decoding(terse);
    Success(MatchDataConfig(Some("1.0.0"), Some([MatchWrapper(Some(m))])))
  }

  /** A configuration whose first match is encodable comes back as that match, round-tripped, alone. */
  lemma ConfigRoundTrip(config: MatchDataConfig)
    requires config.matches.Some? && config.matches.value != [] && config.matches.value[0].wrapped.Some?
    requires Encodable(config.matches.value[0].wrapped.value)
    ensures EncodeConfig(Some(config)).Success?
    ensures DecodeConfig(EncodeConfig(Some(config)).value)
         == Success(MatchDataConfig(Some("1.0.0"), Some([MatchWrapper(Some(RoundTripped(config.matches.value[0].wrapped.value)))])))
  {
    DecodeEncode(config.matches.value[0].wrapped.value);
  }

  /** The empty text `encodeConfig` gives a configuration without a match is rejected by `decodeConfig`. */
  lemma EmptyConfigNotDecoded()
    ensures EncodeConfig(None) == Success("")
    ensures DecodeConfig("") == Failure(NumberFormatException(""))
  {
    DecodeEmptyFails();
  }
}
