/**
 * The match-selection stage of the robot's configurable autonomous op mode:
 * loading the playable matches from the parsed match-data file, and the
 * per-frame gamepad handling that moves the highlighted entry, reloads the
 * file, opens the detail view or confirms the selection.
 */
module SelectionOpMode {
  import opened Wrappers
  import opened Strings
  import opened MatchData

  /** A match the op mode can run: it has an alliance and that alliance has an autonomous part. */
  predicate Playable(m: Option<Match>) {
    m.Some? && m.value.alliance.Some? && m.value.alliance.value.auto.Some?
  }

  /** The matches of the wrappers that are playable, in list order. */
  function PlayableMatches(wrappers: seq<MatchWrapper>): (r: seq<Match>)
    ensures |r| <= |wrappers|
    ensures forall i :: 0 <= i < |r| ==> Playable(Some(r[i]))
    decreases |wrappers|
  {
    if wrappers == [] then []
    else
      var last := wrappers[|wrappers| - 1].wrapped;
      PlayableMatches(wrappers[..|wrappers| - 1]) + (if Playable(last) then [last.value] else [])
  }

  /** A match is kept exactly when some wrapper holds it and it is playable. */
  lemma {:induction false} PlayableMatchesMembers(wrappers: seq<MatchWrapper>, m: Match)
    ensures m in PlayableMatches(wrappers) <==>
      Playable(Some(m)) && exists k :: 0 <= k < |wrappers| && wrappers[k].wrapped == Some(m)
    decreases |wrappers|
  {
    if wrappers != [] {
      var init := wrappers[..|wrappers| - 1];
      PlayableMatchesMembers(init, m);
      if exists k :: 0 <= k < |wrappers| && wrappers[k].wrapped == Some(m) {
        var k :| 0 <= k < |wrappers| && wrappers[k].wrapped == Some(m);
        if k < |init| { assert init[k].wrapped == Some(m); }
      }
      if exists k :: 0 <= k < |init| && init[k].wrapped == Some(m) {
        var k :| 0 <= k < |init| && init[k].wrapped == Some(m);
        assert wrappers[k].wrapped == Some(m);
      }
    }
  }

  /** The filter keeps the order of the list: filtering a concatenation concatenates the results. */
  lemma {:induction false} PlayableMatchesAppend(a: seq<MatchWrapper>, b: seq<MatchWrapper>)
    ensures PlayableMatches(a + b) == PlayableMatches(a) + PlayableMatches(b)
    decreases |b|
  {
    if b == [] {
      assert a + b == a;
    } else {
      var init := b[..|b| - 1];
      assert (a + b)[..|a + b| - 1] == a + init;
      assert (a + b)[|a + b| - 1] == b[|b| - 1];
      PlayableMatchesAppend(a, init);
    }
  }

  /** The whole new list of `loadMatchData`, when it gets as far as replacing it. */
  function Reloaded(loaded: Result<Option<MatchDataConfig>, string>): Option<seq<Match>> {
    if loaded.Success? && loaded.value.Some? && loaded.value.value.matches.Some?
       && loaded.value.value.matches.value != []
    then Some(PlayableMatches(loaded.value.value.matches.value))
    else None
  }

  /** A button press counts only on the frame the button goes down. */
  function Pressed(now: bool, before: bool): (p: bool)
    ensures p <==> now && !before
  {
    now && !before
  }

  /** The buttons of `gamepad1` the selection reads. */
  datatype Gamepad = Gamepad(up: bool, down: bool, a: bool, y: bool, back: bool)

  /** D-pad navigation: up moves towards the top and wraps to the bottom, down the other way; up wins. */
  function Navigate(index: int, size: nat, up: bool, down: bool): (j: int)
    ensures 0 <= index < size ==> 0 <= j < size
    ensures !up && !down ==> j == index
  {
    if up then (if index - 1 < 0 then size - 1 else index - 1)
    else if down then (if index + 1 >= size then 0 else index + 1)
    else index
  }

  /** Navigation keeps a valid index valid and, over a whole cycle, moves by one step. */
  lemma NavigateInRange(index: int, size: nat, up: bool, down: bool)
    requires 0 <= index < size
    ensures var j := Navigate(index, size, up, down); 0 <= j < size
    ensures up ==> Navigate(index, size, up, down) == (index - 1) % size
    ensures !up && down ==> Navigate(index, size, up, down) == (index + 1) % size
    ensures !up && !down ==> Navigate(index, size, up, down) == index
  {
  }

  /** Up from the top goes to the bottom entry; down from the bottom goes to the top. */
  lemma NavigateWraps(size: nat)
    requires size > 0
    ensures Navigate(0, size, true, false) == size - 1
    ensures Navigate(size - 1, size, false, true) == 0
    ensures Navigate(0, size, true, true) == size - 1
  {
  }

  /** Pressing up and then down, or down and then up, comes back to the same entry. */
  lemma NavigateUpDown(index: int, size: nat)
    requires 0 <= index < size
    ensures Navigate(Navigate(index, size, true, false), size, false, true) == index
    ensures Navigate(Navigate(index, size, false, true), size, true, false) == index
  {
  }

  /** The first list entry the selection screen shows: up to two above the selected one. */
  function WindowStart(selected: int): int {
    if selected - 2 > 0 then selected - 2 else 0
  }

  /** One past the last entry shown: at most five entries from the start. */
  function WindowEnd(selected: int, size: int): int {
    var start := WindowStart(selected);
    if size < start + 5 then size else start + 5
  }

  /** The window always shows the selected entry and at most five entries. */
  lemma WindowContainsSelection(selected: int, size: int)
    requires 0 <= selected < size
    ensures 0 <= WindowStart(selected) <= selected < WindowEnd(selected, size) <= size
    ensures WindowEnd(selected, size) - WindowStart(selected) <= 5
    ensures size >= 5 && selected + 2 < size ==> WindowEnd(selected, size) - WindowStart(selected) == 5
  {
  }

  /** `"red".equalsIgnoreCase(match.alliance.color)` and the like; a missing colour matches nothing. */
  predicate ColorIs(m: Match, name: string) {
    m.alliance.Some? && m.alliance.value.color.Some? && EqualsIgnoreCase(name, m.alliance.value.color.value)
  }

  /** No colour is both red and blue, in any letter case. */
  lemma RedIsNotBlue(m: Match)
    ensures !(ColorIs(m, "red") && ColorIs(m, "blue"))
  {
    if m.alliance.Some? && m.alliance.value.color.Some? {
      assert |ToLower("red")| != |ToLower("blue")|;
    }
  }

  /** What a frame of `handleMatchSelection` ends in. */
  datatype Outcome =
    | Displayed                      // the selection screen was redrawn
    | ShowedDetails(shown: Match)    // the detail view of the highlighted match was shown
    | Confirmed                      // the highlighted match was selected
    | IndexOutOfBounds               // `availableMatches.get(selectedIndex)` threw

  class SelectableConfigAutoOpMode {
    var config: Option<MatchDataConfig>
    var availableMatches: seq<Match>
    var selectedIndex: int
    var matchConfirmed: bool
    var selectedMatch: Option<Match>
    var previousDpadUp: bool
    var previousDpadDown: bool
    var previousA: bool
    var previousY: bool
    var previousBack: bool

    /** Every listed and every selected match is playable. */
    predicate Valid()
      reads this`availableMatches, this`selectedMatch
    {
      && (forall i :: 0 <= i < |availableMatches| ==> Playable(Some(availableMatches[i])))
      && (selectedMatch.Some? ==> Playable(selectedMatch))
    }

    /** The field initialisers; the list is empty until the first load. */
    constructor ()
      ensures Valid()
      ensures config == None && availableMatches == [] && selectedIndex == 0
      ensures !matchConfirmed && selectedMatch == None
      ensures !previousDpadUp && !previousDpadDown && !previousA && !previousY && !previousBack
    {
      config := None;
      availableMatches := [];
      selectedIndex := 0;
      matchConfirmed := false;
      selectedMatch := None;
      previousDpadUp, previousDpadDown, previousA, previousY, previousBack := false, false, false, false, false;
    }

    /**
     * `loadMatchData`, given what `parseFile` returned (a configuration, or
     * `None` for `null`) or the message of what it threw. A thrown error
     * changes nothing; otherwise the configuration is kept, and when it has
     * entries the list is rebuilt from them. Success means that list is not
     * empty.
     */
    method LoadMatchData(loaded: Result<Option<MatchDataConfig>, string>) returns (ok: bool)
      requires Valid()
      modifies this`config, this`availableMatches
      ensures Valid()
      ensures config == if loaded.Success? then loaded.value else old(config)
      ensures availableMatches == if Reloaded(loaded).Some? then Reloaded(loaded).value else old(availableMatches)
      ensures ok <==> Reloaded(loaded).Some? && Reloaded(loaded).value != []
    {
      if loaded.Failure? {
        return false;
      }
      config := loaded.value;
      if config.None? || config.value.matches.None? || config.value.matches.value == [] {
        return false;
      }
      var wrappers := config.value.matches.value;
      availableMatches := [];
      var i := 0;
      while i < |wrappers|
        invariant 0 <= i <= |wrappers|
        invariant config == loaded.value
        invariant availableMatches == PlayableMatches(wrappers[..i])
      {
        var m := wrappers[i].wrapped;
        assert wrappers[..i + 1][..i] == wrappers[..i];
        if m.Some? && m.value.alliance.Some? && m.value.alliance.value.auto.Some? {
          availableMatches := availableMatches + [m.value];
        }
        i := i + 1;
      }
      assert wrappers[..i] == wrappers;
      ok := availableMatches != [];
    }

    /** The rising edges of this frame's buttons; the previous-button flags then hold this frame's states. */
    method ReadButtons(pad: Gamepad) returns (pressed: Gamepad)
      modifies this`previousDpadUp, this`previousDpadDown, this`previousA, this`previousY, this`previousBack
      ensures pressed == Gamepad(Pressed(pad.up, old(previousDpadUp)), Pressed(pad.down, old(previousDpadDown)),
                                 Pressed(pad.a, old(previousA)), Pressed(pad.y, old(previousY)),
                                 Pressed(pad.back, old(previousBack)))
      ensures previousDpadUp == pad.up && previousDpadDown == pad.down && previousA == pad.a
      ensures previousY == pad.y && previousBack == pad.back
    {
      pressed := Gamepad(pad.up && !previousDpadUp, pad.down && !previousDpadDown, pad.a && !previousA,
                         pad.y && !previousY, pad.back && !previousBack);
      previousDpadUp, previousDpadDown, previousA, previousY, previousBack := pad.up, pad.down, pad.a, pad.y, pad.back;
    }

    /** The d-pad part of a frame. */
    method MoveSelection(up: bool, down: bool)
      modifies this`selectedIndex
      ensures selectedIndex == Navigate(old(selectedIndex), |availableMatches|, up, down)
    {
      if up {
        selectedIndex := selectedIndex - 1;
        if selectedIndex < 0 {
          selectedIndex := |availableMatches| - 1;
        }
      } else if down {
        selectedIndex := selectedIndex + 1;
        if selectedIndex >= |availableMatches| {
          selectedIndex := 0;
        }
      }
    }

    /** The Y part of a frame: reload, and after a successful reload start again at the top. */
    method ReloadOnPress(y: bool, reload: Result<Option<MatchDataConfig>, string>)
      requires Valid()
      modifies this`config, this`availableMatches, this`selectedIndex
      ensures Valid()
      ensures config == if y && reload.Success? then reload.value else old(config)
      ensures availableMatches == if y && Reloaded(reload).Some? then Reloaded(reload).value else old(availableMatches)
      ensures selectedIndex == if y && Reloaded(reload).Some? && Reloaded(reload).value != [] then 0 else old(selectedIndex)
    {
      if y {
        var ok := LoadMatchData(reload);
        if ok {
          selectedIndex := 0;
        }
      }
    }

    /** The back and A part of a frame: the detail view returns before A is looked at. */
    method RespondToPress(back: bool, a: bool) returns (outcome: Outcome)
      requires Valid()
      modifies this`matchConfirmed, this`selectedMatch
      ensures Valid()
      ensures var inRange := 0 <= selectedIndex < |availableMatches|;
        if back then
          && outcome == (if inRange then ShowedDetails(availableMatches[selectedIndex]) else IndexOutOfBounds)
          && matchConfirmed == old(matchConfirmed) && selectedMatch == old(selectedMatch)
        else if a then
          && outcome == (if inRange then Confirmed else IndexOutOfBounds)
          && matchConfirmed == (inRange || old(matchConfirmed))
          && selectedMatch == (if inRange then Some(availableMatches[selectedIndex]) else old(selectedMatch))
        else
          outcome == Displayed && matchConfirmed == old(matchConfirmed) && selectedMatch == old(selectedMatch)
    {
      if back {
        if 0 <= selectedIndex < |availableMatches| {
          return ShowedDetails(availableMatches[selectedIndex]);
        }
        return IndexOutOfBounds;
      }
      if a {
        if 0 <= selectedIndex < |availableMatches| {
          selectedMatch := Some(availableMatches[selectedIndex]);
          matchConfirmed := true;
          return Confirmed;
        }
        return IndexOutOfBounds;
      }
      return Displayed;
    }

    /**
     * `handleMatchSelection` for one frame: the button states of this frame,
     * and what `parseFile` gives should Y ask for a reload.
     */
    method HandleMatchSelection(pad: Gamepad, reload: Result<Option<MatchDataConfig>, string>) returns (outcome: Outcome)
      requires Valid()
      modifies this
      ensures Valid()
      // the previous-button flags always hold this frame's buttons
      ensures previousDpadUp == pad.up && previousDpadDown == pad.down && previousA == pad.a
      ensures previousY == pad.y && previousBack == pad.back
      // a reload happens only on a Y press; a successful one restarts at the top
      ensures var yPressed := Pressed(pad.y, old(previousY));
        var reloaded := yPressed && Reloaded(reload).Some?;
        && config == (if yPressed && reload.Success? then reload.value else old(config))
        && availableMatches == (if reloaded then Reloaded(reload).value else old(availableMatches))
        && selectedIndex == (if reloaded && Reloaded(reload).value != [] then 0
                             else Navigate(old(selectedIndex), |old(availableMatches)|,
                                           Pressed(pad.up, old(previousDpadUp)), Pressed(pad.down, old(previousDpadDown))))
      // back before A; A confirms the highlighted match
      ensures var inRange := 0 <= selectedIndex < |availableMatches|;
        if Pressed(pad.back, old(previousBack)) then
          && outcome == (if inRange then ShowedDetails(availableMatches[selectedIndex]) else IndexOutOfBounds)
          && matchConfirmed == old(matchConfirmed) && selectedMatch == old(selectedMatch)
        else if Pressed(pad.a, old(previousA)) then
          && outcome == (if inRange then Confirmed else IndexOutOfBounds)
          && matchConfirmed == (inRange || old(matchConfirmed))
          && selectedMatch == (if inRange then Some(availableMatches[selectedIndex]) else old(selectedMatch))
        else
          outcome == Displayed && matchConfirmed == old(matchConfirmed) && selectedMatch == old(selectedMatch)
    {
      var pressed := ReadButtons(pad);
      MoveSelection(pressed.up, pressed.down);
      ReloadOnPress(pressed.y, reload);
      outcome := RespondToPress(pressed.back, pressed.a);
    }

    /** `isRedAlliance`. */
    predicate IsRedAlliance()
      reads this
      ensures IsRedAlliance() ==> selectedMatch.Some? && !ColorIs(selectedMatch.value, "blue")
    {
      if selectedMatch.Some? then
        RedIsNotBlue(selectedMatch.value);
        ColorIs(selectedMatch.value, "red")
      else false
    }

    /** `isBlueAlliance`. */
    predicate IsBlueAlliance()
      reads this
      ensures IsBlueAlliance() ==> selectedMatch.Some? && !ColorIs(selectedMatch.value, "red")
    {
      if selectedMatch.Some? then
        RedIsNotBlue(selectedMatch.value);
        ColorIs(selectedMatch.value, "blue")
      else false
    }

    /** The two alliance tests never both hold, and neither holds before a match is selected. */
    lemma AllianceTestsExclusive()
      ensures !(IsRedAlliance() && IsBlueAlliance())
      ensures selectedMatch.None? ==> !IsRedAlliance() && !IsBlueAlliance()
    {
      if selectedMatch.Some? {
        RedIsNotBlue(selectedMatch.value);
      }
    }
  }

  /**
   * A reload that finds entries but no playable one empties the list and
   * keeps the old index, so a following A press finds no match there.
   */
  lemma EmptyReloadLeavesStaleIndex(c: MatchDataConfig, w: MatchWrapper)
    requires c.matches == Some([w]) && w.wrapped.None?
    ensures Reloaded(Success(Some(c))) == Some([])
  {
    assert [w][..0] == [];
  }
}
