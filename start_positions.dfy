/**
 * The configurable start positions of the web app (`useStartPositions`):
 * a list of plain objects, each held as a map from property name to string
 * (`id` or `key`, and `label`).
 */
module StartPositions {
  import opened Wrappers
  import opened Lists

  /** A start-position object: its string properties. */
  type Entry = map<string, string>

  /** `{ ...entry, ...updated }`: the properties of `updated` win. */
  function MergeEntry(entry: Entry, updated: Entry): (r: Entry)
    ensures r.Keys == entry.Keys + updated.Keys
    ensures forall k :: k in updated ==> r[k] == updated[k]
    ensures forall k :: k in entry && k !in updated ==> r[k] == entry[k]
  {
    entry + updated
  }

  /** `DEFAULT_START_POSITIONS`. */
  const DefaultStartPositions: seq<Entry> := [map["id" := "front", "label" := "Front"], map["id" := "back", "label" := "Back"]]

  /** The list the hook starts from: the stored list, or the defaults when nothing valid is stored (`None`). */
  function InitialStartPositions(stored: Option<seq<Entry>>): (r: seq<Entry>)
    ensures stored.None? ==> r == DefaultStartPositions
    ensures stored.Some? ==> r == stored.value
  {
    stored.GetOr(DefaultStartPositions)
  }

  /**
   * `positions[index] = { ...positions[index], ...updated }` on a copy. An
   * index one past the end appends `updated` (the spread of `undefined` is
   * empty); any other index outside the list leaves it as it was.
   */
  function UpdateAt(positions: seq<Entry>, index: int, updated: Entry): (r: seq<Entry>)
    ensures 0 <= index < |positions| ==>
      |r| == |positions| && r[index] == MergeEntry(positions[index], updated)
      && forall i :: 0 <= i < |positions| && i != index ==> r[i] == positions[i]
    ensures index == |positions| ==> r == positions + [updated]
    ensures index < 0 || index > |positions| ==> r == positions
  {
    if 0 <= index < |positions| then positions[index := MergeEntry(positions[index], updated)]
    else if index == |positions| then positions + [updated]
    else positions
  }

  /** Deleting what was just added restores the list. */
  lemma DeleteAddedRestores(positions: seq<Entry>, p: Entry)
    ensures WithoutIndex(positions + [p], |positions|) == positions
  {
    assert (positions + [p])[..|positions|] == positions;
  }

  /** Updating an entry with its own properties changes nothing. */
  lemma UpdateWithOwnProperties(positions: seq<Entry>, index: int)
    requires 0 <= index < |positions|
    ensures UpdateAt(positions, index, positions[index]) == positions
  {
    assert MergeEntry(positions[index], positions[index]) == positions[index];
  }

  /** The state of `useStartPositions`. */
  class StartPositionList {
    var positions: seq<Entry>

    constructor (stored: Option<seq<Entry>>)
      ensures positions == InitialStartPositions(stored)
    {
      positions := InitialStartPositions(stored);
    }

    /** `addStartPosition`. */
    method AddStartPosition(p: Entry)
      modifies this
      ensures positions == old(positions) + [p]
    {
      positions := positions + [p];
    }

    /** `updateStartPosition`. */
    method UpdateStartPosition(index: int, updated: Entry)
      modifies this
      ensures positions == UpdateAt(old(positions), index, updated)
    {
      positions := UpdateAt(positions, index, updated);
    }

    /** `deleteStartPosition`: removes exactly the entry at `index`, and nothing for an index outside the list. */
    method DeleteStartPosition(index: int)
      modifies this
      ensures positions == WithoutIndex(old(positions), index)
      ensures 0 <= index < |old(positions)| ==> |positions| == |old(positions)| - 1
      ensures !(0 <= index < |old(positions)|) ==> positions == old(positions)
    {
      positions := WithoutIndex(positions, index);
    }
  }
}
