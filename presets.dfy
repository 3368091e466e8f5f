/**
 * The saved templates of the web app (`usePresets`): a list of presets, each
 * a name and a configuration stamped with the save time as its id, mirrored
 * into browser storage whenever the list is not empty. `now` parameters stand
 * for `Date.now()`; storage is a field holding the last list written to it.
 */
module Presets {
  import opened Wrappers
  import opened Strings
  import opened Lists

  datatype Preset<C> = Preset(id: int, name: string, config: C)

  /** `!name.trim()`: a name with nothing but whitespace. */
  predicate IsBlankName(name: string) {
    Trim(name) == []
  }

  /** The list `savePreset` produces: `None` for a blank name, else the list with the new preset last (the name as typed, untrimmed). */
  function Saved<C>(presets: seq<Preset<C>>, name: string, config: C, now: int): (r: Option<seq<Preset<C>>>)
    ensures r.None? <==> forall i :: 0 <= i < |name| ==> IsJsWhitespace(name[i])
    ensures r.Some? ==> |r.value| == |presets| + 1 && r.value[..|presets|] == presets
    ensures r.Some? ==> r.value[|presets|] == Preset(now, name, config)
  {
    TrimEmptyIffBlank(name);
    if IsBlankName(name) then None
    else
      var s := presets + [Preset(now, name, config)];
      assert s[..|presets|] == presets;
      Some(s)
  }

  function HasOtherId<C>(id: int): Preset<C> -> bool {
    (p: Preset<C>) => p.id != id
  }

  /** `presets.filter(p => p.id !== id)`. */
  function Deleted<C>(presets: seq<Preset<C>>, id: int): (r: seq<Preset<C>>)
    ensures forall i :: 0 <= i < |r| ==> r[i] in presets && r[i].id != id
    ensures forall i :: 0 <= i < |presets| && presets[i].id != id ==> presets[i] in r
  {
    forall i | 0 <= i < |presets| {
      FilterMembers(presets, HasOtherId(id), presets[i]);
    }
    forall i | 0 <= i < |Filter(presets, HasOtherId(id))| {
      FilterMembers(presets, HasOtherId(id), Filter(presets, HasOtherId(id))[i]);
    }
    Filter(presets, HasOtherId(id))
  }

  /** What storage holds after the list becomes `presets`: it is written only when not empty. */
  function Persisted<C>(storage: Option<seq<Preset<C>>>, presets: seq<Preset<C>>): (r: Option<seq<Preset<C>>>)
    ensures presets != [] ==> r == Some(presets)
    ensures presets == [] ==> r == storage
  {
    if |presets| > 0 then Some(presets) else storage
  }

  /** The list the hook starts from: what storage holds, or none. */
  function Loaded<C>(storage: Option<seq<Preset<C>>>): (r: seq<Preset<C>>)
    ensures storage.Some? ==> r == storage.value
    ensures storage.None? ==> r == []
  {
    storage.GetOr([])
  }

  /** Deleting a preset saved with a time no other preset carries gives the old list back. */
  lemma {:induction false} DeleteSavedRestores<C>(presets: seq<Preset<C>>, name: string, config: C, now: int)
    requires Saved(presets, name, config, now).Some?
    requires forall i :: 0 <= i < |presets| ==> presets[i].id != now
    ensures Deleted(Saved(presets, name, config, now).value, now) == presets
  {
    var s := Saved(presets, name, config, now).value;
    assert s == presets + [Preset(now, name, config)];
    FilterAppend(presets, [Preset(now, name, config)], HasOtherId(now));
    FilterKeepsAll(presets, HasOtherId(now));
    assert Filter([Preset(now, name, config)], HasOtherId(now)) == [];
  }

  /**
   * Deleting the only preset writes nothing to storage, so the next load
   * brings the deleted preset back.
   */
  lemma DeletingLastPresetComesBack<C>(p: Preset<C>)
    ensures Deleted([p], p.id) == []
    ensures Loaded(Persisted(Persisted(None, [p]), Deleted([p], p.id))) == [p]
  {
    assert !HasOtherId(p.id)(p);
  }

  /** The state of `usePresets` and the storage it writes. */
  class PresetStore<C> {
    var presets: seq<Preset<C>>
    var storage: Option<seq<Preset<C>>>

    /** The first render: load, then the write-back effect (which writes the same list again when it is not empty). */
    constructor (stored: Option<seq<Preset<C>>>)
      ensures presets == Loaded(stored) && storage == Persisted(stored, presets)
    {
      presets := Loaded(stored);
      storage := Persisted(stored, Loaded(stored));
    }

    /** `savePreset`: refuses a blank name, else appends and reports success. */
    method SavePreset(name: string, config: C, now: int) returns (ok: bool)
      modifies this
      ensures ok <==> Saved(old(presets), name, config, now).Some?
      ensures !ok ==> presets == old(presets) && storage == old(storage)
      ensures ok ==> presets == Saved(old(presets), name, config, now).value && storage == Some(presets)
    {
      var r := Saved(presets, name, config, now);
      if r.None? {
        return false;
      }
      presets := r.value;
      storage := Persisted(storage, presets);
      return true;
    }

    /** `deletePreset`: drops every preset with that id. */
    method DeletePreset(id: int)
      modifies this
      ensures presets == Deleted(old(presets), id)
      ensures storage == Persisted(old(storage), presets)
    {
      presets := Deleted(presets, id);
      storage := Persisted(storage, presets);
    }
  }
}
