/**
 * The start-position manager dialog (`ManageStartPositionsModal`): the
 * display list that puts the reserved custom position `S0` first, the
 * row-to-list index mapping, the number proposed for the next `S{n}` key, and
 * the add sub-dialog.
 */
module ManageStartPositions {
  import opened Wrappers
  import opened Strings
  import opened Lists
  import opened StartPositions

  const KeyField: string := "key"
  const LabelField: string := "label"
  const CustomKey: string := "S0"

  /** The reserved row shown before the configured positions. */
  const CustomEntry: Entry := map[KeyField := CustomKey, LabelField := "Custom"]

  /** The key has the shape `S` followed by one or more decimal digits (`/^S(\d+)$/`). */
  predicate IsNumberedKey(key: string) {
    |key| >= 2 && key[0] == 'S' && AllDigits(key[1..])
  }

  /** The number in an entry's `S{n}` key, 0 when the entry has no such key. */
  function KeyNumber(e: Entry): (n: nat)
    ensures KeyField in e && IsNumberedKey(e[KeyField]) ==> n == DigitsValue(e[KeyField][1..])
    ensures !(KeyField in e && IsNumberedKey(e[KeyField])) ==> n == 0
  {
    if KeyField in e && IsNumberedKey(e[KeyField]) then DigitsValue(e[KeyField][1..]) else 0
  }

  /** The largest key number of the list, 0 when it has none above 0. */
  function MaxKeyNumber(ps: seq<Entry>): (m: nat)
    ensures forall i :: 0 <= i < |ps| ==> KeyNumber(ps[i]) <= m
    ensures m == 0 || exists i :: 0 <= i < |ps| && KeyNumber(ps[i]) == m
    decreases |ps|
  {
    if ps == [] then 0
    else
      var init := ps[..|ps| - 1];
      var m0 := MaxKeyNumber(init);
      assert forall i :: 0 <= i < |init| ==> init[i] == ps[i];
      var k := KeyNumber(ps[|ps| - 1]);
      if k > m0 then k else m0
  }

  /** `Math.max(...numbers.filter(n => n > 0), 0) + 1`. */
  function NextKeyNumber(ps: seq<Entry>): (n: nat)
    ensures n >= 1
    ensures forall i :: 0 <= i < |ps| ==> KeyNumber(ps[i]) < n
    ensures n == 1 || exists i :: 0 <= i < |ps| && KeyNumber(ps[i]) == n - 1
  {
    MaxKeyNumber(ps) + 1
  }

  /** An entry without an `S{n}` key with n above 0, `S0` included, does not move the next number. */
  lemma {:induction false} UnnumberedEntryIgnored(ps: seq<Entry>, e: Entry)
    requires KeyNumber(e) == 0
    ensures NextKeyNumber(ps + [e]) == NextKeyNumber(ps)
  {
    assert (ps + [e])[..|ps|] == ps;
  }

  /** Adding a position keyed with the proposed number moves the proposal one further. */
  lemma {:induction false} AddingProposedKeyAdvances(ps: seq<Entry>, e: Entry)
    requires KeyField in e && e[KeyField] == "S" + NatToString(NextKeyNumber(ps))
    ensures NextKeyNumber(ps + [e]) == NextKeyNumber(ps) + 1
  {
    var n := NextKeyNumber(ps);
    assert e[KeyField][1..] == NatToString(n);
    assert KeyNumber(e) == n;
    assert (ps + [e])[..|ps|] == ps;
  }

  /** `allPositions`: the custom row, then the configured positions. */
  function DisplayList(ps: seq<Entry>): (r: seq<Entry>)
    ensures |r| == |ps| + 1 && r[0] == CustomEntry
    ensures forall idx :: 1 <= idx < |r| ==> r[idx] == ps[idx - 1]
  {
    [CustomEntry] + ps
  }

  /** `isCustom`: a row keyed `S0`. */
  predicate IsCustomRow(e: Entry) {
    KeyField in e && e[KeyField] == CustomKey
  }

  /** `actualIdx`: -1 for a custom row, else the row's index in the configured list. */
  function ActualIndex(display: seq<Entry>, idx: nat): (r: int)
    requires idx < |display|
    ensures IsCustomRow(display[idx]) ==> r == -1
    ensures !IsCustomRow(display[idx]) ==> r == idx - 1
  {
    if IsCustomRow(display[idx]) then -1 else idx - 1
  }

  /** What a row offers: a read-only label, or a label editor and a delete button for a list index. */
  datatype RowControls = ReadOnly | Editable(index: int)

  function Controls(display: seq<Entry>, idx: nat): (r: RowControls)
    requires idx < |display|
    ensures r.ReadOnly? <==> IsCustomRow(display[idx])
    ensures r.Editable? ==> r.index == idx - 1
  {
    if IsCustomRow(display[idx]) then ReadOnly else Editable(ActualIndex(display, idx))
  }

  /** The reserved row can be neither edited nor deleted. */
  lemma CustomRowIsReadOnly(ps: seq<Entry>)
    ensures Controls(DisplayList(ps), 0) == ReadOnly
  {
  }

  /** Every configured position not keyed `S0` is edited and deleted through its own index in the list. */
  lemma RowsMapToTheirEntries(ps: seq<Entry>, idx: nat, v: string)
    requires 1 <= idx <= |ps| && !IsCustomRow(ps[idx - 1])
    ensures Controls(DisplayList(ps), idx) == Editable(idx - 1)
    ensures UpdateAt(ps, idx - 1, map[LabelField := v])[idx - 1][LabelField] == v
    ensures WithoutIndex(ps, idx - 1) == RemoveAt(ps, idx - 1)
  {
    assert DisplayList(ps)[idx] == ps[idx - 1];
  }

  /** A configured position keyed `S0` is also shown read-only, without a delete button. */
  lemma ConfiguredS0IsReadOnly(ps: seq<Entry>, j: nat)
    requires j < |ps| && IsCustomRow(ps[j])
    ensures Controls(DisplayList(ps), j + 1) == ReadOnly
  {
    assert DisplayList(ps)[j + 1] == ps[j];
  }

  /** `Start Position ${nextKeyNumber}`. */
  function ProposedLabel(ps: seq<Entry>): string {
    "Start Position " + NatToString(NextKeyNumber(ps))
  }

  /** The add sub-dialog's state. */
  class AddDialog {
    var showAddModal: bool
    var newPositionLabel: string

    constructor ()
      ensures !showAddModal && newPositionLabel == ""
    {
      showAddModal := false;
      newPositionLabel := "";
    }

    /** `handleAdd`: open the dialog with the label for the next key number. */
    method HandleAdd(ps: seq<Entry>)
      modifies this
      ensures showAddModal && newPositionLabel == ProposedLabel(ps)
    {
      showAddModal := true;
      newPositionLabel := ProposedLabel(ps);
    }

    /** `confirmAdd`: a label that is not blank is handed on trimmed; the dialog always closes and clears. */
    method ConfirmAdd() returns (added: Option<string>)
      modifies this
      ensures added.None? <==> Trim(old(newPositionLabel)) == []
      ensures added.Some? ==> added.value == Trim(old(newPositionLabel))
      ensures !showAddModal && newPositionLabel == ""
    {
      added := if Trim(newPositionLabel) != [] then Some(Trim(newPositionLabel)) else None;
      showAddModal := false;
      newPositionLabel := "";
    }

    /** `cancelAdd`. */
    method CancelAdd()
      modifies this
      ensures !showAddModal && newPositionLabel == ""
    {
      showAddModal := false;
      newPositionLabel := "";
    }
  }
}
