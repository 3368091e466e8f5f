/**
 * Reordering a match's action sequence by drag and drop: the
 * remove-then-splice reorder shared by every drop handler, and the drag
 * state (drag and hover index, drag position, the touch and pointer flags the
 * hook keeps in refs) that the desktop, touch and pointer handlers update.
 */
module DragAndDrop {
  import opened Wrappers
  import opened AppTypes
  import opened ActionUtils
  import opened Lists

  // The reorder

  /** Where `splice(start, 0, item)` inserts into a list of length `len`; a negative start counts from the end. */
  function SpliceStart(len: nat, start: int): (k: nat)
    ensures k <= len
    ensures 0 <= start <= len ==> k == start
    ensures start > len ==> k == len
    ensures start < 0 ==> k == if len + start < 0 then 0 else len + start
  {
    if start < 0 then (if len + start < 0 then 0 else len + start)
    else if start > len then len
    else start
  }

  /** The index the dragged item ends up at (`insertIndex` after `splice` clamps it). */
  function Landing(len: nat, from: int, to: int): (k: nat)
    requires 0 <= from < len
    ensures k < len
  {
    SpliceStart(len - 1, if from < to then to - 1 else to)
  }

  /** The body of every drop handler once `isValidReorder` holds. */
  function Reorder<T>(list: seq<T>, from: int, to: int): (r: seq<T>)
    requires IsValidReorder(list, from, to)
    ensures |r| == |list|
  {
    InsertAt(RemoveAt(list, from), Landing(|list|, from, to), list[from])
  }

  /** A reorder is a permutation of the list. */
  lemma ReorderPermutation<T>(list: seq<T>, from: int, to: int)
    requires IsValidReorder(list, from, to)
    ensures multiset(Reorder(list, from, to)) == multiset(list)
  {
    InsertRemoveMultiset(list, from, Landing(|list|, from, to));
  }

  /** The dragged item lands at `to - 1` when dragged forward, else at `to` (for a target inside the list or just past it). */
  lemma ReorderLanding<T>(list: seq<T>, from: int, to: int)
    requires IsValidReorder(list, from, to) && 0 <= to <= |list|
    ensures Landing(|list|, from, to) == if from < to then to - 1 else to
    ensures Reorder(list, from, to)[if from < to then to - 1 else to] == list[from]
  {
  }

  /** Taking the moved item out again gives the list without it: every other item keeps its relative order. */
  lemma {:induction false} ReorderKeepsOthers<T>(list: seq<T>, from: int, to: int)
    requires IsValidReorder(list, from, to)
    ensures var k := Landing(|list|, from, to);
      Reorder(list, from, to)[k] == list[from] && RemoveAt(Reorder(list, from, to), k) == RemoveAt(list, from)
  {
    var k := Landing(|list|, from, to);
    var rest := RemoveAt(list, from);
    var r := InsertAt(rest, k, list[from]);
    assert RemoveAt(r, k) == rest;
  }

  /** Dropping at the end (`to` = length) makes the item the last one. */
  lemma DropAtEndIsLast<T>(list: seq<T>, from: int)
    requires 0 <= from < |list|
    ensures Reorder(list, from, |list|) == RemoveAt(list, from) + [list[from]]
  {
    var rest := RemoveAt(list, from);
    assert rest[..|rest|] == rest;
  }

  /** Dropping an item on itself or on its right-hand neighbour changes nothing. */
  lemma DropInPlace<T>(list: seq<T>, from: int)
    requires 0 <= from < |list|
    ensures Reorder(list, from, from) == list
    ensures Reorder(list, from, from + 1) == list
  {
    assert list == list[..from] + [list[from]] + list[from + 1..];
  }

  // The drag state

  datatype Point = Point(x: real, y: real)

  const Origin: Point := Point(0.0, 0.0)

  /** `DRAG_START_THRESHOLD`, in pixels. */
  const DragStartThreshold: real := 8.0

  /** `e.pointerType`. */
  datatype PointerKind = Mouse | Touch | Pen

  /** What `elementFromPoint(...).closest('[data-action-index]')` finds under a touch or pointer. */
  datatype Target = NoElement | ActionItem(index: int) | OtherElement

  /** `Math.hypot(dx, dy) >= DRAG_START_THRESHOLD`, on squares. */
  predicate FarEnough(a: Point, b: Point) {
    (a.x - b.x) * (a.x - b.x) + (a.y - b.y) * (a.y - b.y) >= DragStartThreshold * DragStartThreshold
  }

  /** The touch and pointer guards: an existing entry that is neither the start nor a parking action. */
  predicate CanStartDrag(list: seq<Action>, index: int) {
    && 0 <= index < |list|
    && list[index].configType != Some("start")
    && list[index].actionType != "near_park" && list[index].actionType != "far_park"
  }

  /** The index a release drops on: no hover target means the end of the list. */
  function ReleaseTarget(hover: int, len: nat): (to: int)
    ensures hover == -1 ==> to == len
    ensures hover != -1 ==> to == hover
  {
    if hover == -1 then len else hover
  }

  /** The hover index after a move over `target`, or `None` when the move leaves it. */
  function HoverOver(target: Target, len: nat): (h: Option<int>)
    ensures target.NoElement? <==> h.None?
    ensures target.ActionItem? ==> h == Some(target.index)
    ensures target.OtherElement? ==> h == Some(len)
  {
    match target
    case NoElement => None
    case ActionItem(i) => Some(i)
    case OtherElement => Some(len)
  }

  /** The list after a release from `from` onto `to`. */
  function Dropped(list: seq<Action>, from: Option<int>, to: int): (r: seq<Action>)
    ensures from.Some? && IsValidReorder(list, from.value, to) ==> r == Reorder(list, from.value, to)
    ensures !(from.Some? && IsValidReorder(list, from.value, to)) ==> r == list
    ensures multiset(r) == multiset(list)
  {
    if from.Some? && IsValidReorder(list, from.value, to) then
      ReorderPermutation(list, from.value, to);
      Reorder(list, from.value, to)
    else list
  }

  /**
   * The state of `useDragAndDrop`. The window listeners a touch or pointer
   * press registers are the handler closures of the render in which the press
   * happened; `heldDragIndex` and `heldHoverIndex` are the drag and hover
   * indices those closures see.
   */
  class DragState {
    var actionList: seq<Action>
    var dragIndex: int
    var hoverIndex: int
    var dragPos: Point
    var touchActive: bool
    var pointerActive: bool
    var pointerPending: bool
    var pointerId: Option<int>
    var pointerStart: Point
    var heldDragIndex: int
    var heldHoverIndex: int
    var touchListening: bool
    var pointerListening: bool

    /** No drag in progress. */
    predicate Idle()
      reads this
    {
      && dragIndex == -1 && hoverIndex == -1 && dragPos == Origin
      && !touchActive && !pointerActive && !pointerPending && pointerId.None?
      && !touchListening && !pointerListening
    }

    constructor (list: seq<Action>)
      ensures actionList == list && Idle()
    {
      actionList := list;
      dragIndex := -1;
      hoverIndex := -1;
      dragPos := Origin;
      touchActive := false;
      pointerActive := false;
      pointerPending := false;
      pointerId := None;
      pointerStart := Origin;
      heldDragIndex := -1;
      heldHoverIndex := -1;
      touchListening := false;
      pointerListening := false;
    }

    /** The reorder and the reset every drop handler ends with. */
    method Finish(from: Option<int>, to: int)
      modifies this`actionList, this`dragIndex, this`hoverIndex, this`dragPos
      ensures actionList == Dropped(old(actionList), from, to)
      ensures dragIndex == -1 && hoverIndex == -1 && dragPos == Origin
    {
      if from.Some? && IsValidReorder(actionList, from.value, to) {
        actionList := Reorder(actionList, from.value, to);
      }
      dragIndex := -1;
      hoverIndex := -1;
      dragPos := Origin;
    }

    /** `handleDragStart`. */
    method DragStart(index: int, at: Point)
      modifies this`dragIndex, this`dragPos
      ensures dragIndex == index && dragPos == at
    {
      dragIndex := index;
      dragPos := at;
    }

    /** `handleDragOver`. */
    method DragOver(index: int, at: Point)
      modifies this`hoverIndex, this`dragPos
      ensures hoverIndex == index && dragPos == at
    {
      hoverIndex := index;
      dragPos := at;
    }

    /** The source of a desktop drop: the drag index, else the index carried by the drag data (`None` when it does not parse). */
    function DropSource(transferred: Option<int>): Option<int>
      reads this`dragIndex
    {
      if dragIndex != -1 then Some(dragIndex) else transferred
    }

    /** `handleDrop` on the entry at `index`. */
    method Drop(index: int, transferred: Option<int>)
      modifies this`actionList, this`dragIndex, this`hoverIndex, this`dragPos
      ensures actionList == Dropped(old(actionList), old(DropSource(transferred)), index)
      ensures dragIndex == -1 && hoverIndex == -1 && dragPos == Origin
    {
      Finish(DropSource(transferred), index);
    }

    /** `handleDropAtEnd`: a drop after the last entry, so the dragged entry becomes the last one. */
    method DropAtEnd(transferred: Option<int>)
      modifies this`actionList, this`dragIndex, this`hoverIndex, this`dragPos
      ensures actionList == Dropped(old(actionList), old(DropSource(transferred)), |old(actionList)|)
      ensures var from := old(DropSource(transferred));
        from.Some? && 0 <= from.value < |old(actionList)| ==>
          actionList == RemoveAt(old(actionList), from.value) + [old(actionList)[from.value]]
      ensures dragIndex == -1 && hoverIndex == -1 && dragPos == Origin
    {
      ghost var from := DropSource(transferred);
      if from.Some? && 0 <= from.value < |actionList| {
        DropAtEndIsLast(actionList, from.value);
      }
      Finish(DropSource(transferred), |actionList|);
    }

    /** `handleTouchStart` on the entry at `index`, with the first touch point if there is one. */
    method TouchStart(index: int, touch: Option<Point>)
      modifies this
      ensures !CanStartDrag(old(actionList), index) ==> unchanged(this)
      ensures CanStartDrag(old(actionList), index) ==>
        && touchActive && touchListening && dragIndex == index && hoverIndex == index
        && dragPos == (if touch.Some? then touch.value else old(dragPos))
        && heldDragIndex == old(dragIndex) && heldHoverIndex == old(hoverIndex)
        && actionList == old(actionList) && pointerActive == old(pointerActive)
        && pointerPending == old(pointerPending) && pointerId == old(pointerId)
        && pointerStart == old(pointerStart) && pointerListening == old(pointerListening)
    {
      if !CanStartDrag(actionList, index) {
        return;
      }
      touchActive := true;
      heldDragIndex, heldHoverIndex := dragIndex, hoverIndex;
      dragIndex, hoverIndex := index, index;
      if touch.Some? {
        dragPos := touch.value;
      }
      touchListening := true;
    }

    /** `handleTouchMove`: follow the touch and track the entry under it. */
    method TouchMove(touch: Option<Point>, target: Target)
      modifies this`dragPos, this`hoverIndex
      ensures !old(touchActive) || touch.None? ==> dragPos == old(dragPos) && hoverIndex == old(hoverIndex)
      ensures old(touchActive) && touch.Some? ==>
        && dragPos == touch.value
        && hoverIndex == HoverOver(target, |actionList|).GetOr(old(hoverIndex))
    {
      if !touchActive || touch.None? {
        return;
      }
      dragPos := touch.value;
      var h := HoverOver(target, |actionList|);
      if h.Some? {
        hoverIndex := h.value;
      }
    }

    /** `handleTouchEnd` reading the live drag and hover index. */
    method TouchEnd()
      modifies this`actionList, this`dragIndex, this`hoverIndex, this`dragPos, this`touchActive, this`touchListening
      ensures !old(touchActive) ==> unchanged(this)
      ensures old(touchActive) ==>
        && actionList == Dropped(old(actionList), Some(old(dragIndex)), ReleaseTarget(old(hoverIndex), |old(actionList)|))
        && dragIndex == -1 && hoverIndex == -1 && dragPos == Origin && !touchActive && !touchListening
    {
      if !touchActive {
        return;
      }
      touchActive := false;
      Finish(Some(dragIndex), ReleaseTarget(hoverIndex, |actionList|));
      touchListening := false;
    }

    /** `handleTouchEnd` as registered: the drag and hover index are those of the render that saw the touch start. */
    method TouchEndAsWritten()
      modifies this`actionList, this`dragIndex, this`hoverIndex, this`dragPos, this`touchActive, this`touchListening
      ensures !old(touchActive) ==> unchanged(this)
      ensures old(touchActive) ==>
        && actionList == Dropped(old(actionList), Some(old(heldDragIndex)), ReleaseTarget(old(heldHoverIndex), |old(actionList)|))
        && dragIndex == -1 && hoverIndex == -1 && dragPos == Origin && !touchActive && !touchListening
    {
      if !touchActive {
        return;
      }
      touchActive := false;
      Finish(Some(heldDragIndex), ReleaseTarget(heldHoverIndex, |actionList|));
      touchListening := false;
    }

    /** `handlePointerDown`: only touch and pen pointers start a (pending) drag. */
    method PointerDown(kind: PointerKind, id: int, at: Point, index: int)
      modifies this
      ensures kind == Mouse || !CanStartDrag(old(actionList), index) ==> unchanged(this)
      ensures kind != Mouse && CanStartDrag(old(actionList), index) ==>
        && pointerPending && pointerId == Some(id) && pointerStart == at && pointerListening
        && dragIndex == index && hoverIndex == index
        && heldDragIndex == old(dragIndex) && heldHoverIndex == old(hoverIndex)
        && actionList == old(actionList) && dragPos == old(dragPos) && pointerActive == old(pointerActive)
        && touchActive == old(touchActive) && touchListening == old(touchListening)
    {
      if kind == Mouse || !CanStartDrag(actionList, index) {
        return;
      }
      pointerPending := true;
      pointerId := Some(id);
      pointerStart := at;
      heldDragIndex, heldHoverIndex := dragIndex, hoverIndex;
      dragIndex, hoverIndex := index, index;
      pointerListening := true;
    }

    /** `handlePointerMove`: a pending drag becomes active once the pointer is 8 pixels from its start. */
    method PointerMove(id: int, at: Point, target: Target)
      modifies this`pointerActive, this`pointerPending, this`dragPos, this`hoverIndex
      ensures pointerId != Some(id) ==> unchanged(this)
      ensures pointerId == Some(id) && old(pointerPending) && !old(pointerActive) && !FarEnough(at, pointerStart) ==>
        unchanged(this)
      ensures pointerId == Some(id) && old(pointerPending) && !old(pointerActive) && FarEnough(at, pointerStart) ==>
        pointerActive && !pointerPending
      ensures pointerId == Some(id) && !old(pointerActive) && !old(pointerPending) ==> unchanged(this)
      ensures pointerId == Some(id) && pointerActive && !(old(pointerPending) && !old(pointerActive) && !FarEnough(at, pointerStart)) ==>
        && dragPos == at
        && hoverIndex == HoverOver(target, |actionList|).GetOr(old(hoverIndex))
      ensures pointerActive == (old(pointerActive) || (pointerId == Some(id) && old(pointerPending) && FarEnough(at, pointerStart)))
    {
      if pointerId != Some(id) {
        return;
      }
      if pointerPending && !pointerActive {
        if FarEnough(at, pointerStart) {
          pointerActive := true;
          pointerPending := false;
          dragPos := at;
        } else {
          return;
        }
      }
      if !pointerActive {
        return;
      }
      dragPos := at;
      var h := HoverOver(target, |actionList|);
      if h.Some? {
        hoverIndex := h.value;
      }
    }

    /** `handlePointerUp` reading the live drag and hover index. */
    method PointerUp(id: int)
      modifies this`actionList, this`dragIndex, this`hoverIndex, this`dragPos, this`pointerActive, this`pointerPending,
               this`pointerId, this`pointerListening
      ensures old(pointerId) != Some(id) || (!old(pointerPending) && !old(pointerActive)) ==> unchanged(this)
      ensures old(pointerId) == Some(id) && old(pointerPending) && !old(pointerActive) ==>
        && !pointerPending && pointerId.None? && dragIndex == -1 && hoverIndex == -1 && !pointerListening
        && actionList == old(actionList) && dragPos == old(dragPos) && !pointerActive
      ensures old(pointerId) == Some(id) && old(pointerActive) ==>
        && actionList == Dropped(old(actionList), Some(old(dragIndex)), ReleaseTarget(old(hoverIndex), |old(actionList)|))
        && dragIndex == -1 && hoverIndex == -1 && dragPos == Origin
        && !pointerActive && pointerId.None? && !pointerListening && pointerPending == old(pointerPending)
    {
      if pointerId != Some(id) {
        return;
      }
      if pointerPending && !pointerActive {
        pointerPending := false;
        pointerId := None;
        dragIndex, hoverIndex := -1, -1;
        pointerListening := false;
        return;
      }
      if !pointerActive {
        return;
      }
      pointerActive := false;
      pointerId := None;
      Finish(Some(dragIndex), ReleaseTarget(hoverIndex, |actionList|));
      pointerListening := false;
    }

    /** `handlePointerUp` as registered: it drops from the drag and hover index of the pointer-down render. */
    method PointerUpAsWritten(id: int)
      modifies this`actionList, this`dragIndex, this`hoverIndex, this`dragPos, this`pointerActive, this`pointerPending,
               this`pointerId, this`pointerListening
      ensures old(pointerId) != Some(id) || (!old(pointerPending) && !old(pointerActive)) ==> unchanged(this)
      ensures old(pointerId) == Some(id) && old(pointerPending) && !old(pointerActive) ==>
        && !pointerPending && pointerId.None? && dragIndex == -1 && hoverIndex == -1 && !pointerListening
        && actionList == old(actionList) && dragPos == old(dragPos) && !pointerActive
      ensures old(pointerId) == Some(id) && old(pointerActive) ==>
        && actionList == Dropped(old(actionList), Some(old(heldDragIndex)), ReleaseTarget(old(heldHoverIndex), |old(actionList)|))
        && dragIndex == -1 && hoverIndex == -1 && dragPos == Origin
        && !pointerActive && pointerId.None? && !pointerListening && pointerPending == old(pointerPending)
    {
      if pointerId != Some(id) {
        return;
      }
      if pointerPending && !pointerActive {
        pointerPending := false;
        pointerId := None;
        dragIndex, hoverIndex := -1, -1;
        pointerListening := false;
        return;
      }
      if !pointerActive {
        return;
      }
      pointerActive := false;
      pointerId := None;
      Finish(Some(heldDragIndex), ReleaseTarget(heldHoverIndex, |actionList|));
      pointerListening := false;
    }
  }

  /** A release whose source is the `-1` of "no drag" never reorders. */
  lemma DropFromNoDragKeepsList(list: seq<Action>, to: int)
    ensures Dropped(list, Some(-1), to) == list
  {
  }

  /**
   * A touch drag of the first of two entries to the empty area below the
   * list, with the handlers as registered: the release sees the idle
   * render's `-1` and the list stays as it was.
   */
  method TouchDragToEndAsWritten(a: Action, b: Action) returns (after: seq<Action>)
    requires CanStartDrag([a, b], 0)
    ensures after == [a, b]
  {
    var s := new DragState([a, b]);
    s.TouchStart(0, Some(Point(10.0, 10.0)));
    s.TouchMove(Some(Point(10.0, 90.0)), OtherElement);
    s.TouchEndAsWritten();
    after := s.actionList;
    DropFromNoDragKeepsList([a, b], 2);
  }

  /** Releasing the first of two entries past the end swaps them. */
  lemma FirstOfTwoDroppedAtEnd(a: Action, b: Action)
    ensures Dropped([a, b], Some(0), 2) == [b, a]
  {
    DropAtEndIsLast([a, b], 0);
    assert RemoveAt([a, b], 0) == [b];
  }

  /** The same drag reading the live indices: the two entries swap. */
  method TouchDragToEnd(a: Action, b: Action) returns (after: seq<Action>)
    requires CanStartDrag([a, b], 0)
    ensures after == [b, a]
  {
    var t := new DragState([a, b]);
    t.TouchStart(0, Some(Point(10.0, 10.0)));
    assert t.touchActive && t.dragIndex == 0 && t.actionList == [a, b];
    t.TouchMove(Some(Point(10.0, 90.0)), OtherElement);
    assert t.touchActive && t.dragIndex == 0 && t.hoverIndex == 2 && t.actionList == [a, b];
    t.TouchEnd();
    after := t.actionList;
    FirstOfTwoDroppedAtEnd(a, b);
  }
}
