/**
 * Column drag-and-drop and pinning, shared verbatim by the task table
 * (components/TasksTable.tsx) and the live table
 * (components/GorevlerTablosu.tsx). A column is identified by its id string.
 */
module ColumnLayout {
  import opened Common

  // ---------------------------------------------------------------------------
  // Drag and drop (`handleDrop`)

  /** The column order and the id of the column being dragged, if any. */
  datatype DragState = DragState(order: seq<string>, dragged: Option<string>)

  /** `!draggedColumnId`: no drag in progress, or an empty id. */
  predicate NoDrag(st: DragState) {
    st.dragged.None? || st.dragged.value == ""
  }

  /** Dropping the dragged column on `target`. Without a drag, or on the
      dragged column itself, nothing changes (the drag stays in progress);
      otherwise the drag ends, and when both columns are known the dragged
      one is taken out and put back at the target's original index. */
  function Drop(st: DragState, target: string): (r: DragState)
    ensures NoDrag(st) || st.dragged.value == target ==> r == st
    ensures !NoDrag(st) && st.dragged.value != target ==> r.dragged.None?
    ensures r.order == st.order || (st.dragged.Some? && st.dragged.value in st.order && target in st.order)
  {
    if NoDrag(st) || st.dragged.value == target then st
    else
      var d := st.dragged.value;
      match (IndexOf(st.order, d), IndexOf(st.order, target))
      case (Some(from), Some(to)) => DragState(InsertAt(RemoveAt(st.order, from), to, d), None)
      case _ => DragState(st.order, None)
  }

  /** A drop that moves a column: the dragged column lands at the target's
      original index, the set of ids is kept as a multiset, and taking the
      dragged column out of both orders leaves the same sequence, so every
      other column keeps its relative order. */
  lemma DropMoves(st: DragState, target: string)
    requires !NoDrag(st) && st.dragged.value != target
    requires st.dragged.value in st.order && target in st.order
    ensures var r := Drop(st, target);
      var from := IndexOf(st.order, st.dragged.value).value;
      var to := IndexOf(st.order, target).value;
      && r.order[to] == st.dragged.value
      && multiset(r.order) == multiset(st.order)
      && RemoveAt(r.order, to) == RemoveAt(st.order, from)
  {
    var d := st.dragged.value;
    var from := IndexOf(st.order, d).value;
    var to := IndexOf(st.order, target).value;
    RemoveInsertMultiset(st.order, from, to);
    RemoveAfterInsert(RemoveAt(st.order, from), to, d);
  }

  /** A drop naming a column that is not in the order only ends the drag. */
  lemma DropUnknownIsNoOp(st: DragState, target: string)
    requires !NoDrag(st) && st.dragged.value != target
    requires st.dragged.value !in st.order || target !in st.order
    ensures Drop(st, target) == DragState(st.order, None)
  {
  }

  /** An order without repeated ids keeps that property. */
  lemma DropKeepsDistinct(st: DragState, target: string)
    requires NoDuplicates(st.order)
    ensures NoDuplicates(Drop(st, target).order)
  {
    var r := Drop(st, target);
    if r.order != st.order {
      DropMoves(st, target);
      PermutationKeepsDistinct(st.order, r.order);
    }
  }

  // ---------------------------------------------------------------------------
  // Pinning (`pinColumn`)

  datatype Side = PinLeft | PinRight | Unpin

  /** The pinned column ids on each side, in pinning order. */
  datatype Pinning = Pinning(left: seq<string>, right: seq<string>)

  /** The column is removed from both sides and appended to the chosen one. */
  function Pin(p: Pinning, id: string, side: Side): (r: Pinning)
    ensures id in r.left <==> side == PinLeft
    ensures id in r.right <==> side == PinRight
    ensures side == PinLeft ==> r.left[|r.left| - 1] == id
    ensures side == PinRight ==> r.right[|r.right| - 1] == id
    ensures forall x :: x != id ==> (x in r.left <==> x in p.left) && (x in r.right <==> x in p.right)
  {
    var left := Without(p.left, id);
    var right := Without(p.right, id);
    match side
    case PinLeft => Pinning(left + [id], right)
    case PinRight => Pinning(left, right + [id])
    case Unpin => Pinning(left, right)
  }

  /** The other pinned columns keep their order on both sides. */
  lemma PinKeepsOthersInOrder(p: Pinning, id: string, side: Side)
    ensures Without(Pin(p, id, side).left, id) == Without(p.left, id)
    ensures Without(Pin(p, id, side).right, id) == Without(p.right, id)
  {
    WithoutAppend(p.left, id);
    WithoutAppend(p.right, id);
    WithoutAppend(Without(p.left, id), id);
    WithoutAppend(Without(p.right, id), id);
  }

  /** Pinning the same column to the same side again changes nothing. */
  lemma PinIdempotent(p: Pinning, id: string, side: Side)
    ensures Pin(Pin(p, id, side), id, side) == Pin(p, id, side)
  {
    PinKeepsOthersInOrder(p, id, side);
  }

  /** A column never sits on both sides, and sides that share no column keep
      sharing none. */
  lemma PinKeepsSidesDisjoint(p: Pinning, id: string, side: Side)
    requires forall x :: x in p.left ==> x !in p.right
    ensures forall x :: x in Pin(p, id, side).left ==> x !in Pin(p, id, side).right
  {
  }

  /** Unpinning after a pin is the same as unpinning straight away. */
  lemma UnpinUndoesPin(p: Pinning, id: string, side: Side)
    ensures Pin(Pin(p, id, side), id, Unpin) == Pin(p, id, Unpin)
  {
    PinKeepsOthersInOrder(p, id, side);
  }
}
