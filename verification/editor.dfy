/**
  The editor as one explicit state record and its event handlers, each a
  total function from state to state: pointer events on the grid, removal of
  the selected area, reset, and the dimension and gap controls.
*/
module Editor {
  import opened Wrappers
  import opened Geometry
  import opened Registry
  import opened Config

  /**
    Everything the handlers read or write. `startCell`/`endCell` are the drag
    anchor and the cell last entered; they are never cleared, only
    overwritten by the next press. `selected` is a plain id that need not
    name an existing area.
  */
  datatype EditorState = EditorState(
    config: GridConfig,
    dragging: bool,
    startCell: Option<Cell>,
    endCell: Option<Cell>,
    areas: seq<Area>,
    nextAreaId: AreaId,
    selected: Option<AreaId>)

  const Initial := EditorState(InitialConfig, false, None, None, [], 1, None)

  /** While a drag is in progress, both its cells are present and rendered cells. */
  predicate DraftInGrid(s: EditorState) {
    s.dragging ==>
      s.startCell.Some? && s.endCell.Some? &&
      CellInGrid(s.startCell.value, s.config.rows, s.config.columns) &&
      CellInGrid(s.endCell.value, s.config.rows, s.config.columns)
  }

  /** The editor invariant. */
  predicate Valid(s: EditorState) {
    ValidConfig(s.config) &&
    WellFormed(s.areas, s.nextAreaId, s.config.rows, s.config.columns) &&
    DraftInGrid(s)
  }

  /**
    The part of the invariant that holds on the page as written: the
    configuration is in range and the area list is registered (disjoint,
    ascending ids below the next id, correctly named), with no claim that
    the areas or the drag fit the grid.
  */
  predicate Consistent(s: EditorState) {
    ValidConfig(s.config) && Registered(s.areas, s.nextAreaId)
  }

  /** Some area covers the cell. */
  predicate Occupied(areas: seq<Area>, c: Cell) {
    exists i :: 0 <= i < |areas| && Covers(areas[i].bounds, c)
  }

  /** The rectangle a release would commit: present only during a drag with both cells set. */
  function Draft(s: EditorState): Option<Rect> {
    if s.dragging && s.startCell.Some? && s.endCell.Some? then
      Some(Bounds(s.startCell.value, s.endCell.value))
    else None
  }

  /**
    Pressing on a cell selects the area covering it; pressing on an empty
    cell starts a drag anchored there.
  */
  function MouseDown(s: EditorState, c: Cell): (r: EditorState)
    ensures Occupied(s.areas, c) ==>
      r == s.(selected := r.selected) && r.selected.Some? &&
      exists i :: 0 <= i < |s.areas| && Covers(s.areas[i].bounds, c) && s.areas[i].id == r.selected.value
    ensures !Occupied(s.areas, c) ==>
      r == s.(dragging := true, startCell := Some(c), endCell := Some(c))
  {
    match AreaIdAtCell(s.areas, c)
    case Some(id) => s.(selected := Some(id))
    case None => s.(dragging := true, startCell := Some(c), endCell := Some(c))
  }

  /** Entering a cell during a drag moves the drag's free corner there. */
  function MouseEnter(s: EditorState, c: Cell): (r: EditorState)
    ensures s.dragging ==> r == s.(endCell := Some(c))
    ensures !s.dragging ==> r == s
  {
    if s.dragging then s.(endCell := Some(c)) else s
  }

  /**
    Releasing ends the drag; the dragged rectangle becomes a new area, with
    the next id and selected, unless it overlaps an existing area.
  */
  function MouseUp(s: EditorState): (r: EditorState)
    ensures !r.dragging
    ensures Draft(s).None? ==> r == s.(dragging := false)
    ensures Draft(s).Some? && (exists i :: 0 <= i < |s.areas| && Overlap(Draft(s).value, s.areas[i].bounds)) ==>
      r == s.(dragging := false)
    ensures Draft(s).Some? && (forall i :: 0 <= i < |s.areas| ==> !Overlap(Draft(s).value, s.areas[i].bounds)) ==>
      r == s.(dragging := false,
              areas := s.areas + [Area(s.nextAreaId, AreaName(s.nextAreaId), Draft(s).value)],
              nextAreaId := s.nextAreaId + 1,
              selected := Some(s.nextAreaId))
  {
    var committed :=
      if s.dragging && s.startCell.Some? && s.endCell.Some? then
        var b := Bounds(s.startCell.value, s.endCell.value);
        if !HasOverlap(b, s.areas) then
          s.(areas := s.areas + [NewArea(s.nextAreaId, b)],
             nextAreaId := s.nextAreaId + 1,
             selected := Some(s.nextAreaId))
        else s
      else s;
    committed.(dragging := false)
  }

  /** Leaving the grid aborts the drag without creating anything. */
  function MouseLeave(s: EditorState): (r: EditorState)
    ensures !r.dragging && r.areas == s.areas && r.nextAreaId == s.nextAreaId && r.selected == s.selected
    ensures r.config == s.config && r.startCell == s.startCell && r.endCell == s.endCell
  {
    s.(dragging := false)
  }

  /**
    Deletes the selected area, if any, and clears the selection. The next
    id is left alone, so the deleted id is never issued again.
  */
  function RemoveSelectedArea(s: EditorState): (r: EditorState)
    ensures s.selected.None? ==> r == s
    ensures s.selected.Some? ==>
      r.selected.None? && r.nextAreaId == s.nextAreaId && r.config == s.config &&
      r.dragging == s.dragging && r.startCell == s.startCell && r.endCell == s.endCell &&
      forall a :: a in r.areas <==> a in s.areas && a.id != s.selected.value
  {
    match s.selected
    case Some(id) =>
      RemoveIdMembers(s.areas, id);
      s.(areas := RemoveId(s.areas, id), selected := None)
    case None => s
  }

  /** The reset button: no areas, ids restart at 1, nothing selected. */
  function ResetGrid(s: EditorState): (r: EditorState)
    ensures r.areas == [] && r.nextAreaId == 1 && r.selected.None?
    ensures forall c :: AreaIdAtCell(r.areas, c).None?
    ensures r.config == s.config && r.dragging == s.dragging &&
      r.startCell == s.startCell && r.endCell == s.endCell
  {
    s.(areas := [], nextAreaId := 1, selected := None)
  }

  /**
    New grid dimensions. When either differs, every area is dropped and ids
    restart at 1; the selection and the drag are left as they were. Equal
    dimensions change nothing.
  */
  function Resize(s: EditorState, rows: int, columns: int): (r: EditorState)
    ensures rows == s.config.rows && columns == s.config.columns ==> r == s
    ensures rows != s.config.rows || columns != s.config.columns ==>
      r.areas == [] && r.nextAreaId == 1 && r.selected == s.selected &&
      r.config == s.config.(rows := rows, columns := columns) &&
      r.dragging == s.dragging && r.startCell == s.startCell && r.endCell == s.endCell
  {
    if rows == s.config.rows && columns == s.config.columns then s
    else s.(config := s.config.(rows := rows, columns := columns), areas := [], nextAreaId := 1)
  }

  /**
    The dimension change with the drag ended as well: what the reset of the
    area list evidently intends, since a drag anchored in the old grid may
    lie outside the new one. Equal dimensions change nothing, as before.
  */
  function ResizeEndingDrag(s: EditorState, rows: int, columns: int): (r: EditorState)
    ensures rows == s.config.rows && columns == s.config.columns ==> r == s
    ensures rows != s.config.rows || columns != s.config.columns ==>
      r.areas == [] && r.nextAreaId == 1 && r.selected == s.selected &&
      r.config == s.config.(rows := rows, columns := columns) &&
      !r.dragging && r.startCell == s.startCell && r.endCell == s.endCell
  {
    if rows == s.config.rows && columns == s.config.columns then s
    else Resize(s, rows, columns).(dragging := false)
  }

  /**
    The columns control: the typed value, read and clamped, becomes the
    column count. A different count empties the grid and restarts ids; the
    same count changes nothing.
  */
  function SetColumns(s: EditorState, parsed: Option<int>): (r: EditorState)
    ensures r.config == s.config.(columns := DimensionInput(parsed))
    ensures DimensionInput(parsed) == s.config.columns ==> r == s
    ensures DimensionInput(parsed) != s.config.columns ==>
      r.areas == [] && r.nextAreaId == 1 && r.selected == s.selected &&
      r.dragging == s.dragging && r.startCell == s.startCell && r.endCell == s.endCell
  {
    Resize(s, s.config.rows, DimensionInput(parsed))
  }

  /** The rows control, the same as the columns control for the row count. */
  function SetRows(s: EditorState, parsed: Option<int>): (r: EditorState)
    ensures r.config == s.config.(rows := DimensionInput(parsed))
    ensures DimensionInput(parsed) == s.config.rows ==> r == s
    ensures DimensionInput(parsed) != s.config.rows ==>
      r.areas == [] && r.nextAreaId == 1 && r.selected == s.selected &&
      r.dragging == s.dragging && r.startCell == s.startCell && r.endCell == s.endCell
  {
    Resize(s, DimensionInput(parsed), s.config.columns)
  }

  /** The column-gap control: the typed value, read and floored at 0, is the new gap; nothing else changes. */
  function SetColumnGap(s: EditorState, parsed: Option<int>): (r: EditorState)
    ensures r.config.columnGap == GapInput(parsed)
    ensures r == s.(config := r.config) && r.config == s.config.(columnGap := r.config.columnGap)
  {
    s.(config := s.config.(columnGap := GapInput(parsed)))
  }

  /** The row-gap control: the typed value, read and floored at 0, is the new gap; nothing else changes. */
  function SetRowGap(s: EditorState, parsed: Option<int>): (r: EditorState)
    ensures r.config.rowGap == GapInput(parsed)
    ensures r == s.(config := r.config) && r.config == s.config.(rowGap := r.config.rowGap)
  {
    s.(config := s.config.(rowGap := GapInput(parsed)))
  }

  lemma InitialValid()
    ensures Valid(Initial)
  {
  }

  /** The invariant says nothing about the selection, which may be stale. */
  lemma ValidIgnoresSelection(s: EditorState, selected: Option<AreaId>)
    requires Valid(s)
    ensures Valid(s.(selected := selected))
  {
  }

  /** Under the invariant, a press on an area selects exactly that area. */
  lemma MouseDownSelectsCoveringArea(s: EditorState, i: nat, c: Cell)
    requires Valid(s)
    requires i < |s.areas| && Covers(s.areas[i].bounds, c)
    ensures MouseDown(s, c) == s.(selected := Some(s.areas[i].id))
  {
    AreaIdAtCellUnique(s.areas, s.nextAreaId, s.config.rows, s.config.columns, i, c);
  }

  lemma MouseDownPreservesValid(s: EditorState, c: Cell)
    requires Valid(s) && CellInGrid(c, s.config.rows, s.config.columns)
    ensures Valid(MouseDown(s, c))
  {
  }

  lemma MouseEnterPreservesValid(s: EditorState, c: Cell)
    requires Valid(s) && CellInGrid(c, s.config.rows, s.config.columns)
    ensures Valid(MouseEnter(s, c))
  {
  }

  /** Committing keeps the areas pairwise disjoint, inside the grid, with fresh ascending ids. */
  lemma MouseUpPreservesValid(s: EditorState)
    requires Valid(s)
    ensures Valid(MouseUp(s))
  {
    if Draft(s).Some? {
      var b := Draft(s).value;
      BoundsInGrid(s.startCell.value, s.endCell.value, s.config.rows, s.config.columns);
      if !HasOverlap(b, s.areas) {
        AddPreservesWellFormed(s.areas, s.nextAreaId, s.config.rows, s.config.columns, b);
      }
    }
  }

  /**
    A release never makes two areas overlap, whatever the drag's cells: the
    overlap scan guards every commit.
  */
  lemma MouseUpKeepsDisjoint(s: EditorState)
    requires Disjoint(s.areas)
    ensures Disjoint(MouseUp(s).areas)
  {
    if Draft(s).Some? && !HasOverlap(Draft(s).value, s.areas) {
      AddKeepsDisjoint(s.areas, NewArea(s.nextAreaId, Draft(s).value));
    }
  }

  /** A release keeps the list registered, even when the drag lies outside the grid. */
  lemma MouseUpKeepsConsistent(s: EditorState)
    requires Consistent(s)
    ensures Consistent(MouseUp(s))
  {
    if Draft(s).Some? && !HasOverlap(Draft(s).value, s.areas) {
      AddKeepsRegistered(s.areas, s.nextAreaId, Draft(s).value);
    }
  }

  /** Removal keeps the list registered, even when its areas lie outside the grid. */
  lemma RemoveSelectedKeepsConsistent(s: EditorState)
    requires Consistent(s)
    ensures Consistent(RemoveSelectedArea(s))
  {
    if s.selected.Some? {
      RemoveKeepsRegistered(s.areas, s.selected.value, s.nextAreaId);
    }
  }

  /** A committed area's id exceeds the id of every area that existed before. */
  lemma MouseUpIssuesFreshId(s: EditorState)
    requires Valid(s)
    requires |MouseUp(s).areas| > |s.areas|
    ensures var r := MouseUp(s);
      r.areas[|s.areas|].id == s.nextAreaId && r.selected == Some(s.nextAreaId) &&
      forall i :: 0 <= i < |s.areas| ==> s.areas[i].id < r.areas[|s.areas|].id
  {
  }

  lemma RemoveSelectedPreservesValid(s: EditorState)
    requires Valid(s)
    ensures Valid(RemoveSelectedArea(s))
  {
    if s.selected.Some? {
      RemovePreservesWellFormed(s.areas, s.selected.value, s.nextAreaId, s.config.rows, s.config.columns);
    }
  }

  /**
    With the selection naming the area at index `k`, removal deletes exactly
    that area and keeps the others in their order.
  */
  lemma RemoveSelectedExact(s: EditorState, k: nat)
    requires Valid(s)
    requires k < |s.areas| && s.selected == Some(s.areas[k].id)
    ensures RemoveSelectedArea(s).areas == s.areas[..k] + s.areas[k + 1..]
  {
    RemoveIdExact(s.areas, k);
  }

  /**
    The remove button drawn inside an area, pressed while no drag is in
    progress: the press reaches the area's cell and selects the area, the
    release reaches the grid's mouseup handler, which finds no drag, and the
    click then removes the selection. Exactly that area goes, the others
    keep their order, and nothing stays selected.
  */
  lemma PressReleaseRemove(s: EditorState, i: nat, c: Cell)
    requires Valid(s) && !s.dragging
    requires i < |s.areas| && Covers(s.areas[i].bounds, c)
    ensures RemoveSelectedArea(MouseUp(MouseDown(s, c))).areas == s.areas[..i] + s.areas[i + 1..]
    ensures RemoveSelectedArea(MouseUp(MouseDown(s, c))).selected.None?
  {
    var s1 := s.(selected := Some(s.areas[i].id));
    MouseDownSelectsCoveringArea(s, i, c);
    assert MouseUp(s1) == s1;
    ValidIgnoresSelection(s, Some(s.areas[i].id));
    RemoveSelectedExact(s1, i);
  }

  /** A selection that names no area removes nothing; it is only cleared. */
  lemma RemoveStaleSelection(s: EditorState)
    requires s.selected.Some?
    requires forall i :: 0 <= i < |s.areas| ==> s.areas[i].id != s.selected.value
    ensures RemoveSelectedArea(s) == s.(selected := None)
  {
  }

  lemma ResetPreservesValid(s: EditorState)
    requires Valid(s)
    ensures Valid(ResetGrid(s))
  {
  }

  /**
    A dimension change as written keeps the invariant exactly when the drag
    in progress, if any, still lies on rendered cells of the new grid: the
    areas are emptied, but the drag's cells are not checked against the new
    dimensions.
  */
  lemma ResizePreservesValid(s: EditorState, rows: int, columns: int)
    requires Valid(s)
    requires 1 <= rows <= MaxDimension && 1 <= columns <= MaxDimension
    ensures Valid(Resize(s, rows, columns)) <==> DraftInGrid(s.(config := s.config.(rows := rows, columns := columns)))
  {
  }

  /** With the drag ended by the change, every dimension change keeps the invariant. */
  lemma ResizeEndingDragPreservesValid(s: EditorState, rows: int, columns: int)
    requires Valid(s)
    requires 1 <= rows <= MaxDimension && 1 <= columns <= MaxDimension
    ensures Valid(ResizeEndingDrag(s, rows, columns))
  {
  }

  /**
    After a dimension change the selection may name an area that no longer
    exists: here area 1 stays selected although every area is gone.
  */
  lemma ResizeKeepsStaleSelection()
    ensures var s := Initial.(areas := [NewArea(1, Rect(0, 0, 0, 0))], nextAreaId := 2, selected := Some(1));
      var r := Resize(s, 4, 4);
      r.selected == Some(1) && r.areas == []
  {
  }
}
