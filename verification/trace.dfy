/**
  Sequences of user events applied to the editor: every state reachable from
  the initial one by rendered-cell events satisfies the editor invariant, and
  between resets an id, once issued, is never issued again. The invariant
  needs a dimension change to end any drag in progress; with the effect as
  written, a drag that survives a shrinking resize commits an area outside
  the grid.
*/
module Trace {
  import opened Wrappers
  import opened Geometry
  import opened Registry
  import opened Config
  import opened Editor

  datatype Event =
    | Down(cell: Cell)
    | Enter(cell: Cell)
    | Up
    | Leave
    | RemoveSelected
    | Reset
    | ColumnsInput(parsed: Option<int>)
    | RowsInput(parsed: Option<int>)
    | ColumnGapInput(parsed: Option<int>)
    | RowGapInput(parsed: Option<int>)
    | ResponsiveToggle(on: bool)
    | BreakpointsInput(breakpoints: Breakpoints)

  /** One event, with a dimension change that also ends the drag. */
  function Step(s: EditorState, e: Event): EditorState {
    match e
    case Down(c) => MouseDown(s, c)
    case Enter(c) => MouseEnter(s, c)
    case Up => MouseUp(s)
    case Leave => MouseLeave(s)
    case RemoveSelected => RemoveSelectedArea(s)
    case Reset => ResetGrid(s)
    case ColumnsInput(p) => ResizeEndingDrag(s, s.config.rows, DimensionInput(p))
    case RowsInput(p) => ResizeEndingDrag(s, DimensionInput(p), s.config.columns)
    case ColumnGapInput(p) => SetColumnGap(s, p)
    case RowGapInput(p) => SetRowGap(s, p)
    case ResponsiveToggle(on) => s.(config := s.config.(responsive := on))
    case BreakpointsInput(bp) => s.(config := s.config.(breakpoints := bp))
  }

  /**
    One event as the page handles it today: a dimension change leaves a drag
    in progress running.
  */
  function StepAsWritten(s: EditorState, e: Event): EditorState {
    match e
    case ColumnsInput(p) => SetColumns(s, p)
    case RowsInput(p) => SetRows(s, p)
    case _ => Step(s, e)
  }

  /**
    What the page can deliver: cell events name rendered cells. The
    controls can be used at any time, also with the mouse button still held
    on a cell, since the keyboard reaches them without leaving the grid.
  */
  predicate Possible(s: EditorState, e: Event) {
    match e
    case Down(c) => CellInGrid(c, s.config.rows, s.config.columns)
    case Enter(c) => CellInGrid(c, s.config.rows, s.config.columns)
    case _ => true
  }

  function Run(s: EditorState, events: seq<Event>): EditorState
    decreases |events|
  {
    if |events| == 0 then s else Run(Step(s, events[0]), events[1..])
  }

  predicate AllPossible(s: EditorState, events: seq<Event>)
    decreases |events|
  {
    |events| == 0 || (Possible(s, events[0]) && AllPossible(Step(s, events[0]), events[1..]))
  }

  lemma StepPreservesValid(s: EditorState, e: Event)
    requires Valid(s) && Possible(s, e)
    ensures Valid(Step(s, e))
  {
    match e
    case Down(c) => MouseDownPreservesValid(s, c);
    case Enter(c) => MouseEnterPreservesValid(s, c);
    case Up => MouseUpPreservesValid(s);
    case Leave =>
    case RemoveSelected => RemoveSelectedPreservesValid(s);
    case Reset => ResetPreservesValid(s);
    case ColumnsInput(p) => ResizeEndingDragPreservesValid(s, s.config.rows, DimensionInput(p));
    case RowsInput(p) => ResizeEndingDragPreservesValid(s, DimensionInput(p), s.config.columns);
    case ColumnGapInput(p) =>
    case RowGapInput(p) =>
    case ResponsiveToggle(on) =>
    case BreakpointsInput(bp) =>
  }

  lemma {:induction false} RunPreservesValid(s: EditorState, events: seq<Event>)
    requires Valid(s) && AllPossible(s, events)
    ensures Valid(Run(s, events))
    decreases |events|
  {
    if |events| > 0 {
      StepPreservesValid(s, events[0]);
      RunPreservesValid(Step(s, events[0]), events[1..]);
    }
  }

  /** Every state the page can reach is valid: areas stay disjoint and inside the grid. */
  lemma ReachableValid(events: seq<Event>)
    requires AllPossible(Initial, events)
    ensures Valid(Run(Initial, events))
  {
    InitialValid();
    RunPreservesValid(Initial, events);
  }

  /** The two steps differ only on a dimension change arriving during a drag. */
  lemma StepAsWrittenAgrees(s: EditorState, e: Event)
    requires !s.dragging || !(e.ColumnsInput? || e.RowsInput?)
    ensures StepAsWritten(s, e) == Step(s, e)
  {
  }

  /**
    As written, pressing the bottom-right cell of the initial 8×8 grid,
    typing 7 into the columns control with the button held, and releasing
    commits area 1 in column 7 of a 7-column grid: the invariant is lost.
    With the drag ended by the change, the same events leave no area.
  */
  lemma ResizeMidDragLeavesGrid()
    ensures var s1 := StepAsWritten(Initial, Down(Cell(7, 7)));
      var s2 := StepAsWritten(s1, ColumnsInput(Some(7)));
      var r := StepAsWritten(s2, Up);
      Possible(Initial, Down(Cell(7, 7))) && Possible(s1, ColumnsInput(Some(7))) && Possible(s2, Up) &&
      r.config.columns == 7 && r.areas == [NewArea(1, Rect(7, 7, 7, 7))] &&
      !RectInGrid(r.areas[0].bounds, r.config.rows, r.config.columns) && !Valid(r)
    ensures Run(Initial, [Down(Cell(7, 7)), ColumnsInput(Some(7)), Up]).areas == []
  {
    var s1 := StepAsWritten(Initial, Down(Cell(7, 7)));
    assert s1 == Initial.(dragging := true, startCell := Some(Cell(7, 7)), endCell := Some(Cell(7, 7)));
    var s2 := StepAsWritten(s1, ColumnsInput(Some(7)));
    assert s2 == s1.(config := s1.config.(columns := 7));
    var r := StepAsWritten(s2, Up);
    assert Bounds(Cell(7, 7), Cell(7, 7)) == Rect(7, 7, 7, 7);
    assert r.areas == [NewArea(1, Rect(7, 7, 7, 7))];
    var events := [Down(Cell(7, 7)), ColumnsInput(Some(7)), Up];
    assert events[1..] == [ColumnsInput(Some(7)), Up] && events[1..][1..] == [Up];
  }

  /** A run of events as the page handles them today. */
  function RunAsWritten(s: EditorState, events: seq<Event>): EditorState
    decreases |events|
  {
    if |events| == 0 then s else RunAsWritten(StepAsWritten(s, events[0]), events[1..])
  }

  /**
    Every event as the page handles it keeps the list registered, on any
    cell and at any moment, a dimension change during a drag included.
  */
  lemma StepAsWrittenKeepsConsistent(s: EditorState, e: Event)
    requires Consistent(s)
    ensures Consistent(StepAsWritten(s, e))
  {
    match e
    case Up => MouseUpKeepsConsistent(s);
    case RemoveSelected => RemoveSelectedKeepsConsistent(s);
    case _ =>
  }

  lemma {:induction false} RunAsWrittenKeepsConsistent(s: EditorState, events: seq<Event>)
    requires Consistent(s)
    ensures Consistent(RunAsWritten(s, events))
    decreases |events|
  {
    if |events| > 0 {
      StepAsWrittenKeepsConsistent(s, events[0]);
      RunAsWrittenKeepsConsistent(StepAsWritten(s, events[0]), events[1..]);
    }
  }

  /**
    On the page as written, areas never overlap and ids stay ascending and
    fresh, whatever events arrive: only the grid bound can be lost.
  */
  lemma AsWrittenNeverOverlaps(events: seq<Event>)
    ensures var r := RunAsWritten(Initial, events);
      Disjoint(r.areas) && IdsAscending(r.areas) && WellNamed(r.areas) && IdsBelow(r.areas, r.nextAreaId)
  {
    RunAsWrittenKeepsConsistent(Initial, events);
  }

  /** Events that never reset the id counter. */
  predicate KeepsIds(e: Event) {
    !e.Reset? && !e.ColumnsInput? && !e.RowsInput?
  }

  /**
    Without a reset or dimension change, the next id never goes down, and
    every area present at the end either was present at the start or has an
    id no smaller than the start's next id: a removed id is never reissued.
  */
  lemma {:induction false} IdsNeverReused(s: EditorState, events: seq<Event>)
    requires forall i :: 0 <= i < |events| ==> KeepsIds(events[i])
    ensures Run(s, events).nextAreaId >= s.nextAreaId
    ensures forall a :: a in Run(s, events).areas ==> a in s.areas || a.id >= s.nextAreaId
    decreases |events|
  {
    if |events| > 0 {
      var s' := Step(s, events[0]);
      assert s'.nextAreaId >= s.nextAreaId;
      assert forall a :: a in s'.areas ==> a in s.areas || a.id >= s.nextAreaId by {
        match events[0]
        case RemoveSelected =>
          if s.selected.Some? { RemoveIdMembers(s.areas, s.selected.value); }
        case _ =>
      }
      IdsNeverReused(s', events[1..]);
    }
  }
}
