# Tailwind grid-area editor, modelled in Dafny

This project models the logic of the Tailwind CSS grid generator page (`src/App.jsx`). On that page a user:

- sets a grid of 1–12 columns and rows, with pixel gaps;
- drags rectangles ("areas") onto the grid with the mouse;
- selects and removes areas;
- reads the generated code: a markup skeleton and a stylesheet with one `@apply` rule per area.

The model has three parts.

- **Area registry.** These are the modules `Geometry` and `Registry`.
  - Drag cells are normalised into rectangles.
  - Overlap is the separating-axis test.
  - The area at a cell is found by a first-match scan.
  - Removal filters by id.
  - Names are `div` followed by the id.
- **Editor.** This is the module `Editor`, with `Trace` for event sequences.
  - All page state is one immutable record.
  - Every mouse handler and control is a total function from state to state.
  - The invariant `Editor.Valid` says:
    - the configuration is in range;
    - areas are pairwise non-overlapping and inside the grid;
    - areas are correctly named;
    - ids are strictly ascending and below the next id;
    - a drag in progress has both its cells on the grid.
  - A dimension change as the page makes it leaves a drag in progress running, which can commit an area outside the grid (see "Findings"). `Trace.Step` uses the corrected change, which also ends the drag, and `Trace.ReachableValid` proves the invariant for it. On the page as written only the grid bound can be lost: `Trace.AsWrittenNeverOverlaps` proves that areas stay pairwise disjoint, with fresh ascending ids and correct names, after any events.
- **Code generator.** These are the modules `Tokens`, `Generator` and `Layout`.
  - Gap pixels are quantised into spacing tokens.
  - The column token is capped at 12.
  - The responsive variants are `sm`, `md`, `lg` and `xl`, in that order.
  - The container class string, the area rules and the two output blocks are modelled.
  - Each string builder is written the way the page appends text, with a trailing space after every class except a rule's last, which is followed by `;`. Each has a token-list partner, and lemmas prove:
    - the appended string is exactly the tokens with their spaces;
    - after trimming, splitting on spaces returns the tokens;
    - the output blocks split into lines as intended.

`Text` holds the JavaScript string operations the generator relies on:

- decimal rendering of integers (template literals);
- `join`, `trim` and `replace` with a string pattern.

It also holds two specification devices that the page never calls: a decimal parser, used only to state what number a token carries, and `split`, used only to state that the generated text splits back into its tokens and lines.

## Model

| member | source | states |
|---|---|---|
| Geometry.Bounds | src/App.jsx:40-49 | the rectangle spanned by two cells has start ≤ end on both axes, contains both cells, and lies inside every rectangle that contains both (it is the smallest) |
| Geometry.BoundsSymmetric | src/App.jsx:40-49 | swapping the drag's start and end cells gives the same rectangle |
| Geometry.BoundsOfOneCell | src/App.jsx:40-49 | a drag that starts and ends on one cell covers exactly that cell |
| Geometry.BoundsInGrid | src/App.jsx:40-49 | two cells on the grid span a rectangle inside the grid |
| Geometry.Overlap | src/App.jsx:109-118 | on normalised rectangles the separating-axis test holds exactly when the row intervals and the column intervals both intersect (the larger start is at most the smaller end on each axis) |
| Geometry.OverlapSymmetric | src/App.jsx:109-118 | the overlap test gives the same answer with its arguments swapped |
| Geometry.OverlapIffSharedCell | src/App.jsx:109-118 | two normalised rectangles overlap exactly when some cell lies in both |
| Geometry.TouchingDoNotOverlap | src/App.jsx:109-118 | rectangles that only share an edge line (one ends in the row or column before the other starts) do not overlap |
| Registry.AreaName | src/App.jsx:88-92 | an area's name is "div" followed by the decimal rendering of its id: digits, without a leading zero, that read back as the id |
| Registry.AreaNameInjective | src/App.jsx:88-92 | distinct ids get distinct names |
| Registry.HasOverlap | src/App.jsx:79-85 | the scan over existing areas reports an overlap exactly when some area overlaps the new rectangle |
| Registry.AreaIdAtCell | src/App.jsx:121-133 | no id when no area covers the cell; otherwise the id of the first area in list order that covers it |
| Registry.AreaIdAtCellUnique | src/App.jsx:121-133 | on a well-formed list, the id found at a cell is the id of whichever area covers it, since at most one does |
| Registry.RemoveId | src/App.jsx:153 | filtering by an id that no area has returns the list unchanged, and the result is never longer |
| Registry.RemoveIdMembers | src/App.jsx:153 | after filtering, an area is present exactly when it was present before and its id differs from the removed one |
| Registry.RemoveIdExact | src/App.jsx:153 | with ascending ids, removing the id of the area at index k deletes just that index and keeps the others in order |
| Registry.AddPreservesWellFormed | src/App.jsx:87-96 | appending an in-grid rectangle that overlaps nothing, named and numbered with the next id, keeps the list well formed with the next id one higher |
| Registry.AddKeepsRegistered | src/App.jsx:79-96 | appending a rectangle that passed the overlap scan, named and numbered with the next id, keeps the list disjoint, correctly named and with ascending ids below the next id (now one higher), whether or not the rectangle fits the grid |
| Registry.RemoveKeepsRegistered | src/App.jsx:151-156 | removing by id keeps the list disjoint, correctly named and with ascending ids below the unchanged next id, whether or not its areas fit the grid |
| Registry.RemovePreservesWellFormed | src/App.jsx:151-156 | removing by id keeps the list well formed, with the next id unchanged |
| Config.ClampDimension | src/App.jsx:471 | the clamped column or row count lies in 1..12 and is the point of that range nearest the input |
| Config.DimensionInput | src/App.jsx:471 | an unparsable entry counts as 1; the result is always a count in 1..12 |
| Config.GapInput | src/App.jsx:501 | an unparsable entry counts as 0; the result is the nearest non-negative value to the parsed gap |
| Editor.MouseDown | src/App.jsx:52-64 | on a covered cell only the selection changes, to the id of an area covering the cell; on an empty cell a drag starts with both cells set to it and nothing else changes |
| Editor.MouseDownSelectsCoveringArea | src/App.jsx:52-64 | under the invariant, pressing a cell of area i selects area i |
| Editor.MouseEnter | src/App.jsx:67-71 | during a drag the end cell moves to the entered cell; otherwise nothing changes |
| Editor.MouseUp | src/App.jsx:74-101 | dragging always ends. Without a draft nothing else changes. A draft that overlaps an area changes nothing else. Otherwise the draft is appended as area "div"+next with id next, next increases by one and the new id is selected |
| Editor.MouseUpKeepsDisjoint | src/App.jsx:74-101 | a release never makes two areas overlap, whatever the drag's cells, because every commit passes the overlap scan |
| Editor.MouseUpKeepsConsistent | src/App.jsx:74-101 | a release keeps the configuration in range and the list disjoint, named and with fresh ascending ids, even for a drag outside the grid |
| Editor.RemoveSelectedKeepsConsistent | src/App.jsx:151-156 | removal keeps the configuration in range and the list disjoint, named and with ascending ids, even when areas lie outside the grid |
| Editor.MouseUpIssuesFreshId | src/App.jsx:87-96 | a committed area's id is the old next id, it is selected, and it exceeds every existing id |
| Editor.MouseUpPreservesValid | src/App.jsx:74-101 | releasing keeps areas pairwise disjoint, inside the grid, named and with fresh ascending ids |
| Editor.MouseLeave | src/App.jsx:104-106 | leaving the grid ends the drag and changes nothing else; in particular no area is created |
| Editor.RemoveSelectedArea | src/App.jsx:151-156 | without a selection nothing changes. With one, the areas become exactly those whose id differs from it, the selection is cleared, and the next id and the drag are untouched |
| Editor.RemoveSelectedExact | src/App.jsx:151-156 | when the selection names the area at index k, removal deletes exactly that area and keeps the rest in order |
| Editor.RemoveStaleSelection | src/App.jsx:151-156 | a selection naming no existing area removes nothing and is only cleared |
| Editor.PressReleaseRemove | src/App.jsx:372-444 | outside a drag, the remove button inside an area (a press on its cell, the release reaching the grid's mouseup handler, then the click) deletes exactly that area, keeps the others in order and clears the selection |
| Editor.ResetGrid | src/App.jsx:278-286 | reset leaves no areas, restarts ids at 1, clears the selection, finds no area at any cell, and keeps the configuration and drag fields |
| Editor.Resize | src/App.jsx:27-34 | equal dimensions change nothing. A real change sets the new dimensions, empties the areas and restarts ids at 1, but keeps the selection and the drag |
| Editor.ResizeKeepsStaleSelection | src/App.jsx:27-34 | after a dimension change the selection can name an area that no longer exists |
| Editor.ResizePreservesValid | src/App.jsx:27-34 | a change to in-range dimensions, as written, keeps the invariant exactly when a drag in progress (if any) has both its cells on the new grid |
| Editor.ResizeEndingDrag | src/App.jsx:27-34 | the corrected dimension change: equal dimensions change nothing; a real change sets the new dimensions, empties the areas, restarts ids at 1, keeps the selection and ends the drag |
| Editor.ResizeEndingDragPreservesValid | src/App.jsx:27-34 | the corrected dimension change to in-range dimensions always keeps the invariant, with or without a drag in progress |
| Editor.SetColumns | src/App.jsx:469-473 | the columns control sets the column count to the read-and-clamped entry and changes no other setting. An unchanged count leaves the whole state as it was. A changed count empties the areas and restarts ids at 1, and keeps the selection and the drag |
| Editor.SetRows | src/App.jsx:485-489 | the rows control sets the row count to the read-and-clamped entry and changes no other setting. An unchanged count leaves the whole state as it was. A changed count empties the areas and restarts ids at 1, and keeps the selection and the drag |
| Editor.SetColumnGap | src/App.jsx:500-502 | the column gap becomes the entry read as 0 when unparsable and floored at 0; nothing else in the state changes |
| Editor.SetRowGap | src/App.jsx:513-515 | the row gap becomes the entry read as 0 when unparsable and floored at 0; nothing else in the state changes |
| Editor.InitialValid | src/App.jsx:7-24 | the initial state satisfies the invariant |
| Editor.MouseDownPreservesValid | src/App.jsx:52-64 | a press on a rendered cell keeps the invariant |
| Editor.MouseEnterPreservesValid | src/App.jsx:67-71 | entering a rendered cell keeps the invariant |
| Editor.RemoveSelectedPreservesValid | src/App.jsx:151-156 | removal keeps the invariant |
| Editor.ResetPreservesValid | src/App.jsx:278-286 | reset keeps the invariant |
| Trace.StepPreservesValid | src/App.jsx:52-156 | every event the page can deliver keeps the invariant, with a dimension change ending any drag; a dimension change may arrive during a drag |
| Trace.ReachableValid | src/App.jsx:7-34 | every state reachable from the initial one by deliverable events, dimension changes in the middle of a drag included, satisfies the invariant when a dimension change ends the drag |
| Trace.StepAsWrittenAgrees | src/App.jsx:27-34 | the page's handling and the corrected one differ only on a dimension change that arrives during a drag |
| Trace.ResizeMidDragLeavesGrid | src/App.jsx:27-101 | as written, pressing cell (7,7) of the initial 8×8 grid, setting the columns to 7 with the button held, and releasing commits an area in column 7 of a 7-column grid and breaks the invariant; with the corrected change the same events leave no area |
| Trace.StepAsWrittenKeepsConsistent | src/App.jsx:27-156 | every event as the page handles it, on any cell and at any moment (a dimension change during a drag included), keeps the configuration in range and the list disjoint, named and with fresh ascending ids |
| Trace.RunAsWrittenKeepsConsistent | src/App.jsx:27-156 | the same for any sequence of events as the page handles them |
| Trace.AsWrittenNeverOverlaps | src/App.jsx:7-156 | on the page as written, after any events from the initial state, no two areas overlap, ids are ascending and below the next id, and every name is "div" + id |
| Trace.IdsNeverReused | src/App.jsx:95 | without reset or resize, the next id never decreases, and every final area either existed at the start or has an id at least the starting next id, so a removed id is never issued again |
| Tokens.GapToken | src/App.jsx:159-172 | the gap token is empty exactly when the gap is 0 |
| Tokens.GapTokenIsFirstBucket | src/App.jsx:159-172 | a non-zero gap gets the token of the first bucket whose threshold is at least the gap, or gap-10 above every threshold |
| Tokens.GapBucketMonotone | src/App.jsx:159-172 | a larger gap never gets a finer bucket |
| Tokens.NumberToken | src/App.jsx:226-247 | a numbered utility is its prefix followed by the canonical decimal rendering (no leading zero) of the number, which reads back as that number and contains no white space |
| Tokens.ColumnsToken | src/App.jsx:175-178 | the column token is "grid-cols-" followed by the canonical decimal rendering of the column count capped at 12 |
| Tokens.EnabledBreakpoints | src/App.jsx:189-196 | the variants listed are exactly the enabled breakpoints, each once, in the order sm, md, lg, xl |
| Tokens.VariantsAreSpacedTokens | src/App.jsx:189-196 | the four guarded appends produce, for each enabled breakpoint in order, "bp:token" followed by a space |
| Generator.GapClasses | src/App.jsx:202-212 | the gap text the page appends is exactly the gap tokens, each followed by one space |
| Generator.GapTokensChoice | src/App.jsx:202-212 | a single gap token is emitted when both axes give the same non-empty token. Otherwise "gap-x…" is emitted only for a non-zero column gap and "gap-y…" only for a non-zero row gap, in that order |
| Generator.ContainerTokensLayout | src/App.jsx:184-212 | the container has "grid" first. Next comes the capped column token, or in responsive mode "grid-cols-1" and that token under each enabled breakpoint. The gap tokens come last |
| Generator.ContainerClasses | src/App.jsx:184-212 | the string accumulated by appends is the container's tokens, each followed by one space |
| Generator.ContainerTrimmed | src/App.jsx:258 | the trimmed class attribute is the container tokens joined by single spaces |
| Generator.ContainerClassString | src/App.jsx:184-212 | splitting the trimmed class attribute on spaces recovers exactly the container tokens |
| Generator.AreaRule | src/App.jsx:216-250 | the text appended for one area is "." + name + " { @apply " + the rule tokens joined by single spaces + "; }" |
| Generator.RuleRowUtilities | src/App.jsx:233-248 | a rule has m column-span tokens, the row span, m column-start tokens, then the row start. m is 1, or one more than the number of enabled breakpoints in responsive mode. The row utilities are never prefixed and are exactly "row-span-" and "row-start-" followed by the decimal rendering, without a leading zero, of the height (end − start + 1) and of the start row + 1 |
| Generator.RuleFixedUtilities | src/App.jsx:216-248 | outside responsive mode a rule is exactly four tokens, each its prefix followed by the decimal rendering (no leading zero) of its number: col-span (width), row-span (height), col-start (start column + 1), row-start (start row + 1) |
| Generator.RuleResponsiveUtilities | src/App.jsx:222-245 | in responsive mode column span and column start each appear as the "-1" base followed by the numbered token under every enabled breakpoint in order |
| Generator.RuleTokensSplit | src/App.jsx:216-250 | splitting a rule's utility list on spaces recovers its tokens |
| Generator.GenerateTailwindCss | src/App.jsx:181-182 | no output exactly when there are no areas; otherwise both text blocks are non-empty |
| Generator.Markup | src/App.jsx:258-265 | for the areas the editor keeps, the markup's lines are the root element with the trimmed classes, one child line per area in list order, "</div>", and two empty lines |
| Generator.Stylesheet | src/App.jsx:270 | for the areas the editor keeps, the stylesheet's lines are the header comment and then one rule per area in list order |

## Left out

- React state, effects and rendering: the hook plumbing, the grid matrix (written but never read by the logic), `getCellStyle` colours and `isCellInCurrentSelection` (a display-only preview) are not modelled. The state is one explicit record.
- `CodeBlock.jsx` (syntax highlighting and clipboard), `Footer.jsx` (static content and the current year) and `SelectType.jsx` (a radio widget) are not part of this model.
- Text parsing of the number inputs: `parseInt` on the raw field text is a parameter `Option<int>`, with None standing for NaN. The `|| 1` and `|| 0` fallbacks and the clamps are modelled on it.
- The null guards of `getAreaBounds` (line 41) and `doAreasOverlap` (line 110) are not modelled. Both functions are reached only with present cells and rectangles, so `Geometry.Bounds` and `Geometry.Overlap` take present values.
- Editor.MouseUp: ids, sizes and every rendered number are unbounded integers. On the page `nextAreaId` is a JavaScript number, so `nextAreaId + 1` (line 95) stops increasing at 2^53 and later areas would share an id. No session commits that many areas, so `Editor.MouseUp`, `Editor.MouseUpIssuesFreshId`, `Editor.MouseUpPreservesValid` and `Trace.IdsNeverReused` promise strictly increasing ids without that bound.
- Text.IntToString: renders every integer in plain decimal digits. `${n}` switches to exponent notation from 10^21 on, which no id, size or gap on the page reaches.
- Truthiness of ids: ids are always at least 1, so `if (clickedAreaId)` and `if (selectedAreaId)` are modelled as presence tests.
- `Text.Trim` removes only space, tab, line feed and carriage return. JavaScript `trim` removes every Unicode white-space character; the generated class strings contain only spaces.
- React batches state updates, and the effect at lines 27-34 runs after render. The model applies each handler's updates at once.
- Focus and keyboard handling are not modelled. `Trace.Possible` lets the controls change at any moment, also while the button is held on a cell, since the keyboard reaches a number input without the pointer leaving the grid.
- The checkbox handlers for the responsive flag and the breakpoints are modelled only as events in `Trace` that replace the flag or flags. They carry no further logic.

## Findings

| source | as written | input that shows it | evidently intended | confidence | as-written member | corrected member |
|---|---|---|---|---|---|---|
| src/App.jsx:27-34 | the dimension effect empties the areas and restarts ids but leaves `isDragging`, `startCell` and `endCell` alone, and `handleMouseUp` (lines 74-101) commits the draft without checking it against the grid | press cell (7,7) of the initial 8×8 grid, change the columns to 7 from the keyboard with the button held, release over the grid: area `div1` is committed in column 7, which the 7-column grid does not have | a dimension change also ends the drag, as it already discards every area drawn on the old grid | medium, not executed | Trace.ResizeMidDragLeavesGrid | Editor.ResizeEndingDrag |
