/**
  Cells and inclusive rectangles in zero-based grid coordinates: normalising a
  drag into a rectangle, and the separating-axis overlap test.
*/
module Geometry {
  import opened Ints

  /** A grid cell, as the rendered cell's (rowIndex, colIndex). */
  datatype Cell = Cell(row: int, col: int)

  /** Inclusive bounds `startRow..endRow` × `startCol..endCol`. */
  datatype Rect = Rect(startRow: int, endRow: int, startCol: int, endCol: int)

  predicate Normalised(r: Rect) {
    r.startRow <= r.endRow && r.startCol <= r.endCol
  }

  predicate Covers(r: Rect, c: Cell) {
    r.startRow <= c.row <= r.endRow && r.startCol <= c.col <= r.endCol
  }

  /** `outer` contains every row and column of `inner`. */
  predicate Encloses(outer: Rect, inner: Rect) {
    outer.startRow <= inner.startRow && inner.endRow <= outer.endRow &&
    outer.startCol <= inner.startCol && inner.endCol <= outer.endCol
  }

  /** A cell the editor renders: rows `[0, rows)`, columns `[0, columns)`. */
  predicate CellInGrid(c: Cell, rows: int, columns: int) {
    0 <= c.row < rows && 0 <= c.col < columns
  }

  predicate RectInGrid(r: Rect, rows: int, columns: int) {
    Normalised(r) && 0 <= r.startRow && r.endRow < rows && 0 <= r.startCol && r.endCol < columns
  }

  /**
    The rectangle spanned by a drag from `start` to `end`: the smallest
    normalised rectangle covering both cells.
  */
  function Bounds(start: Cell, end: Cell): (r: Rect)
    ensures Normalised(r) && Covers(r, start) && Covers(r, end)
    ensures forall q: Rect :: Covers(q, start) && Covers(q, end) ==> Encloses(q, r)
  {
    Rect(Min(start.row, end.row), Max(start.row, end.row),
         Min(start.col, end.col), Max(start.col, end.col))
  }

  lemma BoundsSymmetric(a: Cell, b: Cell)
    ensures Bounds(a, b) == Bounds(b, a)
  {
  }

  /** A drag inside the grid gives a rectangle inside the grid. */
  lemma BoundsInGrid(a: Cell, b: Cell, rows: int, columns: int)
    requires CellInGrid(a, rows, columns) && CellInGrid(b, rows, columns)
    ensures RectInGrid(Bounds(a, b), rows, columns)
  {
  }

  /** A click without movement gives the 1×1 rectangle of that cell. */
  lemma BoundsOfOneCell(c: Cell)
    ensures forall q: Cell :: Covers(Bounds(c, c), q) <==> q == c
  {
  }

  /**
    Two rectangles overlap unless one lies entirely above, below, left of or
    right of the other.
  */
  function Overlap(a: Rect, b: Rect): (r: bool)
    ensures Normalised(a) && Normalised(b) ==>
      (r <==> Max(a.startRow, b.startRow) <= Min(a.endRow, b.endRow) &&
              Max(a.startCol, b.startCol) <= Min(a.endCol, b.endCol))
  {
    !(a.endRow < b.startRow || a.startRow > b.endRow ||
      a.endCol < b.startCol || a.startCol > b.endCol)
  }

  lemma OverlapSymmetric(a: Rect, b: Rect)
    ensures Overlap(a, b) == Overlap(b, a)
  {
  }

  /** On normalised rectangles, overlap means sharing at least one cell. */
  lemma OverlapIffSharedCell(a: Rect, b: Rect)
    requires Normalised(a) && Normalised(b)
    ensures Overlap(a, b) <==> exists c: Cell :: Covers(a, c) && Covers(b, c)
  {
    if Overlap(a, b) {
      var c := Cell(Max(a.startRow, b.startRow), Max(a.startCol, b.startCol));
      assert Covers(a, c) && Covers(b, c);
    }
  }

  /** Rectangles that only touch along an edge do not overlap. */
  lemma TouchingDoNotOverlap(a: Rect, b: Rect)
    requires a.endCol + 1 == b.startCol || a.endRow + 1 == b.startRow
    ensures !Overlap(a, b)
  {
  }
}
