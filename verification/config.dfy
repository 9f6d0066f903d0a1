/**
  The grid configuration the editor's controls edit, and the clamps those
  controls apply to what the user types.
*/
module Config {
  import opened Wrappers
  import opened Ints

  /** Which responsive breakpoint prefixes the generated classes carry. */
  datatype Breakpoints = Breakpoints(sm: bool, md: bool, lg: bool, xl: bool)

  datatype GridConfig = GridConfig(
    columns: int,
    rows: int,
    columnGap: int,
    rowGap: int,
    responsive: bool,
    breakpoints: Breakpoints)

  /** The largest row or column count the controls accept. */
  const MaxDimension := 12

  /** What the controls guarantee: 1..12 rows and columns, non-negative gaps. */
  predicate ValidConfig(c: GridConfig) {
    1 <= c.columns <= MaxDimension && 1 <= c.rows <= MaxDimension &&
    c.columnGap >= 0 && c.rowGap >= 0
  }

  /** An 8×8 grid without gaps, responsive, with every breakpoint enabled. */
  const InitialConfig := GridConfig(8, 8, 0, 0, true, Breakpoints(true, true, true, true))

  /** `Math.min(12, Math.max(1, v))`: the point of [1, 12] nearest to `v`. */
  function ClampDimension(v: int): (r: int)
    ensures 1 <= r <= MaxDimension
    ensures forall w :: 1 <= w <= MaxDimension ==> Dist(r, v) <= Dist(w, v)
  {
    Min(MaxDimension, Max(1, v))
  }

  /**
    A row or column count typed into its control: `parseInt(text) || 1`,
    then clamped. `None` is a text that parses to NaN; 0 is falsy and
    becomes 1 as well.
  */
  function DimensionInput(parsed: Option<int>): (r: int)
    ensures 1 <= r <= MaxDimension
    ensures parsed.None? ==> r == 1
    ensures parsed.Some? ==> forall w :: 1 <= w <= MaxDimension ==> Dist(r, parsed.value) <= Dist(w, parsed.value)
  {
    ClampDimension(if parsed.None? || parsed.value == 0 then 1 else parsed.value)
  }

  /**
    A gap typed into its control: `Math.max(0, parseInt(text) || 0)`, the
    non-negative value nearest to what was typed.
  */
  function GapInput(parsed: Option<int>): (r: int)
    ensures r >= 0
    ensures parsed.None? ==> r == 0
    ensures parsed.Some? ==> forall w :: w >= 0 ==> Dist(r, parsed.value) <= Dist(w, parsed.value)
  {
    Max(0, if parsed.None? || parsed.value == 0 then 0 else parsed.value)
  }
}
