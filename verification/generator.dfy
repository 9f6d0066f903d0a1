/**
  The code generator: from the grid configuration and the area list to the
  container class string, one `@apply` rule per area, and the two text
  blocks (markup skeleton and stylesheet). Each source-shaped builder, which
  appends strings the way the page does, is paired with a token list and a
  lemma showing the builder emits exactly those tokens.
*/
module Generator {
  import opened Wrappers
  import opened Text
  import opened Registry
  import opened Config
  import opened Tokens
  import opened Layout

  /** `token.replace("gap", "gap-" + axis)`: the axis-specific form of a gap token. */
  function AxisGap(token: string, axis: string): string {
    ReplaceFirst(token, "gap", "gap-" + axis)
  }

  // ---------------------------------------------------------------------
  // Responsive lists

  /**
    A column utility in the current layout mode: in responsive mode the
    mobile-first `base` followed by `token` under every enabled breakpoint,
    otherwise `token` alone.
  */
  function ResponsiveTokens(cfg: GridConfig, base: string, token: string): seq<string> {
    if cfg.responsive then [base] + Prefixed(EnabledBreakpoints(cfg.breakpoints), token) else [token]
  }

  /** The same list as the page appends it, each class followed by a space. */
  function ResponsiveClasses(cfg: GridConfig, base: string, token: string): string {
    if cfg.responsive then base + " " + Variants(cfg.breakpoints, token) else token + " "
  }

  lemma ResponsiveSpaced(cfg: GridConfig, base: string, token: string)
    ensures ResponsiveClasses(cfg, base, token) == Spaced(ResponsiveTokens(cfg, base, token))
  {
    if cfg.responsive {
      var rest := Prefixed(EnabledBreakpoints(cfg.breakpoints), token);
      SpacedAppend([base], rest);
      VariantsAreSpacedTokens(cfg.breakpoints, token);
    }
  }

  lemma ResponsiveAreTokens(cfg: GridConfig, base: string, token: string)
    requires IsToken(base) && IsToken(token)
    ensures AllTokens(ResponsiveTokens(cfg, base, token))
  {
    var bps := EnabledBreakpoints(cfg.breakpoints);
    PrefixedAreTokens(bps, token);
    var ts := ResponsiveTokens(cfg, base, token);
    forall i | 0 <= i < |ts| ensures IsToken(ts[i]) {
      if cfg.responsive && i > 0 {
        assert ts[i] == Prefixed(bps, token)[i - 1];
      }
    }
  }

  // ---------------------------------------------------------------------
  // Container classes

  /** The gap tokens: one combined token when both axes agree, otherwise one per non-empty axis. */
  function GapTokens(cfg: GridConfig): seq<string> {
    var cg := GapToken(cfg.columnGap);
    var rg := GapToken(cfg.rowGap);
    if cg != "" && rg != "" && cg == rg then [cg]
    else (if cg != "" then [AxisGap(cg, "x")] else []) + (if rg != "" then [AxisGap(rg, "y")] else [])
  }

  /** The gap classes as the page appends them: the gap tokens, each followed by a space. */
  function GapClasses(cfg: GridConfig): (r: string)
    ensures r == Spaced(GapTokens(cfg))
  {
    var cg := GapToken(cfg.columnGap);
    var rg := GapToken(cfg.rowGap);
    if cg != "" && rg != "" && cg == rg then cg + " "
    else
      SpacedAppend(if cg != "" then [AxisGap(cg, "x")] else [], if rg != "" then [AxisGap(rg, "y")] else []);
      (if cg != "" then AxisGap(cg, "x") + " " else "") + (if rg != "" then AxisGap(rg, "y") + " " else "")
  }

  /** Every class the container carries, in order: "grid", the column tokens, the gap tokens. */
  function ContainerTokens(cfg: GridConfig): seq<string> {
    ["grid"] + ResponsiveTokens(cfg, "grid-cols-1", ColumnsToken(cfg.columns)) + GapTokens(cfg)
  }

  /** The container class string as the page accumulates it: the container's tokens, each followed by a space. */
  function ContainerClasses(cfg: GridConfig): (r: string)
    ensures r == Spaced(ContainerTokens(cfg))
  {
    SpacedHeaded("grid", ResponsiveTokens(cfg, "grid-cols-1", ColumnsToken(cfg.columns)), GapTokens(cfg));
    assert "grid" + " " == "grid ";
    ResponsiveSpaced(cfg, "grid-cols-1", ColumnsToken(cfg.columns));
    "grid " + ResponsiveClasses(cfg, "grid-cols-1", ColumnsToken(cfg.columns)) + GapClasses(cfg)
  }

  /** Every gap bucket token starts with "gap", so its axis form inserts the axis after it. */
  lemma AxisGapOfBucket(gap: int, axis: string)
    requires gap != 0
    ensures GapToken(gap)[..3] == "gap"
    ensures AxisGap(GapToken(gap), axis) == "gap-" + axis + GapToken(gap)[3..]
  {
  }

  /**
    The gap tokens: a single shared token exactly when both axes quantise to
    the same non-empty token; otherwise a `gap-x-…` token for a non-zero
    column gap and a `gap-y-…` token for a non-zero row gap, in that order.
  */
  lemma GapTokensChoice(cfg: GridConfig)
    ensures var cg, rg := GapToken(cfg.columnGap), GapToken(cfg.rowGap);
      cg != "" && cg == rg ==> GapTokens(cfg) == [cg]
    ensures var cg, rg := GapToken(cfg.columnGap), GapToken(cfg.rowGap);
      !(cg != "" && cg == rg) ==>
        GapTokens(cfg) ==
          (if cfg.columnGap != 0 then ["gap-x" + cg[3..]] else []) +
          (if cfg.rowGap != 0 then ["gap-y" + rg[3..]] else [])
  {
    assert "gap-" + "x" == "gap-x" && "gap-" + "y" == "gap-y";
    if cfg.columnGap != 0 { AxisGapOfBucket(cfg.columnGap, "x"); }
    if cfg.rowGap != 0 { AxisGapOfBucket(cfg.rowGap, "y"); }
  }

  /** A gap bucket token, plain or with an axis inserted, contains no white space. */
  lemma GapTokenIsToken(gap: int, axis: string)
    requires gap != 0 && (axis == "x" || axis == "y")
    ensures IsToken(GapToken(gap)) && IsToken(AxisGap(GapToken(gap), axis))
  {
    AxisGapOfBucket(gap, axis);
    GapTokenWord(gap);
    TokenSuffix(GapToken(gap), 3);
    AxisWordIsToken(axis);
    TokenConcat("gap-" + axis, GapToken(gap)[3..]);
  }

  lemma GapTokensAreTokens(cfg: GridConfig)
    ensures AllTokens(GapTokens(cfg))
  {
    if cfg.columnGap != 0 { GapTokenIsToken(cfg.columnGap, "x"); }
    if cfg.rowGap != 0 { GapTokenIsToken(cfg.rowGap, "y"); }
  }

  lemma ColumnsTokenIsToken(columns: int)
    ensures IsToken(ColumnsToken(columns))
  {
    var t := ColumnsToken(columns);
    assert t == t[..10] + t[10..];
    if columns <= MaxColumnsToken {
      assert IsToken(t[10..]);
    } else {
      assert t[10..] == "12";
    }
  }

  lemma ContainerTokensAreTokens(cfg: GridConfig)
    ensures AllTokens(ContainerTokens(cfg))
  {
    var cols := ResponsiveTokens(cfg, "grid-cols-1", ColumnsToken(cfg.columns));
    ColumnsTokenIsToken(cfg.columns);
    ResponsiveAreTokens(cfg, "grid-cols-1", ColumnsToken(cfg.columns));
    GapTokensAreTokens(cfg);
    assert AllTokens(["grid"]);
    AllTokensAppend(["grid"], cols);
    AllTokensAppend(["grid"] + cols, GapTokens(cfg));
  }

  /** The trimmed class attribute is the container's tokens joined by single spaces. */
  lemma ContainerTrimmed(cfg: GridConfig)
    ensures Trim(ContainerClasses(cfg)) == Join(ContainerTokens(cfg), " ")
  {
    var ts := ContainerTokens(cfg);
    ContainerTokensAreTokens(cfg);
    SpacedIsJoin(ts);
    TrimJoinedTokens(ts);
  }

  /**
    Splitting the container's trimmed class attribute on spaces gives back
    its tokens: "grid", the column tokens, then the gap tokens.
  */
  lemma ContainerClassString(cfg: GridConfig)
    ensures Split(Trim(ContainerClasses(cfg)), ' ') == ContainerTokens(cfg)
  {
    ContainerTrimmed(cfg);
    ContainerTokensAreTokens(cfg);
    SplitJoin(ContainerTokens(cfg), ' ');
  }

  // ---------------------------------------------------------------------
  // Area rules

  /** Number of columns the area spans. */
  function ColSpan(a: Area): int {
    a.bounds.endCol - a.bounds.startCol + 1
  }

  /** Number of rows the area spans. */
  function RowSpan(a: Area): int {
    a.bounds.endRow - a.bounds.startRow + 1
  }

  /** The rule's utilities before the closing row-start: column span, row span, column start. */
  function RuleHead(cfg: GridConfig, a: Area): seq<string> {
    ResponsiveTokens(cfg, "col-span-1", NumberToken("col-span-", ColSpan(a))) +
    [NumberToken("row-span-", RowSpan(a))] +
    ResponsiveTokens(cfg, "col-start-1", NumberToken("col-start-", a.bounds.startCol + 1))
  }

  /**
    The utilities applied to one area, in order: column span, row span,
    column start, row start (starts one-based). In responsive mode the two
    column utilities become a base `-1` token plus one variant per enabled
    breakpoint; the row utilities are never prefixed.
  */
  function RuleTokens(cfg: GridConfig, a: Area): seq<string> {
    RuleHead(cfg, a) + [NumberToken("row-start-", a.bounds.startRow + 1)]
  }

  /** The head utilities as the page appends them. */
  function RuleHeadClasses(cfg: GridConfig, a: Area): string {
    ResponsiveClasses(cfg, "col-span-1", NumberToken("col-span-", ColSpan(a))) +
    NumberToken("row-span-", RowSpan(a)) + " " +
    ResponsiveClasses(cfg, "col-start-1", NumberToken("col-start-", a.bounds.startCol + 1))
  }

  /**
    One stylesheet rule as the page builds it, append by append: the area's
    class selector followed by one `@apply` of its utility tokens,
    space-separated and closed by a semicolon.
  */
  function AreaRule(cfg: GridConfig, a: Area): (r: string)
    ensures r == "." + a.name + " { @apply " + Join(RuleTokens(cfg, a), " ") + "; }"
  {
    RuleHeadSpaced(cfg, a);
    RuleText(a.name, RuleHead(cfg, a), NumberToken("row-start-", a.bounds.startRow + 1));
    "." + a.name + " { " + "@apply " + RuleHeadClasses(cfg, a) +
    NumberToken("row-start-", a.bounds.startRow + 1) + ";" + " }"
  }

  lemma RuleHeadSpaced(cfg: GridConfig, a: Area)
    ensures RuleHeadClasses(cfg, a) == Spaced(RuleHead(cfg, a))
  {
    SpacedAround(
      ResponsiveTokens(cfg, "col-span-1", NumberToken("col-span-", ColSpan(a))),
      NumberToken("row-span-", RowSpan(a)),
      ResponsiveTokens(cfg, "col-start-1", NumberToken("col-start-", a.bounds.startCol + 1)));
    ResponsiveSpaced(cfg, "col-span-1", NumberToken("col-span-", ColSpan(a)));
    ResponsiveSpaced(cfg, "col-start-1", NumberToken("col-start-", a.bounds.startCol + 1));
  }

  /** A numbered utility contains no white space. */
  lemma NumberTokenIsToken(prefix: string, n: int)
    requires IsToken(prefix)
    ensures IsToken(NumberToken(prefix, n))
  {
    var t := NumberToken(prefix, n);
    assert t == prefix + t[|prefix|..];
  }

  /** The rule's tokens as the four runs they are built from. */
  lemma RuleTokensParts(cfg: GridConfig, a: Area)
    ensures RuleTokens(cfg, a) ==
      ResponsiveTokens(cfg, "col-span-1", NumberToken("col-span-", ColSpan(a))) +
      [NumberToken("row-span-", RowSpan(a))] +
      ResponsiveTokens(cfg, "col-start-1", NumberToken("col-start-", a.bounds.startCol + 1)) +
      [NumberToken("row-start-", a.bounds.startRow + 1)]
  {
  }

  lemma RuleTokensAreTokens(cfg: GridConfig, a: Area)
    ensures AllTokens(RuleTokens(cfg, a))
  {
    var spans := ResponsiveTokens(cfg, "col-span-1", NumberToken("col-span-", ColSpan(a)));
    var starts := ResponsiveTokens(cfg, "col-start-1", NumberToken("col-start-", a.bounds.startCol + 1));
    var rowSpan, rowStart := NumberToken("row-span-", RowSpan(a)), NumberToken("row-start-", a.bounds.startRow + 1);
    RuleWordsAreTokens();
    ResponsiveNumberTokens(cfg, "col-span-1", "col-span-", ColSpan(a));
    ResponsiveNumberTokens(cfg, "col-start-1", "col-start-", a.bounds.startCol + 1);
    NumberTokenIsToken("row-span-", RowSpan(a));
    NumberTokenIsToken("row-start-", a.bounds.startRow + 1);
    FourPartsTokens(spans, rowSpan, starts, rowStart);
    RuleTokensParts(cfg, a);
  }

  lemma ResponsiveNumberTokens(cfg: GridConfig, base: string, prefix: string, n: int)
    requires IsToken(base) && IsToken(prefix)
    ensures AllTokens(ResponsiveTokens(cfg, base, NumberToken(prefix, n)))
  {
    NumberTokenIsToken(prefix, n);
    ResponsiveAreTokens(cfg, base, NumberToken(prefix, n));
  }

  /** Splitting a rule's utility list on spaces gives back its tokens. */
  lemma RuleTokensSplit(cfg: GridConfig, a: Area)
    ensures Split(Join(RuleTokens(cfg, a), " "), ' ') == RuleTokens(cfg, a)
  {
    RuleTokensAreTokens(cfg, a);
    SplitJoin(RuleTokens(cfg, a), ' ');
  }

  /**
    `t` is `prefix` followed by the decimal rendering of `n`: a canonical
    numeral reading as `n`, which by `CanonicalUnique` is that rendering.
  */
  predicate Carries(t: string, prefix: string, n: int) {
    |t| > |prefix| && t[..|prefix|] == prefix &&
    ParseInt(t[|prefix|..]) == Some(n) && Canonical(t[|prefix|..])
  }

  /**
    Where each utility sits in a rule: `m` column-span tokens, the row span,
    `m` column-start tokens, the row start, where `m` is 1 in fixed mode and
    one more than the number of enabled breakpoints in responsive mode. The
    row utilities are plain numbered tokens in both modes.
  */
  lemma RuleRowUtilities(cfg: GridConfig, a: Area)
    ensures var ts, m := RuleTokens(cfg, a), (if cfg.responsive then |EnabledBreakpoints(cfg.breakpoints)| + 1 else 1);
      |ts| == 2 * m + 2 &&
      Carries(ts[m], "row-span-", RowSpan(a)) &&
      Carries(ts[2 * m + 1], "row-start-", a.bounds.startRow + 1)
  {
    var spans := ResponsiveTokens(cfg, "col-span-1", NumberToken("col-span-", ColSpan(a)));
    var starts := ResponsiveTokens(cfg, "col-start-1", NumberToken("col-start-", a.bounds.startCol + 1));
    var rowSpan, rowStart := NumberToken("row-span-", RowSpan(a)), NumberToken("row-start-", a.bounds.startRow + 1);
    ResponsiveLayout(cfg, "col-span-1", NumberToken("col-span-", ColSpan(a)));
    ResponsiveLayout(cfg, "col-start-1", NumberToken("col-start-", a.bounds.startCol + 1));
    RuleTokensParts(cfg, a);
    TwoRuns(RuleTokens(cfg, a), spans, rowSpan, starts, rowStart);
  }

  /** In fixed mode a rule is exactly: column span, row span, column start, row start. */
  lemma RuleFixedUtilities(cfg: GridConfig, a: Area)
    requires !cfg.responsive
    ensures var ts := RuleTokens(cfg, a);
      |ts| == 4 &&
      Carries(ts[0], "col-span-", ColSpan(a)) && Carries(ts[1], "row-span-", RowSpan(a)) &&
      Carries(ts[2], "col-start-", a.bounds.startCol + 1) && Carries(ts[3], "row-start-", a.bounds.startRow + 1)
  {
    var span, start := NumberToken("col-span-", ColSpan(a)), NumberToken("col-start-", a.bounds.startCol + 1);
    var rowSpan, rowStart := NumberToken("row-span-", RowSpan(a)), NumberToken("row-start-", a.bounds.startRow + 1);
    RuleTokensParts(cfg, a);
    ResponsiveLayout(cfg, "col-span-1", span);
    ResponsiveLayout(cfg, "col-start-1", start);
    FixedRuleCarries(span, rowSpan, start, rowStart, ColSpan(a), RowSpan(a), a.bounds.startCol + 1, a.bounds.startRow + 1);
  }

  /**
    Solver aid for `RuleFixedUtilities`: the four-token list, with its
    tokens kept abstract so that their literal prefixes are not unfolded.
  */
  lemma FixedRuleCarries(span: string, rowSpan: string, start: string, rowStart: string, w: int, h: int, c: int, r: int)
    requires Carries(span, "col-span-", w) && Carries(rowSpan, "row-span-", h)
    requires Carries(start, "col-start-", c) && Carries(rowStart, "row-start-", r)
    ensures var ts := [span] + [rowSpan] + [start] + [rowStart];
      |ts| == 4 && Carries(ts[0], "col-span-", w) && Carries(ts[1], "row-span-", h) &&
      Carries(ts[2], "col-start-", c) && Carries(ts[3], "row-start-", r)
  {
    assert [span] + [rowSpan] + [start] + [rowStart] == [span, rowSpan, start, rowStart];
  }

  /**
    In responsive mode the column span and the column start each appear as
    the `-1` base followed by the numbered token under every enabled
    breakpoint, in order.
  */
  lemma RuleResponsiveUtilities(cfg: GridConfig, a: Area)
    requires cfg.responsive
    ensures var ts, bps := RuleTokens(cfg, a), EnabledBreakpoints(cfg.breakpoints);
      var span, start := NumberToken("col-span-", ColSpan(a)), NumberToken("col-start-", a.bounds.startCol + 1);
      ts[0] == "col-span-1" && ts[|bps| + 2] == "col-start-1" &&
      forall k :: 0 <= k < |bps| ==>
        ts[1 + k] == Prefix(bps[k]) + ":" + span && ts[|bps| + 3 + k] == Prefix(bps[k]) + ":" + start
  {
    RuleTokensParts(cfg, a);
    ResponsiveRunsAt(RuleTokens(cfg, a), cfg,
      "col-span-1", NumberToken("col-span-", ColSpan(a)), NumberToken("row-span-", RowSpan(a)),
      "col-start-1", NumberToken("col-start-", a.bounds.startCol + 1), NumberToken("row-start-", a.bounds.startRow + 1));
  }

  /** Positions in two responsive lists over the enabled breakpoints, each followed by one item. */
  lemma ResponsiveRunsAt(ts: seq<string>, cfg: GridConfig, base1: string, token1: string, y: string,
                         base2: string, token2: string, w: string)
    requires cfg.responsive
    requires ts == ResponsiveTokens(cfg, base1, token1) + [y] + ResponsiveTokens(cfg, base2, token2) + [w]
    ensures var bps := EnabledBreakpoints(cfg.breakpoints);
      ts[0] == base1 && ts[|bps| + 2] == base2 &&
      forall k :: 0 <= k < |bps| ==>
        ts[1 + k] == Prefix(bps[k]) + ":" + token1 && ts[|bps| + 3 + k] == Prefix(bps[k]) + ":" + token2
  {
    PrefixedRuns(ts, EnabledBreakpoints(cfg.breakpoints), base1, token1, y, base2, token2, w);
  }

  /** The same positions for any list of breakpoints. */
  lemma PrefixedRuns(ts: seq<string>, bps: seq<Breakpoint>, base1: string, token1: string, y: string,
                     base2: string, token2: string, w: string)
    requires ts == [base1] + Prefixed(bps, token1) + [y] + ([base2] + Prefixed(bps, token2)) + [w]
    ensures ts[0] == base1 && ts[|bps| + 2] == base2
    ensures forall k :: 0 <= k < |bps| ==>
      ts[1 + k] == Prefix(bps[k]) + ":" + token1 && ts[|bps| + 3 + k] == Prefix(bps[k]) + ":" + token2
  {
    PrefixedFirstRun(ts, bps, base1, token1, y, [base2] + Prefixed(bps, token2), w);
    PrefixedSecondRun(ts, [base1] + Prefixed(bps, token1), y, bps, base2, token2, w);
  }

  /** The first run: the base, then the token under each breakpoint. */
  lemma PrefixedFirstRun(ts: seq<string>, bps: seq<Breakpoint>, base: string, token: string, y: string,
                         zs: seq<string>, w: string)
    requires ts == [base] + Prefixed(bps, token) + [y] + zs + [w]
    ensures ts[0] == base
    ensures forall k :: 0 <= k < |bps| ==> ts[1 + k] == Prefix(bps[k]) + ":" + token
  {
    FirstRunAt(ts, base, Prefixed(bps, token), y, zs, w);
  }

  /** The second run, after a first run of one item per breakpoint plus the base. */
  lemma PrefixedSecondRun(ts: seq<string>, xs: seq<string>, y: string, bps: seq<Breakpoint>, base: string,
                          token: string, w: string)
    requires |xs| == |bps| + 1
    requires ts == xs + [y] + ([base] + Prefixed(bps, token)) + [w]
    ensures ts[|bps| + 2] == base
    ensures forall k :: 0 <= k < |bps| ==> ts[|bps| + 3 + k] == Prefix(bps[k]) + ":" + token
  {
    SecondRunAt(ts, xs, y, base, Prefixed(bps, token), w);
  }

  /** A responsive list has the base first and one prefixed variant per enabled breakpoint. */
  lemma ResponsiveLayout(cfg: GridConfig, base: string, token: string)
    ensures var r, bps := ResponsiveTokens(cfg, base, token), EnabledBreakpoints(cfg.breakpoints);
      (!cfg.responsive ==> r == [token]) &&
      (cfg.responsive ==>
        (|r| == |bps| + 1 && r[0] == base &&
         forall k :: 0 <= k < |bps| ==> r[1 + k] == Prefix(bps[k]) + ":" + token))
  {
    if cfg.responsive {
      PrefixedAt(EnabledBreakpoints(cfg.breakpoints), base, token);
    }
  }

  /** The base followed by the prefixed variants, position by position. */
  lemma PrefixedAt(bps: seq<Breakpoint>, base: string, token: string)
    ensures var r := [base] + Prefixed(bps, token);
      |r| == |bps| + 1 && r[0] == base &&
      forall k :: 0 <= k < |bps| ==> r[1 + k] == Prefix(bps[k]) + ":" + token
  {
    var p := Prefixed(bps, token);
    forall k | 0 <= k < |bps| ensures ([base] + p)[1 + k] == Prefix(bps[k]) + ":" + token {
      assert ([base] + p)[1 + k] == p[k];
    }
  }

  /**
    Where each class sits in the container: "grid" first; then the capped
    column token, or in responsive mode "grid-cols-1" followed by that token
    under each enabled breakpoint in order; then the gap tokens.
  */
  lemma ContainerTokensLayout(cfg: GridConfig)
    ensures var ts, m := ContainerTokens(cfg), (if cfg.responsive then |EnabledBreakpoints(cfg.breakpoints)| + 1 else 1);
      |ts| == 1 + m + |GapTokens(cfg)| && ts[0] == "grid" && ts[1 + m..] == GapTokens(cfg)
    ensures !cfg.responsive ==> ContainerTokens(cfg)[1] == ColumnsToken(cfg.columns)
    ensures cfg.responsive ==> var ts, bps := ContainerTokens(cfg), EnabledBreakpoints(cfg.breakpoints);
      ts[1] == "grid-cols-1" &&
      forall k :: 0 <= k < |bps| ==> ts[2 + k] == Prefix(bps[k]) + ":" + ColumnsToken(cfg.columns)
  {
    var cols := ResponsiveTokens(cfg, "grid-cols-1", ColumnsToken(cfg.columns));
    var ts := ContainerTokens(cfg);
    assert ts[1 + |cols|..] == GapTokens(cfg);
    if cfg.responsive {
      var bps := EnabledBreakpoints(cfg.breakpoints);
      forall k | 0 <= k < |bps| ensures ts[2 + k] == Prefix(bps[k]) + ":" + ColumnsToken(cfg.columns) {
        assert ts[2 + k] == cols[1 + k];
      }
    }
  }

  // ---------------------------------------------------------------------
  // Output blocks

  /** The opening line of the markup: the root element with the trimmed container classes. */
  function OpenTag(cfg: GridConfig): string {
    "<div class=\"" + Trim(ContainerClasses(cfg)) + "\">"
  }

  function ChildLine(a: Area): string {
    "  <div class=\"" + a.name + "\"><!-- Content for " + a.name + " --></div>"
  }

  function ChildLines(areas: seq<Area>): (r: seq<string>)
    ensures |r| == |areas| && forall i :: 0 <= i < |areas| ==> r[i] == ChildLine(areas[i])
  {
    if |areas| == 0 then [] else [ChildLine(areas[0])] + ChildLines(areas[1..])
  }

  function Rules(cfg: GridConfig, areas: seq<Area>): (r: seq<string>)
    ensures |r| == |areas| && forall i :: 0 <= i < |areas| ==> r[i] == AreaRule(cfg, areas[i])
  {
    seq(|areas|, i requires 0 <= i < |areas| => AreaRule(cfg, areas[i]))
  }

  /**
    The markup block. For the areas the editor keeps, it has one line for the
    root element, then one line per area in list order, then the closing tag
    and two empty lines.
  */
  function Markup(cfg: GridConfig, areas: seq<Area>): (r: string)
    ensures |areas| > 0 && WellNamed(areas) ==>
      Split(r, '\n') == [OpenTag(cfg)] + ChildLines(areas) + ["</div>", "", ""]
  {
    var r := OpenTag(cfg) + "\n" + Join(ChildLines(areas), "\n") + "\n</div>\n\n";
    assert |areas| > 0 && WellNamed(areas) ==>
      Split(r, '\n') == [OpenTag(cfg)] + ChildLines(areas) + ["</div>", "", ""]
    by {
      if |areas| > 0 && WellNamed(areas) {
        OpenTagOneLine(cfg);
        ChildLinesOneLine(areas);
        FramedLines(OpenTag(cfg), ChildLines(areas));
      }
    }
    r
  }

  const StylesheetHeader := "/* CSS Styles for Grid Areas */"

  /**
    The stylesheet block. For the areas the editor keeps, it has the header
    comment line, then one line per area rule in list order.
  */
  function Stylesheet(cfg: GridConfig, areas: seq<Area>): (r: string)
    ensures |areas| > 0 && WellNamed(areas) ==> Split(r, '\n') == [StylesheetHeader] + Rules(cfg, areas)
  {
    var r := StylesheetHeader + "\n" + Join(Rules(cfg, areas), "\n");
    assert |areas| > 0 && WellNamed(areas) ==> Split(r, '\n') == [StylesheetHeader] + Rules(cfg, areas) by {
      if |areas| > 0 && WellNamed(areas) {
        RulesOneLine(cfg, areas);
        HeaderOneLine();
        HeadedLines(StylesheetHeader, Rules(cfg, areas));
      }
    }
    r
  }

  /** The generator's result: nothing for an empty area list, otherwise the two text blocks. */
  datatype Output = NoOutput | Code(markup: string, stylesheet: string)

  function GenerateTailwindCss(cfg: GridConfig, areas: seq<Area>): (o: Output)
    ensures o.NoOutput? <==> |areas| == 0
    ensures o.Code? ==> |o.markup| > 0 && |o.stylesheet| > 0
  {
    if |areas| == 0 then NoOutput
    else Code(Markup(cfg, areas), Stylesheet(cfg, areas))
  }

  /** Area names produced by the registry contain no white space. */
  lemma AreaNameIsToken(id: AreaId)
    ensures IsToken(AreaName(id))
  {
    var n := AreaName(id);
    assert n == "div" + n[3..];
    DigitsAreToken(n[3..]);
  }

  lemma OpenTagOneLine(cfg: GridConfig)
    ensures '\n' !in OpenTag(cfg)
  {
    ContainerTrimmed(cfg);
    ContainerTokensAreTokens(cfg);
    TokensOnOneLine(ContainerTokens(cfg));
    OpenTagText(Trim(ContainerClasses(cfg)));
  }

  lemma RuleOneLine(cfg: GridConfig, a: Area)
    requires a.name == AreaName(a.id)
    ensures '\n' !in AreaRule(cfg, a)
  {
    AreaNameIsToken(a.id);
    RuleTokensAreTokens(cfg, a);
    TokensOnOneLine(RuleTokens(cfg, a));
    RuleLineText(a.name, Join(RuleTokens(cfg, a), " "));
  }

  lemma ChildLinesOneLine(areas: seq<Area>)
    requires WellNamed(areas)
    ensures SingleLines(ChildLines(areas))
  {
    forall i | 0 <= i < |areas| ensures '\n' !in ChildLines(areas)[i] {
      ChildLineOneLine(areas[i]);
    }
  }

  lemma ChildLineOneLine(a: Area)
    requires a.name == AreaName(a.id)
    ensures '\n' !in ChildLine(a)
  {
    AreaNameIsToken(a.id);
    CommentedChildOneLine(a.name);
  }

  lemma RulesOneLine(cfg: GridConfig, areas: seq<Area>)
    requires WellNamed(areas)
    ensures SingleLines(Rules(cfg, areas))
  {
    forall i | 0 <= i < |areas| ensures '\n' !in Rules(cfg, areas)[i] {
      RuleOneLine(cfg, areas[i]);
    }
  }

  lemma HeaderOneLine()
    ensures '\n' !in StylesheetHeader
  {
  }
}
