/**
  The utility-class vocabulary the generator emits: gap tokens quantised
  from pixels, the capped column-count token, numbered span/start tokens and
  the responsive breakpoint prefixes.
*/
module Tokens {
  import opened Wrappers
  import opened Ints
  import opened Text
  import opened Config

  /** Gap thresholds in pixels with their spacing tokens, finest first. */
  const GapBuckets: seq<(int, string)> := [
    (1, "gap-px"), (2, "gap-0.5"), (4, "gap-1"), (6, "gap-1.5"), (8, "gap-2"),
    (12, "gap-3"), (16, "gap-4"), (20, "gap-5"), (24, "gap-6"), (32, "gap-8")]

  /** The token for gaps above every threshold. */
  const CoarsestGap := "gap-10"

  /** The gap token for a pixel gap: none for 0, otherwise its bucket. */
  function GapToken(gap: int): (t: string)
    ensures t == "" <==> gap == 0
  {
    if gap == 0 then ""
    else if gap <= 1 then "gap-px"
    else if gap <= 2 then "gap-0.5"
    else if gap <= 4 then "gap-1"
    else if gap <= 6 then "gap-1.5"
    else if gap <= 8 then "gap-2"
    else if gap <= 12 then "gap-3"
    else if gap <= 16 then "gap-4"
    else if gap <= 20 then "gap-5"
    else if gap <= 24 then "gap-6"
    else if gap <= 32 then "gap-8"
    else "gap-10"
  }

  /** Index of the first bucket from `i` on whose threshold is at least `gap`; past the table if none. */
  function FirstBucketFrom(gap: int, i: nat): (r: nat)
    requires i <= |GapBuckets|
    ensures i <= r <= |GapBuckets|
    ensures forall j :: i <= j < r ==> GapBuckets[j].0 < gap
    ensures r < |GapBuckets| ==> gap <= GapBuckets[r].0
    decreases |GapBuckets| - i
  {
    if i == |GapBuckets| then i
    else if gap <= GapBuckets[i].0 then i
    else FirstBucketFrom(gap, i + 1)
  }

  function FirstBucket(gap: int): nat {
    FirstBucketFrom(gap, 0)
  }

  function BucketToken(i: nat): string {
    if i < |GapBuckets| then GapBuckets[i].1 else CoarsestGap
  }

  /** A non-zero gap's token starts with "gap" and contains no white space. */
  lemma GapTokenWord(gap: int)
    requires gap != 0
    ensures var t := GapToken(gap); |t| > 3 && t[..3] == "gap" && IsToken(t)
  {
  }

  /** A non-zero gap gets the token of the first bucket whose threshold is at least the gap. */
  lemma GapTokenIsFirstBucket(gap: int)
    requires gap != 0
    ensures GapToken(gap) == BucketToken(FirstBucket(gap))
  {
    var r := FirstBucket(gap);
    assert GapBuckets[0].0 == 1 && GapBuckets[1].0 == 2 && GapBuckets[2].0 == 4 && GapBuckets[3].0 == 6;
    assert GapBuckets[4].0 == 8 && GapBuckets[5].0 == 12 && GapBuckets[6].0 == 16;
    assert GapBuckets[7].0 == 20 && GapBuckets[8].0 == 24 && GapBuckets[9].0 == 32;
    if gap <= 1 { assert r == 0; }
    else if gap <= 2 { assert r == 1; }
    else if gap <= 4 { assert r == 2; }
    else if gap <= 6 { assert r == 3; }
    else if gap <= 8 { assert r == 4; }
    else if gap <= 12 { assert r == 5; }
    else if gap <= 16 { assert r == 6; }
    else if gap <= 20 { assert r == 7; }
    else if gap <= 24 { assert r == 8; }
    else if gap <= 32 { assert r == 9; }
    else { assert r == 10; }
  }

  /** Bucket edges: a threshold itself stays in its bucket, one pixel more moves up. */
  lemma GapTokenExamples()
    ensures GapToken(1) == "gap-px" && GapToken(5) == "gap-1.5"
    ensures GapToken(32) == "gap-8" && GapToken(33) == "gap-10"
  {
  }

  /** A larger gap never falls into a finer bucket. */
  lemma GapBucketMonotone(g1: int, g2: int)
    requires g1 <= g2
    ensures FirstBucket(g1) <= FirstBucket(g2)
  {
  }

  /** A token carrying a number: `prefix` followed by the decimal rendering of `n`. */
  function NumberToken(prefix: string, n: int): (t: string)
    ensures |t| > |prefix| && t[..|prefix|] == prefix
    ensures ParseInt(t[|prefix|..]) == Some(n) && Canonical(t[|prefix|..])
    ensures IsToken(t[|prefix|..])
  {
    IntToStringRoundTrip(n);
    IntToStringIsToken(n);
    var t := prefix + IntToString(n);
    assert t[|prefix|..] == IntToString(n);
    t
  }

  /** The largest column count the utility vocabulary has a token for. */
  const MaxColumnsToken := 12

  /** The column-template token: `grid-cols-N`, with N capped at 12. */
  function ColumnsToken(columns: int): (t: string)
    ensures |t| > 10 && t[..10] == "grid-cols-"
    ensures ParseInt(t[10..]) == Some(Min(columns, MaxColumnsToken)) && Canonical(t[10..])
  {
    if columns <= MaxColumnsToken then NumberToken("grid-cols-", columns)
    else
      assert NumberToken("grid-cols-", MaxColumnsToken) == "grid-cols-12" by {
        assert IntToString(12) == NatToString(1) + [DigitChar(2)] == "12";
      }
      "grid-cols-12"
  }

  /** A responsive breakpoint, in the order the generator visits them. */
  datatype Breakpoint = Sm | Md | Lg | Xl

  /** The class prefix of a breakpoint. */
  function Prefix(b: Breakpoint): string {
    match b
    case Sm => "sm"
    case Md => "md"
    case Lg => "lg"
    case Xl => "xl"
  }

  /** Position of a breakpoint in the visiting order. */
  function Rank(b: Breakpoint): nat {
    match b
    case Sm => 0
    case Md => 1
    case Lg => 2
    case Xl => 3
  }

  /** Whether the configuration enables the breakpoint. */
  function Enabled(bp: Breakpoints, b: Breakpoint): bool {
    match b
    case Sm => bp.sm
    case Md => bp.md
    case Lg => bp.lg
    case Xl => bp.xl
  }

  /**
    The enabled breakpoints: exactly those whose flag is set, each once, in
    the order sm, md, lg, xl.
  */
  function EnabledBreakpoints(bp: Breakpoints): (r: seq<Breakpoint>)
    ensures forall b :: b in r <==> Enabled(bp, b)
    ensures forall i, j :: 0 <= i < j < |r| ==> Rank(r[i]) < Rank(r[j])
  {
    Opt(bp.sm, Sm) + (Opt(bp.md, Md) + (Opt(bp.lg, Lg) + Opt(bp.xl, Xl)))
  }

  /** The one-element list `[b]` when `on`, else the empty list. */
  function Opt(on: bool, b: Breakpoint): seq<Breakpoint> {
    if on then [b] else []
  }

  /** `token` under each breakpoint prefix: `sm:token`, `md:token`, ... */
  function Prefixed(names: seq<Breakpoint>, token: string): (r: seq<string>)
    ensures |r| == |names|
    ensures forall i :: 0 <= i < |names| ==> r[i] == Prefix(names[i]) + ":" + token
  {
    if |names| == 0 then [] else [Prefix(names[0]) + ":" + token] + Prefixed(names[1..], token)
  }

  /**
    The four guarded appends the generator repeats for each responsive list:
    for every enabled breakpoint, in order, its prefix, the token and a space.
  */
  function Variants(bp: Breakpoints, token: string): string {
    Guarded(bp.sm, Sm, token) + (Guarded(bp.md, Md, token) +
    (Guarded(bp.lg, Lg, token) + Guarded(bp.xl, Xl, token)))
  }

  /** `if (flag) classes += `${prefix}:${token} `` */
  function Guarded(on: bool, b: Breakpoint, token: string): string {
    if on then Prefix(b) + ":" + token + " " else ""
  }

  /** One guarded append: an optional leading breakpoint contributes its token and a space. */
  lemma VariantStep(on: bool, b: Breakpoint, rest: seq<Breakpoint>, token: string)
    ensures Spaced(Prefixed(Opt(on, b) + rest, token)) == Guarded(on, b, token) + Spaced(Prefixed(rest, token))
  {
    var xs := Opt(on, b) + rest;
    if on {
      assert xs[0] == b && xs[1..] == rest;
    } else {
      assert xs == rest;
    }
  }

  lemma EnabledBreakpointsNested(bp: Breakpoints)
    ensures EnabledBreakpoints(bp) == Opt(bp.sm, Sm) + (Opt(bp.md, Md) + (Opt(bp.lg, Lg) + (Opt(bp.xl, Xl) + [])))
  {
    assert Opt(bp.xl, Xl) + [] == Opt(bp.xl, Xl);
  }

  lemma SpacedEnabledNested(bp: Breakpoints, token: string)
    ensures Spaced(Prefixed(EnabledBreakpoints(bp), token)) ==
      Guarded(bp.sm, Sm, token) + (Guarded(bp.md, Md, token) +
      (Guarded(bp.lg, Lg, token) + (Guarded(bp.xl, Xl, token) + "")))
  {
    var e3 := Opt(bp.xl, Xl) + [];
    var e2 := Opt(bp.lg, Lg) + e3;
    var e1 := Opt(bp.md, Md) + e2;
    EnabledBreakpointsNested(bp);
    VariantStep(bp.xl, Xl, [], token);
    VariantStep(bp.lg, Lg, e3, token);
    VariantStep(bp.md, Md, e2, token);
    VariantStep(bp.sm, Sm, e1, token);
    assert Spaced(Prefixed([], token)) == "";
  }

  /** The guarded appends produce the enabled prefixes applied to the token, space-separated. */
  lemma VariantsAreSpacedTokens(bp: Breakpoints, token: string)
    ensures Variants(bp, token) == Spaced(Prefixed(EnabledBreakpoints(bp), token))
  {
    SpacedEnabledNested(bp, token);
    assert Guarded(bp.xl, Xl, token) + "" == Guarded(bp.xl, Xl, token);
  }

  /** A breakpoint prefix contains no white space and no colon. */
  lemma PrefixIsToken(b: Breakpoint)
    ensures IsToken(Prefix(b))
  {
  }

  /** Prefixing a token with a breakpoint keeps it a token. */
  lemma PrefixedAreTokens(names: seq<Breakpoint>, token: string)
    requires IsToken(token)
    ensures forall i :: 0 <= i < |names| ==> IsToken(Prefixed(names, token)[i])
  {
    forall i | 0 <= i < |names| ensures IsToken(Prefixed(names, token)[i]) {
      PrefixIsToken(names[i]);
    }
  }
}
