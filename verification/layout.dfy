/**
  Layout facts about the generated text that hold for any strings: how
  space-terminated class lists relate to joined ones, and how the line
  structure of the two output blocks is recovered by splitting on line breaks.
*/
module Layout {
  import opened Text

  lemma SpacedInitThenLast(init: seq<string>, last: string)
    ensures Spaced(init) + last == Join(init + [last], " ")
  {
    if |init| == 0 {
      assert init + [last] == [last];
    } else {
      SpacedIsJoin(init);
      JoinAppend(init, [last], " ");
    }
  }

  lemma SpacedAround(xs: seq<string>, y: string, zs: seq<string>)
    ensures Spaced(xs + [y] + zs) == Spaced(xs) + y + " " + Spaced(zs)
  {
    SpacedAppend(xs + [y], zs);
    SpacedAppend(xs, [y]);
  }

  /** The rule text built by appends is the selector and the joined utilities. */
  lemma RuleText(name: string, head: seq<string>, last: string)
    ensures "." + name + " { " + "@apply " + Spaced(head) + last + ";" + " }" ==
      "." + name + " { @apply " + Join(head + [last], " ") + "; }"
  {
    SpacedInitThenLast(head, last);
    assert " { " + "@apply " == " { @apply ";
    assert ";" + " }" == "; }";
  }

  lemma FourPartsTokens(xs: seq<string>, y: string, zs: seq<string>, w: string)
    requires AllTokens(xs) && IsToken(y) && AllTokens(zs) && IsToken(w)
    ensures AllTokens(xs + [y] + zs + [w])
  {
    AllTokensAppend(xs, [y]);
    AllTokensAppend(xs + [y], zs);
    AllTokensAppend(xs + [y] + zs, [w]);
  }

  /** Length and the two single items of a list made of two runs, each followed by one item. */
  lemma TwoRuns<T>(ts: seq<T>, xs: seq<T>, y: T, zs: seq<T>, w: T)
    requires ts == xs + [y] + zs + [w]
    ensures |ts| == |xs| + |zs| + 2 && ts[|xs|] == y && ts[|xs| + |zs| + 1] == w
  {
  }

  /** Position `j` of either run in a list made of two runs, each followed by one item. */
  lemma RunsAt<T>(ts: seq<T>, xs: seq<T>, y: T, zs: seq<T>, w: T, j: nat)
    requires ts == xs + [y] + zs + [w]
    ensures j < |xs| ==> ts[j] == xs[j]
    ensures j < |zs| ==> ts[|xs| + 1 + j] == zs[j]
  {
  }

  /** The first of two runs, a head item and its tail, in a list where each run is followed by one item. */
  lemma FirstRunAt<T>(ts: seq<T>, head: T, tail: seq<T>, y: T, zs: seq<T>, w: T)
    requires ts == [head] + tail + [y] + zs + [w]
    ensures ts[0] == head
    ensures forall k :: 0 <= k < |tail| ==> ts[1 + k] == tail[k]
  {
    forall k | 0 <= k < |tail|
      ensures ts[1 + k] == tail[k]
    {
      RunsAt(ts, [head] + tail, y, zs, w, 1 + k);
    }
  }

  /** The second of two runs, a head item and its tail, in a list where each run is followed by one item. */
  lemma SecondRunAt<T>(ts: seq<T>, xs: seq<T>, y: T, head: T, tail: seq<T>, w: T)
    requires ts == xs + [y] + ([head] + tail) + [w]
    ensures ts[|xs| + 1] == head
    ensures forall k :: 0 <= k < |tail| ==> ts[|xs| + 2 + k] == tail[k]
  {
    RunsAt(ts, xs, y, [head] + tail, w, 0);
    forall k | 0 <= k < |tail|
      ensures ts[|xs| + 2 + k] == tail[k]
    {
      RunsAt(ts, xs, y, [head] + tail, w, 1 + k);
    }
  }

  /** The axis form's head, `gap-x` or `gap-y`, is a token. */
  lemma AxisWordIsToken(axis: string)
    requires axis == "x" || axis == "y"
    ensures IsToken("gap-" + axis)
  {
  }

  /** The fixed words a rule's utilities are built from contain no white space. */
  lemma RuleWordsAreTokens()
    ensures IsToken("col-span-1") && IsToken("col-span-") && IsToken("row-span-")
    ensures IsToken("col-start-1") && IsToken("col-start-") && IsToken("row-start-")
  {
  }

  /** No line of the list contains a line break. */
  predicate SingleLines(lines: seq<string>) {
    forall i :: 0 <= i < |lines| ==> '\n' !in lines[i]
  }

  lemma SingleLinesAppend(xs: seq<string>, ys: seq<string>)
    requires SingleLines(xs) && SingleLines(ys)
    ensures SingleLines(xs + ys)
  {
    forall i | 0 <= i < |xs + ys| ensures '\n' !in (xs + ys)[i] {
      if i >= |xs| {
        assert (xs + ys)[i] == ys[i - |xs|];
      }
    }
  }

  /** Tokens joined by spaces stay on one line. */
  lemma TokensOnOneLine(parts: seq<string>)
    requires AllTokens(parts)
    ensures '\n' !in Join(parts, " ")
  {
    JoinExcludes(parts, " ", '\n');
  }

  /** The markup's opening tag stays on one line when its classes do. */
  lemma OpenTagText(classes: string)
    requires '\n' !in classes
    ensures '\n' !in "<div class=\"" + classes + "\">"
  {
    var a, b := "<div class=\"", "\">";
    assert '\n' !in a && '\n' !in b;
    assert '\n' !in a + classes + b;
  }

  /** A rule stays on one line when its selector name and utilities do. */
  lemma RuleLineText(name: string, utilities: string)
    requires '\n' !in name && '\n' !in utilities
    ensures '\n' !in "." + name + " { @apply " + utilities + "; }"
  {
    var a, b, c := ".", " { @apply ", "; }";
    assert '\n' !in a && '\n' !in b && '\n' !in c;
    assert '\n' !in a + name + b + utilities + c;
  }

  /** The closing tag followed by two empty lines. */
  lemma ClosingTail()
    ensures Join(["</div>", "", ""], "\n") == "</div>\n\n"
    ensures "\n" + "</div>\n\n" == "\n</div>\n\n"
  {
  }

  /** A child line of the markup stays on one line when the class name does. */
  lemma CommentedChildOneLine(name: string)
    requires '\n' !in name
    ensures '\n' !in "  <div class=\"" + name + "\"><!-- Content for " + name + " --></div>"
  {
    var a, b, c := "  <div class=\"", "\"><!-- Content for ", " --></div>";
    assert '\n' !in a && '\n' !in b && '\n' !in c;
    assert '\n' !in a + name + b + name + c;
  }

  /**
    Solver aid: regrouping a concatenation. Stated over abstract sequences,
    so that the literal strings at the call site are not unfolded.
  */
  lemma Assoc<T>(a: seq<T>, b: seq<T>, c: seq<T>)
    ensures a + b + c == a + (b + c)
  {
  }

  lemma ClosingJoin(children: seq<string>)
    requires |children| > 0
    ensures Join(children + ["</div>", "", ""], "\n") == Join(children, "\n") + "\n</div>\n\n"
  {
    ClosingTail();
    JoinAppend(children, ["</div>", "", ""], "\n");
    Assoc(Join(children, "\n"), "\n", "</div>\n\n");
  }

  lemma HeaderJoin(header: string, rest: seq<string>)
    requires |rest| > 0
    ensures Join([header] + rest, "\n") == header + "\n" + Join(rest, "\n")
  {
    JoinAppend([header], rest, "\n");
  }

  /** The markup text is its lines joined by line breaks. */
  lemma FramedJoin(open: string, children: seq<string>)
    requires |children| > 0
    ensures open + "\n" + Join(children, "\n") + "\n</div>\n\n" == Join([open] + children + ["</div>", "", ""], "\n")
  {
    var rest := children + ["</div>", "", ""];
    ClosingJoin(children);
    HeaderJoin(open, rest);
    Assoc(open + "\n", Join(children, "\n"), "\n</div>\n\n");
    Assoc([open], children, ["</div>", "", ""]);
  }

  /** Split inverts the line layout of the markup block. */
  lemma FramedLines(open: string, children: seq<string>)
    requires |children| > 0 && '\n' !in open && SingleLines(children)
    ensures Split(open + "\n" + Join(children, "\n") + "\n</div>\n\n", '\n') == [open] + children + ["</div>", "", ""]
  {
    var tail := ["</div>", "", ""];
    FramedJoin(open, children);
    SingleLinesAppend([open], children);
    SingleLinesAppend([open] + children, tail);
    SplitJoin([open] + children + tail, '\n');
  }

  /** Split inverts the line layout of the stylesheet block. */
  lemma HeadedLines(header: string, rules: seq<string>)
    requires |rules| > 0 && '\n' !in header && SingleLines(rules)
    ensures Split(header + "\n" + Join(rules, "\n"), '\n') == [header] + rules
  {
    HeaderJoin(header, rules);
    SingleLinesAppend([header], rules);
    SplitJoin([header] + rules, '\n');
  }
}
