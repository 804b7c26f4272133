/**
 * What the agent loop tells the model after a failed compilation
 * (rs-coder/agent_loop.py): which errors are shown and what is counted. The
 * banner and instruction text around them is not modelled.
 *
 * - format_error_feedback: the first error per line number, in order, at
 *   most ten of them, and the number of the rest.
 * - format_error_feedback_for_history, simple mode: the first five errors,
 *   each with its suggestion and its code line when there is one.
 * - format_error_feedback_for_history, full mode: per category the first
 *   ten lines and the number of the rest, the total error count and the
 *   summary counts.
 */
module ErrorFeedback {
  import opened Wrappers
  import opened Text
  import opened CompilerErrors
  import opened ErrorCategories

  function Min(a: nat, b: nat): nat {
    if a <= b then a else b
  }

  /** `items[:limit]`. */
  function Take<T>(items: seq<T>, limit: nat): (r: seq<T>)
    ensures |r| == Min(|items|, limit)
    ensures r <= items
  {
    items[..Min(|items|, limit)]
  }

  /** The count of the items beyond the limit, when there are any. */
  function Beyond(n: nat, limit: nat): (r: Option<nat>)
    ensures r.Some? <==> n > limit
    ensures r.Some? ==> r.value + limit == n
  {
    if n > limit then Some(n - limit) else None
  }

  // ---------------------------------------------------------------------
  // format_error_feedback

  const ShownErrors: nat := 10

  /** The line numbers the errors refer to. */
  function LinesOf(errors: seq<ErrorRecord>): set<nat>
    decreases |errors|
  {
    if errors == [] then {} else LinesOf(errors[..|errors| - 1]) + {errors[|errors| - 1].line}
  }

  /** The errors that are the first on their line, in order. */
  function FirstPerLine(errors: seq<ErrorRecord>): seq<ErrorRecord>
    decreases |errors|
  {
    if errors == [] then []
    else
      var init, last := errors[..|errors| - 1], errors[|errors| - 1];
      FirstPerLine(init) + (if last.line in LinesOf(init) then [] else [last])
  }

  /**
   * The deduplicating loop of format_error_feedback (`seen_lines`,
   * `unique_errors`), the `[:10]` limit and the count of the errors left out.
   */
  method SelectFeedbackErrors(errors: seq<ErrorRecord>) returns (shown: seq<ErrorRecord>, more: Option<nat>)
    ensures shown == Take(FirstPerLine(errors), ShownErrors)
    ensures more == Beyond(|FirstPerLine(errors)|, ShownErrors)
  {
    var seenLines: set<nat> := {};
    var uniqueErrors: seq<ErrorRecord> := [];
    for i := 0 to |errors|
      invariant uniqueErrors == FirstPerLine(errors[..i])
      invariant seenLines == LinesOf(errors[..i])
    {
      var e := errors[i];
      assert errors[..i + 1][..i] == errors[..i];
      if e.line !in seenLines {
        seenLines := seenLines + {e.line};
        uniqueErrors := uniqueErrors + [e];
      }
    }
    assert errors[..|errors|] == errors;
    shown := uniqueErrors[..Min(|uniqueErrors|, ShownErrors)];
    more := if |uniqueErrors| > ShownErrors then Some(|uniqueErrors| - ShownErrors) else None;
  }

  /**
   * The kept errors refer to the same line numbers as all the errors, and
   * no two of them to the same line.
   */
  lemma {:induction false} FirstPerLineDistinct(errors: seq<ErrorRecord>)
    ensures LinesOf(FirstPerLine(errors)) == LinesOf(errors)
    ensures forall i, j :: 0 <= i < j < |FirstPerLine(errors)| ==> FirstPerLine(errors)[i].line != FirstPerLine(errors)[j].line
    decreases |errors|
  {
    if errors != [] {
      var init, last := errors[..|errors| - 1], errors[|errors| - 1];
      FirstPerLineDistinct(init);
      var u := FirstPerLine(init);
      assert LinesOf(errors) == LinesOf(init) + {last.line};
      if last.line !in LinesOf(init) {
        assert FirstPerLine(errors) == u + [last];
        LinesOfSnoc(u, last);
        forall i | 0 <= i < |u|
          ensures u[i].line != last.line
        {
          LinesOfMember(u, i);
        }
      } else {
        assert FirstPerLine(errors) == u;
      }
    }
  }

  lemma LinesOfSnoc(errors: seq<ErrorRecord>, e: ErrorRecord)
    ensures LinesOf(errors + [e]) == LinesOf(errors) + {e.line}
  {
    assert (errors + [e])[..|errors|] == errors;
  }

  lemma {:induction false} LinesOfMember(errors: seq<ErrorRecord>, i: nat)
    requires i < |errors|
    ensures errors[i].line in LinesOf(errors)
    decreases |errors|
  {
    if i < |errors| - 1 {
      LinesOfMember(errors[..|errors| - 1], i);
    }
  }

  /**
   * Every kept error is the first error on its line: it occurs in the
   * input at some index with no earlier error on the same line.
   */
  lemma {:induction false} FirstPerLineIsFirst(errors: seq<ErrorRecord>, k: nat)
    requires k < |FirstPerLine(errors)|
    ensures exists i :: 0 <= i < |errors| && FirstPerLine(errors)[k] == errors[i] &&
                       forall j :: 0 <= j < i ==> errors[j].line != errors[i].line
    decreases |errors|
  {
    var init, last := errors[..|errors| - 1], errors[|errors| - 1];
    var u := FirstPerLine(init);
    if k < |u| {
      FirstPerLineIsFirst(init, k);
      var i :| 0 <= i < |init| && u[k] == init[i] && forall j :: 0 <= j < i ==> init[j].line != init[i].line;
      assert errors[i] == init[i];
      assert forall j :: 0 <= j < i ==> errors[j] == init[j];
    } else {
      var i := |errors| - 1;
      forall j | 0 <= j < i
        ensures errors[j].line != last.line
      {
        assert errors[j] == init[j];
        LinesOfMember(init, j);
      }
    }
  }

  /** No earlier error refers to the line of errors[i]. */
  predicate FirstOnLine(errors: seq<ErrorRecord>, i: nat)
    requires i < |errors|
  {
    forall j :: 0 <= j < i ==> errors[j].line != errors[i].line
  }

  /** The positions of the errors that are the first on their line, in order. */
  function FirstIndices(errors: seq<ErrorRecord>): seq<nat>
    decreases |errors|
  {
    if errors == [] then []
    else
      var init := errors[..|errors| - 1];
      FirstIndices(init) + (if errors[|errors| - 1].line in LinesOf(init) then [] else [|errors| - 1])
  }

  /**
   * The kept errors are a subsequence of the input: they sit at strictly
   * increasing positions, in the input's order.
   */
  lemma {:induction false} FirstPerLineSubsequence(errors: seq<ErrorRecord>)
    ensures var idx := FirstIndices(errors);
      && |idx| == |FirstPerLine(errors)|
      && StrictlyIncreasing(idx)
      && forall k :: 0 <= k < |idx| ==> idx[k] < |errors| && FirstPerLine(errors)[k] == errors[idx[k]]
    decreases |errors|
  {
    if errors != [] {
      var n := |errors| - 1;
      var init, last := errors[..n], errors[n];
      FirstPerLineSubsequence(init);
      var idx, u := FirstIndices(init), FirstPerLine(init);
      forall k | 0 <= k < |idx|
        ensures errors[idx[k]] == init[idx[k]]
      {
      }
      if last.line !in LinesOf(init) {
        assert FirstIndices(errors) == idx + [n];
        assert FirstPerLine(errors) == u + [last];
      }
    }
  }

  /** The kept positions are exactly those of the errors with no earlier error on their line. */
  lemma {:induction false} FirstIndicesExact(errors: seq<ErrorRecord>, i: nat)
    requires i < |errors|
    ensures i in FirstIndices(errors) <==> FirstOnLine(errors, i)
    decreases |errors|
  {
    var n := |errors| - 1;
    var init, last := errors[..n], errors[n];
    FirstPerLineSubsequence(init);
    var idx := FirstIndices(init);
    assert FirstIndices(errors) == idx + (if last.line in LinesOf(init) then [] else [n]);
    if i < n {
      FirstIndicesExact(init, i);
      assert forall j :: 0 <= j <= i ==> errors[j] == init[j];
    } else {
      assert n !in idx;
      if last.line in LinesOf(init) {
        LinesOfWitness(init, last.line);
        var j :| 0 <= j < n && init[j].line == last.line;
        assert errors[j] == init[j];
      } else {
        forall j | 0 <= j < n
          ensures errors[j].line != last.line
        {
          assert errors[j] == init[j];
          LinesOfMember(init, j);
        }
      }
    }
  }

  /** The errors shown and the count of the rest account for every line with an error. */
  lemma FeedbackAccountsForAllLines(errors: seq<ErrorRecord>)
    ensures var unique := FirstPerLine(errors);
      |unique| == |LinesOf(errors)|
      && |Take(unique, ShownErrors)| + (if Beyond(|unique|, ShownErrors).Some? then Beyond(|unique|, ShownErrors).value else 0) == |LinesOf(errors)|
  {
    FirstPerLineDistinct(errors);
    DistinctLinesCount(FirstPerLine(errors));
  }

  /** Errors on pairwise different lines refer to as many lines as there are errors. */
  lemma {:induction false} DistinctLinesCount(errors: seq<ErrorRecord>)
    requires forall i, j :: 0 <= i < j < |errors| ==> errors[i].line != errors[j].line
    ensures |LinesOf(errors)| == |errors|
    decreases |errors|
  {
    if errors != [] {
      var init := errors[..|errors| - 1];
      DistinctLinesCount(init);
      if errors[|errors| - 1].line in LinesOf(init) {
        LinesOfWitness(init, errors[|errors| - 1].line);
        assert false;
      }
    }
  }

  lemma {:induction false} LinesOfWitness(errors: seq<ErrorRecord>, n: nat)
    requires n in LinesOf(errors)
    ensures exists i :: 0 <= i < |errors| && errors[i].line == n
    decreases |errors|
  {
    var init := errors[..|errors| - 1];
    if n != errors[|errors| - 1].line {
      LinesOfWitness(init, n);
      var i :| 0 <= i < |init| && init[i].line == n;
      assert errors[i] == init[i];
    }
  }

  // ---------------------------------------------------------------------
  // format_error_feedback_for_history, simple mode

  const SimpleShown: nat := 5

  /** `if e.get('suggestion')`: a suggestion that is present and non-empty. */
  predicate HasSuggestion(e: ErrorRecord) {
    e.suggestion.Some? && e.suggestion.value != []
  }

  /** What simple mode lists for one error: its line and message, the FIX and the CODE line when present. */
  datatype SimpleItem = SimpleItem(line: nat, message: string, fix: Option<string>, codeLine: Option<string>)

  /**
   * The entry of one error, against the lines of the code. The contract
   * states the fields one by one: the FIX is there exactly when the
   * suggestion is non-empty, and the CODE line exactly when the error's
   * line number is a line of the code (numbered from 1), stripped.
   */
  function SimpleEntry(e: ErrorRecord, codeLines: seq<string>): (item: SimpleItem)
    ensures item.line == e.line && item.message == e.message
    ensures item.fix.Some? <==> HasSuggestion(e)
    ensures item.fix.Some? ==> item.fix == e.suggestion
    ensures item.codeLine.Some? <==> 0 < e.line <= |codeLines|
    ensures item.codeLine.Some? ==> item.codeLine.value == Strip(codeLines[e.line - 1])
  {
    SimpleItem(e.line, e.message,
      if HasSuggestion(e) then e.suggestion else None,
      if 0 < e.line <= |codeLines| then Some(Strip(codeLines[e.line - 1])) else None)
  }

  /**
   * Simple mode: the entries of the first five errors, in order, and the
   * number of errors not listed when there are more than five.
   */
  method SimpleFeedback(code: string, errors: seq<ErrorRecord>) returns (items: seq<SimpleItem>, more: Option<nat>)
    ensures |items| == Min(|errors|, SimpleShown)
    ensures forall k :: 0 <= k < |items| ==> items[k] == SimpleEntry(errors[k], SplitOn(code, '\n'))
    ensures more.Some? <==> |errors| > SimpleShown
    ensures more.Some? ==> more.value == |errors| - SimpleShown
  {
    var lines := SplitOn(code, '\n');
    var listed := errors[..Min(|errors|, SimpleShown)];
    items := [];
    for i := 0 to |listed|
      invariant |items| == i
      invariant forall k :: 0 <= k < i ==> items[k] == SimpleEntry(errors[k], lines)
    {
      var e := listed[i];
      var lineNum := e.line;
      var fix := None;
      if e.suggestion.Some? && e.suggestion.value != [] {
        fix := e.suggestion;
      }
      var codeLine := None;
      if 0 < lineNum <= |lines| {
        codeLine := Some(Strip(lines[lineNum - 1]));
      }
      var item := SimpleItem(lineNum, e.message, fix, codeLine);
      assert e == errors[i] && item == SimpleEntry(e, lines);
      items := items + [item];
    }
    more := if |errors| > SimpleShown then Some(|errors| - SimpleShown) else None;
  }

  // ---------------------------------------------------------------------
  // format_error_feedback_for_history, full mode

  const SectionShown: nat := 10
  const ManyErrors: nat := 30

  /** The part of the report about one category: its first lines, its size, the count of the rest. */
  datatype Section = Section(category: Category, shown: seq<string>, total: nat, more: Option<nat>)

  /** The counts and selections of the full report. */
  datatype FullReport = FullReport(
    sections: seq<Section>,
    totalErrors: nat,
    suggestions: bool,
    summary: seq<(Category, nat)>,
    manyErrors: bool)

  /** The section of a non-empty category list. */
  function SectionOf(c: Category, items: seq<string>): (s: Section)
    ensures s.category == c && s.total == |items|
    ensures s.shown <= items && |s.shown| == Min(|items|, SectionShown)
    ensures s.more.Some? <==> |items| > SectionShown
    ensures s.more.Some? ==> s.more.value == |items| - SectionShown
  {
    Section(c, Take(items, SectionShown), |items|, Beyond(|items|, SectionShown))
  }

  /** The lists that get a section and a summary count, in report order, with their categories. */
  function ReportedLists(syntax: seq<string>, types: seq<string>, linker: seq<string>, warnings: seq<string>)
    : seq<(Category, seq<string>)>
  {
    [(Syntax, syntax), (TypeError, types), (Linker, linker), (Warning, warnings)]
  }

  /** The non-empty lists among ls, in order. */
  function NonEmpty(ls: seq<(Category, seq<string>)>): (r: seq<(Category, seq<string>)>)
    ensures |r| <= |ls|
    decreases |ls|
  {
    if ls == [] then []
    else (if ls[0].1 != [] then [ls[0]] else []) + NonEmpty(ls[1..])
  }

  /** The sections of the given lists, in order. */
  function SectionsOf(ls: seq<(Category, seq<string>)>): (r: seq<Section>)
    ensures |r| == |ls|
    ensures forall k :: 0 <= k < |ls| ==> r[k] == SectionOf(ls[k].0, ls[k].1)
  {
    seq(|ls|, k requires 0 <= k < |ls| => SectionOf(ls[k].0, ls[k].1))
  }

  /** The summary counts of the given lists, in order. */
  function CountsOf(ls: seq<(Category, seq<string>)>): (r: seq<(Category, nat)>)
    ensures |r| == |ls|
    ensures forall k :: 0 <= k < |ls| ==> r[k] == (ls[k].0, |ls[k].1|)
  {
    seq(|ls|, k requires 0 <= k < |ls| => (ls[k].0, |ls[k].1|))
  }

  /** The report is well formed for the given lists: the relation full mode establishes. */
  predicate ReportFor(report: FullReport, syntax: seq<string>, types: seq<string>, linker: seq<string>, warnings: seq<string>) {
    var shown := NonEmpty(ReportedLists(syntax, types, linker, warnings));
    && report.totalErrors == |syntax| + |types| + |linker|
    && report.suggestions == (report.totalErrors > 0)
    && report.manyErrors == (report.summary != [] && report.totalErrors > ManyErrors)
    && report.sections == SectionsOf(shown)
    && report.summary == CountsOf(shown)
  }

  /**
   * Full mode on the raw compiler output: a section for each non-empty
   * list among syntax, type, linker and warnings, in that order; the error
   * total over syntax, type and linker; the suggestion block exactly when
   * that total is positive; a summary count per non-empty list; and the
   * many-errors note exactly when the total exceeds 30.
   */
  method FullFeedback(rawOutput: string) returns (report: FullReport)
    ensures var lines := SplitOn(rawOutput, '\n');
      ReportFor(report, Bucket(lines, Syntax), Bucket(lines, TypeError), Bucket(lines, Linker), Bucket(lines, Warning))
  {
    var syntaxErrors, typeErrors, linkerErrors, warnings, otherMessages := CategorizeErrors(rawOutput);
    report := BuildReport(syntaxErrors, typeErrors, linkerErrors, warnings);
  }

  /** The report of full mode from the category lists. */
  method BuildReport(syntaxErrors: seq<string>, typeErrors: seq<string>, linkerErrors: seq<string>, warnings: seq<string>)
    returns (report: FullReport)
    ensures ReportFor(report, syntaxErrors, typeErrors, linkerErrors, warnings)
  {
    var total := |syntaxErrors| + |typeErrors| + |linkerErrors|;
    ghost var shown: seq<(Category, seq<string>)> := [];
    var sections: seq<Section> := [];
    var counts: seq<(Category, nat)> := [];
    shown, sections, counts := AddSection(shown, sections, counts, Syntax, syntaxErrors);
    shown, sections, counts := AddSection(shown, sections, counts, TypeError, typeErrors);
    shown, sections, counts := AddSection(shown, sections, counts, Linker, linkerErrors);
    shown, sections, counts := AddSection(shown, sections, counts, Warning, warnings);
    NonEmptyReported(syntaxErrors, typeErrors, linkerErrors, warnings);
    report := FullReport(sections, total, total > 0, counts, counts != [] && total > ManyErrors);
  }

  /** One `if items:` block of full mode: a non-empty list adds its section and its summary count. */
  method AddSection(ghost shown: seq<(Category, seq<string>)>, sections: seq<Section>, counts: seq<(Category, nat)>,
                    c: Category, items: seq<string>)
    returns (ghost shown': seq<(Category, seq<string>)>, sections': seq<Section>, counts': seq<(Category, nat)>)
    requires sections == SectionsOf(shown) && counts == CountsOf(shown)
    ensures shown' == Keep(shown, c, items)
    ensures sections' == SectionsOf(shown') && counts' == CountsOf(shown')
  {
    shown', sections', counts' := shown, sections, counts;
    if items != [] {
      SectionsSnoc(shown, (c, items));
      shown' := shown + [(c, items)];
      sections' := sections + [SectionOf(c, items)];
      counts' := counts + [(c, |items|)];
    } else {
      assert shown' == shown + [];
    }
  }

  /** The reported lists after one more: the list is kept when it is not empty. */
  function Keep(shown: seq<(Category, seq<string>)>, c: Category, items: seq<string>): seq<(Category, seq<string>)> {
    shown + (if items != [] then [(c, items)] else [])
  }

  lemma SectionsSnoc(ls: seq<(Category, seq<string>)>, l: (Category, seq<string>))
    ensures SectionsOf(ls + [l]) == SectionsOf(ls) + [SectionOf(l.0, l.1)]
    ensures CountsOf(ls + [l]) == CountsOf(ls) + [(l.0, |l.1|)]
  {
  }

  lemma NonEmptyReported(syntax: seq<string>, types: seq<string>, linker: seq<string>, warnings: seq<string>)
    ensures NonEmpty(ReportedLists(syntax, types, linker, warnings)) ==
      Keep(Keep(Keep(Keep([], Syntax, syntax), TypeError, types), Linker, linker), Warning, warnings)
  {
    var l0 := ReportedLists(syntax, types, linker, warnings);
    var l1, l2, l3 := l0[1..], l0[2..], l0[3..];
    assert l1[1..] == l2 && l2[1..] == l3 && l3[1..] == [];
    assert NonEmpty(l3) == (if warnings != [] then [(Warning, warnings)] else []);
    assert NonEmpty(l2) == (if linker != [] then [(Linker, linker)] else []) + NonEmpty(l3);
    assert NonEmpty(l1) == (if types != [] then [(TypeError, types)] else []) + NonEmpty(l2);
    assert NonEmpty(l0) == (if syntax != [] then [(Syntax, syntax)] else []) + NonEmpty(l1);
  }

  /**
   * The error total of the full report counts the non-blank output lines
   * that are neither warnings nor other messages.
   */
  lemma TotalErrorsCountsErrorLines(lines: seq<string>)
    ensures |Bucket(lines, Syntax)| + |Bucket(lines, TypeError)| + |Bucket(lines, Linker)|
      == |NonBlank(lines)| - |Bucket(lines, Warning)| - |Bucket(lines, Other)|
  {
    BucketsPartition(lines);
  }

  /** With more than 30 errors some list is non-empty, so the many-errors note always appears. */
  lemma ManyErrorsNoted(report: FullReport, syntax: seq<string>, types: seq<string>, linker: seq<string>, warnings: seq<string>)
    requires ReportFor(report, syntax, types, linker, warnings)
    ensures report.manyErrors <==> |syntax| + |types| + |linker| > ManyErrors
  {
    NonEmptyReported(syntax, types, linker, warnings);
  }
}
