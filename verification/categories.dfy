/**
 * parse_and_categorize_errors (rs-coder/agent_loop.py): every non-blank
 * line of the compiler's output goes to exactly one of five lists, chosen
 * by the first pattern group that matches the lower-cased line, in the
 * order informational, syntax, type, linker, warning, other.
 */
module ErrorCategories {
  import opened Wrappers
  import opened Text

  /** Informational and success messages, which go with the other messages. */
  const InfoPatterns: seq<string> := [
    "safety analysis results", "safety properties: verified",
    "estimated wcet", "estimated stack", "estimated state",
    "max loop depth", "max stack depth", "execution rate",
    "platform:", "toolchain:", "compilation complete", "build successful",
    "phase:", "checking:", "processing:"
  ]

  const SyntaxPatterns: seq<string> := [
    "error:", "syntax error", "parse error", "expected", "missing",
    "unexpected token", "invalid syntax", "malformed"
  ]

  const TypePatterns: seq<string> := [
    "type error", "undefined", "undeclared", "incompatible types",
    "type mismatch", "cannot convert", "semantic error", "analysis error"
  ]

  const LinkerPatterns: seq<string> := [
    "undefined reference", "ld:", "cannot find -l", "unresolved symbol",
    "linker error", "link error"
  ]

  const WarningPatterns: seq<string> := ["warning:", "deprecated", "unused"]

  /** The five result lists, in the order the function returns them. */
  datatype Category = Syntax | TypeError | Linker | Warning | Other

  /** `any(pattern in lower for pattern in patterns)`. */
  predicate AnyIn(lower: string, patterns: seq<string>) {
    exists k :: 0 <= k < |patterns| && Contains(lower, patterns[k])
  }

  /**
   * The list a non-blank line goes to. The last two branches of the source
   * (failure words without "cannot open file", and everything else) both
   * append to the other messages, so they are one case here.
   */
  function CategoryOf(line: string): Category {
    var lower := Lower(line);
    if AnyIn(lower, InfoPatterns) then Other
    else if AnyIn(lower, SyntaxPatterns) then Syntax
    else if AnyIn(lower, TypePatterns) then TypeError
    else if AnyIn(lower, LinkerPatterns) then Linker
    else if AnyIn(lower, WarningPatterns) then Warning
    else Other
  }

  /** `if not line.strip(): continue`. */
  predicate Blank(line: string) {
    Strip(line) == []
  }

  /** The list a line goes to, or None for a blank line, which the loop skips. */
  function LineCategory(line: string): Option<Category> {
    if Blank(line) then None else Some(CategoryOf(line))
  }

  /** The lines, in order, that a classifier sends to category c. */
  function Sorted<T>(lines: seq<T>, c: Category, cat: T -> Option<Category>): seq<T>
    decreases |lines|
  {
    if lines == [] then []
    else
      var last := lines[|lines| - 1];
      Sorted(lines[..|lines| - 1], c, cat) + (if cat(last) == Some(c) then [last] else [])
  }

  /** The lines, in order, that a classifier sends to some category. */
  function Placed<T>(lines: seq<T>, cat: T -> Option<Category>): seq<T>
    decreases |lines|
  {
    if lines == [] then []
    else
      var last := lines[|lines| - 1];
      Placed(lines[..|lines| - 1], cat) + (if cat(last).Some? then [last] else [])
  }

  /** The lines, in order, that the loop appends to the list of category c. */
  function Bucket(lines: seq<string>, c: Category): seq<string> {
    Sorted(lines, c, LineCategory)
  }

  /** The non-blank lines, in order. */
  function NonBlank(lines: seq<string>): seq<string> {
    Placed(lines, LineCategory)
  }

  /**
   * parse_and_categorize_errors on `raw_output.split("\n")`: each list is
   * the lines of its category, in input order.
   */
  method CategorizeErrors(rawOutput: string)
    returns (syntax: seq<string>, types: seq<string>, linker: seq<string>, warnings: seq<string>, other: seq<string>)
    ensures var lines := SplitOn(rawOutput, '\n');
      && syntax == Bucket(lines, Syntax) && types == Bucket(lines, TypeError)
      && linker == Bucket(lines, Linker) && warnings == Bucket(lines, Warning)
      && other == Bucket(lines, Other)
  {
    var lines := SplitOn(rawOutput, '\n');
    syntax, types, linker, warnings, other := [], [], [], [], [];
    for i := 0 to |lines|
      invariant syntax == Bucket(lines[..i], Syntax) && types == Bucket(lines[..i], TypeError)
      invariant linker == Bucket(lines[..i], Linker) && warnings == Bucket(lines[..i], Warning)
      invariant other == Bucket(lines[..i], Other)
    {
      var line := lines[i];
      BucketStep(lines, i);
      if Blank(line) {
        continue;
      }
      var lower := Lower(line);
      if AnyIn(lower, InfoPatterns) {
        other := other + [line];
        continue;
      }
      if AnyIn(lower, SyntaxPatterns) {
        syntax := syntax + [line];
      } else if AnyIn(lower, TypePatterns) {
        types := types + [line];
      } else if AnyIn(lower, LinkerPatterns) {
        linker := linker + [line];
      } else if AnyIn(lower, WarningPatterns) {
        warnings := warnings + [line];
      } else {
        other := other + [line];
      }
    }
    assert lines[..|lines|] == lines;
  }

  /** One more line extends exactly the list of its category, or none when it is blank. */
  lemma BucketStep(lines: seq<string>, i: nat)
    requires i < |lines|
    ensures forall c :: Bucket(lines[..i + 1], c) ==
                        Bucket(lines[..i], c) + (if LineCategory(lines[i]) == Some(c) then [lines[i]] else [])
  {
    assert lines[..i + 1][..i] == lines[..i];
  }

  /**
   * Whatever the classifier, the five lists partition the placed lines:
   * together they hold each placed line exactly as often as the input does.
   */
  lemma SortedPartition<T>(lines: seq<T>, cat: T -> Option<Category>)
    ensures multiset(Sorted(lines, Syntax, cat)) + multiset(Sorted(lines, TypeError, cat)) + multiset(Sorted(lines, Linker, cat))
      + multiset(Sorted(lines, Warning, cat)) + multiset(Sorted(lines, Other, cat)) == multiset(Placed(lines, cat))
  {
    var a, b, c := multiset(Sorted(lines, Syntax, cat)), multiset(Sorted(lines, TypeError, cat)), multiset(Sorted(lines, Linker, cat));
    var d, e := multiset(Sorted(lines, Warning, cat)), multiset(Sorted(lines, Other, cat));
    forall x
      ensures a[x] + b[x] + c[x] + d[x] + e[x] == multiset(Placed(lines, cat))[x]
    {
      SortedCounts(lines, cat, x);
    }
    SumOfFive(a, b, c, d, e, multiset(Placed(lines, cat)));
  }

  lemma SumOfFive<T>(a: multiset<T>, b: multiset<T>, c: multiset<T>, d: multiset<T>, e: multiset<T>, m: multiset<T>)
    requires forall x :: a[x] + b[x] + c[x] + d[x] + e[x] == m[x]
    ensures a + b + c + d + e == m
  {
  }

  /** SortedPartition for one line x: its occurrences across the five lists add up. */
  lemma {:induction false} SortedCounts<T>(lines: seq<T>, cat: T -> Option<Category>, x: T)
    ensures multiset(Sorted(lines, Syntax, cat))[x] + multiset(Sorted(lines, TypeError, cat))[x]
      + multiset(Sorted(lines, Linker, cat))[x] + multiset(Sorted(lines, Warning, cat))[x]
      + multiset(Sorted(lines, Other, cat))[x] == multiset(Placed(lines, cat))[x]
    decreases |lines|
  {
    if lines != [] {
      var init, last := lines[..|lines| - 1], lines[|lines| - 1];
      SortedCounts(init, cat, x);
      PlacedCountStep(lines, cat, x);
      SortedCountStep(lines, Syntax, cat, x);
      SortedCountStep(lines, TypeError, cat, x);
      SortedCountStep(lines, Linker, cat, x);
      SortedCountStep(lines, Warning, cat, x);
      SortedCountStep(lines, Other, cat, x);
      if cat(last).Some? {
        match cat(last).value
        case Syntax =>
        case TypeError =>
        case Linker =>
        case Warning =>
        case Other =>
      }
    }
  }

  lemma PlacedCountStep<T>(lines: seq<T>, cat: T -> Option<Category>, x: T)
    requires lines != []
    ensures var init, last := lines[..|lines| - 1], lines[|lines| - 1];
      multiset(Placed(lines, cat))[x] ==
      multiset(Placed(init, cat))[x] + (if cat(last).Some? && last == x then 1 else 0)
  {
  }

  lemma SortedCountStep<T>(lines: seq<T>, c: Category, cat: T -> Option<Category>, x: T)
    requires lines != []
    ensures var init, last := lines[..|lines| - 1], lines[|lines| - 1];
      multiset(Sorted(lines, c, cat))[x] ==
      multiset(Sorted(init, c, cat))[x] + (if cat(last) == Some(c) && last == x then 1 else 0)
  {
  }

  /**
   * The five lists partition the non-blank lines: together they hold each
   * non-blank line exactly as often as the output does, and no blank line.
   */
  lemma BucketsPartition(lines: seq<string>)
    ensures multiset(Bucket(lines, Syntax)) + multiset(Bucket(lines, TypeError)) + multiset(Bucket(lines, Linker))
      + multiset(Bucket(lines, Warning)) + multiset(Bucket(lines, Other)) == multiset(NonBlank(lines))
    ensures |Bucket(lines, Syntax)| + |Bucket(lines, TypeError)| + |Bucket(lines, Linker)|
      + |Bucket(lines, Warning)| + |Bucket(lines, Other)| == |NonBlank(lines)|
  {
    SortedPartition(lines, LineCategory);
    var parts := multiset(Bucket(lines, Syntax)) + multiset(Bucket(lines, TypeError)) + multiset(Bucket(lines, Linker))
      + multiset(Bucket(lines, Warning)) + multiset(Bucket(lines, Other));
    assert |parts| == |multiset(NonBlank(lines))|;
  }

  /** Whatever the classifier, a line is in the list of c exactly when the classifier sends it there. */
  lemma {:induction false} SortedMembers<T>(lines: seq<T>, c: Category, cat: T -> Option<Category>, line: T)
    ensures line in Sorted(lines, c, cat) <==> line in lines && cat(line) == Some(c)
    decreases |lines|
  {
    if lines != [] {
      var init := lines[..|lines| - 1];
      SortedMembers(init, c, cat, line);
      assert lines == init + [lines[|lines| - 1]];
    }
  }

  /** A line is in the list of category c exactly when it is a non-blank line of that category. */
  lemma BucketMembers(lines: seq<string>, c: Category, line: string)
    ensures line in Bucket(lines, c) <==> line in lines && !Blank(line) && CategoryOf(line) == c
  {
    SortedMembers(lines, c, LineCategory, line);
  }

  /**
   * The linker list never receives a line mentioning "undefined": such a
   * line is a type error (or a syntax error) first, so the linker pattern
   * "undefined reference" never decides a line.
   */
  lemma LinkerNeverUndefined(lines: seq<string>, line: string)
    requires line in Bucket(lines, Linker)
    ensures !Contains(Lower(line), "undefined")
  {
    BucketMembers(lines, Linker, line);
    LinkerLine(Lower(line));
  }

  lemma LinkerLine(lower: string)
    requires !AnyIn(lower, TypePatterns)
    ensures !Contains(lower, "undefined")
  {
    assert TypePatterns[1] == "undefined";
  }

  /** Informational lines go with the other messages, whatever else they mention. */
  lemma InformationalIsOther(line: string, k: nat)
    requires k < |InfoPatterns| && Contains(Lower(line), InfoPatterns[k])
    ensures CategoryOf(line) == Other
  {
    assert Contains(Lower(line), InfoPatterns[k]);
  }

  /** A line with "error:" that is not informational is a syntax error, whatever else it mentions. */
  lemma ErrorColonIsSyntax(line: string)
    requires !AnyIn(Lower(line), InfoPatterns) && Contains(Lower(line), "error:")
    ensures CategoryOf(line) == Syntax
  {
    assert Contains(Lower(line), SyntaxPatterns[0]);
  }
}
