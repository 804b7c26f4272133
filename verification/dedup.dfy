/**
 * deduplicate_prompts (gen_prompts.py): an order-preserving filter that keeps
 * the first of every group of exact or near duplicates. Two prompts are
 * exact duplicates when their normalized texts agree, near duplicates when
 * the Jaccard similarity of their character 3-gram sets exceeds the
 * threshold. The threshold is a ratio of integers (the source's default 0.8
 * is 4/5), so the Jaccard test is a comparison of integer products.
 *
 * Like the source, the filter first analyses every prompt into a row (the
 * prompt, its normalized text, its n-grams) and then scans the rows; the
 * specification is stated on rows, and Deduplicate lifts it to prompts.
 */
module Dedup {
  import opened Text
  import opened PromptText

  /** A validated prompt record; only its prompt text takes part in deduplication. */
  datatype Prompt = Prompt(id: int, domain: string, text: string)

  /** A threshold num/den; the source's default is 0.8. */
  datatype Ratio = Ratio(num: int, den: int)

  const DefaultThreshold: Ratio := Ratio(4, 5)

  /** get_ngrams is called with its default n = 3. */
  const GramSize: nat := 3

  /** One analysed prompt: the prompt, its normalized text and its n-gram set. */
  datatype Row = Row(prompt: Prompt, normalized: string, ngrams: set<string>)

  function Analyse(p: Prompt): Row {
    Row(p, NormalizeText(p.text), NGrams(p.text, GramSize))
  }

  /** The analysis of every prompt, in input order. */
  function Rows(prompts: seq<Prompt>): (rows: seq<Row>)
    ensures |rows| == |prompts|
    ensures forall k :: 0 <= k < |rows| ==> rows[k] == Analyse(prompts[k])
  {
    seq(|prompts|, k requires 0 <= k < |prompts| => Analyse(prompts[k]))
  }

  function Prompts(rows: seq<Row>): (prompts: seq<Prompt>)
    ensures |prompts| == |rows|
    ensures forall k :: 0 <= k < |rows| ==> prompts[k] == rows[k].prompt
  {
    seq(|rows|, k requires 0 <= k < |rows| => rows[k].prompt)
  }

  /** `union > 0 and intersection / union > threshold`. */
  predicate SimilarAbove(a: set<string>, b: set<string>, t: Ratio) {
    |a + b| > 0 && |a * b| * t.den > t.num * |a + b|
  }

  function Max(x: int, y: int): int { if x >= y then x else y }

  function Abs(x: int): int { if x >= 0 then x else -x }

  /** The size pre-filter: `abs(na - nb) > max(na, nb) * (1 - threshold)` skips the Jaccard test. */
  predicate SizeFilterSkips(na: nat, nb: nat, t: Ratio) {
    Abs(na - nb) * t.den > Max(na, nb) * (t.den - t.num)
  }

  /** r duplicates a kept row: same normalized text, or n-gram similarity above t. */
  predicate DuplicateOf(r: Row, kept: seq<Row>, t: Ratio) {
    exists q :: q in kept && (q.normalized == r.normalized || SimilarAbove(r.ngrams, q.ngrams, t))
  }

  /** The scan: keep a row unless it duplicates one already kept. */
  function DedupRows(rows: seq<Row>, t: Ratio): seq<Row>
    decreases |rows|
  {
    if rows == [] then []
    else
      var kept := DedupRows(rows[..|rows| - 1], t);
      var r := rows[|rows| - 1];
      if DuplicateOf(r, kept, t) then kept else kept + [r]
  }

  /** The specification of deduplicate_prompts. */
  function Deduplicate(prompts: seq<Prompt>, t: Ratio): seq<Prompt> {
    Prompts(DedupRows(Rows(prompts), t))
  }

  /** The positions of the kept rows in the input. */
  function KeptIndices(rows: seq<Row>, t: Ratio): seq<nat>
    decreases |rows|
  {
    if rows == [] then []
    else
      var n := |rows| - 1;
      if DuplicateOf(rows[n], DedupRows(rows[..n], t), t) then KeptIndices(rows[..n], t)
      else KeptIndices(rows[..n], t) + [n]
  }

  /**
   * The kept rows are the input rows at strictly increasing positions: an
   * order-preserving subsequence.
   */
  lemma {:induction false} DedupRowsSubsequence(rows: seq<Row>, t: Ratio)
    ensures var kept := DedupRows(rows, t);
      var idx := KeptIndices(rows, t);
      && |idx| == |kept|
      && StrictlyIncreasing(idx)
      && (forall k :: 0 <= k < |idx| ==> idx[k] < |rows| && kept[k] == rows[idx[k]])
    decreases |rows|
  {
    if rows != [] {
      var n := |rows| - 1;
      DedupRowsSubsequence(rows[..n], t);
    }
  }

  /**
   * deduplicate_prompts returns an order-preserving subsequence of its
   * input: the prompts at the strictly increasing positions KeptIndices.
   */
  lemma DeduplicateIsSubsequence(prompts: seq<Prompt>, t: Ratio)
    ensures var kept := Deduplicate(prompts, t);
      var idx := KeptIndices(Rows(prompts), t);
      && |idx| == |kept|
      && StrictlyIncreasing(idx)
      && (forall k :: 0 <= k < |idx| ==> idx[k] < |prompts| && kept[k] == prompts[idx[k]])
  {
    DedupRowsSubsequence(Rows(prompts), t);
  }

  /** An empty input gives an empty output. */
  lemma DeduplicateEmpty(t: Ratio)
    ensures Deduplicate([], t) == []
  {
  }

  /** Deduplicating a prefix gives a prefix of the output: decisions are never revisited. */
  lemma {:induction false} DedupRowsPrefix(rows: seq<Row>, i: nat, t: Ratio)
    requires i <= |rows|
    ensures DedupRows(rows[..i], t) <= DedupRows(rows, t)
    decreases |rows| - i
  {
    if i < |rows| {
      var n := |rows| - 1;
      assert rows[..n][..i] == rows[..i];
      DedupRowsPrefix(rows[..n], i, t);
    } else {
      assert rows[..i] == rows;
    }
  }

  /** The first row is always kept, and it comes first. */
  lemma FirstRowKept(rows: seq<Row>, t: Ratio)
    requires rows != []
    ensures DedupRows(rows, t) != [] && DedupRows(rows, t)[0] == rows[0]
  {
    DedupRowsPrefix(rows, 1, t);
    assert rows[..1][..0] == [];
    assert DedupRows(rows[..1], t) == [rows[0]];
  }

  /** The first input prompt is always kept, and it comes first. */
  lemma FirstPromptKept(prompts: seq<Prompt>, t: Ratio)
    requires prompts != []
    ensures Deduplicate(prompts, t) != [] && Deduplicate(prompts, t)[0] == prompts[0]
  {
    var rows := Rows(prompts);
    FirstRowKept(rows, t);
    assert rows[0].prompt == prompts[0];
  }

  /** Two kept rows, the earlier one first: neither exact nor near duplicates. */
  predicate DistinctPair(earlier: Row, later: Row, t: Ratio) {
    earlier.normalized != later.normalized && !SimilarAbove(later.ngrams, earlier.ngrams, t)
  }

  lemma NotDuplicateOf(r: Row, kept: seq<Row>, q: Row, t: Ratio)
    requires !DuplicateOf(r, kept, t) && q in kept
    ensures DistinctPair(q, r, t)
  {
  }

  /** Every pair of kept rows is a distinct pair. */
  lemma {:induction false} KeptRowsDistinct(rows: seq<Row>, t: Ratio)
    ensures forall i, j :: 0 <= i < j < |DedupRows(rows, t)| ==>
      DistinctPair(DedupRows(rows, t)[i], DedupRows(rows, t)[j], t)
    decreases |rows|
  {
    if rows != [] {
      var n := |rows| - 1;
      var prev := DedupRows(rows[..n], t);
      var r := rows[n];
      KeptRowsDistinct(rows[..n], t);
      assert forall i, j :: 0 <= i < j < |prev| ==> DistinctPair(prev[i], prev[j], t);
      if DuplicateOf(r, prev, t) {
        assert DedupRows(rows, t) == prev;
      } else {
        var kept := prev + [r];
        assert DedupRows(rows, t) == kept;
        forall i, j | 0 <= i < j < |kept|
          ensures DistinctPair(kept[i], kept[j], t)
        {
          assert kept[i] == prev[i];
          if j == |prev| {
            NotDuplicateOf(r, prev, kept[i], t);
          } else {
            assert kept[j] == prev[j];
          }
        }
      }
    }
  }

  /**
   * No two prompts deduplicate_prompts keeps share a normalized text, and no
   * kept prompt is similar above the threshold to one kept before it.
   */
  lemma KeptPromptsDistinct(prompts: seq<Prompt>, t: Ratio)
    ensures var kept := Deduplicate(prompts, t);
      forall i, j :: 0 <= i < j < |kept| ==>
        && NormalizeText(kept[i].text) != NormalizeText(kept[j].text)
        && !SimilarAbove(NGrams(kept[j].text, GramSize), NGrams(kept[i].text, GramSize), t)
  {
    var rows := Rows(prompts);
    var keptRows := DedupRows(rows, t);
    KeptRowsDistinct(rows, t);
    DedupRowsSubsequence(rows, t);
    assert forall k :: 0 <= k < |keptRows| ==> keptRows[k] == Analyse(keptRows[k].prompt);
  }

  lemma {:induction false} KeptIndicesBound(rows: seq<Row>, t: Ratio)
    ensures forall k :: k in KeptIndices(rows, t) ==> k < |rows|
    decreases |rows|
  {
    if rows != [] {
      KeptIndicesBound(rows[..|rows| - 1], t);
    }
  }

  /** A row is dropped exactly when it duplicates a row kept before it. */
  lemma {:induction false} DroppedIffDuplicate(rows: seq<Row>, i: nat, t: Ratio)
    requires i < |rows|
    ensures i in KeptIndices(rows, t) <==> !DuplicateOf(rows[i], DedupRows(rows[..i], t), t)
    decreases |rows|
  {
    var n := |rows| - 1;
    KeptIndicesBound(rows[..n], t);
    if i < n {
      assert rows[..n][..i] == rows[..i];
      assert rows[..n][i] == rows[i];
      DroppedIffDuplicate(rows[..n], i, t);
    } else {
      assert rows[..n] == rows[..i];
      assert i !in KeptIndices(rows[..n], t);
    }
  }

  /**
   * Every dropped prompt is represented in the output by a prompt kept
   * before it that it duplicates.
   */
  lemma DroppedRepresented(rows: seq<Row>, i: nat, t: Ratio)
    requires i < |rows| && i !in KeptIndices(rows, t)
    ensures exists q :: (q in DedupRows(rows, t) &&
      (q.normalized == rows[i].normalized || SimilarAbove(rows[i].ngrams, q.ngrams, t)))
  {
    DroppedIffDuplicate(rows, i, t);
    var before := DedupRows(rows[..i], t);
    DedupRowsPrefix(rows, i, t);
    var q :| q in before && (q.normalized == rows[i].normalized || SimilarAbove(rows[i].ngrams, q.ngrams, t));
    assert q in DedupRows(rows, t);
  }

  // ---------------------------------------------------------------------
  // The size pre-filter

  lemma {:induction false} SubsetCard(x: set<string>, y: set<string>)
    requires x <= y
    ensures |x| <= |y|
    decreases |y|
  {
    if x != {} {
      var e :| e in x;
      SubsetCard(x - {e}, y - {e});
    }
  }

  lemma CardBounds(a: set<string>, b: set<string>)
    ensures |a * b| <= |a| && |a * b| <= |b|
    ensures |a + b| >= |a| && |a + b| >= |b|
  {
    SubsetCard(a * b, a);
    SubsetCard(a * b, b);
    SubsetCard(a, a + b);
    SubsetCard(b, a + b);
  }

  lemma MulMono(k: int, x: int, y: int)
    requires k >= 0 && x <= y
    ensures k * x <= k * y
  {
  }

  /**
   * The arithmetic behind the pre-filter: when the sizes differ by d out of
   * a larger size mx and the filter fires, the threshold is positive and
   * (mx - d) / mx is below it.
   */
  lemma SkipBound(d: int, mx: int, t: Ratio)
    requires 0 <= d <= mx && t.den > 0
    requires d * t.den > mx * (t.den - t.num)
    ensures t.num > 0 && (mx - d) * t.den < mx * t.num
  {
    MulMono(t.den, d, mx);
    if t.num <= 0 {
      MulMono(mx, t.den, t.den - t.num);
      assert false;
    }
  }

  /**
   * Whatever the threshold, a pair the size pre-filter skips is not similar
   * above the threshold: the pre-filter never changes the outcome.
   */
  lemma PrefilterSound(a: set<string>, b: set<string>, t: Ratio)
    requires t.den > 0
    requires SizeFilterSkips(|a|, |b|, t)
    ensures !SimilarAbove(a, b, t)
  {
    CardBounds(a, b);
    var mx := Max(|a|, |b|);
    var d := Abs(|a| - |b|);
    SkipBound(d, mx, t);
    MulMono(t.den, |a * b|, mx - d);
    MulMono(t.num, mx, |a + b|);
  }

  // ---------------------------------------------------------------------
  // The method, with the pre-computed rows and the size pre-filter

  /** One step of the scan, at position i. */
  lemma DedupRowsStep(rows: seq<Row>, i: nat, t: Ratio)
    requires i < |rows|
    ensures DuplicateOf(rows[i], DedupRows(rows[..i], t), t) ==>
      DedupRows(rows[..i + 1], t) == DedupRows(rows[..i], t)
    ensures !DuplicateOf(rows[i], DedupRows(rows[..i], t), t) ==>
      DedupRows(rows[..i + 1], t) == DedupRows(rows[..i], t) + [rows[i]]
  {
    assert rows[..i + 1][..i] == rows[..i];
    assert rows[..i + 1][i] == rows[i];
  }

  /** deduplicate_prompts: analyse every prompt, then scan the rows. */
  method DeduplicatePrompts(prompts: seq<Prompt>, t: Ratio) returns (unique: seq<Prompt>)
    requires t.den > 0
    ensures unique == Deduplicate(prompts, t)
  {
    if |prompts| == 0 {
      return [];
    }
    var rows := AnalysePrompts(prompts);
    unique := ScanRows(rows, t);
  }

  /** The first loop of deduplicate_prompts: the row of every prompt. */
  method AnalysePrompts(prompts: seq<Prompt>) returns (rows: seq<Row>)
    ensures rows == Rows(prompts)
  {
    ghost var all := Rows(prompts);
    rows := [];
    for i := 0 to |prompts|
      invariant rows == all[..i]
    {
      var p := prompts[i];
      var row := Analyse(p);
      assert row == all[i];
      rows := rows + [row];
      assert rows == all[..i + 1];
    }
    assert all[..|prompts|] == all;
  }

  /** The normalized texts of the kept rows (the source's `seen_normalized`). */
  function NormalizedOf(kept: seq<Row>): (texts: set<string>)
    ensures forall q :: q in kept ==> q.normalized in texts
  {
    set q | q in kept :: q.normalized
  }

  /** The n-gram sets of the kept rows, in order (the source's `seen_ngrams`). */
  function NgramsOf(kept: seq<Row>): (grams: seq<set<string>>)
    ensures |grams| == |kept|
    ensures forall k :: 0 <= k < |kept| ==> grams[k] == kept[k].ngrams
  {
    seq(|kept|, k requires 0 <= k < |kept| => kept[k].ngrams)
  }

  /** Keeping one more row extends the seen texts, the seen n-grams and the result by it. */
  lemma KeepRow(kept: seq<Row>, row: Row)
    ensures NormalizedOf(kept + [row]) == NormalizedOf(kept) + {row.normalized}
    ensures NgramsOf(kept + [row]) == NgramsOf(kept) + [row.ngrams]
    ensures Prompts(kept + [row]) == Prompts(kept) + [row.prompt]
  {
    assert forall q :: q in kept + [row] <==> q in kept || q == row;
  }

  /** The two tests of the scan together decide DuplicateOf. */
  lemma DuplicateByParts(row: Row, kept: seq<Row>, t: Ratio)
    ensures DuplicateOf(row, kept, t) <==>
      (row.normalized in NormalizedOf(kept) ||
       exists k :: 0 <= k < |kept| && SimilarAbove(row.ngrams, NgramsOf(kept)[k], t))
  {
    var grams := NgramsOf(kept);
    if row.normalized in NormalizedOf(kept) {
      var q :| q in kept && q.normalized == row.normalized;
    } else if k :| 0 <= k < |kept| && SimilarAbove(row.ngrams, grams[k], t) {
      assert kept[k] in kept;
    } else {
      forall q | q in kept
        ensures q.normalized != row.normalized && !SimilarAbove(row.ngrams, q.ngrams, t)
      {
        var k :| 0 <= k < |kept| && kept[k] == q;
        assert grams[k] == q.ngrams;
      }
    }
  }

  /**
   * The inner loop of the scan: is some kept n-gram set similar above the
   * threshold? A pair the size pre-filter skips is never compared.
   */
  method AnySimilar(ngrams: set<string>, seenNgrams: seq<set<string>>, t: Ratio) returns (isDup: bool)
    requires t.den > 0
    ensures isDup <==> exists k :: 0 <= k < |seenNgrams| && SimilarAbove(ngrams, seenNgrams[k], t)
  {
    var ngramSize := |ngrams|;
    for j := 0 to |seenNgrams|
      invariant forall k :: 0 <= k < j ==> !SimilarAbove(ngrams, seenNgrams[k], t)
    {
      var existing := seenNgrams[j];
      var existingSize := |existing|;
      if SizeFilterSkips(ngramSize, existingSize, t) {
        PrefilterSound(ngrams, existing, t);
        continue;
      }
      var intersection := |ngrams * existing|;
      var union := |ngrams + existing|;
      if union > 0 && intersection * t.den > t.num * union {
        return true;
      }
    }
    return false;
  }

  /**
   * The second loop of deduplicate_prompts: the set of kept normalized texts
   * answers the exact test, the list of kept n-gram sets the Jaccard test.
   */
  method ScanRows(rows: seq<Row>, t: Ratio) returns (unique: seq<Prompt>)
    requires t.den > 0
    ensures unique == Prompts(DedupRows(rows, t))
  {
    var seenNormalized: set<string> := {};
    var seenNgrams: seq<set<string>> := [];
    ghost var keptRows: seq<Row> := [];
    unique := [];
    for i := 0 to |rows|
      invariant keptRows == DedupRows(rows[..i], t)
      invariant unique == Prompts(keptRows)
      invariant seenNormalized == NormalizedOf(keptRows)
      invariant seenNgrams == NgramsOf(keptRows)
    {
      var row := rows[i];
      DedupRowsStep(rows, i, t);
      DuplicateByParts(row, keptRows, t);
      if row.normalized in seenNormalized {
        continue;
      }
      var isDup := AnySimilar(row.ngrams, seenNgrams, t);
      if isDup {
        continue;
      }
      KeepRow(keptRows, row);
      seenNormalized := seenNormalized + {row.normalized};
      seenNgrams := seenNgrams + [row.ngrams];
      keptRows := keptRows + [row];
      unique := unique + [row.prompt];
    }
    assert rows[..|rows|] == rows;
  }
}
