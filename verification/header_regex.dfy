/**
 * The header regex `^(.+):(\d+):(\d+):\s*(\w+(?:\s+\w+)*):\s*(.+)$` of
 * parse_errors (rs-coder/agent_loop.py), stated as a regex states it: a
 * line matches when it splits into the pieces the groups and the literal
 * colons name, and `re.match` reports the split that its backtracking
 * reaches first. That is the one with the longest file group, and with
 * the longest `\s*` before the message. The lemmas here tie the hand
 * matcher `CompilerErrors.ParseHeader` to this statement in both
 * directions.
 */
module HeaderRegex {
  import opened Wrappers
  import opened Text
  import opened CompilerErrors

  /**
   * s is `FILE:LD:CD:W1TYPE:W2MESSAGE` followed by nothing or by a final
   * newline, which `$` accepts. `.` takes no newline and `\s` takes any
   * whitespace, newlines included.
   */
  ghost predicate IsSplit(s: string, h: Header, ld: string, cd: string, w1: string, w2: string, e: string) {
    && s == h.file + ":" + (ld + ":" + (cd + ":" + (w1 + h.kind + ":" + (w2 + h.message + e))))
    && h.file != [] && '\n' !in h.file
    && ld != [] && AllDigits(ld) && DecimalValue(ld) == h.line
    && cd != [] && AllDigits(cd) && DecimalValue(cd) == h.column
    && AllSpace(w1) && KindShaped(h.kind)
    && AllSpace(w2) && h.message != [] && '\n' !in h.message
    && (e == [] || e == "\n")
  }

  /** The regex matches s with the groups of h. */
  ghost predicate Matches(s: string, h: Header) {
    exists ld, cd, w1, w2, e :: IsSplit(s, h, ld, cd, w1, w2, e)
  }

  /**
   * The message the greedy `\s*` leaves to `(.+)`: it starts with no
   * whitespace, unless it is the single character `(.+)` needs.
   */
  predicate GreedyMessage(message: string) {
    message != [] && (!IsSpace(message[0]) || |message| == 1)
  }

  /**
   * The hand matcher agrees with the regex: it answers exactly when some
   * split exists; its answer is a split whose file group is the longest
   * and whose message is the greedy one; and any split with those two
   * properties is its answer.
   */
  lemma HeaderMatches(s: string)
    ensures ParseHeader(s).Some? <==> exists h :: Matches(s, h)
    ensures ParseHeader(s).Some? ==>
      && Matches(s, ParseHeader(s).value)
      && GreedyMessage(ParseHeader(s).value.message)
      && forall h :: Matches(s, h) ==> |h.file| <= |ParseHeader(s).value.file|
  {
    if ParseHeader(s).Some? {
      ParsedIsSplit(s);
      forall h | Matches(s, h)
        ensures |h.file| <= |ParseHeader(s).value.file|
      {
        var ld, cd, w1, w2, e :| IsSplit(s, h, ld, cd, w1, w2, e);
        SplitIsParsed(s, h, ld, cd, w1, w2, e);
      }
    }
    if exists h :: Matches(s, h) {
      var h :| Matches(s, h);
      var ld, cd, w1, w2, e :| IsSplit(s, h, ld, cd, w1, w2, e);
      SplitIsParsed(s, h, ld, cd, w1, w2, e);
    }
  }

  /** A split with the longest file group and the greedy message is the matcher's answer. */
  lemma LongestGreedySplit(s: string, h: Header)
    requires Matches(s, h) && GreedyMessage(h.message)
    requires forall h' :: Matches(s, h') ==> |h'.file| <= |h.file|
    ensures ParseHeader(s) == Some(h)
  {
    var ld, cd, w1, w2, e :| IsSplit(s, h, ld, cd, w1, w2, e);
    SplitIsParsed(s, h, ld, cd, w1, w2, e);
    ParsedIsSplit(s);
  }

  /** What the matcher answers is a split of the line, with the greedy message. */
  lemma ParsedIsSplit(s: string)
    requires ParseHeader(s).Some?
    ensures Matches(s, ParseHeader(s).value) && GreedyMessage(ParseHeader(s).value.message)
  {
    var hs := HeadersAt(s);
    var g := LastPresentPos(hs, |s|);
    var h := ParseHeader(s).value;
    var r := s[g + 1..];
    MatchParts(s, g, h, r);
    var ld, cd, w1, w2, e := TailIsSplit(s[..g], r, h);
    assert IsSplit(s, h, ld, cd, w1, w2, e);
  }

  /** Where the header shape matches, the line is the file group, its colon, and the tail read after it. */
  lemma MatchParts(s: string, g: nat, h: Header, r: string)
    requires g < |s| && HeaderAt(s, g) == Some(h) && r == s[g + 1..]
    ensures g > 0 && '\n' !in s[..g] && s == s[..g] + ":" + r
    ensures HeaderTail(s[..g], r) == Some(h)
  {
    AroundPlace(s, g, r);
  }

  /** A line is what precedes a place, the character there, and what follows. */
  lemma AroundPlace(s: string, g: nat, r: string)
    requires g < |s| && r == s[g + 1..]
    ensures s == s[..g] + [s[g]] + r
  {
    assert s[..g] + [s[g]] + r == s[..g] + s[g..];
  }

  /** The groups the matcher reads after the file's colon, and the pieces between them. */
  lemma TailIsSplit(file: string, r: string, h: Header) returns (ld: string, cd: string, w1: string, w2: string, e: string)
    requires HeaderTail(file, r) == Some(h)
    ensures h.file == file
    ensures r == ld + ":" + (cd + ":" + (w1 + h.kind + ":" + (w2 + h.message + e)))
    ensures ld != [] && AllDigits(ld) && DecimalValue(ld) == h.line
    ensures cd != [] && AllDigits(cd) && DecimalValue(cd) == h.column
    ensures AllSpace(w1) && KindShaped(h.kind)
    ensures AllSpace(w2) && h.message != [] && '\n' !in h.message && GreedyMessage(h.message)
    ensures e == [] || e == "\n"
  {
    var line := NumberColon(r).value;
    ld := NumberColonParts(r, line.value, line.rest);
    var column := NumberColon(line.rest).value;
    cd := NumberColonParts(line.rest, column.value, column.rest);
    var kind := KindColon(column.rest).value;
    w1 := KindColonParts(column.rest, kind.value, kind.rest);
    w2, e := MessageGroupParts(kind.rest, h.message);
  }

  /** `(\d+):` read as a digit string, its colon, and the rest. */
  lemma NumberColonParts(s: string, n: nat, rest: string) returns (d: string)
    requires NumberColon(s) == Some(Group(n, rest))
    ensures s == d + ":" + rest && d != [] && AllDigits(d) && DecimalValue(d) == n
  {
    var k := DigitRun(s);
    d := s[..k];
    assert s == d + s[k..];
    assert s[k..] == ":" + rest by {
      assert s[k..] == [s[k]] + s[k + 1..];
    }
  }

  /** `\s*(TYPE):` read as whitespace, a well-shaped type, its colon, and the rest. */
  lemma KindColonParts(s: string, kind: string, rest: string) returns (w: string)
    requires KindColon(s) == Some(Group(kind, rest))
    ensures s == w + kind + ":" + rest && AllSpace(w) && KindShaped(kind)
  {
    var k := SpaceRunOf(s);
    w := s[..k];
    var u := s[k..];
    var n := TypeRun(u);
    assert 0 < n < |u| && u[n] == ':' && kind == u[..n] && rest == u[n + 1..];
    assert IsWordChar(u[0]) && IsWordChar(u[n - 1]);
    KindPieces(s, k, u, n, kind, rest);
  }

  /** The pieces `\s*(TYPE):` consists of, once the two runs are measured. */
  lemma KindPieces(s: string, k: nat, u: string, n: nat, kind: string, rest: string)
    requires k <= |s| && u == s[k..] && forall j :: 0 <= j < k ==> IsSpace(s[j])
    requires 0 < n < |u| && u[n] == ':' && kind == u[..n] && rest == u[n + 1..]
    requires forall j :: 0 <= j < n ==> IsWordChar(u[j]) || IsSpace(u[j])
    requires IsWordChar(u[0]) && IsWordChar(u[n - 1])
    ensures s == s[..k] + kind + ":" + rest && AllSpace(s[..k]) && KindShaped(kind)
  {
    assert u == kind + ":" + rest by {
      assert u == u[..n] + [u[n]] + u[n + 1..];
    }
    assert s == s[..k] + u;
  }

  /** `\s*(.+)$` read as whitespace, the greedy message, and nothing or a final newline. */
  lemma MessageGroupParts(s: string, m: string) returns (w: string, e: string)
    requires MessageGroup(s) == Some(m)
    ensures s == w + m + e && AllSpace(w) && (e == [] || e == "\n")
    ensures m != [] && '\n' !in m && GreedyMessage(m)
  {
    var body := BeforeFinalNewline(s);
    e := if s != [] && s[|s| - 1] == '\n' then "\n" else [];
    assert s == body + e;
    var l := LStrip(body);
    LStripSuffix(body);
    var k := |body| - |l|;
    if l != [] {
      w := body[..k];
      assert body == w + l;
    } else {
      w := body[..|body| - 1];
      assert AllSpace(body[..k]);
      assert body == w + m;
    }
  }

  /**
   * Every split is seen by the matcher: it answers, with a file group at
   * least as long; and when it ends the file group where this split does
   * and the split's message is the greedy one, it answers with this split.
   */
  lemma SplitIsParsed(s: string, h: Header, ld: string, cd: string, w1: string, w2: string, e: string)
    requires IsSplit(s, h, ld, cd, w1, w2, e)
    ensures ParseHeader(s).Some? && |ParseHeader(s).value.file| >= |h.file|
    ensures GreedyMessage(h.message) && |ParseHeader(s).value.file| == |h.file| ==> ParseHeader(s) == Some(h)
  {
    var f := |h.file|;
    var r := ld + ":" + (cd + ":" + (w1 + h.kind + ":" + (w2 + h.message + e)));
    SplitAtFile(s, h, r);
    SplitTail(h, r, ld, cd, w1, w2, e);
    MatchBoundsFile(s, f);
    if |ParseHeader(s).value.file| == f {
      var hs := HeadersAt(s);
      var g := LastPresentPos(hs, |s|);
      HeaderAtFile(s, g);
      assert g == f;
    }
  }

  /** The file group of a split ends at a colon with no newline before it. */
  lemma SplitAtFile(s: string, h: Header, r: string)
    requires s == h.file + ":" + r && h.file != [] && '\n' !in h.file
    ensures |h.file| < |s| && s[|h.file|] == ':' && s[..|h.file|] == h.file && s[|h.file| + 1..] == r
    ensures HeaderAt(s, |h.file|) == HeaderTail(h.file, r)
  {
    var f := |h.file|;
    assert s[..f] == h.file && s[f] == ':' && s[f + 1..] == r;
  }

  /** After the file's colon a split has the header shape, with this split's groups when its message is greedy. */
  lemma SplitTail(h: Header, r: string, ld: string, cd: string, w1: string, w2: string, e: string)
    requires r == ld + ":" + (cd + ":" + (w1 + h.kind + ":" + (w2 + h.message + e)))
    requires ld != [] && AllDigits(ld) && DecimalValue(ld) == h.line
    requires cd != [] && AllDigits(cd) && DecimalValue(cd) == h.column
    requires AllSpace(w1) && KindShaped(h.kind)
    requires AllSpace(w2) && h.message != [] && '\n' !in h.message && (e == [] || e == "\n")
    ensures HeaderTail(h.file, r).Some?
    ensures GreedyMessage(h.message) ==> HeaderTail(h.file, r) == Some(h)
  {
    var m := w2 + h.message + e;
    var k := w1 + h.kind + ":" + m;
    var c := cd + ":" + k;
    NumberColonOf(ld, c);
    NumberColonOf(cd, k);
    KindColonAfter(w1, h.kind, m);
    MessageGroupOf(w2, h.message, e);
    HeaderTailSteps(h.file, r, h.line, c, h.column, k, h.kind, m);
  }

  /** The matcher after the file's colon, one group at a time. */
  lemma HeaderTailSteps(file: string, r: string, line: nat, c: string, column: nat, k: string, kind: string, m: string)
    requires NumberColon(r) == Some(Group(line, c))
    requires NumberColon(c) == Some(Group(column, k))
    requires KindColon(k) == Some(Group(kind, m))
    ensures MessageGroup(m).None? ==> HeaderTail(file, r).None?
    ensures MessageGroup(m).Some? ==> HeaderTail(file, r) == Some(Header(file, line, column, kind, MessageGroup(m).value))
  {
  }
}
