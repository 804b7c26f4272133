/**
 * extract_code_from_response (rs-coder/agent_loop.py): pulling a ReflexScript
 * program out of a language-model reply. Three strategies, in order: a
 * fence tagged `reflexscript`, a plain fence whose body mentions
 * "reflex ", and a brace-matching scan from the first "reflex ".
 *
 * The two fence regexes, `TAG\s*\n(.*?)``` ` searched with DOTALL, are
 * matched by hand: at a start position the greedy `\s*` followed by `\n`
 * settles on the last newline of the whitespace run after the tag, and the
 * lazy body runs to the first closing fence after it.
 */
module CodeExtraction {
  import opened Wrappers
  import opened Text

  const TaggedOpen: string := "```reflexscript"
  const PlainOpen: string := "```"
  const Keyword: string := "reflex "

  // ---------------------------------------------------------------------
  // The fenced-block regexes

  /** The length of the whitespace run that starts at a. */
  function SpaceRun(s: string, a: nat): (w: nat)
    requires a <= |s|
    ensures a + w <= |s|
    ensures forall k :: a <= k < a + w ==> IsSpace(s[k])
    ensures a + w < |s| ==> !IsSpace(s[a + w])
    decreases |s| - a
  {
    if a < |s| && IsSpace(s[a]) then 1 + SpaceRun(s, a + 1) else 0
  }

  /** The last newline in s[lo..hi]. */
  function LastNewline(s: string, lo: nat, hi: nat): (r: Option<nat>)
    requires lo <= hi <= |s|
    ensures r.Some? ==> lo <= r.value < hi && s[r.value] == '\n'
    decreases hi - lo
  {
    if hi == lo then None
    else if s[hi - 1] == '\n' then Some(hi - 1)
    else LastNewline(s, lo, hi - 1)
  }

  /** LastNewline finds the latest newline of s[lo..hi], and answers None only when there is none. */
  lemma {:induction false} LastNewlineLatest(s: string, lo: nat, hi: nat, k: nat)
    requires lo <= k < hi <= |s| && s[k] == '\n'
    ensures LastNewline(s, lo, hi).Some? && k <= LastNewline(s, lo, hi).value
    decreases hi - lo
  {
    if s[hi - 1] != '\n' {
      LastNewlineLatest(s, lo, hi - 1, k);
    }
  }

  /** A closing fence, three backticks, starts at k. */
  predicate FenceOccurs(s: string, k: nat) {
    k + 3 <= |s| && s[k] == '`' && s[k + 1] == '`' && s[k + 2] == '`'
  }

  /** The first closing fence at or after k: the lazy `(.*?)` stops there. */
  function NextFence(s: string, k: nat): (r: Option<nat>)
    ensures r.Some? ==> k <= r.value && FenceOccurs(s, r.value)
    ensures r.Some? ==> forall i :: k <= i < r.value ==> !FenceOccurs(s, i)
    ensures r.None? ==> forall i :: k <= i ==> !FenceOccurs(s, i)
    decreases |s| - k
  {
    if k + 3 > |s| then None
    else if FenceOccurs(s, k) then Some(k)
    else NextFence(s, k + 1)
  }

  /** The body of the match of `tag\s*\n(.*?)``` ` that starts at p, if there is one. */
  function FenceAt(s: string, tag: string, p: nat): Option<string>
    requires p <= |s|
  {
    if !OccursAt(s, tag, p) then None
    else
      var a := p + |tag|;
      var newline := LastNewline(s, a, a + SpaceRun(s, a));
      if newline.None? then None
      else
        var close := NextFence(s, newline.value + 1);
        if close.None? then None else Some(s[newline.value + 1..close.value])
  }

  /**
   * A way for the regex to match at p: the tag, whitespace up to a newline
   * at j, and the first closing fence after it at q.
   */
  ghost predicate FenceMatch(s: string, tag: string, p: nat, j: nat, q: nat) {
    && OccursAt(s, tag, p)
    && p + |tag| <= j < q
    && FenceOccurs(s, q)
    && (forall k :: p + |tag| <= k < j ==> IsSpace(s[k]))
    && s[j] == '\n'
    && (forall k :: j + 1 <= k < q ==> !FenceOccurs(s, k))
  }

  /**
   * FenceAt follows the regex: it answers exactly when a match at p
   * exists, and then with the body of the match whose newline is the
   * latest, as the greedy `\s*` demands.
   */
  lemma FenceAtMatches(s: string, tag: string, p: nat)
    requires p <= |s| && tag != [] && tag[0] == '`'
    ensures FenceAt(s, tag, p).None? ==> forall j: nat, q: nat :: !FenceMatch(s, tag, p, j, q)
    ensures FenceAt(s, tag, p).Some? ==> exists j: nat, q: nat ::
      && FenceMatch(s, tag, p, j, q)
      && FenceAt(s, tag, p).value == s[j + 1..q]
      && (forall j': nat, q': nat :: FenceMatch(s, tag, p, j', q') ==> j' <= j)
  {
    if FenceAt(s, tag, p).None? {
      FenceAtNone(s, tag, p);
    } else {
      FenceAtLatest(s, tag, p);
    }
  }

  /** When FenceAt does not answer, the regex has no match at p. */
  lemma FenceAtNone(s: string, tag: string, p: nat)
    requires p <= |s| && FenceAt(s, tag, p).None?
    ensures forall j: nat, q: nat :: !FenceMatch(s, tag, p, j, q)
  {
    forall j: nat, q: nat
      ensures !FenceMatch(s, tag, p, j, q)
    {
      if FenceMatch(s, tag, p, j, q) {
        NoMissedMatch(s, tag, p, j, q);
      }
    }
  }

  /** When FenceAt answers, it gives the body of the match with the latest newline. */
  lemma FenceAtLatest(s: string, tag: string, p: nat)
    requires p <= |s| && FenceAt(s, tag, p).Some?
    ensures exists j: nat, q: nat ::
      && FenceMatch(s, tag, p, j, q)
      && FenceAt(s, tag, p).value == s[j + 1..q]
      && (forall j': nat, q': nat :: FenceMatch(s, tag, p, j', q') ==> j' <= j)
  {
    var j0, q0 := FenceAtWitness(s, tag, p);
    forall j': nat, q': nat | FenceMatch(s, tag, p, j', q')
      ensures j' <= j0
    {
      MatchNewlineBound(s, tag, p, j', q');
    }
  }

  /** The newline of any match is at or before the one FenceAt takes. */
  lemma MatchNewlineBound(s: string, tag: string, p: nat, j: nat, q: nat)
    requires p <= |s| && FenceMatch(s, tag, p, j, q)
    ensures LastNewline(s, p + |tag|, p + |tag| + SpaceRun(s, p + |tag|)).Some?
    ensures j <= LastNewline(s, p + |tag|, p + |tag| + SpaceRun(s, p + |tag|)).value
  {
    NewlineBound(s, p + |tag|, j, q);
  }

  /** When FenceAt answers, its newline j and closing fence q form a match with that body. */
  lemma FenceAtWitness(s: string, tag: string, p: nat) returns (j: nat, q: nat)
    requires p <= |s| && FenceAt(s, tag, p).Some?
    ensures FenceMatch(s, tag, p, j, q) && FenceAt(s, tag, p).value == s[j + 1..q]
    ensures j == LastNewline(s, p + |tag|, p + |tag| + SpaceRun(s, p + |tag|)).value
  {
    var a := p + |tag|;
    var newline := LastNewline(s, a, a + SpaceRun(s, a));
    j := newline.value;
    q := NextFence(s, j + 1).value;
    MatchOfParts(s, tag, p, j, q);
    ValueOfParts(s, tag, p, j, q);
  }

  /** FenceAt's own choices, a newline in the run and the next fence after it, form a match. */
  lemma MatchOfParts(s: string, tag: string, p: nat, j: nat, q: nat)
    requires p <= |s| && OccursAt(s, tag, p)
    requires LastNewline(s, p + |tag|, p + |tag| + SpaceRun(s, p + |tag|)) == Some(j)
    requires NextFence(s, j + 1) == Some(q)
    ensures FenceMatch(s, tag, p, j, q)
  {
  }

  /** With those choices FenceAt answers the text between the newline and the fence. */
  lemma ValueOfParts(s: string, tag: string, p: nat, j: nat, q: nat)
    requires p <= |s| && OccursAt(s, tag, p)
    requires LastNewline(s, p + |tag|, p + |tag| + SpaceRun(s, p + |tag|)) == Some(j)
    requires NextFence(s, j + 1) == Some(q)
    ensures FenceAt(s, tag, p) == Some(s[j + 1..q])
  {
  }

  /**
   * The tag at p, whitespace up to a newline at j and a fence at q after it
   * make FenceAt answer.
   */
  lemma NoMissedMatch(s: string, tag: string, p: nat, j: nat, q: nat)
    requires p <= |s| && OccursAt(s, tag, p)
    requires p + |tag| <= j < q && FenceOccurs(s, q) && s[j] == '\n'
    requires forall k :: p + |tag| <= k < j ==> IsSpace(s[k])
    ensures FenceAt(s, tag, p).Some?
  {
    var a := p + |tag|;
    var w := SpaceRun(s, a);
    MatchInRun(s, a, j, q);
    LastNewlineLatest(s, a, a + w, j);
    var j0 := LastNewline(s, a, a + w).value;
    assert NextFence(s, j0 + 1).Some?;
  }

  /** The newline of a match is at or before the one FenceAt takes. */
  lemma NewlineBound(s: string, a: nat, j: nat, q: nat)
    requires a <= j < q < |s| && s[j] == '\n' && s[q] == '`'
    requires forall k :: a <= k < j ==> IsSpace(s[k])
    ensures LastNewline(s, a, a + SpaceRun(s, a)).Some?
    ensures j <= LastNewline(s, a, a + SpaceRun(s, a)).value
  {
    MatchInRun(s, a, j, q);
    LastNewlineLatest(s, a, a + SpaceRun(s, a), j);
  }

  /**
   * The newline of a match lies in the whitespace run after the tag, and its
   * closing fence, which starts with a backtick, after that run.
   */
  lemma MatchInRun(s: string, a: nat, j: nat, q: nat)
    requires a <= j < q < |s| && s[j] == '\n' && s[q] == '`'
    requires forall k :: a <= k < j ==> IsSpace(s[k])
    ensures j < a + SpaceRun(s, a) <= q
    ensures forall k :: j < k < a + SpaceRun(s, a) ==> IsSpace(s[k])
  {
    SpaceUpTo(s, a, j);
    OutsideRun(s, a, q);
  }

  /** A whitespace character preceded by whitespace back to a lies in the run at a. */
  lemma {:induction false} SpaceUpTo(s: string, a: nat, j: nat)
    requires a <= j < |s| && IsSpace(s[j])
    requires forall k :: a <= k < j ==> IsSpace(s[k])
    ensures j < a + SpaceRun(s, a)
    decreases j - a
  {
    assert IsSpace(s[a]);
    if a < j {
      SpaceUpTo(s, a + 1, j);
    }
  }

  /** A character that is not whitespace lies outside the run at a. */
  lemma OutsideRun(s: string, a: nat, q: nat)
    requires a <= q < |s| && !IsSpace(s[q])
    ensures q >= a + SpaceRun(s, a)
  {
  }

  /** The leftmost start position at or after p where the fence regex matches. */
  function SearchFence(s: string, tag: string, p: nat): (r: Option<nat>)
    requires p <= |s|
    ensures r.Some? ==> p <= r.value <= |s| && FenceAt(s, tag, r.value).Some?
    ensures r.Some? ==> forall k :: p <= k < r.value ==> FenceAt(s, tag, k).None?
    ensures r.None? ==> forall k :: p <= k <= |s| ==> FenceAt(s, tag, k).None?
    decreases |s| - p
  {
    if FenceAt(s, tag, p).Some? then Some(p)
    else if p == |s| then None
    else SearchFence(s, tag, p + 1)
  }

  /** The body of the leftmost match of the fence regex for tag. */
  function FenceBody(s: string, tag: string): Option<string> {
    match SearchFence(s, tag, 0)
    case None => None
    case Some(p) => FenceAt(s, tag, p)
  }

  /** `re.search(r'```reflexscript\s*\n(.*?)```', response, re.DOTALL)`. */
  function TaggedFence(s: string): Option<string> {
    FenceBody(s, TaggedOpen)
  }

  /** `re.search(r'```\s*\n(.*?)```', response, re.DOTALL)`. */
  function PlainFence(s: string): Option<string> {
    FenceBody(s, PlainOpen)
  }

  /** The plain fence is taken only when its stripped body mentions "reflex ". */
  predicate PlainFenceAccepted(s: string) {
    PlainFence(s).Some? && Contains(Strip(PlainFence(s).value), Keyword)
  }

  // ---------------------------------------------------------------------
  // The brace-matching scan

  /** The running brace count over s[start..i]: one up per '{', one down per '}'. */
  function Depth(s: string, start: nat, i: nat): int
    requires start <= i <= |s|
    decreases i
  {
    if i == start then 0
    else Depth(s, start, i - 1) + (if s[i - 1] == '{' then 1 else if s[i - 1] == '}' then -1 else 0)
  }

  /** Whether s[start..i] holds a '{'. */
  predicate SeenOpen(s: string, start: nat, i: nat)
    requires start <= i <= |s|
    decreases i
  {
    i > start && (s[i - 1] == '{' || SeenOpen(s, start, i - 1))
  }

  /** The scan stops at e: a '}' after at least one '{' that brings the count back to 0. */
  predicate ClosesAt(s: string, start: nat, e: nat)
    requires start <= e < |s|
  {
    s[e] == '}' && SeenOpen(s, start, e) && Depth(s, start, e + 1) == 0
  }

  /** The first position at or after i where the scan from start stops. */
  function FirstClose(s: string, start: nat, i: nat): (r: Option<nat>)
    requires start <= i <= |s|
    ensures r.Some? ==> i <= r.value < |s| && ClosesAt(s, start, r.value)
    ensures r.Some? ==> forall e :: i <= e < r.value ==> !ClosesAt(s, start, e)
    ensures r.None? ==> forall e :: i <= e < |s| ==> !ClosesAt(s, start, e)
    decreases |s| - i
  {
    if i == |s| then None
    else if ClosesAt(s, start, i) then Some(i)
    else FirstClose(s, start, i + 1)
  }

  /** The result of the brace scan, once the fences have failed. */
  function ScanResult(s: string): Option<string> {
    var found := Find(s, Keyword);
    if found.None? then None
    else
      var close := FirstClose(s, found.value, found.value);
      if close.None? then None
      else Some(Strip(s[found.value..close.value + 1]))
  }

  /**
   * extract_code_from_response. The fences are regex searches; the scan is
   * the source's loop over the characters from the first "reflex ".
   */
  method ExtractCode(response: Option<string>) returns (code: Option<string>)
    ensures response.None? || response.value == [] ==> code.None?
    ensures response.Some? && response.value != [] ==>
      var s := response.value;
      && (TaggedFence(s).Some? ==> code == Some(Strip(TaggedFence(s).value)))
      && (TaggedFence(s).None? && PlainFenceAccepted(s) ==> code == Some(Strip(PlainFence(s).value)))
      && (TaggedFence(s).None? && !PlainFenceAccepted(s) ==> code == ScanResult(s))
  {
    if response.None? || response.value == [] {
      return None;
    }
    var s := response.value;
    var tagged := TaggedFence(s);
    if tagged.Some? {
      return Some(Strip(tagged.value));
    }
    code := UntaggedCode(s);
  }

  /** The second and third strategies, once the tagged fence has failed. */
  method UntaggedCode(s: string) returns (code: Option<string>)
    ensures PlainFenceAccepted(s) ==> code == Some(Strip(PlainFence(s).value))
    ensures !PlainFenceAccepted(s) ==> code == ScanResult(s)
  {
    var plain := PlainFence(s);
    if plain.Some? {
      var body := Strip(plain.value);
      if Contains(body, Keyword) {
        return Some(body);
      }
    }
    var found := Find(s, Keyword);
    if found.None? {
      return None;
    }
    code := BraceScan(s, found.value);
  }

  /**
   * The third strategy: walk from start keeping the brace count and whether
   * a '{' has been seen, and stop at the first '}' that brings the count
   * back to 0 after a '{'.
   */
  method BraceScan(s: string, start: nat) returns (code: Option<string>)
    requires start <= |s|
    ensures code.Some? <==> FirstClose(s, start, start).Some?
    ensures code.Some? ==> code.value == Strip(s[start..FirstClose(s, start, start).value + 1])
  {
    var braceCount := 0;
    var inCode := false;
    var end := start;
    var i := start;
    while i < |s|
      invariant start <= i <= |s|
      invariant braceCount == Depth(s, start, i)
      invariant inCode == SeenOpen(s, start, i)
      invariant end == start
      invariant forall e :: start <= e < i ==> !ClosesAt(s, start, e)
    {
      if s[i] == '{' {
        braceCount := braceCount + 1;
        inCode := true;
      } else if s[i] == '}' {
        braceCount := braceCount - 1;
        if inCode && braceCount == 0 {
          end := i + 1;
          assert ClosesAt(s, start, i);
          break;
        }
      }
      i := i + 1;
    }
    if end > start {
      FirstCloseAt(s, start, end - 1);
      return Some(Strip(s[start..end]));
    }
    return None;
  }

  lemma FirstCloseAt(s: string, start: nat, e: nat)
    requires start <= e < |s| && ClosesAt(s, start, e)
    requires forall e' :: start <= e' < e ==> !ClosesAt(s, start, e')
    ensures FirstClose(s, start, start) == Some(e)
  {
  }
}
