/**
 * The text primitives of the prompt-corpus generator (gen_prompts.py):
 * normalisation, character n-grams and the validation gate applied to every
 * generated prompt record.
 */
module PromptText {
  import opened Wrappers
  import opened Text

  // ---------------------------------------------------------------------
  // normalize_text

  /** normalize_text: lower-case, then collapse every whitespace run to one space. */
  function NormalizeText(text: string): string {
    JoinWords(SplitWhitespace(Lower(text)))
  }

  /**
   * The shape normalize_text produces: no upper-case letter, no whitespace
   * other than the plain space, no space at either end, never two spaces in a row.
   */
  ghost predicate Normalized(s: string) {
    && NoUpper(s)
    && (forall i :: 0 <= i < |s| && IsSpace(s[i]) ==> s[i] == ' ')
    && (s == [] || (s[0] != ' ' && s[|s| - 1] != ' '))
    && (forall i, j :: 0 <= i < j < |s| && j == i + 1 ==> !(s[i] == ' ' && s[j] == ' '))
  }

  /** A single word (non-empty, no whitespace, no upper case) is already normalized. */
  lemma WordNormalized(w: string)
    requires w != [] && NoSpace(w) && NoUpper(w)
    ensures Normalized(w)
  {
  }

  /** Gluing a word to a normalized, non-empty tail with one space keeps the shape. */
  lemma GlueNormalized(w: string, tail: string)
    requires w != [] && NoSpace(w) && NoUpper(w)
    requires tail != [] && Normalized(tail)
    ensures Normalized(w + " " + tail)
  {
    var s := w + " " + tail;
    assert forall i :: 0 <= i < |w| ==> s[i] == w[i];
    assert s[|w|] == ' ';
    assert forall i :: |w| < i < |s| ==> s[i] == tail[i - |w| - 1];
    assert !IsSpace(tail[0]) by {
      assert tail[0] != ' ';
    }
  }

  /** Joining clean words with single spaces yields a normalized string. */
  lemma {:induction false} JoinWordsNormalized(words: seq<string>)
    requires forall k :: 0 <= k < |words| ==> words[k] != [] && NoSpace(words[k]) && NoUpper(words[k])
    ensures Normalized(JoinWords(words))
    ensures words != [] ==> JoinWords(words) != []
  {
    if |words| == 1 {
      WordNormalized(words[0]);
    } else if |words| > 1 {
      JoinWordsNormalized(words[1..]);
      GlueNormalized(words[0], JoinWords(words[1..]));
    }
  }

  /** normalize_text's output is lower-case, trimmed and has no doubled space. */
  lemma NormalizeTextNormalized(text: string)
    ensures Normalized(NormalizeText(text))
  {
    SplitWhitespaceWords(Lower(text));
    JoinWordsNormalized(SplitWhitespace(Lower(text)));
  }

  lemma NormalizedSuffix(s: string, k: nat)
    requires Normalized(s) && k <= |s|
    requires k < |s| ==> s[k] != ' '
    ensures Normalized(s[k..])
  {
    var t := s[k..];
    assert forall i :: 0 <= i < |t| ==> t[i] == s[k + i];
  }

  /** In a normalized string a space is followed by a character that is not whitespace. */
  lemma NormalizedAfterSpace(s: string, n: nat)
    requires Normalized(s) && n < |s| && IsSpace(s[n])
    ensures s[n] == ' ' && n + 1 < |s| && !IsSpace(s[n + 1])
  {
    assert s[n + 1] != ' ';
  }

  lemma LStripOneSpace(x: string)
    requires |x| >= 2 && IsSpace(x[0]) && !IsSpace(x[1])
    ensures LStrip(x) == x[1..]
  {
  }

  /** One step of str.split() on a normalized string: a word, one space, the rest. */
  lemma SplitStep(s: string, n: nat)
    requires Normalized(s) && s != [] && n == WordLength(s) && n < |s|
    ensures s[n] == ' ' && n + 1 < |s|
    ensures Normalized(s[n + 1..]) && s[n + 1..] != []
    ensures SplitWhitespace(s) == [s[..n]] + SplitWhitespace(s[n + 1..])
    ensures SplitWhitespace(s[n + 1..]) != []
  {
    assert LStrip(s) == s by {
      assert s[0] != ' ';
    }
    NormalizedAfterSpace(s, n);
    var rest := s[n + 1..];
    assert s[n..][1..] == rest;
    LStripOneSpace(s[n..]);
    NormalizedSuffix(s, n + 1);
    assert LStrip(rest) == rest;
    assert WordLength(rest) > 0;
  }

  lemma JoinWordsCons(w: string, ws: seq<string>)
    requires ws != []
    ensures JoinWords([w] + ws) == w + " " + JoinWords(ws)
  {
    assert ([w] + ws)[1..] == ws;
  }

  lemma SplitAround(s: string, n: nat)
    requires n < |s|
    ensures s == s[..n] + [s[n]] + s[n + 1..]
  {
  }

  /** A normalized string splits into words that join back to itself. */
  lemma {:induction false} SplitJoinNormalized(s: string)
    requires Normalized(s)
    ensures JoinWords(SplitWhitespace(s)) == s
    decreases |s|
  {
    if s != [] {
      assert LStrip(s) == s;
      var n := WordLength(s);
      if n < |s| {
        SplitStep(s, n);
        var rest := s[n + 1..];
        SplitJoinNormalized(rest);
        JoinWordsCons(s[..n], SplitWhitespace(rest));
        SplitAround(s, n);
      } else {
        assert s[n..] == [];
        assert SplitWhitespace(s) == [s[..n]];
      }
    }
  }

  /** A normalized string is a fixed point of normalize_text. */
  lemma NormalizedFixpoint(s: string)
    requires Normalized(s)
    ensures NormalizeText(s) == s
  {
    LowerFixpoint(s);
    SplitJoinNormalized(s);
  }

  /** normalize_text applied twice equals normalize_text applied once. */
  lemma NormalizeTextIdempotent(text: string)
    ensures NormalizeText(NormalizeText(text)) == NormalizeText(text)
  {
    NormalizeTextNormalized(text);
    NormalizedFixpoint(NormalizeText(text));
  }

  // ---------------------------------------------------------------------
  // get_ngrams

  /** text[j:j+n]. */
  function Window(t: string, n: nat, j: nat): (w: string)
    requires j + n <= |t|
    ensures |w| == n
  {
    t[j..j + n]
  }

  /** The length-n windows of t that start at or after position i. */
  function WindowsFrom(t: string, n: nat, i: nat): set<string>
    decreases |t| - i
  {
    if i + n > |t| then {}
    else {Window(t, n, i)} + WindowsFrom(t, n, i + 1)
  }

  /**
   * WindowsFrom(t, n, i) holds exactly the windows starting at i or later,
   * and there are at most |t| + 1 - n - i of them.
   */
  lemma {:induction false} WindowsFromMembers(t: string, n: nat, i: nat)
    ensures forall g :: g in WindowsFrom(t, n, i) ==> exists j :: i <= j && j + n <= |t| && Window(t, n, j) == g
    ensures forall j :: i <= j && j + n <= |t| ==> Window(t, n, j) in WindowsFrom(t, n, i)
    ensures i + n <= |t| + 1 ==> |WindowsFrom(t, n, i)| <= |t| + 1 - n - i
    ensures i + n > |t| ==> WindowsFrom(t, n, i) == {}
    decreases |t| - i
  {
    if i + n <= |t| {
      WindowsFromMembers(t, n, i + 1);
      forall j | i <= j && j + n <= |t|
        ensures Window(t, n, j) in WindowsFrom(t, n, i)
      {
        if j > i {
          assert Window(t, n, j) in WindowsFrom(t, n, i + 1);
        }
      }
    }
  }

  /** get_ngrams(text, n): the set of length-n substrings of the normalized text. */
  function NGrams(text: string, n: nat): set<string> {
    var t := NormalizeText(text);
    if |t| < n then {t} else WindowsFrom(t, n, 0)
  }

  /** get_ngrams on a text whose normalization is shorter than n gives that normalization alone. */
  lemma NGramsShort(text: string, n: nat)
    requires |NormalizeText(text)| < n
    ensures NGrams(text, n) == {NormalizeText(text)}
  {
  }

  /**
   * Otherwise the n-grams are exactly the length-n windows of the normalized
   * text, and there are at most len - n + 1 of them.
   */
  lemma NGramsLong(text: string, n: nat)
    requires |NormalizeText(text)| >= n
    ensures var t := NormalizeText(text);
      && (forall g :: g in NGrams(text, n) ==> |g| == n && exists j: nat :: j + n <= |t| && Window(t, n, j) == g)
      && (forall j: nat :: j + n <= |t| ==> Window(t, n, j) in NGrams(text, n))
      && |NGrams(text, n)| <= |t| - n + 1
  {
    var t := NormalizeText(text);
    WindowsFromMembers(t, n, 0);
    assert NGrams(text, n) == WindowsFrom(t, n, 0);
  }

  /** get_ngrams never returns the empty set, so every Jaccard union is positive. */
  lemma NGramsNonEmpty(text: string, n: nat)
    ensures NGrams(text, n) != {}
  {
    var t := NormalizeText(text);
    if |t| >= n {
      WindowsFromMembers(t, n, 0);
      assert Window(t, n, 0) in NGrams(text, n);
    }
  }

  // ---------------------------------------------------------------------
  // validate_prompt

  const MinPromptLength: nat := 15
  const MaxPromptLength: nat := 500

  /** prompt.get("prompt", ""): a missing key reads as the empty string. */
  function PromptField(fields: map<string, Json>): Json {
    if "prompt" in fields then fields["prompt"] else JString("")
  }

  /**
   * validate_prompt. The searches for code fragments (CODE_PATTERNS) and
   * hardware-platform names (HARDWARE_PLATFORMS) are regular expressions;
   * they are taken here as the predicates hasCode and namesHardware. The
   * contract gives both directions: every way a check can fail rejects
   * the prompt, and a prompt text that passes all of them is accepted.
   */
  function ValidatePrompt(p: Json, hasCode: string -> bool, namesHardware: string -> bool): (ok: bool)
    ensures !p.JObject? ==> !ok
    ensures p.JObject? && "prompt" !in p.fields ==> !ok
    ensures p.JObject? && !PromptField(p.fields).JString? ==> !ok
    ensures ok ==> var t := PromptField(p.fields).s;
      MinPromptLength <= |t| <= MaxPromptLength && !hasCode(t) && !namesHardware(t)
    ensures p.JObject? && PromptField(p.fields).JString? ==>
      var t := PromptField(p.fields).s;
      (MinPromptLength <= |t| <= MaxPromptLength && !hasCode(t) && !namesHardware(t)) ==> ok
  {
    if !p.JObject? then false
    else
      match PromptField(p.fields)
      case JString(t) =>
        if |t| < MinPromptLength || |t| > MaxPromptLength then false
        else if hasCode(t) then false
        else !namesHardware(t)
      case _ => false
  }
}
