/**
 * The bookkeeping of the prompt-corpus generator (gen_prompts.py): how many
 * batches a domain needs, the checkpoint file name of a batch and how the
 * batch number is read back from a directory listing, and the elapsed-time
 * rendering of the progress line.
 */
module Checkpoints {
  import opened Wrappers
  import opened Text

  // ---------------------------------------------------------------------
  // Config.batches_per_domain

  /** Python's `//`: the floor of a / b, also for a negative divisor. */
  function FloorDiv(a: int, b: int): (q: int)
    requires b != 0
    ensures b > 0 ==> q * b <= a < q * b + b
    ensures b < 0 ==> q * b >= a > q * b + b
  {
    if b > 0 then a / b else (-a) / (-b)
  }

  /**
   * batches_per_domain: `(n_per_domain + batch_size - 1) // batch_size`;
   * a zero batch size raises ZeroDivisionError, modelled as None.
   */
  function BatchesPerDomain(nPerDomain: int, batchSize: int): (r: Option<int>)
    ensures r.None? <==> batchSize == 0
  {
    if batchSize == 0 then None else Some(FloorDiv(nPerDomain + batchSize - 1, batchSize))
  }

  /**
   * For a positive batch size the result is the ceiling of
   * n_per_domain / batch_size: enough batches to cover every prompt, and
   * one fewer would not be.
   */
  lemma BatchesPerDomainIsCeiling(nPerDomain: int, batchSize: int)
    requires batchSize > 0
    ensures var b := BatchesPerDomain(nPerDomain, batchSize).value;
      b * batchSize >= nPerDomain && (b - 1) * batchSize < nPerDomain
    ensures nPerDomain >= 0 ==> BatchesPerDomain(nPerDomain, batchSize).value >= 0
  {
    var b := BatchesPerDomain(nPerDomain, batchSize).value;
    assert b * batchSize <= nPerDomain + batchSize - 1 < b * batchSize + batchSize;
    assert (b - 1) * batchSize == b * batchSize - batchSize;
  }

  // ---------------------------------------------------------------------
  // CheckpointManager._batch_path and the name parsing of get_completed_batches

  const BatchInfix: string := "_batch_"
  const JsonSuffix: string := ".json"

  /** The file name of a batch checkpoint: `{code}_batch_{num:04d}.json`. */
  function BatchFileName(code: string, num: nat): string {
    code + BatchInfix + ZeroPad(Decimal(num), 4) + JsonSuffix
  }

  /** The length of the run of decimal digits that ends s. */
  function TrailingDigits(s: string): (k: nat)
    ensures k <= |s|
    ensures AllDigits(s[|s| - k..])
    ensures k < |s| ==> !IsDigit(s[|s| - k - 1])
  {
    if s == [] || !IsDigit(s[|s| - 1]) then 0
    else
      var k := TrailingDigits(s[..|s| - 1]);
      DigitRunGrows(s, k);
      k + 1
  }

  lemma DigitRunGrows(s: string, k: nat)
    requires s != [] && IsDigit(s[|s| - 1])
    requires k < |s| && AllDigits(s[..|s| - 1][|s| - 1 - k..])
    ensures AllDigits(s[|s| - (k + 1)..])
  {
    forall i | |s| - (k + 1) <= i < |s|
      ensures IsDigit(s[i])
    {
      if i < |s| - 1 {
        assert s[i] == s[..|s| - 1][|s| - 1 - k..][i - (|s| - 1 - k)];
      }
    }
  }

  /** A digit run after a non-digit is exactly the trailing run. */
  lemma TrailingDigitsOf(a: string, b: string)
    requires AllDigits(b)
    requires a != [] && !IsDigit(a[|a| - 1])
    ensures TrailingDigits(a + b) == |b|
    decreases |b|
  {
    var s := a + b;
    if b == [] {
      assert s == a;
    } else {
      assert s[..|s| - 1] == a + b[..|b| - 1];
      TrailingDigitsOf(a, b[..|b| - 1]);
    }
  }

  /**
   * `re.search(r"_batch_(\d+)\.json$", name)` and `int(match.group(1))`.
   * `$` also matches before a final newline. The digits run back to the
   * nearest non-digit, which must close "_batch_".
   */
  function ParseBatchNumber(name: string): Option<nat> {
    var body := BeforeFinalNewline(name);
    if !EndsWith(body, JsonSuffix) then None
    else
      var core := body[..|body| - |JsonSuffix|];
      var k := TrailingDigits(core);
      if k == 0 || !EndsWith(core[..|core| - k], BatchInfix) then None
      else Some(DecimalValue(core[|core| - k..]))
  }

  /**
   * The checkpoint name of every batch number reads back to that number,
   * whatever the domain code.
   */
  lemma BatchNameRoundTrip(code: string, num: nat)
    ensures ParseBatchNumber(BatchFileName(code, num)) == Some(num)
  {
    var digits := ZeroPad(Decimal(num), 4);
    var head := code + BatchInfix;
    assert head[|head| - |BatchInfix|..] == BatchInfix;
    assert BatchFileName(code, num) == head + digits + JsonSuffix + [];
    ParseBatchNumberOf(head, digits, []);
    PaddedDecimalRoundTrip(num, 4);
  }

  /**
   * A name the regex `_batch_(\d+)\.json$` finds a match in: "{head}{digits}.json",
   * with head ending in "_batch_", and possibly a final newline, before
   * which `$` also matches.
   */
  ghost predicate BatchNameShape(name: string, head: string, digits: string, e: string) {
    && name == head + digits + JsonSuffix + e
    && EndsWith(head, BatchInfix) && digits != [] && AllDigits(digits)
    && (e == [] || e == "\n")
  }

  /**
   * The parse agrees with the regex: a name yields a number exactly when
   * it has that shape, and the number is the value of the digit group of
   * any such split.
   */
  lemma ParseBatchNumberMatches(name: string)
    ensures ParseBatchNumber(name).Some? <==> exists head, digits, e :: BatchNameShape(name, head, digits, e)
    ensures forall head, digits, e :: BatchNameShape(name, head, digits, e) ==> ParseBatchNumber(name) == Some(DecimalValue(digits))
  {
    forall head, digits, e | BatchNameShape(name, head, digits, e)
      ensures ParseBatchNumber(name) == Some(DecimalValue(digits))
    {
      ParseBatchNumberOf(head, digits, e);
    }
    if ParseBatchNumber(name).Some? {
      var head, digits, e := BatchNameSplit(name);
      assert BatchNameShape(name, head, digits, e);
    }
  }

  /** A name that yields a number splits into the regex's pieces. */
  lemma BatchNameSplit(name: string) returns (head: string, digits: string, e: string)
    requires ParseBatchNumber(name).Some?
    ensures name == head + digits + JsonSuffix + e
    ensures EndsWith(head, BatchInfix) && digits != [] && AllDigits(digits)
    ensures e == [] || e == "\n"
  {
    var body := BeforeFinalNewline(name);
    e := if name != [] && name[|name| - 1] == '\n' then "\n" else [];
    assert name == body + e;
    var core := body[..|body| - |JsonSuffix|];
    assert body == core + JsonSuffix;
    var k := TrailingDigits(core);
    head := core[..|core| - k];
    digits := core[|core| - k..];
    assert core == head + digits;
  }

  /**
   * A name "{head}{digits}.json" with head ending in "_batch_", and
   * possibly a final newline, parses to the value of the digits.
   */
  lemma ParseBatchNumberOf(head: string, digits: string, e: string)
    requires EndsWith(head, BatchInfix)
    requires digits != [] && AllDigits(digits)
    requires e == [] || e == "\n"
    ensures ParseBatchNumber(head + digits + JsonSuffix + e) == Some(DecimalValue(digits))
  {
    var core := head + digits;
    var name := core + JsonSuffix;
    assert name[|name| - 1] == 'n';
    BeforeFinalNewlineOf(name, e);
    assert name[..|name| - |JsonSuffix|] == core;
    assert name[|name| - |JsonSuffix|..] == JsonSuffix;
    assert head[|head| - 1] == head[|head| - |BatchInfix|..][|BatchInfix| - 1] == '_';
    TrailingDigitsOf(head, digits);
    assert core[..|core| - |digits|] == head;
    assert core[|core| - |digits|..] == digits;
  }

  /** The glob `{code}_batch_*.json`: the prefix and the suffix, not overlapping. */
  predicate GlobMatches(name: string, code: string) {
    var prefix := code + BatchInfix;
    |prefix| + |JsonSuffix| <= |name| && prefix <= name && EndsWith(name, JsonSuffix)
  }

  /** The batch number a directory entry contributes: it must pass the glob, then the regex. */
  function EntryBatch(name: string, code: string): Option<nat> {
    if GlobMatches(name, code) then ParseBatchNumber(name) else None
  }

  /** The batch numbers get_completed_batches collects from a directory listing. */
  function CompletedIn(names: seq<string>, code: string): set<nat> {
    if names == [] then {}
    else
      var last := EntryBatch(names[|names| - 1], code);
      CompletedIn(names[..|names| - 1], code) + (if last.Some? then {last.value} else {})
  }

  /**
   * get_completed_batches on the names in the checkpoint directory (listing
   * the directory is I/O; its names are the input).
   */
  method CompletedBatches(names: seq<string>, code: string) returns (completed: set<nat>)
    ensures completed == CompletedIn(names, code)
  {
    completed := {};
    for i := 0 to |names|
      invariant completed == CompletedIn(names[..i], code)
    {
      var name := names[i];
      assert names[..i + 1][..i] == names[..i];
      if GlobMatches(name, code) {
        match ParseBatchNumber(name)
        case Some(n) =>
          completed := completed + {n};
        case None =>
      }
    }
    assert names[..|names|] == names;
  }

  /** A listing whose every entry names a batch collects exactly those batch numbers. */
  lemma {:induction false} CompletedInAllBatches(names: seq<string>, code: string, nums: seq<nat>)
    requires |names| == |nums|
    requires forall k :: 0 <= k < |names| ==> EntryBatch(names[k], code) == Some(nums[k])
    ensures forall n :: n in CompletedIn(names, code) <==> n in nums
    decreases |names|
  {
    if names != [] {
      var n := |names| - 1;
      var init, prev := names[..n], nums[..n];
      forall k | 0 <= k < n
        ensures EntryBatch(init[k], code) == Some(prev[k])
      {
        assert init[k] == names[k] && prev[k] == nums[k];
      }
      CompletedInAllBatches(init, code, prev);
      CompletedInLast(names, code, init, nums[n]);
      InitAndLast(nums, prev);
    }
  }

  lemma InitAndLast<T>(xs: seq<T>, init: seq<T>)
    requires xs != [] && init == xs[..|xs| - 1]
    ensures xs == init + [xs[|xs| - 1]]
  {
  }

  /** The last entry of a listing adds its batch number to those of the entries before it. */
  lemma CompletedInLast(names: seq<string>, code: string, init: seq<string>, num: nat)
    requires names != [] && init == names[..|names| - 1]
    requires EntryBatch(names[|names| - 1], code) == Some(num)
    ensures CompletedIn(names, code) == CompletedIn(init, code) + {num}
  {
  }

  /**
   * A checkpoint directory holding exactly the files saved for some batch
   * numbers reports exactly those numbers as completed.
   */
  lemma SavedBatchesRecovered(code: string, nums: seq<nat>)
    ensures var names := seq(|nums|, k requires 0 <= k < |nums| => BatchFileName(code, nums[k]));
      forall n :: n in CompletedIn(names, code) <==> n in nums
  {
    var names := seq(|nums|, k requires 0 <= k < |nums| => BatchFileName(code, nums[k]));
    forall k | 0 <= k < |nums|
      ensures EntryBatch(names[k], code) == Some(nums[k])
    {
      BatchFileEntry(code, nums[k]);
    }
    CompletedInAllBatches(names, code, nums);
  }

  /** A saved checkpoint passes the glob and the regex, and yields its own number. */
  lemma BatchFileEntry(code: string, num: nat)
    ensures EntryBatch(BatchFileName(code, num), code) == Some(num)
  {
    BatchNameRoundTrip(code, num);
    var digits := ZeroPad(Decimal(num), 4);
    assert BatchFileName(code, num) == (code + BatchInfix) + (digits + JsonSuffix);
  }

  // ---------------------------------------------------------------------
  // ProgressTracker._format_time

  lemma DecimalTwoDigits(n: nat)
    requires n < 100
    ensures |Decimal(n)| <= 2
  {
  }

  /** `{n:02d}` for 0 <= n < 100: exactly two digits that read back as n. */
  function TwoDigits(n: nat): (r: string)
    requires n < 100
    ensures |r| == 2 && AllDigits(r) && DecimalValue(r) == n
  {
    DecimalTwoDigits(n);
    PaddedDecimalRoundTrip(n, 2);
    ZeroPad(Decimal(n), 2)
  }

  /**
   * _format_time on int(secs), for secs >= 0: `divmod` twice, then
   * "{h}h{mm}m" when there are whole hours and "{mm}:{ss}" otherwise.
   */
  function FormatTime(secs: nat): string {
    var m, s := secs / 60, secs % 60;
    var h, m := m / 60, m % 60;
    if h != 0 then Decimal(h) + "h" + TwoDigits(m) + "m" else TwoDigits(m) + ":" + TwoDigits(s)
  }

  /** The two divmods split secs into hours, minutes below 60 and seconds below 60. */
  lemma TimeDecomposition(secs: nat)
    ensures var h, m, s := secs / 60 / 60, secs / 60 % 60, secs % 60;
      h * 3600 + m * 60 + s == secs && m < 60 && s < 60
  {
  }

  /** Under an hour the rendering is "mm:ss", and it reads back to secs exactly. */
  lemma FormatTimeUnderAnHour(secs: nat)
    requires secs < 3600
    ensures var r := FormatTime(secs);
      && |r| == 5 && r[2] == ':' && AllDigits(r[..2]) && AllDigits(r[3..])
      && DecimalValue(r[..2]) * 60 + DecimalValue(r[3..]) == secs
  {
    var r := FormatTime(secs);
    assert secs / 60 / 60 == 0;
    assert r == TwoDigits(secs / 60 % 60) + ":" + TwoDigits(secs % 60);
    assert r[..2] == TwoDigits(secs / 60 % 60);
    assert r[3..] == TwoDigits(secs % 60);
  }

  /**
   * From an hour on the rendering is "{h}h{mm}m", and it reads back to
   * secs rounded down to the minute.
   */
  lemma FormatTimeHours(secs: nat)
    requires secs >= 3600
    ensures var r := FormatTime(secs);
      && |r| >= 5 && r[|r| - 1] == 'm' && r[|r| - 4] == 'h'
      && AllDigits(r[..|r| - 4]) && AllDigits(r[|r| - 3..|r| - 1])
      && var minutes := DecimalValue(r[..|r| - 4]) * 60 + DecimalValue(r[|r| - 3..|r| - 1]);
        minutes * 60 <= secs < minutes * 60 + 60
  {
    var h, m := secs / 60 / 60, secs / 60 % 60;
    var r := FormatTime(secs);
    assert h != 0;
    var hd := Decimal(h);
    assert r == hd + "h" + TwoDigits(m) + "m";
    assert r[..|r| - 4] == hd;
    assert r[|r| - 3..|r| - 1] == TwoDigits(m);
    TimeDecomposition(secs);
  }
}
