/**
 * parse_errors (rs-coder/agent_loop.py): reading reflexc's diagnostics,
 * `FILE:LINE:COLUMN: TYPE: MESSAGE` header lines possibly followed by a
 * `Suggestion:` line and continuation lines, into error records.
 *
 * The header regex `^(.+):(\d+):(\d+):\s*(\w+(?:\s+\w+)*):\s*(.+)$` is
 * matched by hand. The greedy file group makes the match use the LAST
 * colon after which the rest of the line has the header shape; from that
 * colon on every group is determined: maximal digit runs, the type as the
 * run of word and whitespace characters up to the next ':', and the
 * message after leading whitespace (or, when only whitespace follows, the
 * last character, which `(.+)` still needs).
 */
module CompilerErrors {
  import opened Wrappers
  import opened Text

  /** The regex class \w, on ASCII. */
  predicate IsWordChar(c: char) {
    ('a' <= c <= 'z') || ('A' <= c <= 'Z') || ('0' <= c <= '9') || c == '_'
  }

  /** The fields of a header line. */
  datatype Header = Header(file: string, line: nat, column: nat, kind: string, message: string)

  /** The length of the run of decimal digits that starts s. */
  function DigitRun(s: string): (n: nat)
    ensures n <= |s|
    ensures forall k :: 0 <= k < n ==> IsDigit(s[k])
    ensures n < |s| ==> !IsDigit(s[n])
  {
    if s != [] && IsDigit(s[0]) then 1 + DigitRun(s[1..]) else 0
  }

  /** The length of the whitespace run that starts s. */
  function SpaceRunOf(s: string): (n: nat)
    ensures n <= |s|
    ensures forall k :: 0 <= k < n ==> IsSpace(s[k])
    ensures n < |s| ==> !IsSpace(s[n])
  {
    if s != [] && IsSpace(s[0]) then 1 + SpaceRunOf(s[1..]) else 0
  }

  /** The length of the run of word and whitespace characters that starts s. */
  function TypeRun(s: string): (n: nat)
    ensures n <= |s|
    ensures forall k :: 0 <= k < n ==> IsWordChar(s[k]) || IsSpace(s[k])
    ensures n < |s| ==> !IsWordChar(s[n]) && !IsSpace(s[n])
  {
    if s != [] && (IsWordChar(s[0]) || IsSpace(s[0])) then 1 + TypeRun(s[1..]) else 0
  }

  /** A group's value and what follows the colon that closes it. */
  datatype Group<T> = Group(value: T, rest: string)

  /** `(\d+):` at the start of s: the digit run must be closed by a colon. */
  function NumberColon(s: string): (r: Option<Group<nat>>)
    ensures r.Some? ==> |r.value.rest| < |s|
  {
    var n := DigitRun(s);
    if n == 0 || n == |s| || s[n] != ':' then None
    else Some(Group(DecimalValue(s[..n]), s[n + 1..]))
  }

  /**
   * `\s*(\w+(?:\s+\w+)*):` at the start of s: after the whitespace, the run
   * of word and whitespace characters must start and end with a word
   * character and be closed by a colon.
   */
  function KindColon(s: string): (r: Option<Group<string>>)
    ensures r.Some? ==> |r.value.rest| < |s|
  {
    var u := s[SpaceRunOf(s)..];
    var n := TypeRun(u);
    if n == 0 || n == |u| || u[n] != ':' then None
    else if !IsWordChar(u[0]) || !IsWordChar(u[n - 1]) then None
    else Some(Group(u[..n], u[n + 1..]))
  }

  /**
   * `\s*(.+)$` on what follows the colon after the type. `$` closes the
   * match at the end or before a final newline, and `.` takes no newline.
   * The group is what is left before that point once the greedy `\s*` has
   * taken its whitespace, or, when only whitespace is left, the last
   * character; either way it must hold no newline.
   */
  function MessageGroup(rest: string): (m: Option<string>)
    ensures m.Some? ==> m.value != [] && '\n' !in m.value
  {
    var body := BeforeFinalNewline(rest);
    if body == [] then None
    else
      var l := LStrip(body);
      var m := if l != [] then l else body[|body| - 1..];
      if '\n' in m then None else Some(m)
  }

  /** The header after the file group: `:(\d+):(\d+):\s*(TYPE):\s*(.+)$` on what follows its colon. */
  function HeaderTail(file: string, s: string): Option<Header> {
    var line := NumberColon(s);
    if line.None? then None
    else
      var column := NumberColon(line.value.rest);
      if column.None? then None
      else
        var kind := KindColon(column.value.rest);
        if kind.None? then None
        else
          var message := MessageGroup(kind.value.rest);
          if message.None? then None
          else Some(Header(file, line.value.value, column.value.value, kind.value.value, message.value))
  }

  /**
   * The header fields when the file group `(.+)` ends just before the colon
   * at f: it must be non-empty and, since `.` takes no newline, hold none.
   */
  function HeaderAt(s: string, f: nat): Option<Header>
    requires f < |s|
  {
    if f == 0 || s[f] != ':' || '\n' in s[..f] then None else HeaderTail(s[..f], s[f + 1..])
  }

  /** The header shape tried at every position of s as the end of the file group. */
  function HeadersAt(s: string): (hs: seq<Option<Header>>)
    ensures |hs| == |s|
    ensures forall f :: 0 <= f < |s| ==> hs[f] == HeaderAt(s, f)
  {
    seq(|s|, f requires 0 <= f < |s| => HeaderAt(s, f))
  }

  /** The last present entry below hi: the scan a greedy group makes from the right. */
  function LastPresent<T>(xs: seq<Option<T>>, hi: nat): Option<T>
    requires hi <= |xs|
    decreases hi
  {
    if hi == 0 then None
    else if xs[hi - 1].Some? then xs[hi - 1]
    else LastPresent(xs, hi - 1)
  }

  /**
   * `error_pattern.match(line)`: the header fields of a line, if it is a
   * header. The greedy file group settles on the last colon at which the
   * rest of the line has the header shape.
   */
  function ParseHeader(line: string): Option<Header> {
    LastPresent(HeadersAt(line), |line|)
  }

  /** Entries that are absent between f and hi do not change the scan. */
  lemma {:induction false} LastPresentSkip<T>(xs: seq<Option<T>>, f: nat, hi: nat)
    requires f < hi <= |xs|
    requires forall g :: f < g < hi ==> xs[g].None?
    ensures LastPresent(xs, hi) == LastPresent(xs, f + 1)
    decreases hi
  {
    if hi > f + 1 {
      LastPresentSkip(xs, f, hi - 1);
    }
  }

  /** When the scan answers, it answers with an entry that has nothing present after it. */
  lemma {:induction false} LastPresentPos<T>(xs: seq<Option<T>>, hi: nat) returns (g: nat)
    requires hi <= |xs| && LastPresent(xs, hi).Some?
    ensures g < hi && LastPresent(xs, hi) == xs[g]
    ensures forall k :: g < k < hi ==> xs[k].None?
    decreases hi
  {
    if xs[hi - 1].Some? {
      g := hi - 1;
    } else {
      g := LastPresentPos(xs, hi - 1);
    }
  }

  /** One present entry below hi is enough for the scan to answer. */
  lemma {:induction false} LastPresentSome<T>(xs: seq<Option<T>>, f: nat, hi: nat)
    requires f < hi <= |xs| && xs[f].Some?
    ensures LastPresent(xs, hi).Some?
    decreases hi
  {
    if xs[hi - 1].None? {
      LastPresentSome(xs, f, hi - 1);
    }
  }

  /** Where the header shape matches, the file group is everything before the colon. */
  lemma HeaderAtFile(s: string, f: nat)
    requires f < |s| && HeaderAt(s, f).Some?
    ensures HeaderAt(s, f).value.file == s[..f]
  {
  }

  // ---------------------------------------------------------------------
  // Rendering a header, for the round trip

  /** The type group's shape: words of \w characters separated by whitespace. */
  predicate KindShaped(kind: string) {
    && kind != [] && IsWordChar(kind[0]) && IsWordChar(kind[|kind| - 1])
    && (forall k :: 0 <= k < |kind| ==> IsWordChar(kind[k]) || IsSpace(kind[k]))
  }

  /**
   * A header that reflexc could print and the regex reads back as printed:
   * a file and a message without newlines, a message that does not start
   * with whitespace, and no colon in the message followed by the rest of a
   * header (the greedy file group would end there instead).
   */
  predicate PrintableHeader(h: Header) {
    && h.file != [] && '\n' !in h.file
    && KindShaped(h.kind)
    && h.message != [] && !IsSpace(h.message[0]) && '\n' !in h.message
    && NoTailInMessage(h.message)
  }

  /** No colon of the message is followed by `LINE:COLUMN: TYPE: MESSAGE`. */
  predicate NoTailInMessage(message: string) {
    forall g {:trigger message[g..]} :: 0 < g <= |message| && message[g - 1] == ':' ==> HeaderTail([], message[g..]).None?
  }

  /** The part of a printed header after the file's colon. */
  function FormatTail(h: Header): string {
    Decimal(h.line) + ":" + (Decimal(h.column) + ":" + (" " + h.kind + ":" + (" " + h.message)))
  }

  /** `FILE:LINE:COLUMN: TYPE: MESSAGE`. */
  function FormatHeader(h: Header): string {
    h.file + ":" + FormatTail(h)
  }

  /** A printed header line parses back to the header it was printed from. */
  lemma HeaderRoundTrip(h: Header)
    requires PrintableHeader(h)
    ensures ParseHeader(FormatHeader(h)) == Some(h)
  {
    var s := FormatHeader(h);
    var hs := HeadersAt(s);
    forall g | |h.file| < g < |s|
      ensures hs[g].None?
    {
      LaterColon(h, s, g);
    }
    LastPresentSkip(hs, |h.file|, |s|);
    FileColon(h, s);
    assert hs[|h.file|] == Some(h);
  }

  /** At the file's own colon the header shape matches with the printed fields. */
  lemma FileColon(h: Header, s: string)
    requires PrintableHeader(h) && s == FormatHeader(h)
    ensures |h.file| < |s| && HeaderAt(s, |h.file|) == Some(h)
  {
    var f := |h.file|;
    assert s[..f] == h.file && s[f] == ':' && s[f + 1..] == FormatTail(h);
    HeaderTailOf(h);
  }

  /** A colon of a printed header after the file's own does not start a match. */
  lemma LaterColon(h: Header, s: string, g: nat)
    requires PrintableHeader(h) && s == FormatHeader(h) && |h.file| < g < |s|
    ensures HeaderAt(s, g).None?
  {
    if s[g] == ':' {
      var t := FormatTail(h);
      var i := g - |h.file| - 1;
      assert s == h.file + ":" + t;
      DropAppend(h.file + ":", t, g, i);
      assert s[g] == s[g..][0] == t[i];
      DropAppend(h.file + ":", t, g + 1, i + 1);
      assert s[g + 1..] == t[i + 1..];
      TailColons(h, t, s[..g], i);
    }
  }

  /** What follows the file's colon in a printed header yields the header's fields. */
  lemma HeaderTailOf(h: Header)
    requires PrintableHeader(h)
    ensures HeaderTail(h.file, FormatTail(h)) == Some(h)
  {
    var m := " " + h.message;
    var k := " " + h.kind + ":" + m;
    var c := Decimal(h.column) + ":" + k;
    assert FormatTail(h) == Decimal(h.line) + ":" + c;
    NumberColonOf(Decimal(h.line), c);
    NumberColonOf(Decimal(h.column), k);
    KindColonAfter(" ", h.kind, m);
    MessageAfterSpace(h.message);
  }

  /** `\s*(.+)$` after the type's colon of a printed header: the message itself. */
  lemma MessageAfterSpace(message: string)
    requires message != [] && !IsSpace(message[0]) && '\n' !in message
    ensures MessageGroup(" " + message) == Some(message)
  {
    assert " " + message + [] == " " + message;
    MessageGroupOf(" ", message, []);
  }

  /** Whether the header shape matches after a colon does not depend on the file before it. */
  lemma HeaderTailFileFree(file: string, s: string)
    ensures HeaderTail(file, s).None? <==> HeaderTail([], s).None?
  {
  }

  /**
   * `\s*(.+)$` on whitespace, a message without newlines and possibly a
   * final newline: the group is present, and it is the message itself
   * when the message starts with no whitespace or is a single character,
   * which is where the greedy `\s*` leaves it.
   */
  lemma MessageGroupOf(w: string, m: string, e: string)
    requires AllSpace(w) && m != [] && '\n' !in m && (e == [] || e == "\n")
    ensures MessageGroup(w + m + e).Some?
    ensures !IsSpace(m[0]) || |m| == 1 ==> MessageGroup(w + m + e) == Some(m)
  {
    var x := w + m;
    assert w + m + e == x + e;
    assert x[|x| - 1] == m[|m| - 1];
    BeforeFinalNewlineOf(x, e);
    assert BeforeFinalNewline(w + m + e) == x;
    LStripAfterSpaces(w, m);
    var l := LStrip(m);
    if l == [] {
      assert x[|x| - 1..] == m[|m| - 1..];
      assert '\n' !in m[|m| - 1..];
    } else {
      LStripSuffix(m);
      assert '\n' !in l;
    }
  }

  lemma DigitRunIs(digits: string, tail: string)
    requires AllDigits(digits) && tail != [] && !IsDigit(tail[0])
    ensures DigitRun(digits + tail) == |digits|
    decreases |digits|
  {
    if digits != [] {
      var s := digits + tail;
      assert s[0] == digits[0];
      assert s[1..] == digits[1..] + tail;
      DigitRunIs(digits[1..], tail);
    } else {
      assert digits + tail == tail;
    }
  }

  lemma TypeRunIs(kind: string, tail: string)
    requires forall k :: 0 <= k < |kind| ==> IsWordChar(kind[k]) || IsSpace(kind[k])
    requires tail != [] && !IsWordChar(tail[0]) && !IsSpace(tail[0])
    ensures TypeRun(kind + tail) == |kind|
    decreases |kind|
  {
    if kind != [] {
      var s := kind + tail;
      assert s[0] == kind[0];
      assert s[1..] == kind[1..] + tail;
      TypeRunIs(kind[1..], tail);
    } else {
      assert kind + tail == tail;
    }
  }

  lemma NumberColonOf(digits: string, rest: string)
    requires digits != [] && AllDigits(digits)
    ensures NumberColon(digits + ":" + rest) == Some(Group(DecimalValue(digits), rest))
  {
    var s := digits + ":" + rest;
    DigitRunIs(digits, ":" + rest);
    assert s == digits + (":" + rest);
    assert s[..|digits|] == digits;
    assert s[|digits| + 1..] == rest;
  }

  lemma SpaceRunIs(w: string, tail: string)
    requires AllSpace(w) && tail != [] && !IsSpace(tail[0])
    ensures SpaceRunOf(w + tail) == |w|
    decreases |w|
  {
    if w != [] {
      var s := w + tail;
      assert s[0] == w[0];
      assert s[1..] == w[1..] + tail;
      SpaceRunIs(w[1..], tail);
    } else {
      assert w + tail == tail;
    }
  }

  /** `\s*(TYPE):` on whitespace, a well-shaped type and its colon. */
  lemma KindColonAfter(w: string, kind: string, rest: string)
    requires AllSpace(w) && KindShaped(kind)
    ensures KindColon(w + kind + ":" + rest) == Some(Group(kind, rest))
  {
    var u := kind + ":" + rest;
    var s := w + kind + ":" + rest;
    assert s == w + u;
    assert u[0] == kind[0];
    NotSpace(kind[0]);
    SpaceRunIs(w, u);
    assert s[|w|..] == u;
    KindColonPast(s, |w|, kind, rest);
  }

  /** `(TYPE):` where the leading whitespace of s ends. */
  lemma KindColonPast(s: string, n: nat, kind: string, rest: string)
    requires n == SpaceRunOf(s) && s[n..] == kind + ":" + rest && KindShaped(kind)
    ensures KindColon(s) == Some(Group(kind, rest))
  {
    var u := s[n..];
    var tail := ":" + rest;
    assert u == kind + tail;
    NotSpace(':');
    TypeRunIs(kind, tail);
    assert TypeRun(u) == |kind|;
    assert u[0] == kind[0] && u[|kind|] == ':' && u[|kind| - 1] == kind[|kind| - 1];
    assert u[..|kind|] == kind;
    assert u[|kind| + 1..] == rest;
  }

  /** Word characters and the colon are not whitespace. */
  lemma NotSpace(c: char)
    requires IsWordChar(c) || c == ':'
    ensures !IsSpace(c)
  {
  }

  /** No colon of a printed header's tail starts another header, whatever precedes it. */
  lemma TailColons(h: Header, t: string, p: string, i: nat)
    requires PrintableHeader(h) && t == FormatTail(h) && i < |t| && t[i] == ':'
    ensures HeaderTail(p, t[i + 1..]).None?
  {
    var l, c := Decimal(h.line), Decimal(h.column);
    var m := " " + h.message;
    var k := " " + h.kind + ":" + m;
    var u := c + ":" + k;
    assert t == l + ":" + u;
    TailColonPlaces(h, t, i);
    if i == |l| {
      DropAppend(l + ":", u, i + 1, 0);
      assert t[i + 1..] == c + ":" + k;
      SecondNumberMissing(p, c, k);
    } else if i == |l| + 1 + |c| {
      DropAppend(l + ":", u, i + 1, |c| + 1);
      DropAppend(c + ":", k, |c| + 1, 0);
      assert t[i + 1..] == k;
      FirstNumberMissing(p, k);
    } else if i == |t| - |h.message| - 2 {
      AfterTypeColon(h, t, i + 1);
      assert t[i + 1..] == m;
      FirstNumberMissing(p, m);
    } else {
      var j := i - (|t| - |h.message|);
      MessageInTail(h, t, i + 1, j + 1);
      assert t[i + 1..] == h.message[j + 1..];
      MessageInTail(h, t, i, j);
      assert h.message[j] == h.message[j..][0] == t[i..][0];
      assert HeaderTail([], h.message[j + 1..]).None?;
      HeaderTailFileFree(p, h.message[j + 1..]);
    }
  }

  /**
   * The colons of a printed header's tail: after the line, after the
   * column, after the type, and those of the message.
   */
  lemma TailColonPlaces(h: Header, t: string, i: nat)
    requires KindShaped(h.kind) && t == FormatTail(h) && i < |t| && t[i] == ':'
    ensures var l, c := Decimal(h.line), Decimal(h.column);
      || i == |l| || i == |l| + 1 + |c| || i == |t| - |h.message| - 2
      || (|t| - |h.message| <= i && h.message[i - (|t| - |h.message|)] == ':')
  {
    TailChars(h, t, i);
    NotSpace(':');
  }

  /** The character at each position of a printed header's tail. */
  lemma TailChars(h: Header, t: string, i: nat)
    requires t == FormatTail(h) && i < |t|
    ensures var l, c := Decimal(h.line), Decimal(h.column);
      && (i < |l| ==> t[i] == l[i])
      && (|l| < i < |l| + 1 + |c| ==> t[i] == c[i - |l| - 1])
      && (i == |l| + |c| + 2 || i == |t| - |h.message| - 1 ==> t[i] == ' ')
      && (|l| + |c| + 3 <= i < |t| - |h.message| - 2 ==> t[i] == h.kind[i - |l| - |c| - 3])
      && (|t| - |h.message| <= i ==> t[i] == h.message[i - (|t| - |h.message|)])
  {
    var l, c := Decimal(h.line), Decimal(h.column);
    var m := " " + h.message;
    var k := " " + h.kind + ":" + m;
    var u := c + ":" + k;
    assert t == l + ":" + u;
    assert u == c + ":" + k;
    assert k == [' '] + h.kind + ":" + m;
  }

  /** What follows the type's colon in a printed header's tail: a space and the message. */
  lemma AfterTypeColon(h: Header, t: string, i: nat)
    requires t == FormatTail(h) && i == |t| - |h.message| - 1
    ensures t[i..] == " " + h.message
  {
    var l, c := Decimal(h.line), Decimal(h.column);
    var m := " " + h.message;
    var k := " " + h.kind + ":" + m;
    var u := c + ":" + k;
    DropAppend(l + ":", u, i, i - |l| - 1);
    DropAppend(c + ":", k, i - |l| - 1, i - |l| - |c| - 2);
    DropAppend(" " + h.kind + ":", m, i - |l| - |c| - 2, 0);
  }

  /** The message ends a printed header's tail. */
  lemma MessageInTail(h: Header, t: string, i: nat, j: nat)
    requires t == FormatTail(h) && j <= |h.message| && i == |t| - |h.message| + j
    ensures t[i..] == h.message[j..]
  {
    var i0 := |t| - |h.message| - 1;
    AfterTypeColon(h, t, i0);
    DropAppend(t[..i0], t[i0..], i, j + 1);
    assert t[..i0] + t[i0..] == t;
    DropAppend(" ", h.message, j + 1, j);
  }

  /** Without digits first there is no `LINE:`. */
  lemma FirstNumberMissing(p: string, x: string)
    requires x != [] && !IsDigit(x[0])
    ensures HeaderTail(p, x).None?
  {
    assert DigitRun(x) == 0;
  }

  /** `LINE:` followed by no digits leaves no `COLUMN:`. */
  lemma SecondNumberMissing(p: string, d: string, x: string)
    requires d != [] && AllDigits(d) && x != [] && !IsDigit(x[0])
    ensures HeaderTail(p, d + ":" + x).None?
  {
    NumberColonOf(d, x);
    assert DigitRun(x) == 0;
  }

  /**
   * The converse of NoTailInMessage: when a colon of the message is
   * followed by `LINE:COLUMN: TYPE: MESSAGE`, the greedy file group of the
   * printed header runs past the real file, so it does not parse back.
   */
  lemma MessageTailMovesFile(h: Header, g: nat)
    requires h.file != [] && '\n' !in h.file && KindShaped(h.kind) && '\n' !in h.kind
    requires h.message != [] && !IsSpace(h.message[0]) && '\n' !in h.message
    requires g < |h.message| && h.message[g] == ':' && HeaderTail([], h.message[g + 1..]).Some?
    ensures ParseHeader(FormatHeader(h)).Some?
    ensures |ParseHeader(FormatHeader(h)).value.file| > |h.file|
    ensures ParseHeader(FormatHeader(h)) != Some(h)
  {
    var s := FormatHeader(h);
    var c := |s| - |h.message| + g;
    MessageColonMatches(h, g, s, c);
    MatchBoundsFile(s, c);
  }

  /** In a printed header, a message colon followed by a header tail is a place where the header shape matches. */
  lemma MessageColonMatches(h: Header, g: nat, s: string, c: nat)
    requires '\n' !in h.file && '\n' !in h.kind && '\n' !in h.message
    requires g < |h.message| && h.message[g] == ':' && HeaderTail([], h.message[g + 1..]).Some?
    requires s == FormatHeader(h) && c == |s| - |h.message| + g
    ensures |h.file| < c < |s| && HeaderAt(s, c).Some?
  {
    MessageColonIn(h, g, s, c);
    NoNewlineBefore(h, s, c);
    HeaderTailFileFree(s[..c], s[c + 1..]);
  }

  /** Where a colon of the message sits in a printed header, and what follows it. */
  lemma MessageColonIn(h: Header, g: nat, s: string, c: nat)
    requires g < |h.message| && h.message[g] == ':'
    requires s == FormatHeader(h) && c == |s| - |h.message| + g
    ensures |h.file| < c < |s| && s[c] == ':' && s[c + 1..] == h.message[g + 1..]
  {
    MessageInFormat(h, s, c, g);
    MessageInFormat(h, s, c + 1, g + 1);
    assert s[c] == s[c..][0] == h.message[g];
  }

  /** A printed header without newlines in its fields has none before any place. */
  lemma NoNewlineBefore(h: Header, s: string, c: nat)
    requires '\n' !in h.file && '\n' !in h.kind && '\n' !in h.message
    requires s == FormatHeader(h) && c <= |s|
    ensures '\n' !in s[..c]
  {
    NoNewlineInFormat(h);
    assert forall x :: x in s[..c] ==> x in s;
  }

  /** A place where the header shape matches bounds the parsed file group from below. */
  lemma MatchBoundsFile(s: string, c: nat)
    requires c < |s| && HeaderAt(s, c).Some?
    ensures ParseHeader(s).Some? && |ParseHeader(s).value.file| >= c
  {
    var hs := HeadersAt(s);
    assert hs[c].Some?;
    LastPresentSome(hs, c, |s|);
    var f := LastPresentPos(hs, |s|);
    HeaderAtFile(s, f);
  }

  /** The message ends a printed header. */
  lemma MessageInFormat(h: Header, s: string, i: nat, j: nat)
    requires s == FormatHeader(h) && j <= |h.message| && i == |s| - |h.message| + j
    ensures |h.file| < i && s[i..] == h.message[j..]
  {
    var t := FormatTail(h);
    var i1 := i - |h.file| - 1;
    AfterTypeColon(h, t, |t| - |h.message| - 1);
    DropAppend(h.file + ":", t, i, i1);
    MessageInTail(h, t, i1, j);
  }

  /** Past the end of a, the tail of a + b is a tail of b. */
  lemma DropAppend(a: string, b: string, i: nat, j: nat)
    requires |a| <= i <= |a| + |b| && j == i - |a|
    ensures (a + b)[i..] == b[j..]
  {
  }

  /** A printed header without newlines in its file, type and message has none at all. */
  lemma NoNewlineInFormat(h: Header)
    requires '\n' !in h.file && '\n' !in h.kind && '\n' !in h.message
    ensures '\n' !in FormatHeader(h)
  {
    NoNewlineInDigits(Decimal(h.line));
    NoNewlineInDigits(Decimal(h.column));
  }

  lemma NoNewlineInDigits(d: string)
    requires AllDigits(d)
    ensures '\n' !in d
  {
    forall i | 0 <= i < |d| ensures d[i] != '\n' {
      assert IsDigit(d[i]);
    }
  }

  // ---------------------------------------------------------------------
  // The records

  /** One parsed diagnostic: the header's groups and the attached suggestion. */
  datatype ErrorRecord = ErrorRecord(
    file: string, line: nat, column: nat, kind: string, message: string, suggestion: Option<string>)

  /** The record a header line opens. */
  function Opened(h: Header): ErrorRecord {
    ErrorRecord(h.file, h.line, h.column, h.kind, h.message, None)
  }

  const SuggestionTag: string := "Suggestion:"

  /** The stripped text of a line starts at an occurrence in the line itself. */
  lemma StripOccurs(line: string)
    ensures OccursAt(line, Strip(line), |line| - |LStrip(line)|)
  {
    var l := LStrip(line);
    LStripSuffix(line);
    RStripPrefix(l);
    assert Strip(line) == RStrip(l);
  }

  /** A line whose stripped text starts with the tag contains the tag. */
  lemma SuggestionLineContainsTag(line: string)
    requires StartsWith(Strip(line), SuggestionTag)
    ensures Contains(line, SuggestionTag)
  {
    StripOccurs(line);
    var i := |line| - |LStrip(line)|;
    assert line[i..i + |SuggestionTag|] == Strip(line)[..|SuggestionTag|];
    ContainsAt(line, SuggestionTag, i);
  }

  /** `line.split("Suggestion:", 1)[1].strip()`: what follows the first tag, stripped. */
  function SuggestionText(line: string): (r: string)
    requires Contains(line, SuggestionTag)
    ensures Strip(r) == r
  {
    var r := Strip(line[Find(line, SuggestionTag).value + |SuggestionTag|..]);
    StripIdempotent(line[Find(line, SuggestionTag).value + |SuggestionTag|..]);
    r
  }

  /** What a line of the output is to the loop, before the open record is consulted. */
  datatype LineKind =
    | HeaderLine(header: Header)
    | SuggestionLine(suggestion: string)
    | ContinuationLine(text: string)
    | SkippedLine

  /**
   * The branch a line takes: a header; else a line whose stripped text
   * starts with `Suggestion:`; else a non-blank line that does not start
   * with a space. The last two only act on an open record, and a
   * `Suggestion:` line without one falls through to the continuation test,
   * which needs an open record as well.
   */
  function Classify(line: string): LineKind {
    var header := ParseHeader(line);
    if header.Some? then HeaderLine(header.value)
    else if StartsWith(Strip(line), SuggestionTag) then
      SuggestionLineContainsTag(line);
      SuggestionLine(SuggestionText(line))
    else if Strip(line) != [] && !StartsWith(line, " ") then ContinuationLine(Strip(line))
    else SkippedLine
  }

  /** Classify, branch by branch, as the loop body tests it. */
  lemma ClassifyBranches(line: string)
    ensures ParseHeader(line).Some? ==> Classify(line) == HeaderLine(ParseHeader(line).value)
    ensures ParseHeader(line).None? && StartsWith(Strip(line), SuggestionTag) ==>
      Contains(line, SuggestionTag) && Classify(line) == SuggestionLine(SuggestionText(line))
    ensures ParseHeader(line).None? && !StartsWith(Strip(line), SuggestionTag) && Strip(line) != [] && !StartsWith(line, " ") ==>
      Classify(line) == ContinuationLine(Strip(line))
    ensures ParseHeader(line).None? && !StartsWith(Strip(line), SuggestionTag) && (Strip(line) == [] || StartsWith(line, " ")) ==>
      Classify(line) == SkippedLine
  {
    if StartsWith(Strip(line), SuggestionTag) {
      SuggestionLineContainsTag(line);
    }
  }

  function Classified(lines: seq<string>): (kinds: seq<LineKind>)
    ensures |kinds| == |lines|
    ensures forall k :: 0 <= k < |lines| ==> kinds[k] == Classify(lines[k])
  {
    seq(|lines|, k requires 0 <= k < |lines| => Classify(lines[k]))
  }

  /** The errors gathered so far and the record still open, if any. */
  datatype ParseState = ParseState(done: seq<ErrorRecord>, current: Option<ErrorRecord>)

  const Initial := ParseState([], None)

  /**
   * One line of the loop: a header closes the open record and opens a new
   * one; with a record open, a suggestion line sets its suggestion and a
   * continuation line extends its message by a space and the text.
   */
  function Step(st: ParseState, kind: LineKind): ParseState {
    if kind.HeaderLine? then
      ParseState(st.done + (if st.current.Some? then [st.current.value] else []), Some(Opened(kind.header)))
    else if st.current.None? || kind.SkippedLine? then st
    else if kind.SuggestionLine? then
      ParseState(st.done, Some(st.current.value.(suggestion := Some(kind.suggestion))))
    else
      ParseState(st.done, Some(st.current.value.(message := st.current.value.message + " " + kind.text)))
  }

  /** The loop over the lines, from state st. */
  function RunFrom(st: ParseState, kinds: seq<LineKind>): ParseState
    decreases |kinds|
  {
    if kinds == [] then st else RunFrom(Step(st, kinds[0]), kinds[1..])
  }

  /** After the loop the open record is appended too. */
  function Finish(st: ParseState): seq<ErrorRecord> {
    st.done + (if st.current.Some? then [st.current.value] else [])
  }

  /** The records parse_errors returns for the given lines. */
  function Records(lines: seq<string>): seq<ErrorRecord> {
    Finish(RunFrom(Initial, Classified(lines)))
  }

  /** `compiler_output.strip().split('\n')`. */
  function OutputLines(output: string): seq<string> {
    SplitOn(Strip(output), '\n')
  }

  /**
   * parse_errors. Every record corresponds, in order, to one header line of
   * the output and carries that header's file, line, column and type, with
   * a message that starts with the header's message.
   */
  method ParseErrors(output: string) returns (errors: seq<ErrorRecord>)
    ensures errors == Records(OutputLines(output))
    ensures |errors| == |Headers(Classified(OutputLines(output)))|
    ensures forall k :: 0 <= k < |errors| ==> RecordOf(errors[k], Headers(Classified(OutputLines(output)))[k])
  {
    var lines := OutputLines(output);
    ghost var kinds := Classified(lines);
    errors := [];
    var current: Option<ErrorRecord> := None;
    for i := 0 to |lines|
      invariant RunFrom(ParseState(errors, current), kinds[i..]) == RunFrom(Initial, kinds)
    {
      assert kinds[i..][1..] == kinds[i + 1..];
      errors, current := ParseLine(errors, current, lines[i]);
    }
    if current.Some? {
      errors := errors + [current.value];
    }
    RecordsFollowHeaders(kinds);
  }

  /** The body of parse_errors' loop, for one line. */
  method ParseLine(errors: seq<ErrorRecord>, current: Option<ErrorRecord>, line: string)
    returns (errors': seq<ErrorRecord>, current': Option<ErrorRecord>)
    ensures ParseState(errors', current') == Step(ParseState(errors, current), Classify(line))
  {
    ClassifyBranches(line);
    errors', current' := errors, current;
    var header := ParseHeader(line);
    if header.Some? {
      if current.Some? {
        errors' := errors + [current.value];
      }
      current' := Some(Opened(header.value));
    } else if StartsWith(Strip(line), SuggestionTag) && current.Some? {
      current' := Some(current.value.(suggestion := Some(SuggestionText(line))));
    } else if Strip(line) != [] && current.Some? && !StartsWith(line, " ") {
      current' := Some(current.value.(message := current.value.message + " " + Strip(line)));
    }
  }

  // ---------------------------------------------------------------------
  // Properties of the records

  /** The headers of the header lines, in order. */
  function Headers(kinds: seq<LineKind>): seq<Header>
    decreases |kinds|
  {
    if kinds == [] then []
    else (if kinds[0].HeaderLine? then [kinds[0].header] else []) + Headers(kinds[1..])
  }

  /** A record came from header h: same groups, and the message starts with h's. */
  predicate RecordOf(r: ErrorRecord, h: Header) {
    r.file == h.file && r.line == h.line && r.column == h.column && r.kind == h.kind && h.message <= r.message
  }

  /** A record grown from r by follow-on lines: same groups, message extended. */
  predicate Extends(r': ErrorRecord, r: ErrorRecord) {
    r'.file == r.file && r'.line == r.line && r'.column == r.column && r'.kind == r.kind && r.message <= r'.message
  }

  /**
   * Running the loop from st: the closed records stay as they are, the open
   * one only grows, and one record per header line follows, in order.
   */
  ghost predicate RunShape(st: ParseState, kinds: seq<LineKind>) {
    var f := Finish(RunFrom(st, kinds));
    && |f| == |Finish(st)| + |Headers(kinds)|
    && (forall k :: 0 <= k < |st.done| ==> f[k] == st.done[k])
    && (st.current.Some? ==> Extends(f[|st.done|], st.current.value))
    && (forall k :: 0 <= k < |Headers(kinds)| ==> RecordOf(f[|Finish(st)| + k], Headers(kinds)[k]))
  }

  lemma {:induction false} RunFromShape(st: ParseState, kinds: seq<LineKind>)
    ensures RunShape(st, kinds)
    decreases |kinds|
  {
    if kinds != [] {
      RunFromShape(Step(st, kinds[0]), kinds[1..]);
      if kinds[0].HeaderLine? {
        HeaderShape(st, kinds);
      } else {
        OtherLineShape(st, kinds);
      }
    }
  }

  /** A header line closes the open record and adds one record for its header. */
  lemma HeaderShape(st: ParseState, kinds: seq<LineKind>)
    requires kinds != [] && kinds[0].HeaderLine?
    requires RunShape(Step(st, kinds[0]), kinds[1..])
    ensures RunShape(st, kinds)
  {
    var st1 := Step(st, kinds[0]);
    var f := Finish(RunFrom(st, kinds));
    assert f == Finish(RunFrom(st1, kinds[1..]));
    assert Headers(kinds) == [kinds[0].header] + Headers(kinds[1..]);
    assert |st1.done| == |Finish(st)|;
    forall k | 0 <= k < |Headers(kinds)|
      ensures RecordOf(f[|Finish(st)| + k], Headers(kinds)[k])
    {
      if k > 0 {
        assert Headers(kinds)[k] == Headers(kinds[1..])[k - 1];
        assert f[|Finish(st)| + k] == f[|Finish(st1)| + (k - 1)];
      }
    }
  }

  /** Any other line keeps the closed records and at most grows the open one. */
  lemma OtherLineShape(st: ParseState, kinds: seq<LineKind>)
    requires kinds != [] && !kinds[0].HeaderLine?
    requires RunShape(Step(st, kinds[0]), kinds[1..])
    ensures RunShape(st, kinds)
  {
    var st1, rest := Step(st, kinds[0]), kinds[1..];
    OtherLineStep(st, kinds[0]);
    var f := Finish(RunFrom(st, kinds));
    assert f == Finish(RunFrom(st1, rest));
    assert Headers(kinds) == Headers(rest);
    assert |Finish(st1)| == |Finish(st)|;
    if st.current.Some? {
      var r, r1, r2 := st.current.value, st1.current.value, f[|st.done|];
      assert Extends(r2, r1);
      PrefixTransitive(r.message, r1.message, r2.message);
    }
    forall k | 0 <= k < |Headers(kinds)|
      ensures RecordOf(f[|Finish(st)| + k], Headers(kinds)[k])
    {
      assert RecordOf(f[|Finish(st1)| + k], Headers(rest)[k]);
    }
  }

  lemma PrefixTransitive(a: string, b: string, c: string)
    requires a <= b && b <= c
    ensures a <= c
  {
    assert a == b[..|a|] == c[..|a|];
  }

  /** One line that is not a header keeps the closed records and at most grows the open one. */
  lemma OtherLineStep(st: ParseState, kind: LineKind)
    requires !kind.HeaderLine?
    ensures Step(st, kind).done == st.done
    ensures Step(st, kind).current.Some? == st.current.Some?
    ensures st.current.Some? ==> Extends(Step(st, kind).current.value, st.current.value)
  {
  }

  /**
   * parse_errors yields exactly one record per header line, in order, each
   * with its header's file, line, column and type and a message that starts
   * with the header's message; the last record is not lost.
   */
  lemma RecordsFollowHeaders(kinds: seq<LineKind>)
    ensures |Finish(RunFrom(Initial, kinds))| == |Headers(kinds)|
    ensures forall k :: 0 <= k < |Headers(kinds)| ==> RecordOf(Finish(RunFrom(Initial, kinds))[k], Headers(kinds)[k])
  {
    RunFromShape(Initial, kinds);
    var f, hs := Finish(RunFrom(Initial, kinds)), Headers(kinds);
    assert |Finish(Initial)| == 0;
    forall k | 0 <= k < |hs|
      ensures RecordOf(f[k], hs[k])
    {
      assert f[|Finish(Initial)| + k] == f[k];
    }
  }

  lemma {:induction false} RunFromAppend(st: ParseState, a: seq<LineKind>, b: seq<LineKind>)
    ensures RunFrom(st, a + b) == RunFrom(RunFrom(st, a), b)
    decreases |a|
  {
    if a != [] {
      assert (a + b)[1..] == a[1..] + b;
      RunFromAppend(Step(st, a[0]), a[1..], b);
    } else {
      assert a + b == b;
    }
  }

  /** Lines before the first header, such as a banner, leave no trace. */
  lemma LeadingLinesIgnored(pre: seq<string>, rest: seq<string>)
    requires forall k :: 0 <= k < |pre| ==> ParseHeader(pre[k]).None?
    ensures Records(pre + rest) == Records(rest)
  {
    assert Classified(pre + rest) == Classified(pre) + Classified(rest);
    RunFromAppend(Initial, Classified(pre), Classified(rest));
    NoHeaderNoState(Classified(pre));
  }

  lemma {:induction false} NoHeaderNoState(kinds: seq<LineKind>)
    requires forall k :: 0 <= k < |kinds| ==> !kinds[k].HeaderLine?
    ensures RunFrom(Initial, kinds) == Initial
    decreases |kinds|
  {
    if kinds != [] {
      assert Step(Initial, kinds[0]) == Initial;
      NoHeaderNoState(kinds[1..]);
    }
  }

  /** Output that is blank after stripping holds no error. */
  lemma BlankOutputNoErrors(output: string)
    requires AllSpace(output)
    ensures Records(OutputLines(output)) == []
  {
    assert OutputLines(output) == [[]];
    assert ParseHeader([]) == None;
    assert Classify([]) == SkippedLine;
    var kinds := Classified([[]]);
    assert kinds == [SkippedLine];
    assert RunFrom(Initial, kinds) == RunFrom(Initial, kinds[1..]);
  }

  /**
   * A line after the others that is not a header touches only the most
   * recent record: a `Suggestion:` line sets its suggestion, an unindented
   * non-blank line extends its message by a space and the stripped line,
   * and any other line changes nothing. Without a record it changes nothing.
   */
  lemma FollowOnLine(pre: seq<string>, line: string)
    requires ParseHeader(line).None?
    ensures var before, after := Records(pre), Records(pre + [line]);
      && |after| == |before|
      && (before != [] ==> after[..|after| - 1] == before[..|before| - 1])
      && (before != [] && StartsWith(Strip(line), SuggestionTag) ==>
            Contains(line, SuggestionTag) &&
            after[|after| - 1] == before[|before| - 1].(suggestion := Some(SuggestionText(line))))
      && (before != [] && !StartsWith(Strip(line), SuggestionTag) && Strip(line) != [] && !StartsWith(line, " ") ==>
            after[|after| - 1] == before[|before| - 1].(message := before[|before| - 1].message + " " + Strip(line)))
      && (before == [] || (!StartsWith(Strip(line), SuggestionTag) && (Strip(line) == [] || StartsWith(line, " "))) ==>
            after == before)
  {
    var kinds, kind := Classified(pre), Classify(line);
    assert Classified(pre + [line]) == kinds + [kind];
    ClassifyBranches(line);
    FollowOnKind(kinds, kind);
    assert Records(pre) == Finish(RunFrom(Initial, kinds));
    assert Records(pre + [line]) == Finish(RunFrom(Initial, kinds + [kind]));
  }

  /** FollowOnLine on classified lines. */
  lemma FollowOnKind(kinds: seq<LineKind>, kind: LineKind)
    requires !kind.HeaderLine?
    ensures var before, after := Finish(RunFrom(Initial, kinds)), Finish(RunFrom(Initial, kinds + [kind]));
      && |after| == |before|
      && (before != [] ==> after[..|after| - 1] == before[..|before| - 1])
      && (before != [] && kind.SuggestionLine? ==>
            after[|after| - 1] == before[|before| - 1].(suggestion := Some(kind.suggestion)))
      && (before != [] && kind.ContinuationLine? ==>
            after[|after| - 1] == before[|before| - 1].(message := before[|before| - 1].message + " " + kind.text))
      && (before == [] || kind.SkippedLine? ==> after == before)
  {
    RunFromAppend(Initial, kinds, [kind]);
    var st := RunFrom(Initial, kinds);
    assert RunFrom(st, [kind]) == Step(st, kind);
    OpenRecordStays(Initial, kinds);
  }

  lemma {:induction false} OpenRecordStays(st: ParseState, kinds: seq<LineKind>)
    requires st.current.None? ==> st.done == []
    ensures RunFrom(st, kinds).current.None? ==> RunFrom(st, kinds).done == []
    decreases |kinds|
  {
    if kinds != [] {
      OpenRecordStays(Step(st, kinds[0]), kinds[1..]);
    }
  }

  /** A run over header lines only: one freshly opened record per header, in order. */
  lemma {:induction false} AllHeadersRun(st: ParseState, kinds: seq<LineKind>)
    requires forall k :: 0 <= k < |kinds| ==> kinds[k].HeaderLine?
    ensures Finish(RunFrom(st, kinds)) == Finish(st) + seq(|kinds|, k requires 0 <= k < |kinds| => Opened(kinds[k].header))
    decreases |kinds|
  {
    var records := seq(|kinds|, k requires 0 <= k < |kinds| => Opened(kinds[k].header));
    if kinds == [] {
      assert records == [];
    } else {
      var st1 := Step(st, kinds[0]);
      assert Finish(st1) == Finish(st) + [records[0]];
      AllHeadersRun(st1, kinds[1..]);
      assert records == [records[0]] + seq(|kinds| - 1, k requires 0 <= k < |kinds| - 1 => Opened(kinds[1..][k].header));
    }
  }

  /**
   * Diagnostics printed one per line in the `FILE:LINE:COLUMN: TYPE:
   * MESSAGE` format are read back as exactly those diagnostics, in order,
   * without suggestions.
   */
  lemma PrintedHeadersRoundTrip(hs: seq<Header>)
    requires forall k :: 0 <= k < |hs| ==> PrintableHeader(hs[k])
    ensures Records(seq(|hs|, k requires 0 <= k < |hs| => FormatHeader(hs[k]))) ==
      seq(|hs|, k requires 0 <= k < |hs| => Opened(hs[k]))
  {
    var lines := seq(|hs|, k requires 0 <= k < |hs| => FormatHeader(hs[k]));
    var kinds := Classified(lines);
    forall k | 0 <= k < |hs|
      ensures kinds[k] == HeaderLine(hs[k])
    {
      HeaderRoundTrip(hs[k]);
      ClassifyBranches(lines[k]);
    }
    AllHeadersRun(Initial, kinds);
  }
}
