/** Policy normalisation: every field rounded and clamped into its range. Values are integers here. */
module Policy {
  datatype SandboxPolicy = SandboxPolicy(
    entrypoint: string,
    timeoutMs: int,
    retryCount: int,
    memoryBudgetMB: int,
    coldStartMs: int,
    maxGuestCodeLength: int,
    snapshotEveryNRuns: int)

  const DEFAULT_ENTRYPOINT := "main"

  function Clamp(value: int, min: int, max: int): int {
    var raised := if value < min then min else value;
    if raised > max then max else raised
  }

  predicate IsWordChar(c: char) {
    'a' <= c <= 'z' || 'A' <= c <= 'Z' || '0' <= c <= '9' || c == '_'
  }

  /** Spaces as the regular expressions know them, as far as the code's own alphabet goes. */
  predicate IsSpace(c: char) {
    c in {' ', '\t', '\n', '\r'}
  }

  function TrimLeft(s: string): string {
    if s != [] && IsSpace(s[0]) then TrimLeft(s[1..]) else s
  }

  function TrimRight(s: string): string {
    if s != [] && IsSpace(s[|s| - 1]) then TrimRight(s[..|s| - 1]) else s
  }

  /** Each run of spaces becomes one underscore, as does every other character outside the word alphabet. */
  function Underscored(s: string, inSpaces: bool): string
    decreases |s|
  {
    if s == [] then []
    else if IsSpace(s[0]) then (if inSpaces then [] else ['_']) + Underscored(s[1..], true)
    else [if IsWordChar(s[0]) then s[0] else '_'] + Underscored(s[1..], false)
  }

  function SanitizeEntrypoint(raw: string): string {
    var cleaned := Underscored(TrimRight(TrimLeft(raw)), false);
    if cleaned == [] then DEFAULT_ENTRYPOINT else cleaned
  }

  function Normalize(p: SandboxPolicy): SandboxPolicy {
    SandboxPolicy(
      SanitizeEntrypoint(p.entrypoint),
      Clamp(p.timeoutMs, 100, 120_000),
      Clamp(p.retryCount, 0, 8),
      Clamp(p.memoryBudgetMB, 64, 16_384),
      Clamp(p.coldStartMs, 0, 10_000),
      Clamp(p.maxGuestCodeLength, 256, 200_000),
      Clamp(p.snapshotEveryNRuns, 0, 1_000))
  }

  predicate AllWord(s: string) {
    forall i :: 0 <= i < |s| ==> IsWordChar(s[i])
  }

  lemma {:induction false} UnderscoredIsWord(s: string, inSpaces: bool)
    ensures AllWord(Underscored(s, inSpaces))
    decreases |s|
  {
    if s != [] {
      UnderscoredIsWord(s[1..], IsSpace(s[0]));
    }
  }

  lemma {:induction false} WordsStay(s: string)
    requires AllWord(s)
    ensures Underscored(s, false) == s && TrimLeft(s) == s && TrimRight(s) == s
    decreases |s|
  {
    if s != [] {
      WordsStay(s[1..]);
      assert s == [s[0]] + s[1..];
    }
  }

  lemma SanitizedStays(raw: string)
    ensures SanitizeEntrypoint(SanitizeEntrypoint(raw)) == SanitizeEntrypoint(raw)
  {
    UnderscoredIsWord(TrimRight(TrimLeft(raw)), false);
    assert AllWord(DEFAULT_ENTRYPOINT);
    WordsStay(SanitizeEntrypoint(raw));
  }

  /** Normalising twice is normalising once, also after the two fields replay overrides are cleared. */
  lemma NormalizeIsIdempotent(p: SandboxPolicy)
    ensures Normalize(Normalize(p)) == Normalize(p)
    ensures var q := Normalize(p).(coldStartMs := 0, snapshotEveryNRuns := 0);
            Normalize(q) == q
  {
    SanitizedStays(p.entrypoint);
  }

  // What becomes of a policy, field by field

  /** The nearest number between two bounds. */
  ghost predicate Nearest(x: int, value: int, min: int, max: int) {
    && min <= x <= max
    && forall y :: min <= y <= max ==> Distance(x, value) <= Distance(y, value)
  }

  function Distance(x: int, y: int): nat {
    if x < y then y - x else x - y
  }

  /** Every number goes to the nearest one in its range. */
  lemma NormalizedFields(p: SandboxPolicy)
    ensures var q := Normalize(p);
            && Nearest(q.timeoutMs, p.timeoutMs, 100, 120_000)
            && Nearest(q.retryCount, p.retryCount, 0, 8)
            && Nearest(q.memoryBudgetMB, p.memoryBudgetMB, 64, 16_384)
            && Nearest(q.coldStartMs, p.coldStartMs, 0, 10_000)
            && Nearest(q.maxGuestCodeLength, p.maxGuestCodeLength, 256, 200_000)
            && Nearest(q.snapshotEveryNRuns, p.snapshotEveryNRuns, 0, 1_000)
  {
    hide SanitizeEntrypoint;
  }

  /** `[a-zA-Z0-9_]` by code point. */
  predicate WordCode(c: char) {
    var n := c as int;
    48 <= n <= 57 || 65 <= n <= 90 || n == 95 || 97 <= n <= 122
  }

  predicate Blank(s: string) {
    forall i :: 0 <= i < |s| ==> s[i] == ' ' || s[i] == '\t' || s[i] == '\n' || s[i] == '\r'
  }

  predicate WordCodes(s: string) {
    forall i :: 0 <= i < |s| ==> WordCode(s[i])
  }

  lemma {:induction false} WordThen(w: string, rest: string, inSpaces: bool)
    requires AllWord(w) && w != []
    ensures Underscored(w + rest, inSpaces) == w + Underscored(rest, false)
  {
    assert (w + rest)[0] == w[0] && (w + rest)[1..] == w[1..] + rest;
    if |w| > 1 {
      WordThen(w[1..], rest, false);
    } else {
      assert w[1..] + rest == rest;
    }
  }

  lemma {:induction false} SpacesThen(gap: string, w: string)
    requires Blank(gap) && w != [] && !IsSpace(w[0])
    ensures Underscored(gap + w, true) == Underscored(w, false)
  {
    if gap == [] {
      assert gap + w == w;
    } else {
      assert (gap + w)[0] == gap[0] && (gap + w)[1..] == gap[1..] + w;
      SpacesThen(gap[1..], w);
    }
  }

  lemma {:induction false} TrimsLeft(pre: string, s: string)
    requires Blank(pre) && (s == [] || !IsSpace(s[0]))
    ensures TrimLeft(pre + s) == s
  {
    if pre == [] {
      assert pre + s == s;
    } else {
      assert (pre + s)[1..] == pre[1..] + s;
      TrimsLeft(pre[1..], s);
    }
  }

  lemma {:induction false} TrimsRight(s: string, post: string)
    requires Blank(post) && (s == [] || !IsSpace(s[|s| - 1]))
    ensures TrimRight(s + post) == s
    decreases |post|
  {
    if post == [] {
      assert s + post == s;
    } else {
      assert (s + post)[..|s + post| - 1] == s + post[..|post| - 1];
      TrimsRight(s, post[..|post| - 1]);
    }
  }

  /** What neither begins nor ends with a space is not trimmed. */
  lemma Untrimmed(s: string)
    requires s != [] && !IsSpace(s[0]) && !IsSpace(s[|s| - 1])
    ensures TrimRight(TrimLeft(s)) == s
  {
    assert [] + s == s == s + [];
    TrimsLeft([], s);
    TrimsRight(s, []);
  }

  lemma WordsHaveNoSpace(w: string)
    requires WordCodes(w)
    ensures AllWord(w) && forall i :: 0 <= i < |w| ==> !IsSpace(w[i])
  {
  }

  /** Letters, digits and underscores between blanks: the blanks go, and nothing else changes. */
  lemma WordStays(pre: string, w: string, post: string)
    requires Blank(pre) && Blank(post) && WordCodes(w) && w != []
    ensures SanitizeEntrypoint(pre + w + post) == w
  {
    hide IsSpace, WordCodes, AllWord, Underscored, TrimLeft, TrimRight;
    WordsHaveNoSpace(w);
    assert pre + w + post == pre + (w + post);
    TrimsLeft(pre, w + post);
    TrimsRight(w, post);
    WordsStay(w);
  }

  /** A blank entrypoint is replaced. */
  lemma BlankIsMain(s: string)
    requires Blank(s)
    ensures SanitizeEntrypoint(s) == "main"
  {
    assert s + [] == s;
    TrimsLeft(s, []);
  }

  /** Blanks inside, however many, become one underscore. */
  lemma BlanksJoin(v: string, gap: string, w: string)
    requires WordCodes(v) && WordCodes(w) && v != [] && w != [] && Blank(gap) && gap != []
    ensures SanitizeEntrypoint(v + gap + w) == v + ['_'] + w
  {
    hide IsSpace, WordCodes, AllWord, Underscored, TrimLeft, TrimRight, Blank;
    WordsHaveNoSpace(v);
    WordsHaveNoSpace(w);
    Untrimmed(v + gap + w);
    assert v + gap + w == v + (gap + w);
    WordThen(v, gap + w, false);
    GapBecomesOne(gap, w);
    WordsStay(w);
    assert v + (['_'] + w) == v + ['_'] + w;
  }

  lemma GapBecomesOne(gap: string, w: string)
    requires Blank(gap) && gap != [] && w != [] && !IsSpace(w[0])
    ensures Underscored(gap + w, false) == ['_'] + Underscored(w, false)
  {
    assert (gap + w)[0] == gap[0] && (gap + w)[1..] == gap[1..] + w;
    SpacesThen(gap[1..], w);
  }

  /** So does every other character, one for one. */
  lemma OthersBecomeUnderscores(v: string, c: char, w: string)
    requires WordCodes(v) && WordCodes(w) && !WordCode(c) && !Blank([c])
    ensures SanitizeEntrypoint(v + [c] + w) == v + ['_'] + w
  {
    hide IsSpace, WordCodes, AllWord, Underscored, TrimLeft, TrimRight;
    WordsHaveNoSpace(v);
    WordsHaveNoSpace(w);
    NoSpace(c);
    Untrimmed(v + [c] + w);
    assert v + [c] + w == v + ([c] + w);
    OneOther(c, w);
    if v == [] {
      assert v + ([c] + w) == [c] + w && v + ['_'] + w == ['_'] + w;
    } else {
      WordThen(v, [c] + w, false);
      assert v + (['_'] + w) == v + ['_'] + w;
    }
  }

  lemma NoSpace(c: char)
    requires !Blank([c])
    ensures !IsSpace(c)
  {
  }

  lemma OneOther(c: char, w: string)
    requires AllWord(w) && !WordCode(c) && !IsSpace(c)
    ensures Underscored([c] + w, false) == ['_'] + w
  {
    assert ([c] + w)[0] == c && ([c] + w)[1..] == w;
    WordsStay(w);
  }
}
