/** `extractComponentCode` of the component generator: the body of the
    first fenced TypeScript block, trimmed; failing that, everything from
    the first exported function or constant declaration to the end; failing
    that, an error.

    The two regular expressions are modelled by matchers at a position and
    a leftmost search, which is how a regular expression without the global
    flag picks its match:
    - a fenced block is "```typescript" or "```tsx" and a newline, a lazy
      body of at least one character, and the first "```" after it;
    - a declaration is "export", whitespace, "function" or "const",
      whitespace, a word character, and at least one more character; the
      greedy tail runs to the end of the text. */
module CodeExtraction {
  import opened Wrappers
  import opened Strings

  const Fence: string := "```"
  const TypescriptOpener: string := "```typescript\n"
  const TsxOpener: string := "```tsx\n"
  const NoCodeMessage: string := "Could not extract component code from results"

  /** The length of the opening fence line that starts at `p`, if any. At
      most one of the two alternatives can match at a position. */
  function OpenerAt(s: string, p: nat): Option<nat> {
    if OccursAt(s, TypescriptOpener, p) then Some(|TypescriptOpener|)
    else if OccursAt(s, TsxOpener, p) then Some(|TsxOpener|)
    else None
  }

  /** The body of the fenced block opening at `p`: from the end of the
      opener to the first closing fence that leaves the body non-empty. */
  function FencedBodyAt(s: string, p: nat): Option<string> {
    match OpenerAt(s, p)
    case None => None
    case Some(h) =>
      match IndexFrom(s, Fence, p + h + 1)
      case None => None
      case Some(q) => Some(s[p + h..q])
  }

  /** `\w`: ASCII letters, digits and underscore. */
  predicate IsWordChar(c: char) {
    ('a' <= c <= 'z') || ('A' <= c <= 'Z') || ('0' <= c <= '9') || c == '_'
  }

  /** The end of the keyword `function` or `const` starting at `j`, if any. */
  function KeywordEnd(s: string, j: nat): (k: Option<nat>)
    ensures k.Some? ==> j < k.value <= |s|
  {
    if OccursAt(s, "function", j) then Some(j + 8)
    else if OccursAt(s, "const", j) then Some(j + 5)
    else None
  }

  /** An exported declaration starts at `p`. The whitespace runs are
      maximal because neither keyword nor a word character is whitespace. */
  predicate ExportAt(s: string, p: nat) {
    && OccursAt(s, "export", p)
    && var j := SkipWhitespace(s, p + 6);
       && j > p + 6
       && KeywordAt(s, j)
  }

  /** `function` or `const` at `j`, then whitespace and a name. */
  predicate KeywordAt(s: string, j: nat) {
    var k := KeywordEnd(s, j);
    k.Some? && NameAfter(s, k.value)
  }

  /** Whitespace from `k`, then a word character and at least one more
      character. */
  predicate NameAfter(s: string, k: nat)
    requires k <= |s|
  {
    var m := SkipWhitespace(s, k);
    && m > k
    && m + 1 < |s|
    && IsWordChar(s[m])
  }

  datatype Pattern = FencedBlock | ExportedDeclaration

  predicate MatchesAt(pat: Pattern, s: string, p: nat) {
    match pat
    case FencedBlock => FencedBodyAt(s, p).Some?
    case ExportedDeclaration => ExportAt(s, p)
  }

  /** `pat` matches at `p` and nowhere before it: the match a regular
      expression without the global flag reports. */
  predicate Leftmost(pat: Pattern, s: string, p: nat) {
    MatchesAt(pat, s, p) && forall q :: 0 <= q < p ==> !MatchesAt(pat, s, q)
  }

  /** The leftmost position at or after `from` where `pat` matches. */
  function FirstMatch(pat: Pattern, s: string, from: nat): (r: Option<nat>)
    ensures r.Some? ==> from <= r.value <= |s| && MatchesAt(pat, s, r.value)
    ensures r.Some? ==> forall q :: from <= q < r.value ==> !MatchesAt(pat, s, q)
    ensures r.None? ==> forall q :: from <= q ==> !MatchesAt(pat, s, q)
    decreases |s| + 1 - from
  {
    if from > |s| then None
    else if MatchesAt(pat, s, from) then Some(from)
    else FirstMatch(pat, s, from + 1)
  }

  /** A match never starts past the end of the text, and the leftmost
      match is the one the search finds. */
  lemma LeftmostIsFirst(pat: Pattern, s: string)
    ensures forall p: nat :: MatchesAt(pat, s, p) ==> p <= |s|
    ensures forall p: nat :: Leftmost(pat, s, p) ==> FirstMatch(pat, s, 0) == Some(p)
  {
    forall p: nat | Leftmost(pat, s, p)
      ensures FirstMatch(pat, s, 0) == Some(p)
    {
    }
  }

  /** `extractComponentCode(results)`. */
  function ExtractComponentCode(results: string): (r: Result<string, string>)
    ensures r.Failure? <==>
      (forall p :: !MatchesAt(FencedBlock, results, p)) && (forall p :: !MatchesAt(ExportedDeclaration, results, p))
    ensures r.Failure? ==> r.error == NoCodeMessage
    ensures (exists p :: MatchesAt(FencedBlock, results, p)) ==> r.Success? && IsTrimmed(r.value)
    ensures (forall p :: !MatchesAt(FencedBlock, results, p)) && r.Success? ==>
      StartsWith(r.value, "export") && EndsWith(results, r.value)
    ensures forall p: nat :: Leftmost(FencedBlock, results, p) ==>
      r == Success(Trim(FencedBodyAt(results, p).value))
    ensures (forall p :: !MatchesAt(FencedBlock, results, p)) ==>
      forall p: nat :: Leftmost(ExportedDeclaration, results, p) ==> r == Success(results[p..])
  {
    LeftmostIsFirst(FencedBlock, results);
    LeftmostIsFirst(ExportedDeclaration, results);
    match FirstMatch(FencedBlock, results, 0)
    case Some(p) => Success(Trim(FencedBodyAt(results, p).value))
    case None =>
      match FirstMatch(ExportedDeclaration, results, 0)
      case Some(p) => Success(results[p..])
      case None => Failure(NoCodeMessage)
  }

  /** A body that cannot end early: it contains no closing fence and does
      not end with a backtick (which the closing fence would extend). */
  predicate FenceSafe(code: string) {
    && |code| > 0
    && code[|code| - 1] != '`'
    && forall j :: 0 <= j < |code| ==> !OccursAt(code, Fence, j)
  }

  lemma NoEarlierFence(prose: string, opener: string, code: string, tail: string, q: nat)
    requires FenceSafe(code)
    requires |prose + opener| <= q < |prose + opener| + |code|
    ensures !OccursAt(prose + opener + code + Fence + tail, Fence, q)
  {
    var s := prose + opener + code + Fence + tail;
    var b := |prose + opener|;
    var i := q - b;
    assert s[b..b + |code|] == code;
    if i + 3 <= |code| {
      assert s[q..q + 3] == code[i..i + 3];
      assert !OccursAt(code, Fence, i);
    } else if i == |code| - 1 {
      assert s[q] == code[|code| - 1];
      assert s[q..q + 3][0] != Fence[0];
    } else {
      assert s[q + 1] == code[|code| - 1];
      assert s[q..q + 3][1] != Fence[1];
    }
  }

  /** The block opened right after the prose closes right after the code. */
  lemma WrappedBody(prose: string, opener: string, code: string, tail: string)
    requires opener == TypescriptOpener || opener == TsxOpener
    requires FenceSafe(code)
    ensures FencedBodyAt(prose + opener + code + Fence + tail, |prose|) == Some(code)
  {
    var s := prose + opener + code + Fence + tail;
    var p := |prose|;
    var b := p + |opener|;
    OpenerAfterProse(prose, opener, code + Fence + tail);
    assert s == prose + opener + (code + Fence + tail);
    forall q | b + 1 <= q < b + |code|
      ensures !OccursAt(s, Fence, q)
    {
      NoEarlierFence(prose, opener, code, tail, q);
    }
    FenceAfterCode(prose + opener, code, tail);
    assert IndexFrom(s, Fence, b + 1) == Some(b + |code|);
    assert s[b..b + |code|] == code;
  }

  lemma FenceAfterCode(head: string, code: string, tail: string)
    ensures OccursAt(head + code + Fence + tail, Fence, |head| + |code|)
  {
    var s := head + code + Fence + tail;
    assert s[|head| + |code|..|head| + |code| + 3] == Fence;
  }

  /** Either opener placed after the prose is recognised there, with its
      own length. */
  lemma OpenerAfterProse(prose: string, opener: string, rest: string)
    requires opener == TypescriptOpener || opener == TsxOpener
    ensures OpenerAt(prose + opener + rest, |prose|) == Some(|opener|)
  {
    var s := prose + opener + rest;
    var p := |prose|;
    assert s[p..p + |opener|] == opener;
    if opener == TsxOpener && p + |TypescriptOpener| <= |s| {
      assert s[p + 4] == s[p..p + |opener|][4];
      assert s[p..p + |TypescriptOpener|][4] != TypescriptOpener[4];
    }
  }

  /** No block opens inside backtick-free prose. */
  lemma NoOpenerInProse(prose: string, rest: string, q: nat)
    requires '`' !in prose
    requires q < |prose|
    ensures !MatchesAt(FencedBlock, prose + rest, q)
  {
    var s := prose + rest;
    assert s[q] == prose[q];
    if q + |TypescriptOpener| <= |s| {
      assert s[q..q + |TypescriptOpener|][0] != TypescriptOpener[0];
    }
    if q + |TsxOpener| <= |s| {
      assert s[q..q + |TsxOpener|][0] != TsxOpener[0];
    }
  }

  /** A match with no match before it is the leftmost one. */
  lemma LeftmostMatch(pat: Pattern, s: string, p: nat)
    requires MatchesAt(pat, s, p)
    requires forall q :: 0 <= q < p ==> !MatchesAt(pat, s, q)
    ensures FirstMatch(pat, s, 0) == Some(p)
  {
  }

  /** Wrapping code in a TypeScript fence after backtick-free prose and
      extracting it gives back the code, trimmed, whatever follows. */
  lemma ExtractFencedRoundTrip(prose: string, opener: string, code: string, tail: string)
    requires opener == TypescriptOpener || opener == TsxOpener
    requires '`' !in prose
    requires FenceSafe(code)
    ensures ExtractComponentCode(prose + opener + code + Fence + tail) == Success(Trim(code))
  {
    var s := prose + opener + code + Fence + tail;
    assert prose + (opener + code + Fence + tail) == s;
    WrappedBody(prose, opener, code, tail);
    forall q | 0 <= q < |prose|
      ensures !MatchesAt(FencedBlock, s, q)
    {
      NoOpenerInProse(prose, opener + code + Fence + tail, q);
    }
    LeftmostMatch(FencedBlock, s, |prose|);
  }

  /** Whitespace runs and keywords read the same after a prefix. */
  lemma {:induction false} SkipWhitespaceAfter(a: string, b: string, i: nat)
    requires i <= |b|
    ensures SkipWhitespace(a + b, |a| + i) == |a| + SkipWhitespace(b, i)
    decreases |b| - i
  {
    if i < |b| {
      assert (a + b)[|a| + i] == b[i];
      if IsWhitespace(b[i]) {
        SkipWhitespaceAfter(a, b, i + 1);
      }
    }
  }

  lemma ExportAtAfter(a: string, b: string)
    requires ExportAt(b, 0)
    ensures ExportAt(a + b, |a|)
  {
    OccursAfter(a, b, "export", 0);
    SkipWhitespaceAfter(a, b, 6);
    KeywordAtAfter(a, b, SkipWhitespace(b, 6));
  }

  lemma KeywordAtAfter(a: string, b: string, j: nat)
    requires KeywordAt(b, j)
    ensures KeywordAt(a + b, |a| + j)
  {
    KeywordEndAfter(a, b, j);
    NameAfterAfter(a, b, KeywordEnd(b, j).value);
  }

  lemma NameAfterAfter(a: string, b: string, k: nat)
    requires k <= |b| && NameAfter(b, k)
    ensures NameAfter(a + b, |a| + k)
  {
    SkipWhitespaceAfter(a, b, k);
    var m := SkipWhitespace(b, k);
    assert (a + b)[|a| + m] == b[m];
  }

  /** A keyword found in `b` is found at the same place behind a prefix. */
  lemma KeywordEndAfter(a: string, b: string, j: nat)
    requires KeywordEnd(b, j).Some?
    ensures KeywordEnd(a + b, |a| + j) == Some(|a| + KeywordEnd(b, j).value)
  {
    var s := a + b;
    if OccursAt(b, "function", j) {
      OccursAfter(a, b, "function", j);
    } else {
      assert !OccursAt(s, "function", |a| + j) by {
        if |a| + j + 8 <= |s| {
          assert s[|a| + j..|a| + j + 8] == b[j..j + 8];
        }
      }
      OccursAfter(a, b, "const", j);
    }
  }

  /** No fence opens in a text without backticks. */
  lemma NoFenceWithoutBackticks(s: string)
    requires '`' !in s
    ensures forall p: nat :: !MatchesAt(FencedBlock, s, p)
  {
    forall p: nat
      ensures !MatchesAt(FencedBlock, s, p)
    {
      if p + |TsxOpener| <= |s| {
        assert s[p..p + |TsxOpener|][0] == s[p];
      }
      if p + |TypescriptOpener| <= |s| {
        assert s[p..p + |TypescriptOpener|][0] == s[p];
      }
    }
  }

  /** No declaration starts inside prose without whitespace when a
      declaration follows it directly: "export" would need whitespace
      after it, inside the prose or inside the following "export". */
  lemma NoExportInProse(prose: string, decl: string, q: nat)
    requires forall i :: 0 <= i < |prose| ==> !IsWhitespace(prose[i])
    requires ExportAt(decl, 0)
    requires q < |prose|
    ensures !ExportAt(prose + decl, q)
  {
    var s := prose + decl;
    if OccursAt(s, "export", q) && q + 6 < |s| {
      if q + 6 < |prose| {
        assert s[q + 6] == prose[q + 6];
      } else {
        var d := q + 6 - |prose|;
        assert d < 6;
        assert s[q + 6] == decl[d] == decl[..6][d] == "export"[d];
      }
    }
  }

  /** A declaration after prose with neither whitespace nor backticks is
      extracted whole, to the end of the text. */
  lemma ExtractExportRoundTrip(prose: string, decl: string)
    requires forall i :: 0 <= i < |prose| ==> !IsWhitespace(prose[i]) && prose[i] != '`'
    requires '`' !in decl
    requires ExportAt(decl, 0)
    ensures ExtractComponentCode(prose + decl) == Success(decl)
  {
    var s := prose + decl;
    assert '`' !in s by {
      forall i | 0 <= i < |s|
        ensures s[i] != '`'
      {
        if i >= |prose| {
          assert s[i] == decl[i - |prose|];
        }
      }
    }
    NoFenceWithoutBackticks(s);
    ExportAtAfter(prose, decl);
    forall q: nat | q < |prose|
      ensures !MatchesAt(ExportedDeclaration, s, q)
    {
      NoExportInProse(prose, decl, q);
    }
    assert Leftmost(ExportedDeclaration, s, |prose|);
    assert s[|prose|..] == decl;
  }
}
