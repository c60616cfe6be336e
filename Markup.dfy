/**
 * The regular expressions of `utils.response.format`, written out as exact
 * scanners over the small marker vocabulary (`<details …>`, `</details>`,
 * `<summary>…</summary>`, `<reasoning>`, `</reasoning>`, `\n>` quote
 * prefixes and the `duration="N"` attribute).
 *
 * `re.sub(pattern, repl, s)` looks for the leftmost match, replaces it and
 * goes on after its end; `Sub` does the same with `MatchAt`, which gives the
 * end of the match of a pattern starting at a position (none of the patterns
 * matches the empty string). Patterns without metacharacters are replaced
 * with `Text.ReplaceAll`, which is what `re.sub` does with them.
 */
module Markup {
  import opened Wrappers
  import opened Text

  const Newline: set<char> := {'\n'}

  /** The characters of `\d`, restricted to ASCII. */
  const Digits: set<char> := {'0', '1', '2', '3', '4', '5', '6', '7', '8', '9'}

  /** First index at or after `i` holding `c`, `|s|` when there is none. */
  function FindChar(s: string, i: nat, c: char): (k: nat)
    requires i <= |s|
    ensures i <= k <= |s|
    ensures forall j :: i <= j < k ==> s[j] != c
    ensures k < |s| ==> s[k] == c
    decreases |s| - i
  {
    if i == |s| || s[i] == c then i else FindChar(s, i + 1, c)
  }

  /** The substitution patterns of `format`. */
  datatype Pattern =
    | DetailsBlock    // (?s)<details[^>]*?>.*?</details>
    | SummaryLine     // \n*<summary>.*?</summary>\n*
    | DetailsOpen     // <details[^>]*>\n*
    | DetailsClose    // \n*</details>
    | QuotePrefix     // \n>\s?
    | ReasoningOpen   // <reasoning>\n*
    | ReasoningClose  // \n*</reasoning>

  /** The end of the match of `p` that starts at `i`, if there is one.

      `[^>]*?>` and `[^>]*>` can only stop at the first `>`; a lazy `.*?`
      followed by a literal stops at the first occurrence of that literal
      (without `(?s)` only if no newline comes before it); a greedy `\n*`
      followed by something other than a newline never gives characters back. */
  function MatchAt(p: Pattern, s: string, i: nat): (m: Option<nat>)
    requires i <= |s|
    ensures m.Some? ==> i < m.value <= |s|
  {
    match p
    case DetailsBlock =>
      if !OccursAt(s, "<details", i) then None
      else
        var g := FindChar(s, i + 8, '>');
        if g == |s| then None
        else
          var c := FindFrom(s, g + 1, "</details>");
          if c == |s| then None else Some(c + 10)
    case SummaryLine =>
      var a := RunEnd(s, i, Newline);
      if !OccursAt(s, "<summary>", a) then None
      else
        var c := FindFrom(s, a + 9, "</summary>");
        if c == |s| || FindChar(s, a + 9, '\n') < c then None
        else Some(RunEnd(s, c + 10, Newline))
    case DetailsOpen =>
      if !OccursAt(s, "<details", i) then None
      else
        var g := FindChar(s, i + 8, '>');
        if g == |s| then None else Some(RunEnd(s, g + 1, Newline))
    case DetailsClose =>
      var a := RunEnd(s, i, Newline);
      if OccursAt(s, "</details>", a) then Some(a + 10) else None
    case QuotePrefix =>
      if !OccursAt(s, "\n>", i) then None
      else if i + 2 < |s| && IsSpace(s[i + 2]) then Some(i + 3)
      else Some(i + 2)
    case ReasoningOpen =>
      if OccursAt(s, "<reasoning>", i) then Some(RunEnd(s, i + 11, Newline)) else None
    case ReasoningClose =>
      var a := RunEnd(s, i, Newline);
      if OccursAt(s, "</reasoning>", a) then Some(a + 12) else None
  }

  /** `re.sub(p, repl, s[i:])`: scan from `i`, replacing each leftmost match
      and resuming after it. */
  function SubFrom(p: Pattern, s: string, i: nat, repl: string): string
    requires i <= |s|
    decreases |s| - i
  {
    if i == |s| then ""
    else
      match MatchAt(p, s, i)
      case Some(j) => repl + SubFrom(p, s, j, repl)
      case None => [s[i]] + SubFrom(p, s, i + 1, repl)
  }

  /** `re.sub(p, repl, s)`. */
  function Sub(p: Pattern, s: string, repl: string): string {
    SubFrom(p, s, 0, repl)
  }

  // ---------------------------------------------------------------------------
  // Searches

  /** `re.search(r"(?s)^(.*?</reasoning>)(.*)$", s).groups()`: the text up to
      and including the first close marker, and the rest. */
  function SplitAtClose(s: string): (r: Option<(string, string)>)
    ensures r.Some? <==> Contains(s, "</reasoning>")
    ensures r.Some? ==>
      var (before, after) := r.value;
      && before + after == s
      && |before| >= 12 && before[|before| - 12..] == "</reasoning>"
      && !Contains(before[..|before| - 1], "</reasoning>")
  {
    FindContains(s, "</reasoning>");
    var k := FindFrom(s, 0, "</reasoning>");
    if k == |s| then None
    else
      var before := s[..k + 12];
      assert before[..|before| - 1] == s[..k + 11];
      assert !Contains(s[..k + 11], "</reasoning>") by {
        PrefixBeforeFirst(s, "</reasoning>", k);
      }
      Some((before, s[k + 12..]))
  }

  /** A prefix that ends before the first occurrence of `p` holds no `p`. */
  lemma PrefixBeforeFirst(s: string, p: string, k: nat)
    requires |p| > 0 && k + |p| <= |s|
    requires forall j: nat :: j < k ==> !OccursAt(s, p, j)
    ensures !Contains(s[..k + |p| - 1], p)
  {
    var t := s[..k + |p| - 1];
    ContainsIffOccurs(t, p);
    forall j: nat | j + |p| <= |t| ensures !OccursAt(t, p, j) {
      assert t[j..j + |p|] == s[j..j + |p|];
      assert !OccursAt(s, p, j);
    }
  }

  /** `s` holds a `<summary>` at `p` closed by a `</summary>` at `q`. */
  predicate SummaryAt(s: string, p: nat, q: nat) {
    p + 9 <= q && OccursAt(s, "<summary>", p) && OccursAt(s, "</summary>", q)
  }

  /** `re.search(r"(?s)<summary>.*?</summary>", s).group()`: from the first
      `<summary>` to the first `</summary>` after it. A later `<summary>`
      cannot match when the first one does not. */
  function SummarySpan(s: string): (r: Option<string>)
    ensures r.None? <==> forall p: nat, q: nat :: !SummaryAt(s, p, q)
    ensures r.Some? ==> exists p: nat, q: nat ::
      && SummaryAt(s, p, q) && r.value == s[p..q + 10]
      && (forall p': nat :: p' < p ==> !OccursAt(s, "<summary>", p'))
      && (forall q': nat :: p + 9 <= q' < q ==> !OccursAt(s, "</summary>", q'))
    ensures r.Some? ==> |r.value| >= 19 && r.value[..9] == "<summary>" && r.value[|r.value| - 10..] == "</summary>"
  {
    var p := FindFrom(s, 0, "<summary>");
    if p == |s| then None
    else
      var q := FindFrom(s, p + 9, "</summary>");
      if q == |s| then
        assert forall p2: nat, q2: nat :: !SummaryAt(s, p2, q2) by {
          forall p2: nat, q2: nat | p2 + 9 <= q2 && OccursAt(s, "<summary>", p2)
            ensures !OccursAt(s, "</summary>", q2)
          {
            assert p <= p2;
          }
        }
        None
      else
        assert SummaryAt(s, p, q);
        Some(s[p..q + 10])
  }

  /** A `duration="` at `i` followed by digits and a closing quote. */
  predicate DurationAt(s: string, i: nat) {
    && OccursAt(s, "duration=\"", i)
    && var d := RunEnd(s, i + 10, Digits);
       i + 10 < d < |s| && s[d] == '"'
  }

  /** The digits of the leftmost `duration="(\d+)"` at or after `i`: since
      `\d+` is greedy and followed by a quote, a match at `j` takes the whole
      run of digits after `duration="`. */
  function DurationFrom(s: string, i: nat): (r: Option<string>)
    requires i <= |s|
    ensures r.None? <==> forall j: nat :: i <= j < |s| ==> !DurationAt(s, j)
    ensures r.Some? ==> |r.value| > 0 && forall j :: 0 <= j < |r.value| ==> r.value[j] in Digits
    decreases |s| - i
  {
    if i == |s| then None
    else if DurationAt(s, i) then
      var d := RunEnd(s, i + 10, Digits);
      Some(s[i + 10..d])
    else
      DurationFrom(s, i + 1)
  }

  /** The leftmost match wins: when `j` is the first position at or after
      `i` where the pattern matches, the result is the digits after it. */
  lemma {:induction false} DurationLeftmost(s: string, i: nat, j: nat)
    requires i <= j < |s| && DurationAt(s, j)
    requires forall j': nat :: i <= j' < j ==> !DurationAt(s, j')
    ensures DurationFrom(s, i) == Some(s[j + 10..RunEnd(s, j + 10, Digits)])
    decreases j - i
  {
    if i < j {
      DurationLeftmost(s, i + 1, j);
    }
  }

  /** `re.search(r'duration="(\d+)"', s).group(1)`. */
  function Duration(s: string): Option<string> {
    DurationFrom(s, 0)
  }

  // ---------------------------------------------------------------------------
  // Properties of the scanners

  /** Positions where nothing matches are copied through unchanged. */
  lemma {:induction false} SubSkips(p: Pattern, s: string, i: nat, j: nat, repl: string)
    requires i <= j <= |s|
    requires forall k :: i <= k < j ==> MatchAt(p, s, k).None?
    ensures SubFrom(p, s, i, repl) == s[i..j] + SubFrom(p, s, j, repl)
    decreases j - i
  {
    if i < j {
      SubSkips(p, s, i + 1, j, repl);
      SubStep(p, s, i, repl, s[i + 1..j], SubFrom(p, s, j, repl));
    }
  }

  lemma SubStep(p: Pattern, s: string, i: nat, repl: string, mid: string, rest: string)
    requires i < |s| && MatchAt(p, s, i).None?
    requires i + 1 + |mid| <= |s| && mid == s[i + 1..i + 1 + |mid|]
    requires SubFrom(p, s, i + 1, repl) == mid + rest
    ensures SubFrom(p, s, i, repl) == s[i..i + 1 + |mid|] + rest
  {
    SubCopies(p, s, i, repl);
    assert s[i..i + 1 + |mid|] == [s[i]] + mid;
  }

  /** A position where nothing matches is copied. */
  lemma SubCopies(p: Pattern, s: string, i: nat, repl: string)
    requires i < |s| && MatchAt(p, s, i).None?
    ensures SubFrom(p, s, i, repl) == [s[i]] + SubFrom(p, s, i + 1, repl)
  {
  }

  /** The patterns that start at a `<` after optional newlines. */
  predicate TagPattern(p: Pattern) { !p.QuotePrefix? }

  /** Every match holds a `<` (or, for the quote prefix, a newline). */
  lemma MatchNeeds(p: Pattern, s: string, i: nat)
    requires i <= |s| && MatchAt(p, s, i).Some?
    ensures TagPattern(p) ==> exists k :: i <= k < |s| && s[k] == '<'
    ensures !TagPattern(p) ==> s[i] == '\n'
  {
    match p
    case SummaryLine =>
      var a := RunEnd(s, i, Newline);
      assert s[a..a + 9][0] == s[a];
    case DetailsClose =>
      var a := RunEnd(s, i, Newline);
      assert s[a..a + 10][0] == s[a];
    case ReasoningClose =>
      var a := RunEnd(s, i, Newline);
      assert s[a..a + 12][0] == s[a];
    case QuotePrefix =>
      assert s[i..i + 2][0] == s[i];
    case DetailsBlock =>
      assert s[i..i + 8][0] == s[i];
    case DetailsOpen =>
      assert s[i..i + 8][0] == s[i];
    case ReasoningOpen =>
      assert s[i..i + 11][0] == s[i];
  }

  /** Text without markup passes through a tag substitution unchanged, and
      text without newlines through the quote-prefix substitution. */
  lemma SubPlain(p: Pattern, s: string, repl: string)
    requires TagPattern(p) ==> '<' !in s
    requires !TagPattern(p) ==> '\n' !in s
    ensures Sub(p, s, repl) == s
  {
    forall k | 0 <= k < |s| ensures MatchAt(p, s, k).None? {
      if MatchAt(p, s, k).Some? {
        MatchNeeds(p, s, k);
      }
    }
    SubSkips(p, s, 0, |s|, repl);
    assert s[0..|s|] == s;
  }

  /** A literal that starts with `<` is not found in text without `<`, so
      `ReplaceAll` leaves that text unchanged. */
  lemma ReplacePlain(s: string, lit: string, repl: string)
    requires |lit| > 0 && lit[0] == '<' && '<' !in s
    ensures ReplaceAll(s, lit, repl) == s
  {
    ContainsIffOccurs(s, lit);
    ReplaceAbsent(s, lit, repl);
  }
}
