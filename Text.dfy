/**
 * String helpers that stand for the Python string methods the core uses
 * (`str.strip`, `str.lstrip`, `str.split`, `str.join`, `str.replace`, the
 * `in` operator, ASCII `upper`/`lower`/`capitalize`/`isdigit`/`isalpha`).
 */
module Text {

  /** The characters for which Python's `str.isspace()` holds; `str.strip()`
      and the regular-expression class `\s` use the same set. */
  const Whitespace: set<char> := {
    '\U{9}', '\U{A}', '\U{B}', '\U{C}', '\U{D}', '\U{1C}', '\U{1D}', '\U{1E}',
    '\U{1F}', '\U{20}', '\U{85}', '\U{A0}', '\U{1680}', '\U{2000}', '\U{2001}', '\U{2002}',
    '\U{2003}', '\U{2004}', '\U{2005}', '\U{2006}', '\U{2007}', '\U{2008}', '\U{2009}', '\U{200A}',
    '\U{2028}', '\U{2029}', '\U{202F}', '\U{205F}', '\U{3000}'
  }

  predicate IsSpace(c: char) { c in Whitespace }

  // ---------------------------------------------------------------------------
  // Substrings

  /** `p` occurs in `s` at position `k`. */
  predicate OccursAt(s: string, p: string, k: nat) {
    k + |p| <= |s| && s[k..k + |p|] == p
  }

  /** Python's `p in s` for strings. */
  predicate Contains(s: string, p: string)
    decreases |s|
  {
    |p| <= |s| && (s[..|p|] == p || Contains(s[1..], p))
  }

  lemma {:induction false} ContainsIffOccurs(s: string, p: string)
    ensures Contains(s, p) <==> exists k: nat :: OccursAt(s, p, k)
    decreases |s|
  {
    if |p| <= |s| && s[..|p|] != p && |s| > 0 {
      ContainsIffOccurs(s[1..], p);
      if Contains(s[1..], p) {
        var k: nat :| OccursAt(s[1..], p, k);
        assert s[k + 1..k + 1 + |p|] == s[1..][k..k + |p|];
        assert OccursAt(s, p, k + 1);
      }
      if k: nat :| OccursAt(s, p, k) {
        assert k != 0;
        assert s[1..][k - 1..k - 1 + |p|] == s[k..k + |p|];
        assert OccursAt(s[1..], p, k - 1);
      }
    } else if |p| <= |s| && s[..|p|] == p {
      assert OccursAt(s, p, 0);
    }
  }

  /** Index of the first occurrence of a non-empty `p` in `s` at or after
      `i`, `|s|` when there is none. */
  function FindFrom(s: string, i: nat, p: string): (k: nat)
    requires i <= |s| && |p| > 0
    ensures i <= k <= |s|
    ensures k < |s| ==> OccursAt(s, p, k)
    ensures forall j: nat :: i <= j < k ==> !OccursAt(s, p, j)
    decreases |s| - i
  {
    if i == |s| then |s| else if OccursAt(s, p, i) then i else FindFrom(s, i + 1, p)
  }

  /** A search from the start finds `p` exactly when `p in s`. */
  lemma FindContains(s: string, p: string)
    requires |p| > 0
    ensures FindFrom(s, 0, p) < |s| <==> Contains(s, p)
  {
    ContainsIffOccurs(s, p);
  }

  // ---------------------------------------------------------------------------
  // Stripping

  /** First index at or after `i` whose character is not in `cs`: the end of
      the greedy run `[cs]*` that starts at `i`. */
  function RunEnd(s: string, i: nat, cs: set<char>): (k: nat)
    requires i <= |s|
    ensures i <= k <= |s|
    ensures forall j :: i <= j < k ==> s[j] in cs
    ensures k < |s| ==> s[k] !in cs
    decreases |s| - i
  {
    if i < |s| && s[i] in cs then RunEnd(s, i + 1, cs) else i
  }

  /** Number of trailing characters of `s` that lie in `cs`. */
  function TrailingRun(s: string, cs: set<char>): (k: nat)
    ensures k <= |s|
    ensures forall i :: |s| - k <= i < |s| ==> s[i] in cs
    ensures k < |s| ==> s[|s| - 1 - k] !in cs
  {
    if s == [] || s[|s| - 1] !in cs then 0 else 1 + TrailingRun(s[..|s| - 1], cs)
  }

  /** Python's `s.lstrip(chars)`: every leading character in `cs` is
      removed, not only the first one. */
  function LStrip(s: string, cs: set<char>): (r: string)
    ensures |r| <= |s| && s[|s| - |r|..] == r
    ensures forall i :: 0 <= i < |s| - |r| ==> s[i] in cs
    ensures r != [] ==> r[0] !in cs
  {
    s[RunEnd(s, 0, cs)..]
  }

  /** Python's `s.strip()`: leading and trailing whitespace removed. */
  function Strip(s: string): (r: string)
    ensures r == [] <==> forall i :: 0 <= i < |s| ==> IsSpace(s[i])
    ensures r != [] ==> !IsSpace(r[0]) && !IsSpace(r[|r| - 1])
    ensures forall c :: c in r ==> c in s
  {
    var a := RunEnd(s, 0, Whitespace);
    var t := s[a..];
    var r := t[..|t| - TrailingRun(t, Whitespace)];
    assert forall i :: a <= i < |s| ==> s[i] == t[i - a];
    r
  }

  // ---------------------------------------------------------------------------
  // Splitting and joining

  /** Index of the first character of `s` that lies in `cs`, `|s|` when there is none. */
  function IndexOfAny(s: string, cs: set<char>): (k: nat)
    ensures k <= |s|
    ensures forall i :: 0 <= i < k ==> s[i] !in cs
    ensures k < |s| ==> s[k] in cs
  {
    if s == [] || s[0] in cs then 0 else 1 + IndexOfAny(s[1..], cs)
  }

  /** No character of `s` lies in `cs`. */
  predicate Avoids(s: string, cs: set<char>) {
    forall i :: 0 <= i < |s| ==> s[i] !in cs
  }

  /** Python's `re.split("[...]", s)` for a class of single characters, and
      `s.split(c)` when `cs == {c}`. */
  function SplitBy(s: string, cs: set<char>): (parts: seq<string>)
    ensures |parts| >= 1
    ensures forall i :: 0 <= i < |parts| ==> Avoids(parts[i], cs)
    decreases |s|
  {
    var k := IndexOfAny(s, cs);
    if k == |s| then [s] else [s[..k]] + SplitBy(s[k + 1..], cs)
  }

  /** Python's `c.join(parts)`. */
  function JoinWith(parts: seq<string>, c: char): string {
    if |parts| == 0 then ""
    else if |parts| == 1 then parts[0]
    else parts[0] + [c] + JoinWith(parts[1..], c)
  }

  /** Joining the pieces of a split on one separator gives the string back. */
  lemma {:induction false} JoinSplit(s: string, c: char)
    ensures JoinWith(SplitBy(s, {c}), c) == s
    decreases |s|
  {
    var k := IndexOfAny(s, {c});
    if k < |s| {
      JoinSplit(s[k + 1..], c);
      assert s == s[..k] + [c] + s[k + 1..];
    }
  }

  /** Splitting a join of separator-free pieces gives the pieces back. */
  lemma {:induction false} SplitJoin(parts: seq<string>, c: char)
    requires |parts| >= 1
    requires forall i :: 0 <= i < |parts| ==> Avoids(parts[i], {c})
    ensures SplitBy(JoinWith(parts, c), {c}) == parts
  {
    var s := JoinWith(parts, c);
    if |parts| == 1 {
      assert IndexOfAny(s, {c}) == |s|;
    } else {
      var rest := JoinWith(parts[1..], c);
      assert s == parts[0] + [c] + rest;
      assert IndexOfAny(s, {c}) == |parts[0]| by {
        assert s[|parts[0]|] == c;
        assert forall i :: 0 <= i < |parts[0]| ==> s[i] == parts[0][i];
      }
      assert s[..|parts[0]|] == parts[0];
      assert s[|parts[0]| + 1..] == rest;
      SplitJoin(parts[1..], c);
    }
  }

  // ---------------------------------------------------------------------------
  // Literal replacement

  /** Python's `s.replace(p, r)` (and `re.sub` of a pattern without
      metacharacters): every non-overlapping occurrence of `p`, left to right,
      is replaced by `r`. */
  function ReplaceAll(s: string, p: string, r: string): string
    requires |p| > 0
    decreases |s|
  {
    if |s| < |p| then s
    else if s[..|p|] == p then r + ReplaceAll(s[|p|..], p, r)
    else [s[0]] + ReplaceAll(s[1..], p, r)
  }

  lemma {:induction false} ReplaceAbsent(s: string, p: string, r: string)
    requires |p| > 0 && !Contains(s, p)
    ensures ReplaceAll(s, p, r) == s
    decreases |s|
  {
    if |s| >= |p| {
      ReplaceAbsent(s[1..], p, r);
    }
  }

  /** A prefix at none of whose positions `p` starts is copied unchanged. */
  lemma {:induction false} ReplaceSkips(a: string, b: string, p: string, r: string)
    requires |p| > 0
    requires forall k :: 0 <= k < |a| ==> !OccursAt(a + b, p, k)
    ensures ReplaceAll(a + b, p, r) == a + ReplaceAll(b, p, r)
    decreases |a|
  {
    if |a| > 0 {
      var s := a + b;
      if |s| >= |p| {
        assert !OccursAt(s, p, 0);
        assert s[1..] == a[1..] + b;
        forall k | 0 <= k < |a| - 1 ensures !OccursAt(a[1..] + b, p, k) {
          assert !OccursAt(s, p, k + 1);
          if k + |p| <= |s| - 1 {
            assert (a[1..] + b)[k..k + |p|] == s[k + 1..k + 1 + |p|];
          }
        }
        ReplaceSkips(a[1..], b, p, r);
        assert s[..|p|] != p;
        assert ReplaceAll(s, p, r) == [s[0]] + ReplaceAll(s[1..], p, r);
        assert a == [a[0]] + a[1..];
      } else {
        assert ReplaceAll(b, p, r) == b;
      }
    } else {
      assert a + b == b;
    }
  }

  /** `p` and `q` agree on their common length. */
  predicate Compatible(p: string, q: string) {
    forall i :: 0 <= i < |p| && i < |q| ==> p[i] == q[i]
  }

  /** The first character of `p` occurs in `p` only at its start, and `r`
      starts with that character, holds it nowhere else and differs from `p`
      before either ends. Then replacing by `r` can never form `p`. */
  predicate SafeReplacement(p: string, r: string) {
    && |p| > 0 && |r| > 0
    && r[0] == p[0]
    && (forall i :: 1 <= i < |p| ==> p[i] != p[0])
    && (forall i :: 1 <= i < |r| ==> r[i] != r[0])
    && !Compatible(r, p)
  }

  /** A prefix of the replaced string that holds no first character of `r`
      is copied from the original unchanged. */
  lemma {:induction false} ReplacePrefix(t: string, p2: string, r: string, q: string)
    requires |p2| > 0 && |r| > 0
    requires forall i :: 0 <= i < |q| ==> q[i] != r[0]
    ensures |q| <= |ReplaceAll(t, p2, r)| && ReplaceAll(t, p2, r)[..|q|] == q ==>
              |q| <= |t| && t[..|q|] == q
    decreases |t|
  {
    if |q| > 0 && |t| >= |p2| && t[..|p2|] != p2 {
      var rest := ReplaceAll(t[1..], p2, r);
      assert ReplaceAll(t, p2, r) == [t[0]] + rest;
      ReplacePrefix(t[1..], p2, r, q[1..]);
      assert t == [t[0]] + t[1..];
      assert |q| <= |ReplaceAll(t, p2, r)| ==> ReplaceAll(t, p2, r)[..|q|] == [t[0]] + rest[..|q| - 1];
      assert q == [q[0]] + q[1..];
    } else if |q| > 0 && |t| >= |p2| {
      assert ReplaceAll(t, p2, r) == r + ReplaceAll(t[|p2|..], p2, r);
      assert ReplaceAll(t, p2, r)[0] == r[0];
    }
  }

  /** After `s.replace(p, r)` with a safe `r`, no `p` is left. */
  lemma {:induction false} ReplaceRemoves(s: string, p: string, r: string)
    requires SafeReplacement(p, r)
    ensures !Contains(ReplaceAll(s, p, r), p)
    decreases |s|
  {
    ReplaceKeepsAbsence(s, p, r, p);
  }

  /** `s.replace(p2, r)` forms no `p` that `s` did not hold, unless `p` is `p2`,
      which it removes. */
  lemma {:induction false} ReplaceKeepsAbsence(s: string, p2: string, r: string, p: string)
    requires |p2| > 0 && SafeReplacement(p, r)
    requires p == p2 || !Contains(s, p)
    ensures !Contains(ReplaceAll(s, p2, r), p)
    decreases |s|
  {
    var res := ReplaceAll(s, p2, r);
    if |s| < |p2| {
      assert p == p2 ==> !Contains(s, p) by { ShortNoContains(s, p2); }
    } else if s[..|p2|] == p2 {
      var rest := ReplaceAll(s[|p2|..], p2, r);
      assert p != p2 ==> !Contains(s[|p2|..], p) by {
        if p != p2 { ContainsSuffix(s, |p2|, p); }
      }
      ReplaceKeepsAbsence(s[|p2|..], p2, r, p);
      assert res == r + rest;
      PrefixThenNo(r, rest, p);
    } else {
      var rest := ReplaceAll(s[1..], p2, r);
      ReplaceKeepsAbsence(s[1..], p2, r, p);
      assert res == [s[0]] + rest;
      assert res[1..] == rest;
      ReplacePrefix(s[1..], p2, r, p[1..]);
      assert |p| <= |res| ==> (res[..|p|] == p <==> s[0] == p[0] && rest[..|p| - 1] == p[1..]);
      assert |p| <= |s| ==> s[..|p|] == [s[0]] + s[1..][..|p| - 1];
    }
  }

  lemma ShortNoContains(s: string, p: string)
    requires |s| < |p|
    ensures !Contains(s, p)
  {
  }

  lemma {:induction false} ContainsSuffix(s: string, k: nat, p: string)
    requires k <= |s|
    ensures Contains(s[k..], p) ==> Contains(s, p)
    decreases k
  {
    if k > 0 {
      assert s[1..][k - 1..] == s[k..];
      ContainsSuffix(s[1..], k - 1, p);
    }
  }

  /** `r + rest` holds no `p` when `rest` holds none and `r` is safe for `p`. */
  lemma {:induction false} PrefixThenNo(r: string, rest: string, p: string)
    requires SafeReplacement(p, r) && !Contains(rest, p)
    ensures !Contains(r + rest, p)
  {
    var s := r + rest;
    forall k: nat ensures !OccursAt(s, p, k) {
      if k == 0 {
        var i :| 0 <= i < |r| && i < |p| && r[i] != p[i];
        assert |p| <= |s| ==> s[..|p|][i] == r[i];
      } else if k < |r| {
        assert s[k] == r[k] != p[0];
        assert k + |p| <= |s| ==> s[k..k + |p|][0] == s[k];
      } else if k + |p| <= |s| {
        assert rest[k - |r|..k - |r| + |p|] == s[k..k + |p|];
        ContainsIffOccurs(rest, p);
        assert !OccursAt(rest, p, k - |r|);
      }
    }
    ContainsIffOccurs(s, p);
  }

  // ---------------------------------------------------------------------------
  // ASCII character classes and case mapping

  predicate IsAsciiUpper(c: char) { 'A' <= c <= 'Z' }
  predicate IsAsciiLower(c: char) { 'a' <= c <= 'z' }
  predicate IsAsciiLetter(c: char) { IsAsciiUpper(c) || IsAsciiLower(c) }
  predicate IsAsciiDigit(c: char) { '0' <= c <= '9' }

  function UpperChar(c: char): char {
    if IsAsciiLower(c) then (c as int - 32) as char else c
  }

  function LowerChar(c: char): char {
    if IsAsciiUpper(c) then (c as int + 32) as char else c
  }

  /** Python's `s.upper()` on ASCII letters. */
  function Upper(s: string): (r: string)
    ensures |r| == |s| && forall i :: 0 <= i < |s| ==> r[i] == UpperChar(s[i])
  {
    if s == [] then [] else [UpperChar(s[0])] + Upper(s[1..])
  }

  /** Python's `s.lower()` on ASCII letters. */
  function Lower(s: string): (r: string)
    ensures |r| == |s| && forall i :: 0 <= i < |s| ==> r[i] == LowerChar(s[i])
  {
    if s == [] then [] else [LowerChar(s[0])] + Lower(s[1..])
  }

  /** Python's `s.capitalize()` on ASCII letters: first character upper, the rest lower. */
  function Capitalize(s: string): string {
    if s == [] then [] else [UpperChar(s[0])] + Lower(s[1..])
  }

  /** `a` and `b` are the same letter up to ASCII case, or the same character. */
  predicate SameUpToCase(a: char, b: char) { LowerChar(a) == LowerChar(b) }

  /** Python's `s.isdigit()` on ASCII. */
  predicate AllDigits(s: string) {
    |s| > 0 && forall i :: 0 <= i < |s| ==> IsAsciiDigit(s[i])
  }

  /** Python's `any(c.isalpha() for c in s)` on ASCII. */
  predicate HasLetter(s: string) {
    exists i :: 0 <= i < |s| && IsAsciiLetter(s[i])
  }

  // ---------------------------------------------------------------------------
  // Sequences of strings

  function Elems(s: seq<string>): set<string> { set t | t in s }

  /** No string occurs twice. */
  predicate NoDup(s: seq<string>) {
    forall i, j :: 0 <= i < j < |s| ==> s[i] != s[j]
  }
}
