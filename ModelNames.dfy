/** Display names for upstream model ids: `format_model_name`,
    `is_english_letter` and the choice of name in the model listing. Case
    mapping, `isdigit` and `isalpha` are restricted to ASCII. */
module ModelNames {
  import opened Text

  /** `is_english_letter`: `'A' <= ch <= 'Z' or 'a' <= ch <= 'z'`. */
  predicate IsEnglishLetter(ch: char) {
    'A' <= ch <= 'Z' || 'a' <= ch <= 'z'
  }

  /** How every segment after the first is rewritten. */
  function FormatSegment(p: string): string {
    if p == "" then ""
    else if AllDigits(p) then p
    else if HasLetter(p) then Capitalize(p)
    else p
  }

  /** The rewritten segments: the first upper-cased, the others by `FormatSegment`. */
  function FormatParts(parts: seq<string>): (r: seq<string>)
    requires |parts| >= 1
    ensures |r| == |parts| && r[0] == Upper(parts[0])
    ensures forall i :: 1 <= i < |parts| ==> r[i] == FormatSegment(parts[i])
  {
    seq(|parts|, i requires 0 <= i < |parts| => if i == 0 then Upper(parts[0]) else FormatSegment(parts[i]))
  }

  /** Specification of `format_model_name`. */
  function FormattedName(name: string): string {
    if name == "" then ""
    else
      var parts := SplitBy(name, {'-'});
      if |parts| == 1 then Upper(parts[0]) else JoinWith(FormatParts(parts), '-')
  }

  /** `format_model_name`: split on `-`, rewrite segment by segment, join. */
  method FormatModelName(name: string) returns (r: string)
    ensures r == FormattedName(name)
  {
    if name == "" {
      return "";
    }
    var parts := SplitBy(name, {'-'});
    if |parts| == 1 {
      return Upper(parts[0]);
    }
    var formatted := FormatSegments(parts);
    r := JoinWith(formatted, '-');
  }

  /** The loop of `format_model_name` over the segments. */
  method FormatSegments(parts: seq<string>) returns (formatted: seq<string>)
    requires |parts| >= 1
    ensures formatted == FormatParts(parts)
  {
    formatted := [Upper(parts[0])];
    for i := 1 to |parts|
      invariant |formatted| == i && formatted[0] == Upper(parts[0])
      invariant forall j :: 1 <= j < i ==> formatted[j] == FormatSegment(parts[j])
    {
      var p := parts[i];
      if p == "" {
        formatted := formatted + [""];
      } else if AllDigits(p) {
        formatted := formatted + [p];
      } else if HasLetter(p) {
        formatted := formatted + [Capitalize(p)];
      } else {
        formatted := formatted + [p];
      }
    }
  }

  // ---------------------------------------------------------------------------
  // Properties

  /** `b` is `a` with some ASCII letters changed in case and nothing else changed. */
  predicate CaseVariant(a: string, b: string) {
    |a| == |b| && forall j :: 0 <= j < |a| ==> SameUpToCase(a[j], b[j]) && (IsAsciiLetter(b[j]) || a[j] == b[j])
  }

  lemma UpperCaseVariant(s: string)
    ensures CaseVariant(Upper(s), s)
  {
  }

  lemma {:induction false} CapitalizeCaseVariant(s: string)
    ensures CaseVariant(Capitalize(s), s)
  {
    if s != [] {
      var r := Capitalize(s);
      assert r == [UpperChar(s[0])] + Lower(s[1..]);
      forall j | 0 <= j < |s| ensures SameUpToCase(r[j], s[j]) && (IsAsciiLetter(s[j]) || r[j] == s[j]) {
        if j > 0 {
          assert r[j] == LowerChar(s[1..][j - 1]);
        }
      }
    }
  }

  lemma SegmentCaseVariant(p: string)
    ensures CaseVariant(FormatSegment(p), p)
  {
    if p != "" && !AllDigits(p) && HasLetter(p) {
      CapitalizeCaseVariant(p);
    }
  }

  /** Joining pieces that are case variants of each other gives case variants. */
  lemma {:induction false} JoinCaseVariant(ps: seq<string>, qs: seq<string>, c: char)
    requires |ps| == |qs|
    requires forall i :: 0 <= i < |ps| ==> CaseVariant(ps[i], qs[i])
    ensures CaseVariant(JoinWith(ps, c), JoinWith(qs, c))
  {
    if |ps| > 1 {
      JoinCaseVariant(ps[1..], qs[1..], c);
      var a := JoinWith(ps, c);
      var b := JoinWith(qs, c);
      assert a == ps[0] + [c] + JoinWith(ps[1..], c);
      assert b == qs[0] + [c] + JoinWith(qs[1..], c);
      var n := |ps[0]|;
      forall j | 0 <= j < |a| ensures SameUpToCase(a[j], b[j]) && (IsAsciiLetter(b[j]) || a[j] == b[j]) {
        if j < n {
          assert a[j] == ps[0][j] && b[j] == qs[0][j];
        } else if j == n {
          assert a[j] == c && b[j] == c;
        } else {
          assert a[j] == JoinWith(ps[1..], c)[j - n - 1];
          assert b[j] == JoinWith(qs[1..], c)[j - n - 1];
        }
      }
    }
  }

  /** The formatted name has the input's length, agrees with it up to ASCII
      case everywhere, leaves every non-letter (in particular every `-`) where
      it was, and so keeps the number of `-` separators. */
  lemma FormattedShape(name: string)
    ensures CaseVariant(FormattedName(name), name)
    ensures forall j :: 0 <= j < |name| ==> (FormattedName(name)[j] == '-' <==> name[j] == '-')
  {
    if name != "" {
      var parts := SplitBy(name, {'-'});
      JoinSplit(name, '-');
      if |parts| == 1 {
        UpperCaseVariant(parts[0]);
      } else {
        var f := FormatParts(parts);
        forall i | 0 <= i < |parts| ensures CaseVariant(f[i], parts[i]) {
          if i == 0 {
            UpperCaseVariant(parts[0]);
          } else {
            SegmentCaseVariant(parts[i]);
          }
        }
        JoinCaseVariant(f, parts, '-');
      }
    }
  }

  /** A case variant of a string avoiding `-` avoids `-`. */
  lemma AvoidsDash(a: string, b: string)
    requires CaseVariant(a, b) && Avoids(b, {'-'})
    ensures Avoids(a, {'-'})
  {
  }

  /** Splitting the formatted name on `-` gives exactly the rewritten segments:
      the same number of segments, the first upper-cased, and each later
      segment empty, digit-only and unchanged, capitalized when it holds a
      letter, or otherwise unchanged. */
  lemma {:induction false} FormattedSegments(name: string)
    requires name != ""
    ensures SplitBy(FormattedName(name), {'-'}) == FormatParts(SplitBy(name, {'-'}))
  {
    var parts := SplitBy(name, {'-'});
    var f := FormatParts(parts);
    forall i | 0 <= i < |parts| ensures CaseVariant(f[i], parts[i]) && Avoids(f[i], {'-'}) {
      if i == 0 {
        UpperCaseVariant(parts[0]);
      } else {
        SegmentCaseVariant(parts[i]);
      }
      AvoidsDash(f[i], parts[i]);
    }
    SplitJoin(f, '-');
    if |parts| == 1 {
      assert JoinWith(f, '-') == f[0];
    }
  }

  /** A name without `-` is upper-cased as a whole. */
  lemma SingleSegment(name: string)
    requires Avoids(name, {'-'})
    ensures FormattedName(name) == Upper(name)
  {
    assert IndexOfAny(name, {'-'}) == |name|;
  }

  lemma SegmentIdempotent(p: string)
    ensures FormatSegment(FormatSegment(p)) == FormatSegment(p)
  {
    if p != "" && !AllDigits(p) && HasLetter(p) {
      var c := Capitalize(p);
      CapitalizeCaseVariant(p);
      var i :| 0 <= i < |p| && IsAsciiLetter(p[i]);
      assert IsAsciiLetter(c[i]);
      assert !IsAsciiDigit(c[i]);
      assert Capitalize(c) == c;
    }
  }

  /** Formatting a formatted name changes nothing. */
  lemma {:induction false} FormatIdempotent(name: string)
    ensures FormattedName(FormattedName(name)) == FormattedName(name)
  {
    if name != "" {
      var parts := SplitBy(name, {'-'});
      var r := FormattedName(name);
      FormattedSegments(name);
      FormattedShape(name);
      assert r != "";
      var f := FormatParts(parts);
      assert SplitBy(r, {'-'}) == f;
      forall i | 0 <= i < |f| ensures FormatParts(f)[i] == f[i] {
        if i == 0 {
          assert Upper(Upper(parts[0])) == Upper(parts[0]);
        } else {
          SegmentIdempotent(parts[i]);
        }
      }
      assert FormatParts(f) == f;
      JoinSplit(r, '-');
    }
  }

  // ---------------------------------------------------------------------------
  // Choice of display name in the model listing

  /** The name listed for an upstream model: its alias when it has one, the id
      itself for ids starting with `GLM` or `Z`, otherwise the upstream name;
      a name that is empty or does not start with an English letter is
      replaced by the formatted id. A missing id or name is `""`. */
  function DisplayName(id: string, upstreamName: string, aliases: map<string, string>): (r: string)
    ensures r == FormattedName(id) || (r != "" && IsEnglishLetter(r[0]))
    ensures id != "" && id in aliases && aliases[id] != "" && IsEnglishLetter(aliases[id][0]) ==> r == aliases[id]
  {
    var alias := if id != "" && id in aliases then aliases[id] else "";
    var chosen :=
      if alias != "" then alias
      else if OccursAt(id, "GLM", 0) || OccursAt(id, "Z", 0) then id
      else upstreamName;
    if chosen == "" || !IsEnglishLetter(chosen[0]) then FormattedName(id) else chosen
  }
}
